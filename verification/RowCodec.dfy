/** The row codec (go-ycsb-vendor/pkg/util/row.go and core.go). */
module RowCodec {
  import opened Basics
  import opened Varint

  const COMPACT_BYTES_FLAG: byte := 2
  const VARINT_FLAG: byte := 8

  type Row = map<int, Bytes>

  /** A slice index out of range is a run-time panic in the source. */
  datatype DecodeError = BadVarint(e: VarintError) | ShortBytes | IndexPanic

  // ---------------------------------------------------------------- encoding

  /** A Go slice length fits in an int64. */
  ghost predicate Storable(v: Bytes) {
    |v| < 0x8000_0000_0000_0000
  }

  function EncodeInt64(x: Int64): Bytes {
    [VARINT_FLAG] + PutVarint(x)
  }

  function EncodeBytes(v: Bytes): Bytes
    requires Storable(v)
  {
    [COMPACT_BYTES_FLAG] + PutVarint(|v|) + v
  }

  ghost predicate AllStorable(cols: seq<Bytes>) {
    forall i | 0 <= i < |cols| :: Storable(cols[i])
  }

  function Pairs(cols: seq<Bytes>, ids: seq<Int64>): (b: Bytes)
    requires |cols| == |ids| && AllStorable(cols)
  {
    if cols == [] then []
    else
      var n := |cols| - 1;
      Pairs(cols[..n], ids[..n]) + EncodeInt64(ids[n]) + EncodeBytes(cols[n])
  }

  function EncodedRow(cols: seq<Bytes>, ids: seq<Int64>): Bytes
    requires |cols| == |ids| && AllStorable(cols)
  {
    if cols == [] then [0] else Pairs(cols, ids)
  }

  /** Fails exactly on a count mismatch; whatever `buf` held is discarded. */
  method EncodeRow(cols: seq<Bytes>, ids: seq<Int64>, buf: Bytes) returns (r: Option<Bytes>)
    requires AllStorable(cols)
    ensures r.None? <==> |cols| != |ids|
    ensures r.Some? ==> r.value == EncodedRow(cols, ids)
  {
    if |cols| != |ids| {
      return None;
    }
    var valBuf := buf[..0];
    if |cols| == 0 {
      return Some(valBuf + [0]);
    }
    for i := 0 to |cols|
      invariant valBuf == Pairs(cols[..i], ids[..i])
    {
      assert cols[..i + 1][..i] == cols[..i] && ids[..i + 1][..i] == ids[..i];
      valBuf := valBuf + EncodeInt64(ids[i]);
      valBuf := valBuf + EncodeBytes(cols[i]);
    }
    assert cols[..|cols|] == cols && ids[..|ids|] == ids;
    return Some(valBuf);
  }

  /** The bytes of one column: flag 8 and the id, flag 2, the length and the value; an empty row is one
      zero byte, and otherwise the columns follow each other. */
  lemma RowLayout(cols: seq<Bytes>, ids: seq<Int64>)
    requires |cols| == |ids| && AllStorable(cols)
    ensures cols == [] ==> EncodedRow(cols, ids) == [0]
    ensures |cols| == 1 ==> EncodedRow(cols, ids) == [8] + PutVarint(ids[0]) + [2] + PutVarint(|cols[0]|) + cols[0]
    ensures |cols| > 1 ==>
              var n := |cols| - 1;
              EncodedRow(cols, ids) == EncodedRow(cols[..n], ids[..n]) + EncodedRow([cols[n]], [ids[n]])
  {
    if cols != [] {
      var n := |cols| - 1;
      OneColumn(cols[n], ids[n]);
      if n == 0 { assert cols == [cols[0]] && ids == [ids[0]]; }
    }
  }

  lemma OneColumn(v: Bytes, id: Int64)
    requires Storable(v)
    ensures Pairs([v], [id]) == EncodeInt64(id) + EncodeBytes(v)
    ensures Pairs([v], [id]) == [8] + PutVarint(id) + [2] + PutVarint(|v|) + v
  {
    assert [v][..0] == [] && [id][..0] == [];
    assert Pairs([v], [id]) == [] + EncodeInt64(id) + EncodeBytes(v);
  }

  // ---------------------------------------------------------------- decoding

  /** The flag byte is skipped, not checked. */
  function DecodeInt64(b: Bytes): (r: Result<(Bytes, int), DecodeError>)
    ensures r.Success? ==> |r.value.0| < |b|
  {
    if b == [] then Failure(IndexPanic)
    else
      match DecodeVarint(b[1..])
      case Success(v) => Success(v)
      case Failure(e) => Failure(BadVarint(e))
  }

  function DecodeBytes(b: Bytes): (r: Result<(Bytes, Bytes), DecodeError>)
    ensures r.Success? ==> |r.value.0| < |b|
  {
    if b == [] then Failure(IndexPanic)
    else
      match DecodeVarint(b[1..])
      case Failure(e) => Failure(BadVarint(e))
      case Success((remain, n)) =>
        if |remain| < n then Failure(ShortBytes)
        else if n < 0 then Failure(IndexPanic)
        else Success((remain[n..], remain[..n]))
  }

  /** One column id and value. */
  function DecodePair(b: Bytes): (r: Result<(Bytes, int, Bytes), DecodeError>)
    ensures r.Success? ==> |r.value.0| < |b|
  {
    match DecodeInt64(b)
    case Failure(e) => Failure(e)
    case Success((afterId, id)) =>
      match DecodeBytes(afterId)
      case Failure(e) => Failure(e)
      case Success((remain, v)) => Success((remain, id, v))
  }

  function DecodeRest(b: Bytes, row: Row): (Row, Option<DecodeError>)
    decreases |b|
  {
    if b == [] then (row, None)
    else
      match DecodePair(b)
      case Failure(e) => (row, Some(e))
      case Success((remain, id, v)) => DecodeRest(remain, row[id := v])
  }

  function DecodedRow(b: Bytes): (Row, Option<DecodeError>) {
    if b == [0] then (map[], None) else DecodeRest(b, map[])
  }

  method DecodeRow(bytes: Bytes) returns (row: Row, err: Option<DecodeError>)
    ensures (row, err) == DecodedRow(bytes)
  {
    row := map[];
    var b := bytes;
    if |b| == 0 {
      return row, None;
    }
    if |b| == 1 && b[0] == 0 {
      return row, None;
    }
    while |b| > 0
      invariant DecodeRest(b, row) == DecodedRow(bytes)
      decreases |b|
    {
      var id := DecodeInt64(b);
      if id.Failure? {
        return row, Some(id.error);
      }
      var v := DecodeBytes(id.value.0);
      if v.Failure? {
        return row, Some(v.error);
      }
      row := row[id.value.1 := v.value.1];
      b := v.value.0;
    }
    return row, None;
  }

  // ---------------------------------------------------------------- the round trip of rows

  /** What a row means: its columns by id, a repeated id keeping the last value. */
  function RowOf(cols: seq<Bytes>, ids: seq<Int64>): Row
    requires |cols| == |ids|
  {
    if cols == [] then map[]
    else
      var n := |cols| - 1;
      RowOf(cols[..n], ids[..n])[ids[n] := cols[n]]
  }

  /** It has exactly the listed ids, and of each the value that was listed last. */
  lemma {:induction false} RowOfKeepsLast(cols: seq<Bytes>, ids: seq<Int64>, id: int)
    requires |cols| == |ids|
    ensures id in RowOf(cols, ids) <==> id in ids
    ensures forall k | 0 <= k < |ids| && ids[k] == id && id !in ids[k + 1..] :: id in RowOf(cols, ids) && RowOf(cols, ids)[id] == cols[k]
    decreases |cols|
  {
    if cols != [] {
      var n := |cols| - 1;
      RowOfKeepsLast(cols[..n], ids[..n], id);
      assert ids == ids[..n] + [ids[n]];
      forall k | 0 <= k < n && ids[k] == id && id !in ids[k + 1..] ensures RowOf(cols[..n], ids[..n])[id] == cols[k] {
        assert ids[..n][k] == id && ids[k + 1..] == ids[..n][k + 1..] + [ids[n]];
        assert ids[n] in ids[k + 1..];
      }
    }
  }

  lemma PairRoundTrip(id: Int64, v: Bytes, rest: Bytes)
    requires Storable(v)
    ensures DecodePair(EncodeInt64(id) + EncodeBytes(v) + rest) == Success((rest, id, v))
  {
    var tail := EncodeBytes(v) + rest;
    PairLayout(id, v, rest);
    VarintRoundTrip(id, tail);
    VarintRoundTrip(|v|, v + rest);
    assert (v + rest)[..|v|] == v && (v + rest)[|v|..] == rest;
  }

  lemma PairLayout(id: Int64, v: Bytes, rest: Bytes)
    requires Storable(v)
    ensures var tail := EncodeBytes(v) + rest;
            && (EncodeInt64(id) + EncodeBytes(v) + rest)[1..] == PutVarint(id) + tail
            && tail[1..] == PutVarint(|v|) + (v + rest)
  {
  }

  lemma OnePairMore(id: Int64, v: Bytes, rest: Bytes, row: Row)
    requires Storable(v)
    ensures DecodeRest(EncodeInt64(id) + EncodeBytes(v) + rest, row) == DecodeRest(rest, row[id := v])
  {
    PairRoundTrip(id, v, rest);
  }

  lemma MergeThenUpdate(a: Row, b: Row, id: int, v: Bytes)
    ensures (a + b)[id := v] == a + b[id := v]
  {
  }

  lemma LastPair(cols: seq<Bytes>, ids: seq<Int64>, rest: Bytes)
    requires |cols| == |ids| && AllStorable(cols) && cols != []
    ensures var n := |cols| - 1;
            Pairs(cols, ids) + rest == Pairs(cols[..n], ids[..n]) + (EncodeInt64(ids[n]) + EncodeBytes(cols[n]) + rest)
  {
  }

  lemma {:induction false} PairsRoundTrip(cols: seq<Bytes>, ids: seq<Int64>, rest: Bytes, row: Row)
    requires |cols| == |ids| && AllStorable(cols)
    ensures DecodeRest(Pairs(cols, ids) + rest, row) == DecodeRest(rest, row + RowOf(cols, ids))
    decreases |cols|
  {
    if cols == [] {
      assert Pairs(cols, ids) + rest == rest;
      assert row + RowOf(cols, ids) == row;
    } else {
      var n := |cols| - 1;
      var last := EncodeInt64(ids[n]) + EncodeBytes(cols[n]) + rest;
      LastPair(cols, ids, rest);
      PairsRoundTrip(cols[..n], ids[..n], last, row);
      OnePairMore(ids[n], cols[n], rest, row + RowOf(cols[..n], ids[..n]));
      MergeThenUpdate(row, RowOf(cols[..n], ids[..n]), ids[n], cols[n]);
    }
  }

  /** Decoding an encoded row gives back its columns, for any ids and any values, the empty row
      included; no slice access fails on the way. */
  lemma RowRoundTrip(cols: seq<Bytes>, ids: seq<Int64>)
    requires |cols| == |ids| && AllStorable(cols)
    ensures DecodedRow(EncodedRow(cols, ids)) == (RowOf(cols, ids), None)
  {
    if cols != [] {
      var b := Pairs(cols, ids);
      PairsRoundTrip(cols, ids, [], map[]);
      assert b + [] == b;
      assert map[] + RowOf(cols, ids) == RowOf(cols, ids);
      PairsAreLong(cols, ids);
    }
  }

  lemma PairsAreLong(cols: seq<Bytes>, ids: seq<Int64>)
    requires |cols| == |ids| && AllStorable(cols) && cols != []
    ensures |Pairs(cols, ids)| > 1
  {
  }

  // ---------------------------------------------------------------- field names

  function Digit(d: nat): char
    requires d < 10
  {
    ['0', '1', '2', '3', '4', '5', '6', '7', '8', '9'][d]
  }

  function Decimal(n: nat): (s: string)
    ensures 0 < |s|
  {
    if n < 10 then [Digit(n)] else Decimal(n / 10) + [Digit(n % 10)]
  }

  /** Decimal notation is unique. */
  lemma {:induction false} DecimalInjective(m: nat, n: nat)
    requires Decimal(m) == Decimal(n)
    ensures m == n
  {
    var s := Decimal(m);
    assert s[|s| - 1] == Digit(m % 10) == Digit(n % 10);
    if m >= 10 && n >= 10 {
      assert s[..|s| - 1] == Decimal(m / 10) == Decimal(n / 10);
      DecimalInjective(m / 10, n / 10);
    }
  }

  function FieldName(i: nat): string {
    "field" + Decimal(i)
  }

  /** Reads a decimal numeral. */
  function Parsed(s: string): int {
    if s == "" then 0 else 10 * Parsed(s[..|s| - 1]) + (s[|s| - 1] as int - '0' as int)
  }

  lemma {:induction false} DecimalReadsBack(n: nat)
    ensures Parsed(Decimal(n)) == n
    ensures n > 0 ==> Decimal(n)[0] != '0'
    ensures forall c | c in Decimal(n) :: '0' <= c <= '9'
  {
    if n >= 10 {
      DecimalReadsBack(n / 10);
      var s := Decimal(n);
      assert s[..|s| - 1] == Decimal(n / 10);
    } else {
      assert Parsed([Digit(n)][..0]) == 0;
    }
  }

  /** `name` is "field" followed by a numeral for `i`. */
  ghost predicate Named(name: string, i: int) {
    |name| > 5 && name[..5] == "field" && Parsed(name[5..]) == i
  }

  /** The name of field `i` is "field" followed by the decimal numeral of `i`, without leading zeros. */
  lemma FieldNameReadsBack(i: nat)
    ensures Named(FieldName(i), i)
    ensures i > 0 ==> FieldName(i)[5] != '0'
    ensures forall c | c in FieldName(i)[5..] :: '0' <= c <= '9'
    ensures i == 0 ==> FieldName(i) == "field0"
  {
    assert FieldName(i)[5..] == Decimal(i);
    DecimalReadsBack(i);
  }

  lemma FieldNameInjective(i: nat, j: nat)
    requires FieldName(i) == FieldName(j)
    ensures i == j
  {
    assert FieldName(i)[5..] == Decimal(i) && FieldName(j)[5..] == Decimal(j);
    DecimalInjective(i, j);
  }

  // ---------------------------------------------------------------- the codec of named fields

  /** The index table lists exactly the names of the fields, each with its own number. */
  ghost predicate IsIndex(indices: map<string, Int64>, count: int) {
    && (forall name | name in indices :: 0 <= indices[name] < count && name == FieldName(indices[name]))
    && (forall i {:trigger FieldName(i)} | 0 <= i < count :: FieldName(i) in indices && indices[FieldName(i)] == i)
  }

  lemma IndexGrows(indices: map<string, Int64>, i: Int64)
    requires 0 <= i && IsIndex(indices, i)
    ensures IsIndex(indices[FieldName(i) := i], i + 1)
  {
    forall j: nat | j < i ensures FieldName(j) != FieldName(i) {
      if FieldName(j) == FieldName(i) { FieldNameInjective(j, i); }
    }
  }

  method CreateFieldIndices(fieldCount: Int64) returns (m: map<string, Int64>)
    ensures IsIndex(m, fieldCount)
    ensures forall name | name in m :: Named(name, m[name])
  {
    forall i: nat ensures Named(FieldName(i), i) { FieldNameReadsBack(i); }
    m := map[];
    var i := 0;
    while i < fieldCount
      invariant 0 <= i <= Max(0, fieldCount) && IsIndex(m, i)
    {
      IndexGrows(m, i);
      m := m[FieldName(i) := i];
      i := i + 1;
    }
  }

  method AllFields(fieldCount: Int64) returns (fields: seq<string>)
    ensures |fields| == Max(0, fieldCount)
    ensures forall i | 0 <= i < |fields| :: fields[i] == FieldName(i)
    ensures forall i | 0 <= i < |fields| :: Named(fields[i], i)
  {
    forall i: nat ensures Named(FieldName(i), i) { FieldNameReadsBack(i); }
    fields := [];
    var i := 0;
    while i < fieldCount
      invariant 0 <= i <= Max(0, fieldCount) && |fields| == i
      invariant forall j | 0 <= j < i :: fields[j] == FieldName(j)
    {
      fields := fields + [FieldName(i)];
      i := i + 1;
    }
  }

  type Values = map<string, Bytes>

  /** A look-up in a Go map: a missing name reads as 0. */
  function Lookup(indices: map<string, Int64>, name: string): Int64 {
    if name in indices then indices[name] else 0
  }

  function ColumnsOf(values: Values, order: seq<string>): (cols: seq<Bytes>)
    requires forall name | name in order :: name in values
    ensures |cols| == |order| && forall i | 0 <= i < |order| :: cols[i] == values[order[i]]
  {
    seq(|order|, i requires 0 <= i < |order| => values[order[i]])
  }

  function IdsOf(indices: map<string, Int64>, order: seq<string>): (ids: seq<Int64>)
    ensures |ids| == |order| && forall i | 0 <= i < |order| :: ids[i] == Lookup(indices, order[i])
  {
    seq(|order|, i requires 0 <= i < |order| => Lookup(indices, order[i]))
  }

  function Selected(indices: map<string, Int64>, row: Row, fields: seq<string>): Values {
    if fields == [] then map[]
    else
      var init, field := Selected(indices, row, fields[..|fields| - 1]), fields[|fields| - 1];
      var i := Lookup(indices, field);
      if i in row then init[field := row[i]] else init
  }

  function EncodedValues(indices: map<string, Int64>, values: Values, order: seq<string>): Bytes
    requires forall name | name in order :: name in values && Storable(values[name])
  {
    EncodedRow(ColumnsOf(values, order), IdsOf(indices, order))
  }

  function DecodedValues(indices: map<string, Int64>, row: Bytes, wanted: seq<string>): Option<Values> {
    var (data, err) := DecodedRow(row);
    if err.Some? then None else Some(Selected(indices, data, wanted))
  }

  /** A name that no field has stands for field 0, in both directions. */
  lemma UnknownNameIsFieldZero(indices: map<string, Int64>, name: string, v: Bytes, row: Row)
    requires name !in indices && Storable(v)
    ensures EncodedValues(indices, map[name := v], [name]) == EncodedRow([v], [0])
    ensures Selected(indices, row, [name]) == if 0 in row then map[name := row[0]] else map[]
  {
    assert ColumnsOf(map[name := v], [name]) == [v] && IdsOf(indices, [name]) == [0];
    assert [name][..0] == [];
  }

  class RowCodec {
    const fieldIndices: map<string, Int64>
    const fields: seq<string>

    ghost predicate Valid() {
      && IsIndex(fieldIndices, |fields|)
      && forall i | 0 <= i < |fields| :: fields[i] == FieldName(i)
    }

    constructor (fieldCount: Int64)
      ensures Valid() && |fields| == Max(0, fieldCount)
    {
      var indices := CreateFieldIndices(fieldCount);
      var names := AllFields(fieldCount);
      fieldIndices := indices;
      fields := names;
    }

    /** `order` is the order in which Go happens to iterate over the map. */
    method Encode(buf: Bytes, values: Values, order: seq<string>) returns (row: Bytes)
      requires Enumerates(order, values.Keys)
      requires forall name | name in values :: Storable(values[name])
      ensures row == EncodedValues(fieldIndices, values, order)
    {
      var cols: seq<Bytes>, ids: seq<Int64> := [], [];
      for k := 0 to |order|
        invariant cols == ColumnsOf(values, order[..k]) && ids == IdsOf(fieldIndices, order[..k])
      {
        var i := Lookup(fieldIndices, order[k]);
        cols := cols + [values[order[k]]];
        ids := ids + [i];
      }
      assert order[..|order|] == order;
      var r := EncodeRow(cols, ids, buf);
      row := r.value;
    }

    method Decode(row: Bytes, wanted: seq<string>) returns (res: Option<Values>)
      ensures res == DecodedValues(fieldIndices, row, if wanted == [] then fields else wanted)
    {
      var names := wanted;
      if |names| == 0 {
        names := fields;
      }
      var data, err := DecodeRow(row);
      if err.Some? {
        return None;
      }
      var out: Values := map[];
      for k := 0 to |names|
        invariant out == Selected(fieldIndices, data, names[..k])
      {
        assert names[..k + 1][..k] == names[..k];
        var i := Lookup(fieldIndices, names[k]);
        if i in data {
          out := out[names[k] := data[i]];
        }
      }
      assert names[..|names|] == names;
      return Some(out);
    }
  }

  // ---------------------------------------------------------------- the round trip of named values

  /** The row has an entry for a field's number exactly when the field is listed, with its value. */
  ghost predicate RowFits(indices: map<string, Int64>, values: Values, order: seq<string>, row: Row) {
    forall name | name in indices :: FieldFits(indices, values, order, row, name)
  }

  ghost predicate FieldFits(indices: map<string, Int64>, values: Values, order: seq<string>, row: Row, name: string)
    requires name in indices
  {
    && (indices[name] in row <==> name in order)
    && (name in order ==> indices[name] in row && name in values && row[indices[name]] == values[name])
  }

  lemma RowFitsStep(indices: map<string, Int64>, values: Values, order: seq<string>, row: Row, last: string, count: int)
    requires IsIndex(indices, count) && RowFits(indices, values, order, row) && last in indices && last in values
    ensures RowFits(indices, values, order + [last], row[indices[last] := values[last]])
  {
    var row' := row[indices[last] := values[last]];
    forall name | name in indices ensures FieldFits(indices, values, order + [last], row', name) {
      assert FieldFits(indices, values, order, row, name);
      assert indices[name] == indices[last] ==> name == last;
    }
  }

  lemma {:induction false} RowOfNames(indices: map<string, Int64>, values: Values, order: seq<string>, count: int)
    requires IsIndex(indices, count) && (forall name | name in order :: name in values && name in indices)
    ensures RowFits(indices, values, order, RowOf(ColumnsOf(values, order), IdsOf(indices, order)))
    decreases |order|
  {
    if order != [] {
      var n := |order| - 1;
      var init := order[..n];
      RowOfNames(indices, values, init, count);
      assert ColumnsOf(values, order)[..n] == ColumnsOf(values, init);
      assert IdsOf(indices, order)[..n] == IdsOf(indices, init);
      RowFitsStep(indices, values, init, RowOf(ColumnsOf(values, init), IdsOf(indices, init)), order[n], count);
      assert order == init + [order[n]];
    }
  }

  lemma {:induction false} SelectedIs(indices: map<string, Int64>, row: Row, fields: seq<string>)
    ensures var res := Selected(indices, row, fields);
            && (forall name :: name in res <==> name in fields && Lookup(indices, name) in row)
            && (forall name | name in res :: Lookup(indices, name) in row && res[name] == row[Lookup(indices, name)])
  {
    if fields != [] {
      var init := fields[..|fields| - 1];
      SelectedIs(indices, row, init);
      assert fields == init + [fields[|fields| - 1]];
    }
  }

  /** Decode undoes Encode: over known field names, in any iteration order, asking for known fields
      returns exactly the values among them. */
  lemma ValuesRoundTrip(indices: map<string, Int64>, values: Values, order: seq<string>, wanted: seq<string>, count: int)
    requires IsIndex(indices, count) && Enumerates(order, values.Keys)
    requires (forall name | name in values :: name in indices && Storable(values[name])) && (forall name | name in wanted :: name in indices)
    ensures DecodedValues(indices, EncodedValues(indices, values, order), wanted) ==
            Some(map name | name in values && name in wanted :: values[name])
  {
    var cols, ids := ColumnsOf(values, order), IdsOf(indices, order);
    RowRoundTrip(cols, ids);
    RowOfNames(indices, values, order, count);
    SelectedValues(indices, values, order, RowOf(cols, ids), wanted);
  }

  lemma SelectedValues(indices: map<string, Int64>, values: Values, order: seq<string>, row: Row, wanted: seq<string>)
    requires Enumerates(order, values.Keys) && RowFits(indices, values, order, row) && (forall name | name in wanted :: name in indices)
    ensures Selected(indices, row, wanted) == map name | name in values && name in wanted :: values[name]
  {
    SelectedIs(indices, row, wanted);
    var res := Selected(indices, row, wanted);
    forall name ensures name in res <==> name in values && name in wanted {
      if name in wanted { assert FieldFits(indices, values, order, row, name); }
    }
    forall name | name in res ensures res[name] == values[name] {
      assert FieldFits(indices, values, order, row, name);
    }
  }

  /** With all fields asked for, the round trip is the identity if and only if every name is known. */
  lemma RoundTripExactly(indices: map<string, Int64>, values: Values, order: seq<string>, all: seq<string>)
    requires IsIndex(indices, |all|) && (forall i | 0 <= i < |all| :: all[i] == FieldName(i))
    requires Enumerates(order, values.Keys) && (forall name | name in values :: Storable(values[name]))
    ensures DecodedValues(indices, EncodedValues(indices, values, order), all) == Some(values) <==> values.Keys <= indices.Keys
  {
    AllListsKnown(indices, all);
    if values.Keys <= indices.Keys {
      ValuesRoundTrip(indices, values, order, all, |all|);
      AllSelected(values, all);
    } else {
      var lost :| lost in values && lost !in indices;
      UnknownNameIsLost(indices, values, order, all, lost);
    }
  }

  lemma AllSelected(values: Values, all: seq<string>)
    requires forall name | name in values :: name in all
    ensures (map name | name in values && name in all :: values[name]) == values
  {
  }

  lemma UnknownNameIsLost(indices: map<string, Int64>, values: Values, order: seq<string>, all: seq<string>, lost: string)
    requires Enumerates(order, values.Keys) && (forall name | name in values :: Storable(values[name]))
    requires lost in values && lost !in all
    ensures DecodedValues(indices, EncodedValues(indices, values, order), all) != Some(values)
  {
    var cols, ids := ColumnsOf(values, order), IdsOf(indices, order);
    RowRoundTrip(cols, ids);
    SelectedIs(indices, RowOf(cols, ids), all);
  }

  lemma AllListsKnown(indices: map<string, Int64>, all: seq<string>)
    requires IsIndex(indices, |all|) && (forall i | 0 <= i < |all| :: all[i] == FieldName(i))
    ensures forall name :: name in all <==> name in indices
  {
    forall name | name in indices ensures name in all {
      assert all[indices[name]] == name;
    }
  }
}
