/**
 Signed variable-length integers as Go's encoding/binary writes and reads them: the "Base 128
 Varints" and "Signed Integers" sections of the Protocol Buffers encoding, for 64-bit values.
 */
module Varint {
  import opened Basics

  type Int64 = x: int | -0x8000_0000_0000_0000 <= x < 0x8000_0000_0000_0000
  type UInt64 = x: int | 0 <= x < 0x1_0000_0000_0000_0000

  const MAX_LEN := 10

  // ---------------------------------------------------------------- zigzag

  function ZigZag(x: Int64): UInt64 {
    if x >= 0 then 2 * x else -2 * x - 1
  }

  function UnZigZag(u: UInt64): Int64 {
    if u % 2 == 0 then u / 2 else -(u / 2) - 1
  }

  /** The two are inverse to each other on all 64-bit values. */
  lemma ZigZagBijective(x: Int64, u: UInt64)
    ensures UnZigZag(ZigZag(x)) == x && ZigZag(UnZigZag(u)) == u
  {
  }

  /** Go shifts the two's complement of the value left by one bit and inverts the result if the value is
      negative. */
  lemma ZigZagShifts(x: Int64)
    ensures var shifted := 2 * x % 0x1_0000_0000_0000_0000;
            ZigZag(x) == if x < 0 then 0xFFFF_FFFF_FFFF_FFFF - shifted else shifted
  {
  }

  // ---------------------------------------------------------------- groups of seven bits

  function PutUvarint(x: nat): (b: Bytes)
    ensures 0 < |b|
  {
    if x < 128 then [x as byte] else [(x % 128 + 128) as byte] + PutUvarint(x / 128)
  }

  /** The number a sequence of groups stands for: seven bits each, the least significant group first. */
  function GroupsValue(b: Bytes): nat {
    if b == [] then 0 else b[0] as nat % 128 + 128 * GroupsValue(b[1..])
  }

  /** Every byte but the last has its high bit set. */
  ghost predicate IsGroup(b: Bytes) {
    b != [] && b[|b| - 1] < 128 && forall i | 0 <= i < |b| - 1 :: 128 <= b[i]
  }

  /** The encoding is the base 128 notation of the number, least significant group first, with the high
      bit on all bytes but the last and no leading zero group. */
  lemma {:induction false} PutUvarintFormat(x: nat)
    ensures IsGroup(PutUvarint(x)) && GroupsValue(PutUvarint(x)) == x
    ensures |PutUvarint(x)| > 1 ==> PutUvarint(x)[|PutUvarint(x)| - 1] != 0
  {
    if x >= 128 {
      PutUvarintFormat(x / 128);
      var b := PutUvarint(x);
      assert b[1..] == PutUvarint(x / 128);
    } else {
      assert GroupsValue([x as byte]) == x;
    }
  }

  datatype Uvar = Decoded(x: nat, n: nat) | TooShort | Overflow

  /** Reads groups from `b`, of which `i` were read before. */
  function Uvarint(b: Bytes, i: nat): (r: Uvar)
    ensures r.Decoded? ==> 0 < r.n <= |b|
  {
    if b == [] then TooShort
    else if i == MAX_LEN then Overflow
    else if b[0] < 128 then
      if i == MAX_LEN - 1 && b[0] > 1 then Overflow else Decoded(b[0] as nat, 1)
    else
      match Uvarint(b[1..], i + 1)
      case Decoded(x, n) => Decoded(b[0] as nat - 128 + 128 * x, n + 1)
      case failed => failed
  }

  /** What still fits after `i` groups: a 64-bit value has nine full groups and one bit. */
  function Capacity(i: nat): nat
    requires i < MAX_LEN
    decreases MAX_LEN - i
  {
    if i == MAX_LEN - 1 then 2 else 128 * Capacity(i + 1)
  }

  lemma CapacityIsUInt64()
    ensures Capacity(0) == 0x1_0000_0000_0000_0000
  {
    assert Capacity(8) == 0x100;
    assert Capacity(7) == 0x8000;
    assert Capacity(6) == 0x40_0000;
    assert Capacity(5) == 0x2000_0000;
    assert Capacity(4) == 0x10_0000_0000;
    assert Capacity(3) == 0x800_0000_0000;
    assert Capacity(2) == 0x4_0000_0000_0000;
    assert Capacity(1) == 0x200_0000_0000_0000;
  }

  lemma {:induction false} UvarintInvertsPut(x: nat, rest: Bytes, i: nat)
    requires i < MAX_LEN && x < Capacity(i)
    ensures Uvarint(PutUvarint(x) + rest, i) == Decoded(x, |PutUvarint(x)|)
    decreases x
  {
    if x < 128 {
      assert PutUvarint(x) + rest == [x as byte] + rest;
    } else {
      UvarintInvertsPut(x / 128, rest, i + 1);
      UvarintStep(x, rest, i);
    }
  }

  lemma UvarintStep(x: nat, rest: Bytes, i: nat)
    requires i < MAX_LEN && x >= 128
    requires Uvarint(PutUvarint(x / 128) + rest, i + 1) == Decoded(x / 128, |PutUvarint(x / 128)|)
    ensures Uvarint(PutUvarint(x) + rest, i) == Decoded(x, |PutUvarint(x)|)
  {
    var b := PutUvarint(x) + rest;
    assert b[0] == (x % 128 + 128) as byte;
    assert b[1..] == PutUvarint(x / 128) + rest;
  }

  /** A number read after `i` groups still fits into 64 bits. */
  ghost predicate Fits(x: nat, i: nat) {
    i < MAX_LEN && x < Capacity(i)
  }

  /** What reading `b` after `i` groups may say. A number: `b` starts with a group of that number, and it
      fits. Too short: the bytes are no more than may follow and all have their high bit set. Overflow:
      no group at the start of `b` has a number that fits. */
  ghost predicate ReadsRightly(b: Bytes, i: nat, r: Uvar) {
    match r
    case Decoded(x, n) => 0 < n <= |b| && i + n <= MAX_LEN && IsGroup(b[..n]) && x == GroupsValue(b[..n]) && Fits(x, i)
    case TooShort => i + |b| <= MAX_LEN && forall k | 0 <= k < |b| :: 128 <= b[k]
    case Overflow =>
      && (i + |b| > MAX_LEN || exists k | 0 <= k < |b| :: b[k] < 128)
      && forall n {:trigger IsGroup(b[..n])} | 0 < n <= |b| && i + n <= MAX_LEN && IsGroup(b[..n]) :: !Fits(GroupsValue(b[..n]), i)
  }

  /** Those three cases exclude each other, so this says exactly what every byte sequence decodes to. */
  lemma {:induction false} UvarintExactly(b: Bytes, i: nat)
    requires i <= MAX_LEN
    ensures ReadsRightly(b, i, Uvarint(b, i))
    decreases |b|
  {
    if b != [] && i < MAX_LEN {
      if b[0] < 128 {
        OneByte(b, i);
      } else {
        UvarintExactly(b[1..], i + 1);
        OneByteMore(b, i);
      }
    }
  }

  lemma {:induction false} CapacityAtLeastTwo(i: nat)
    requires i < MAX_LEN
    ensures Capacity(i) >= if i == MAX_LEN - 1 then 2 else 256
    decreases MAX_LEN - i
  {
    if i < MAX_LEN - 1 { CapacityAtLeastTwo(i + 1); }
  }

  lemma OneByte(b: Bytes, i: nat)
    requires b != [] && b[0] < 128 && i < MAX_LEN
    ensures ReadsRightly(b, i, Uvarint(b, i))
  {
    CapacityAtLeastTwo(i);
    assert b[..1] == [b[0]] && [b[0]][1..] == [];
    forall n | 1 < n <= |b| ensures !IsGroup(b[..n]) { assert b[..n][0] == b[0]; }
  }

  lemma OneByteMore(b: Bytes, i: nat)
    requires b != [] && b[0] >= 128 && i < MAX_LEN && ReadsRightly(b[1..], i + 1, Uvarint(b[1..], i + 1))
    ensures ReadsRightly(b, i, Uvarint(b, i))
  {
    var tail := b[1..];
    match Uvarint(tail, i + 1)
    case Decoded(x, n) =>
      LongerGroup(b, n);
    case TooShort =>
      forall k | 0 <= k < |b| ensures 128 <= b[k] { assert k > 0 ==> b[k] == tail[k - 1]; }
    case Overflow =>
      if k :| 0 <= k < |tail| && tail[k] < 128 { assert b[k + 1] < 128; }
      forall n | 0 < n <= |b| && i + n <= MAX_LEN && IsGroup(b[..n]) ensures !Fits(GroupsValue(b[..n]), i) {
        ShorterGroup(b, n);
        LongerGroup(b, n - 1);
      }
  }

  /** A group behind a byte with its high bit set makes a longer group. */
  lemma LongerGroup(b: Bytes, n: nat)
    requires 0 < n < |b| && b[0] >= 128 && IsGroup(b[1..][..n])
    ensures IsGroup(b[..n + 1]) && GroupsValue(b[..n + 1]) == b[0] as nat - 128 + 128 * GroupsValue(b[1..][..n])
  {
    var long, short := b[..n + 1], b[1..][..n];
    assert long[1..] == short;
    forall k | 0 <= k < n ensures 128 <= long[k] { assert k > 0 ==> long[k] == short[k - 1]; }
  }

  lemma ShorterGroup(b: Bytes, n: nat)
    requires 0 < n <= |b| && b[0] >= 128 && IsGroup(b[..n])
    ensures n > 1 && IsGroup(b[1..][..n - 1])
  {
    var long := b[..n];
    assert long[0] == b[0];
    var short := b[1..][..n - 1];
    assert short == long[1..];
    forall k | 0 <= k < |short| - 1 ensures 128 <= short[k] { assert short[k] == long[k + 1]; }
  }

  // ---------------------------------------------------------------- signed varints

  function PutVarint(x: Int64): (b: Bytes)
    ensures 0 < |b|
  {
    PutUvarint(ZigZag(x))
  }

  datatype VarintError = InsufficientBytes | LargerThan64Bits

  /** `decodeVarint`: the value and what follows it. */
  function DecodeVarint(b: Bytes): (r: Result<(Bytes, int), VarintError>)
    ensures r.Success? ==> |r.value.0| < |b|
  {
    match Uvarint(b, 0)
    case TooShort => Failure(InsufficientBytes)
    case Overflow => Failure(LargerThan64Bits)
    case Decoded(u, n) =>
      Success((b[n..], if u % 2 == 0 then u / 2 else -(u / 2) - 1))
  }

  /** Decoding undoes encoding for every 64-bit integer, whatever bytes follow. */
  lemma VarintRoundTrip(x: Int64, rest: Bytes)
    ensures DecodeVarint(PutVarint(x) + rest) == Success((rest, x))
  {
    CapacityIsUInt64();
    ZigZagBijective(x, 0);
    UvarintInvertsPut(ZigZag(x), rest, 0);
    assert (PutVarint(x) + rest)[|PutVarint(x)|..] == rest;
  }

  /** What every byte sequence decodes to: the number of the group it starts with, if that fits into 64
      bits; too few bytes if all of at most ten have their high bit set; and otherwise too large. */
  lemma DecodeVarintExactly(b: Bytes)
    ensures match DecodeVarint(b)
            case Success((rest, x)) =>
              && |rest| < |b| && rest == b[|b| - |rest|..]
              && -0x8000_0000_0000_0000 <= x < 0x8000_0000_0000_0000
              && IsGroup(b[..|b| - |rest|]) && GroupsValue(b[..|b| - |rest|]) == ZigZag(x)
            case Failure(InsufficientBytes) => |b| <= MAX_LEN && forall k | 0 <= k < |b| :: 128 <= b[k]
            case Failure(LargerThan64Bits) =>
              && (|b| > MAX_LEN || exists k | 0 <= k < |b| :: b[k] < 128)
              && forall n {:trigger IsGroup(b[..n])} | 0 < n <= |b| && n <= MAX_LEN && IsGroup(b[..n]) :: GroupsValue(b[..n]) >= 0x1_0000_0000_0000_0000
  {
    CapacityIsUInt64();
    UvarintExactly(b, 0);
    var r := Uvarint(b, 0);
    if r.Decoded? { ZigZagBijective(0, r.x); }
    if r.Overflow? {
      forall n | 0 < n <= |b| && n <= MAX_LEN && IsGroup(b[..n]) ensures GroupsValue(b[..n]) >= 0x1_0000_0000_0000_0000 {
        assert !Fits(GroupsValue(b[..n]), 0);
      }
    }
  }

  /** The ten-byte buffer the source encodes into always suffices. */
  lemma {:induction false} UvarintLength(x: nat, i: nat)
    requires i < MAX_LEN && x < Capacity(i)
    ensures |PutUvarint(x)| <= MAX_LEN - i
    decreases x
  {
    if x >= 128 { UvarintLength(x / 128, i + 1); }
  }

  lemma VarintFitsBuffer(x: Int64)
    ensures |PutVarint(x)| <= MAX_LEN
  {
    CapacityIsUInt64();
    UvarintLength(ZigZag(x), 0);
  }
}
