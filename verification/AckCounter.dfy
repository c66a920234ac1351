/**
 The acknowledged counter (go-ycsb-vendor/pkg/generator/acknowledged_counter.go): a window of flags
 that publishes, through `limit`, how far the acknowledged values reach without a gap. `size` is the
 window size, 2^20 in the source; `value & (size - 1)` is `value % size`, which is also how two's
 complement treats negative values.
 */
module AckCounter {
  import opened Basics

  type Flags = seq<bool>

  function Slot(v: int, size: nat): (s: nat)
    requires 0 < size
    ensures s < size
  {
    v % size
  }

  /** Values of one window-long stretch have different slots. */
  lemma SlotInjective(u: int, v: int, size: nat, base: int)
    requires 0 < size && base < u <= base + size && base < v <= base + size
    requires Slot(u, size) == Slot(v, size)
    ensures u == v
  {
    var qu, qv := u / size, v / size;
    assert u - v == (qu - qv) * size;
    assert qu - qv >= 1 ==> (qu - qv) * size >= size;
    assert qu - qv <= -1 ==> (qu - qv) * size + size <= 0;
  }

  lemma SlotShift(v: int, k: int, size: nat)
    requires 0 < size
    ensures Slot(v + k * size, size) == Slot(v, size)
  {
    var q, r := v / size, v % size;
    assert v + k * size == (q + k) * size + r;
    RemainderUnique(v + k * size, size, q + k, r);
  }

  // ---------------------------------------------------------------- specification

  function Raised(win: Flags): nat {
    if win == [] then 0 else Raised(win[..|win| - 1]) + if win[|win| - 1] then 1 else 0
  }

  lemma {:induction false} LoweringCounts(win: Flags, i: nat)
    requires i < |win| && win[i]
    ensures Raised(win[i := false]) == Raised(win) - 1
  {
    var init := win[..|win| - 1];
    if i < |init| {
      LoweringCounts(init, i);
      assert win[i := false][..|win| - 1] == init[i := false];
    } else {
      assert win[i := false][..|win| - 1] == init;
    }
  }

  /** The scan: lower flags from `index` on until one is down or `index` meets `stop`. */
  function Scan(win: Flags, index: int, stop: int): (r: (Flags, int))
    requires 0 < |win|
    ensures |r.0| == |win| && index <= r.1
    decreases Raised(win)
  {
    var slot := Slot(index, |win|);
    if index == stop || !win[slot] then (win, index)
    else
      LoweringCounts(win, slot);
      Scan(win[slot := false], index + 1, stop)
  }

  datatype Counter = Counter(window: Flags, limit: int)

  /** `Acknowledge`, with `None` for the panic. */
  function Acknowledged(c: Counter, v: int): (r: Option<Counter>)
    requires 0 < |c.window|
    ensures r.Some? ==> |r.value.window| == |c.window|
  {
    var size := |c.window|;
    var slot := Slot(v, size);
    if c.window[slot] then None
    else
      var (win, index) := Scan(c.window[slot := true], c.limit + 1, Slot(c.limit, size));
      Some(Counter(win, index - 1))
  }

  // ---------------------------------------------------------------- what the flags mean

  /** Everything from `start` to `reach` is acknowledged, and the flags are the acknowledged values
      of the next `size` ones. */
  ghost predicate Shows(win: Flags, reach: int, start: int, acked: set<int>) {
    && 0 < |win| && start - 1 <= reach
    && (forall v {:trigger v in acked} | start <= v <= reach :: v in acked)
    && (forall v | v in acked :: start <= v <= reach + |win|)
    && (forall v {:trigger Flag(win, v)} | reach < v <= reach + |win| :: Flag(win, v) <==> v in acked)
  }

  ghost predicate Flag(win: Flags, v: int)
    requires 0 < |win|
  {
    win[Slot(v, |win|)]
  }

  /** The end of the longest gap-free stretch of acknowledged values. */
  ghost predicate IsPrefixEnd(start: int, acked: set<int>, e: int) {
    start - 1 <= e && (forall v | start <= v <= e :: v in acked) && e + 1 !in acked
  }

  lemma PrefixEndUnique(start: int, acked: set<int>, e: int, f: int)
    requires IsPrefixEnd(start, acked, e) && IsPrefixEnd(start, acked, f)
    ensures e == f
  {
  }

  lemma RaiseShows(win: Flags, reach: int, start: int, acked: set<int>, v: int)
    requires Shows(win, reach, start, acked) && start <= v <= reach + |win| && v !in acked
    ensures !Flag(win, v) && Shows(win[Slot(v, |win|) := true], reach, start, acked + {v})
  {
    var win', acked' := win[Slot(v, |win|) := true], acked + {v};
    assert reach < v;
    forall u | reach < u <= reach + |win| ensures Flag(win', u) <==> u in acked' {
      assert Flag(win, u) <==> u in acked;
      if Slot(u, |win|) == Slot(v, |win|) { SlotInjective(u, v, |win|, reach); }
    }
  }

  /** Lowering the first flag moves the stretch on by one, because nothing a whole window ahead can
      have been acknowledged yet. */
  lemma LowerShows(win: Flags, reach: int, start: int, acked: set<int>)
    requires Shows(win, reach, start, acked) && Flag(win, reach + 1)
    requires forall v | v in acked :: v <= reach + |win|
    ensures reach + 1 in acked
    ensures Shows(win[Slot(reach + 1, |win|) := false], reach + 1, start, acked)
  {
    var size, win' := |win|, win[Slot(reach + 1, |win|) := false];
    assert Flag(win, reach + 1) <==> reach + 1 in acked;
    forall u | reach + 1 < u <= reach + 1 + size ensures Flag(win', u) <==> u in acked {
      if u == reach + 1 + size {
        SlotShift(reach + 1, 1, size);
      } else {
        assert Flag(win, u) <==> u in acked;
        if Slot(u, size) == Slot(reach + 1, size) { SlotInjective(u, reach + 1, size, reach); }
      }
    }
  }

  lemma {:induction false} ScanShows(win: Flags, index: int, stop: int, start: int, acked: set<int>)
    requires Shows(win, index - 1, start, acked)
    ensures var (win', index') := Scan(win, index, stop);
            && Shows(win', index' - 1, start, acked)
            && (index' == stop || index' !in acked)
            && (index <= stop ==> index' <= stop)
    decreases Raised(win)
  {
    var slot := Slot(index, |win|);
    assert Flag(win, index) <==> index in acked;
    if index != stop && win[slot] {
      LowerShows(win, index - 1, start, acked);
      LoweringCounts(win, slot);
      ScanShows(win[slot := false], index + 1, stop, start, acked);
    }
  }

  // ---------------------------------------------------------------- one caller at a time

  ghost predicate Represents(c: Counter, start: int, acked: set<int>) {
    Shows(c.window, c.limit, start, acked)
  }

  /** An acknowledgement panics exactly when its slot is still taken by an acknowledged value that
      has not been published. */
  lemma PanicsExactly(c: Counter, start: int, acked: set<int>, v: int)
    requires Represents(c, start, acked)
    ensures Acknowledged(c, v).None? <==> exists u :: u in acked && u > c.limit && Slot(u, |c.window|) == Slot(v, |c.window|)
  {
    var size := |c.window|;
    if u :| u in acked && u > c.limit && Slot(u, size) == Slot(v, size) {
      assert Flag(c.window, u) <==> u in acked;
    }
    if c.window[Slot(v, size)] {
      var u := Representative(v, c.limit, size);
      assert Flag(c.window, u) <==> u in acked;
    }
  }

  /** The value of the current stretch that shares the slot of `v`. */
  lemma Representative(v: int, base: int, size: nat) returns (u: int)
    requires 0 < size
    ensures base < u <= base + size && Slot(u, size) == Slot(v, size)
  {
    var k := (v - base - 1) / size;
    u := v - k * size;
    assert v - base - 1 == k * size + (v - base - 1) % size;
    SlotShift(u, k, size);
  }

  /** A new value inside the window never panics, and the flags go on representing the set. Last is
      then exactly the end of the longest acknowledged prefix unless the limit was negative and the
      prefix reaches the slot number of the old limit, in which case the scan stops just before it. */
  lemma AcknowledgeRefines(c: Counter, start: int, acked: set<int>, v: int, e: int)
    requires Represents(c, start, acked) && start <= v <= c.limit + |c.window| && v !in acked
    requires IsPrefixEnd(start, acked + {v}, e)
    ensures var r := Acknowledged(c, v);
            && r.Some?
            && Represents(r.value, start, acked + {v})
            && c.limit <= r.value.limit
            && (r.value.limit == e <==> c.limit >= 0 || e < Slot(c.limit, |c.window|))
            && (r.value.limit != e ==> r.value.limit == Slot(c.limit, |c.window|) - 1)
  {
    var size, all := |c.window|, acked + {v};
    RaiseShows(c.window, c.limit, start, acked, v);
    var win := c.window[Slot(v, size) := true];
    var stop := Slot(c.limit, size);
    ScanShows(win, c.limit + 1, stop, start, all);
    var (win', index) := Scan(win, c.limit + 1, stop);
    if c.limit >= 0 {
      SmallSlot(c.limit, size);
    }
    if index !in all {
      PrefixEndUnique(start, all, e, index - 1);
    } else {
      assert e >= index;
    }
  }

  lemma SmallSlot(v: int, size: nat)
    requires 0 < size && 0 <= v
    ensures Slot(v, size) <= v
  {
    assert v == v / size * size + v % size;
    assert v / size * size >= 0;
  }

  function Fresh(start: int, size: nat): Counter {
    Counter(seq(size, _ => false), start - 1)
  }

  function RunAcks(c: Counter, vs: seq<int>): (r: Option<Counter>)
    requires 0 < |c.window|
    ensures r.Some? ==> |r.value.window| == |c.window|
  {
    if vs == [] then Some(c)
    else
      match RunAcks(c, vs[..|vs| - 1])
      case None => None
      case Some(before) => Acknowledged(before, vs[|vs| - 1])
  }

  /** The callers' discipline: each value once, none before `start`, none more than a window past the
      published limit. */
  ghost predicate Disciplined(start: int, size: nat, vs: seq<int>)
    requires 0 < size
  {
    vs == [] ||
    var init, v := vs[..|vs| - 1], vs[|vs| - 1];
    && Disciplined(start, size, init)
    && v !in init && start <= v
    && var before := RunAcks(Fresh(start, size), init);
       before.Some? ==> v <= before.value.limit + size
  }

  ghost function Values(vs: seq<int>): set<int> {
    set v | v in vs
  }

  lemma {:induction false} RunRepresents(start: int, size: nat, vs: seq<int>)
    requires 0 < size && Disciplined(start, size, vs)
    ensures var r := RunAcks(Fresh(start, size), vs);
            r.Some? && |r.value.window| == size && Represents(r.value, start, Values(vs)) && start - 1 <= r.value.limit
  {
    if vs == [] {
      assert Values(vs) == {};
    } else {
      var init, v := vs[..|vs| - 1], vs[|vs| - 1];
      RunRepresents(start, size, init);
      var c := RunAcks(Fresh(start, size), init).value;
      assert Values(vs) == Values(init) + {v} by { assert vs == init + [v]; }
      var e := PrefixEnd(start, Values(vs));
      AcknowledgeRefines(c, start, Values(init), v, e);
    }
  }

  lemma PrefixEnd(start: int, acked: set<int>) returns (e: int)
    ensures IsPrefixEnd(start, acked, e)
  {
    e := PrefixEndFrom(start, acked, acked, start - 1);
  }

  lemma {:induction false} PrefixEndFrom(start: int, acked: set<int>, ahead: set<int>, from: int) returns (e: int)
    requires start - 1 <= from && forall v | start <= v <= from :: v in acked
    requires ahead == set v | v in acked && (v > from || v < start)
    ensures IsPrefixEnd(start, acked, e)
    decreases ahead
  {
    if from + 1 !in acked {
      e := from;
    } else {
      assert from + 1 in ahead;
      e := PrefixEndFrom(start, acked, ahead - {from + 1}, from + 1);
    }
  }

  /** Sequential runs from a positive start: after every acknowledgement `Last` is the end of the
      longest acknowledged prefix, and no acknowledgement panics. */
  lemma LastIsPrefixEnd(start: int, size: nat, vs: seq<int>)
    requires 0 < size && 1 <= start && Disciplined(start, size, vs)
    ensures var r := RunAcks(Fresh(start, size), vs); r.Some? && IsPrefixEnd(start, Values(vs), r.value.limit)
  {
    RunRepresents(start, size, vs);
    if vs == [] {
    } else {
      var init, v := vs[..|vs| - 1], vs[|vs| - 1];
      RunRepresents(start, size, init);
      var c := RunAcks(Fresh(start, size), init).value;
      assert Values(vs) == Values(init) + {v} by { assert vs == init + [v]; }
      var e := PrefixEnd(start, Values(vs));
      AcknowledgeRefines(c, start, Values(init), v, e);
    }
  }

  function UpTo(k: nat): seq<int> {
    seq(k, i => i + 1)
  }

  /** Until 0 itself is acknowledged a counter started at 0 publishes nothing. */
  lemma {:induction false} NothingPublished(size: nat, k: nat)
    requires k < size
    ensures Disciplined(0, size, UpTo(k))
    ensures var r := RunAcks(Fresh(0, size), UpTo(k)); r.Some? && r.value.limit == -1
  {
    if k > 0 {
      assert UpTo(k)[..k - 1] == UpTo(k - 1);
      NothingPublished(size, k - 1);
      RunRepresents(0, size, UpTo(k - 1));
      var c := RunAcks(Fresh(0, size), UpTo(k - 1)).value;
      assert Values(UpTo(k)) == Values(UpTo(k - 1)) + {k} by { assert UpTo(k) == UpTo(k - 1) + [k]; }
      AcknowledgeRefines(c, 0, Values(UpTo(k - 1)), k, -1);
    }
  }

  lemma LastSlot(size: nat)
    requires 0 < size
    ensures Slot(-1, size) == size - 1
  {
    RemainderUnique(-1, size, -1, size - 1);
  }

  /** From start 0 the guard fires: for every window of two or more, a full window whose first value
      comes last is published one value short of the acknowledged prefix. */
  lemma ZeroStartStopsShort(size: nat)
    requires 2 <= size
    ensures var vs := UpTo(size - 1) + [0];
            && Disciplined(0, size, vs)
            && IsPrefixEnd(0, Values(vs), size - 1)
            && RunAcks(Fresh(0, size), vs).Some? && RunAcks(Fresh(0, size), vs).value.limit == size - 2
  {
    var init := UpTo(size - 1);
    var vs := init + [0];
    assert vs[..|vs| - 1] == init;
    NothingPublished(size, size - 1);
    RunRepresents(0, size, init);
    assert Values(vs) == Values(init) + {0};
    forall v | 0 <= v <= size - 1 ensures v in Values(vs) {
      assert v > 0 ==> init[v - 1] == v;
    }
    LastSlot(size);
    AcknowledgeRefines(RunAcks(Fresh(0, size), init).value, 0, Values(init), 0, size - 1);
  }

  // ---------------------------------------------------------------- the object

  class AcknowledgedCounter {
    var counter: int
    const window: array<bool>
    var limit: int

    function State(): Counter
      reads this, window
    {
      Counter(window[..], limit)
    }

    constructor (start: int)
      ensures window.Length == 0x10_0000 && fresh(window)
      ensures counter == start && State() == Fresh(start, 0x10_0000)
    {
      counter := start;
      window := new bool[0x10_0000](_ => false);
      limit := start - 1;
    }

    method NextValue() returns (v: int)
      modifies this
      ensures v == old(counter) && counter == v + 1 && limit == old(limit)
    {
      counter := counter + 1;
      v := counter - 1;
    }

    method Last() returns (v: int)
      ensures v == State().limit
    {
      v := limit;
    }

    /** One undisturbed call; `false` stands for the panic. */
    method Acknowledge(value: int) returns (ok: bool)
      requires 0 < window.Length
      modifies this, window
      ensures counter == old(counter)
      ensures var r := Acknowledged(old(State()), value);
              && ok == r.Some?
              && State() == if ok then r.value else old(State())
    {
      var currentSlot := Slot(value, window.Length);
      if window[currentSlot] {
        return false;
      }
      ghost var before := window[..];
      window[currentSlot] := true;
      assert window[..] == before[currentSlot := true];
      Publish();
      return true;
    }

    /** What a caller does once it has the lock: move a gap-free run of flags into the limit. */
    method Publish()
      requires 0 < window.Length
      modifies this, window
      ensures counter == old(counter)
      ensures var (win, index) := Scan(old(window[..]), old(limit) + 1, Slot(old(limit), window.Length));
              window[..] == win && limit == index - 1
    {
      var beforeFirstSlot := Slot(limit, window.Length);
      var index := limit + 1;
      while index != beforeFirstSlot
        invariant Scan(window[..], index, beforeFirstSlot) == Scan(old(window[..]), old(limit) + 1, beforeFirstSlot)
        invariant limit == old(limit) && counter == old(counter)
        decreases Raised(window[..])
      {
        var slot := Slot(index, window.Length);
        if !window[slot] {
          break;
        }
        ghost var win := window[..];
        LoweringCounts(win, slot);
        window[slot] := false;
        assert window[..] == win[slot := false];
        index := index + 1;
      }
      limit := index - 1;
    }
  }
}
