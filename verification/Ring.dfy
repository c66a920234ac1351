/**
 The circular buffer that both the recent-write log (internal/reconcile/log.go) and the metric
 windows (internal/adaptive/ccs.go) are built on: `slots` are the occupied slots in slot order,
 `index` is the slot the next push writes.
 */
module Ring {
  import opened Basics

  datatype RingState<T> = RingState(slots: seq<T>, index: nat, size: nat) {
    ghost predicate Valid() {
      && 0 < size
      && index < size
      && |slots| <= size
      && (|slots| < size ==> index == |slots|)
    }
  }

  function Empty<T>(size: nat): RingState<T> {
    RingState([], 0, size)
  }

  /** The cyclic successor of a slot, `(i + 1) % size` in the source. */
  function Next(i: nat, size: nat): (r: nat)
    requires i < size
    ensures r < size && r == (i + 1) % size
  {
    RemainderUnique(i + 1, size, if i + 1 == size then 1 else 0, if i + 1 == size then 0 else i + 1);
    if i + 1 == size then 0 else i + 1
  }

  function Pushed<T>(s: RingState<T>, x: T): (r: RingState<T>)
    requires s.Valid()
    ensures r.Valid() && r.size == s.size
  {
    var slots := if |s.slots| < s.size then s.slots + [x] else s.slots[s.index := x];
    RingState(slots, Next(s.index, s.size), s.size)
  }

  function PushedAll<T>(s: RingState<T>, xs: seq<T>): (r: RingState<T>)
    requires s.Valid()
    ensures r.Valid() && r.size == s.size
    decreases |xs|
  {
    if xs == [] then s else Pushed(PushedAll(s, xs[..|xs| - 1]), xs[|xs| - 1])
  }

  /** What the slots hold after at most `size` pushes: the pushed values overwrite a cyclic run
      of slots that starts at `index`, and every other slot is untouched. */
  ghost function Overlaid<T>(s: RingState<T>, xs: seq<T>): seq<T>
    requires s.Valid() && |xs| <= s.size
  {
    var room := s.size - s.index;
    if |xs| <= room then
      s.slots[..s.index] + xs + (if s.index + |xs| <= |s.slots| then s.slots[s.index + |xs|..] else [])
    else
      xs[room..] + s.slots[|xs| - room..s.index] + xs[..room]
  }

  function Turned<T>(s: RingState<T>, n: nat): (i: nat)
    requires s.Valid() && n <= s.size
    ensures i < s.size
  {
    if s.index + n < s.size then s.index + n else s.index + n - s.size
  }

  lemma {:induction false} PushedAllOverlays<T>(s: RingState<T>, xs: seq<T>)
    requires s.Valid() && |xs| <= s.size
    ensures PushedAll(s, xs).slots == Overlaid(s, xs)
    ensures PushedAll(s, xs).index == Turned(s, |xs|)
  {
    if xs == [] {
      assert Overlaid(s, xs) == s.slots;
    } else {
      var init, x := xs[..|xs| - 1], xs[|xs| - 1];
      PushedAllOverlays(s, init);
      OverlaidStep(s, init, x);
      assert xs == init + [x];
    }
  }

  lemma OverlaidStep<T>(s: RingState<T>, init: seq<T>, x: T)
    requires s.Valid() && |init| < s.size
    requires |Overlaid(s, init)| < s.size ==> Turned(s, |init|) == |Overlaid(s, init)|
    ensures |Overlaid(s, init)| < s.size ==> Overlaid(s, init + [x]) == Overlaid(s, init) + [x]
    ensures |Overlaid(s, init)| == s.size
            ==> Overlaid(s, init + [x]) == Overlaid(s, init)[Turned(s, |init|) := x]
  {
    var room := s.size - s.index;
    var o := Overlaid(s, init);
    if |init| < room {
      assert (init + [x])[..|init|] == init;
    } else {
      assert (init + [x])[..room] == init[..room];
      assert (init + [x])[room..] == init[room..] + [x];
    }
  }

  /** From any history, `size` pushes leave exactly those values, in cyclic order. */
  lemma {:induction false} FullTurn<T>(s: RingState<T>, xs: seq<T>)
    requires s.Valid() && |xs| == s.size
    ensures PushedAll(s, xs).slots == Rotated(xs, s.index)
    ensures PushedAll(s, xs).index == s.index
  {
    PushedAllOverlays(s, xs);
  }

  lemma {:induction false} PushedAllSplit<T>(s: RingState<T>, xs: seq<T>, ys: seq<T>)
    requires s.Valid()
    ensures PushedAll(s, xs + ys) == PushedAll(PushedAll(s, xs), ys)
    decreases |ys|
  {
    if ys == [] {
      assert xs + ys == xs;
    } else {
      var init := ys[..|ys| - 1];
      assert (xs + ys)[..|xs + ys| - 1] == xs + init;
      PushedAllSplit(s, xs, init);
    }
  }

  /** The values the ring should hold after pushing `xs` into an empty ring: the latest `size`. */
  function Latest<T>(xs: seq<T>, size: nat): seq<T> {
    if |xs| <= size then xs else xs[|xs| - size..]
  }

  lemma ModStep(n: nat, size: nat)
    requires 0 < size
    ensures (n + 1) % size == Next(n % size, size)
  {
    var q, r := n / size, n % size;
    assert n + 1 == q * size + (r + 1);
    if r + 1 == size {
      assert n + 1 == (q + 1) * size;
      RemainderUnique(n + 1, size, q + 1, 0);
    } else {
      RemainderUnique(n + 1, size, q, r + 1);
    }
  }

  lemma {:induction false} IndexIsCount<T>(size: nat, xs: seq<T>)
    requires 0 < size
    ensures PushedAll(Empty(size), xs).index == |xs| % size
    decreases |xs|
  {
    if xs != [] {
      IndexIsCount(size, xs[..|xs| - 1]);
      ModStep(|xs| - 1, size);
    }
  }

  lemma LatestStep<T>(xs: seq<T>, size: nat)
    requires 0 < size < |xs|
    ensures Latest(xs, size) == Latest(xs[..|xs| - 1], size)[1..] + [xs[|xs| - 1]]
  {
  }

  /** The ring refines "the latest `size` values": its slots are `Latest(xs, size)` rotated so
      that the oldest value sits at `index`. */
  lemma {:induction false} HoldsLatest<T>(size: nat, xs: seq<T>)
    requires 0 < size
    ensures var r := PushedAll(Empty(size), xs);
            && (|xs| < size ==> r.slots == xs)
            && (size <= |xs| ==> r.slots == Rotated(Latest(xs, size), r.index))
    decreases |xs|
  {
    if xs == [] {
    } else {
      var init, x := xs[..|xs| - 1], xs[|xs| - 1];
      HoldsLatest(size, init);
      var before := PushedAll(Empty(size), init);
      if |xs| < size {
        assert xs == init + [x];
      } else if |xs| == size {
        assert before.slots == init;
        assert xs == init + [x];
        assert Rotated(xs, 0) == xs;
      } else {
        LatestStep(xs, size);
        RotatedStep(Latest(init, size), before.index, x);
      }
    }
  }

  /** `xs` laid out cyclically with its first element at position `i`. */
  ghost function Rotated<T>(xs: seq<T>, i: nat): seq<T>
    requires i <= |xs|
  {
    xs[|xs| - i..] + xs[..|xs| - i]
  }

  lemma RotatedHalves<T>(xs: seq<T>, i: nat)
    requires i <= |xs|
    ensures Rotated(xs, i)[i..] + Rotated(xs, i)[..i] == xs
  {
    var k := |xs| - i;
    assert Rotated(xs, i)[..i] == xs[k..] && Rotated(xs, i)[i..] == xs[..k];
  }

  lemma RotatedStep<T>(xs: seq<T>, i: nat, x: T)
    requires i < |xs|
    ensures Rotated(xs, i)[i := x] == Rotated(xs[1..] + [x], Next(i, |xs|))
  {
    var ys := xs[1..] + [x];
    if i + 1 == |xs| {
      assert Rotated(ys, 0) == ys;
      assert Rotated(xs, i)[i := x] == ys;
    } else {
      var cut := |xs| - i - 1;
      assert ys[cut..] == xs[|xs| - i..] + [x];
      assert ys[..cut] == xs[1..|xs| - i];
    }
  }
}
