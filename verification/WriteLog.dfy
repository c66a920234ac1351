/** The bounded, expiring log of recent writes (internal/reconcile/log.go). */
module WriteLog {
  import opened Basics
  import opened Ring
  import opened HybridClock

  datatype WriteEntry = WriteEntry(key: string, value: Bytes, nodeId: string, hlc: Hlc, timestamp: int)

  type LogState = RingState<WriteEntry>

  // ---------------------------------------------------------------- specification

  /** The entries received no earlier than `cutoff`, in order. */
  function Live(es: seq<WriteEntry>, cutoff: int): seq<WriteEntry> {
    if es == [] then []
    else
      var init, e := Live(es[..|es| - 1], cutoff), es[|es| - 1];
      if e.timestamp >= cutoff then init + [e] else init
  }

  function Cleaned(s: LogState, cutoff: int): (r: LogState)
    requires s.Valid()
    ensures r.Valid() && r.size == s.size
  {
    var live := Live(s.slots, cutoff);
    LiveIsShorter(s.slots, cutoff);
    RingState(live, if |live| == s.size then 0 else |live|, s.size)
  }

  lemma {:induction false} LiveIsShorter(es: seq<WriteEntry>, cutoff: int)
    ensures |Live(es, cutoff)| <= |es|
  {
    if es != [] { LiveIsShorter(es[..|es| - 1], cutoff); }
  }

  lemma LiveStep(es: seq<WriteEntry>, i: nat, cutoff: int)
    requires i < |es|
    ensures Live(es[..i + 1], cutoff) == Live(es[..i], cutoff) + if es[i].timestamp >= cutoff then [es[i]] else []
  {
    assert es[..i + 1][..i] == es[..i];
  }

  lemma {:induction false} LiveConcat(a: seq<WriteEntry>, b: seq<WriteEntry>, cutoff: int)
    ensures Live(a + b, cutoff) == Live(a, cutoff) + Live(b, cutoff)
    decreases |b|
  {
    if b == [] {
      assert a + b == a;
    } else {
      assert (a + b)[..|a + b| - 1] == a + b[..|b| - 1];
      LiveConcat(a, b[..|b| - 1], cutoff);
    }
  }

  /** A later filter subsumes an earlier one. */
  lemma {:induction false} LiveTwice(es: seq<WriteEntry>, early: int, late: int)
    requires early <= late
    ensures Live(Live(es, early), late) == Live(es, late)
  {
    if es != [] {
      var init, e := es[..|es| - 1], es[|es| - 1];
      LiveTwice(init, early, late);
      if e.timestamp >= early {
        assert Live(es, early)[..|Live(es, early)| - 1] == Live(init, early);
      }
    }
  }

  lemma {:induction false} LiveAll(es: seq<WriteEntry>, cutoff: int)
    requires forall e | e in es :: e.timestamp >= cutoff
    ensures Live(es, cutoff) == es
  {
    if es != [] {
      LiveAll(es[..|es| - 1], cutoff);
      assert es == es[..|es| - 1] + [es[|es| - 1]];
    }
  }

  lemma {:induction false} LiveMembers(es: seq<WriteEntry>, cutoff: int)
    ensures forall e :: e in Live(es, cutoff) <==> e in es && e.timestamp >= cutoff
  {
    if es != [] {
      LiveMembers(es[..|es| - 1], cutoff);
      assert es == es[..|es| - 1] + [es[|es| - 1]];
    }
  }

  // ---------------------------------------------------------------- what the log guarantees

  /** After any sequence of Adds, GetAll yields, as a multiset, exactly the unexpired ones among
      the latest `maxSize` Adds. */
  lemma {:induction false} GetAllIsLatestLive(maxSize: nat, adds: seq<WriteEntry>, cutoff: int)
    requires 0 < maxSize
    ensures multiset(Live(PushedAll(Empty(maxSize), adds).slots, cutoff)) == multiset(Live(Latest(adds, maxSize), cutoff))
  {
    HoldsLatest(maxSize, adds);
    if maxSize <= |adds| {
      var latest := Latest(adds, maxSize);
      var i := PushedAll(Empty(maxSize), adds).index;
      var front, back := latest[..maxSize - i], latest[maxSize - i..];
      assert latest == front + back;
      LiveConcat(back, front, cutoff);
      LiveConcat(front, back, cutoff);
    }
  }

  /** Running Cleanup first never changes what a later GetAll returns, order included. */
  lemma CleanupIsInvisible(s: LogState, early: int, late: int)
    requires s.Valid() && early <= late
    ensures Live(Cleaned(s, early).slots, late) == Live(s.slots, late)
  {
    LiveTwice(s.slots, early, late);
  }

  datatype LogOp = Add(entry: WriteEntry) | Cleanup(cutoff: int)

  function RunLog(s: LogState, ops: seq<LogOp>): (r: LogState)
    requires s.Valid()
    ensures r.Valid() && r.size == s.size
  {
    if ops == [] then s
    else
      var before := RunLog(s, ops[..|ops| - 1]);
      match ops[|ops| - 1]
      case Add(e) => Pushed(before, e)
      case Cleanup(c) => Cleaned(before, c)
  }

  function Adds(ops: seq<LogOp>): seq<WriteEntry> {
    if ops == [] then []
    else
      var init := Adds(ops[..|ops| - 1]);
      match ops[|ops| - 1]
      case Add(e) => init + [e]
      case Cleanup(_) => init
  }

  /** The log holds nothing that was not added. */
  lemma {:induction false} SlotsWereAdded(maxSize: nat, ops: seq<LogOp>, e: WriteEntry)
    requires 0 < maxSize && e in RunLog(Empty(maxSize), ops).slots
    ensures e in Adds(ops)
  {
    if ops != [] {
      var init, op := ops[..|ops| - 1], ops[|ops| - 1];
      var before := RunLog(Empty(maxSize), init);
      if op.Cleanup? { LiveMembers(before.slots, op.cutoff); }
      if e in before.slots { SlotsWereAdded(maxSize, init, e); }
    }
  }

  /** As long as no more than `maxSize` writes were ever added, no interleaving of Adds and
      Cleanups loses an unexpired write or reorders the log. */
  lemma {:induction false} NothingEvicted(maxSize: nat, ops: seq<LogOp>, cutoff: int)
    requires 0 < maxSize && |Adds(ops)| <= maxSize
    requires forall op | op in ops && op.Cleanup? :: op.cutoff <= cutoff
    ensures Live(RunLog(Empty(maxSize), ops).slots, cutoff) == Live(Adds(ops), cutoff)
    ensures |RunLog(Empty(maxSize), ops).slots| <= |Adds(ops)|
  {
    if ops != [] {
      var init, op := ops[..|ops| - 1], ops[|ops| - 1];
      NothingEvicted(maxSize, init, cutoff);
      var before := RunLog(Empty(maxSize), init);
      match op
      case Add(e) =>
        LiveConcat(before.slots, [e], cutoff);
        LiveConcat(Adds(init), [e], cutoff);
      case Cleanup(c) =>
        assert op in ops;
        CleanupIsInvisible(before, c, cutoff);
        LiveIsShorter(before.slots, c);
    }
  }

  /** Cleanup compacts in slot order, so it can put younger writes before older ones. Once the log has
      filled up again with `more`, the next Add evicts the oldest write exactly when the unexpired
      writes lay all before or all after the wrap point, or the two that come first on either side
      are the same entry. */
  lemma CleanupThenAddEvictsOldest(maxSize: nat, adds: seq<WriteEntry>, cutoff: int, more: seq<WriteEntry>, e: WriteEntry)
    requires 0 < maxSize && |Live(Latest(adds, maxSize), cutoff)| + |more| == maxSize
    ensures var s := PushedAll(Empty(maxSize), adds);
            var held := Live(Latest(adds, maxSize), cutoff) + more;
            var log := PushedAll(Cleaned(s, cutoff), more + [e]);
            var younger, older := Live(Younger(s), cutoff), Live(Older(s), cutoff);
            multiset(log.slots) == multiset(held[1..] + [e]) <==> younger == [] || older == [] || younger[0] == older[0]
  {
    var s := PushedAll(Empty(maxSize), adds);
    var younger, older := Live(Younger(s), cutoff), Live(Older(s), cutoff);
    LatestByAge(maxSize, adds);
    LiveHalves(s, cutoff);
    RefilledAfterCleanup(s, cutoff, more, e);
    FirstOfEither(younger, older, more);
    EvictFirst(younger + older + more, older + younger + more, e);
  }

  lemma SixIntoFour(adds: seq<WriteEntry>)
    requires |adds| == 6
    ensures PushedAll(Empty(4), adds).slots == [adds[4], adds[5], adds[2], adds[3]]
  {
    HoldsLatest(4, adds);
    IndexIsCount(4, adds);
  }

  lemma ThreeLive(slots: seq<WriteEntry>, cutoff: int)
    requires |slots| == 4 && slots[2].timestamp < cutoff
    requires slots[0].timestamp >= cutoff && slots[1].timestamp >= cutoff && slots[3].timestamp >= cutoff
    ensures Live(slots, cutoff) == [slots[0], slots[1], slots[3]]
  {
    LiveStep(slots, 0, cutoff);
    LiveStep(slots, 1, cutoff);
    LiveStep(slots, 2, cutoff);
    LiveStep(slots, 3, cutoff);
    assert slots[..4] == slots;
  }

  /** Inputs on which it goes wrong: with room for four, six writes and a Cleanup that drops the third of
      them, the second write after it evicts the fifth while the older fourth stays. */
  lemma CleanupEvictsYounger(adds: seq<WriteEntry>, cutoff: int, e: WriteEntry, f: WriteEntry)
    requires |adds| == 6 && adds[2].timestamp < cutoff <= adds[3].timestamp <= adds[4].timestamp <= adds[5].timestamp
    ensures PushedAll(Cleaned(PushedAll(Empty(4), adds), cutoff), [e] + [f]).slots == [f, adds[5], adds[3], e]
  {
    var s := PushedAll(Empty(4), adds);
    SixIntoFour(adds);
    ThreeLive(s.slots, cutoff);
    RefilledAfterCleanup(s, cutoff, [e], f);
  }

  lemma LiveHalves(s: LogState, cutoff: int)
    requires s.Valid()
    ensures var younger, older := Live(Younger(s), cutoff), Live(Older(s), cutoff);
            Live(s.slots, cutoff) == younger + older && Live(Older(s) + Younger(s), cutoff) == older + younger
  {
    assert s.slots == Younger(s) + Older(s);
    LiveConcat(Younger(s), Older(s), cutoff);
    LiveConcat(Older(s), Younger(s), cutoff);
  }

  /** The slots before and after the point where the log wraps. */
  function Younger(s: LogState): seq<WriteEntry>
    requires s.Valid()
  {
    s.slots[..s.index]
  }

  function Older(s: LogState): seq<WriteEntry>
    requires s.Valid()
  {
    s.slots[s.index..]
  }

  lemma LatestByAge(maxSize: nat, adds: seq<WriteEntry>)
    requires 0 < maxSize
    ensures var s := PushedAll(Empty(maxSize), adds); Latest(adds, maxSize) == Older(s) + Younger(s)
  {
    var s, latest := PushedAll(Empty(maxSize), adds), Latest(adds, maxSize);
    HoldsLatest(maxSize, adds);
    if |adds| < maxSize {
      assert s.index == |s.slots|;
    } else {
      RotatedHalves(latest, s.index);
    }
  }

  /** A cleaned log that is filled up again holds the unexpired writes in slot order and then the new
      ones; one more write replaces slot 0. */
  lemma RefilledAfterCleanup(s: LogState, cutoff: int, more: seq<WriteEntry>, e: WriteEntry)
    requires s.Valid() && |Live(s.slots, cutoff)| + |more| == s.size
    ensures PushedAll(Cleaned(s, cutoff), more + [e]).slots == (Live(s.slots, cutoff) + more)[0 := e]
  {
    var c, live := Cleaned(s, cutoff), Live(s.slots, cutoff);
    PushedAllOverlays(c, more);
    if more == [] {
      assert live + more == live;
    } else {
      assert Overlaid(c, more) == live + more;
    }
    assert (more + [e])[..|more|] == more;
  }

  lemma FirstOfEither<T>(younger: seq<T>, older: seq<T>, more: seq<T>)
    requires younger + older + more != []
    ensures var slots, held := younger + older + more, older + younger + more;
            && multiset(slots) == multiset(held)
            && (slots[0] == held[0] <==> younger == [] || older == [] || younger[0] == older[0])
  {
    if younger == [] || older == [] { assert younger + older == older + younger; }
  }

  /** Of two arrangements of the same entries, replacing slot 0 and dropping the first leave the same
      entries only if they start alike. */
  lemma EvictFirst<T>(slots: seq<T>, held: seq<T>, e: T)
    requires slots != [] && held != [] && multiset(slots) == multiset(held)
    ensures multiset(slots[0 := e]) == multiset(held[1..] + [e]) <==> slots[0] == held[0]
  {
    DropFirst(slots, e);
    DropFirst(held, e);
    RemoveSame(multiset(slots), slots[0], held[0], e);
  }

  lemma DropFirst<T>(xs: seq<T>, e: T)
    requires xs != []
    ensures multiset(xs[0 := e]) == multiset(xs) - multiset{xs[0]} + multiset{e}
    ensures multiset(xs[1..] + [e]) == multiset(xs) - multiset{xs[0]} + multiset{e}
  {
    assert xs == [xs[0]] + xs[1..];
    assert xs[0 := e] == [e] + xs[1..];
  }

  lemma RemoveSame<T>(m: multiset<T>, a: T, b: T, e: T)
    requires a in m && b in m
    ensures m - multiset{a} + multiset{e} == m - multiset{b} + multiset{e} <==> a == b
  {
    assert a != b ==> (m - multiset{a} + multiset{e})[a] < (m - multiset{b} + multiset{e})[a];
  }

  // ---------------------------------------------------------------- the object

  class RecentWriteLog {
    var entries: array<WriteEntry>
    var timestamps: array<int>
    const maxSize: nat
    var index: nat
    var count: nat
    const maxAge: int

    ghost predicate Valid()
      reads this, entries, timestamps
    {
      && 0 < maxSize
      && entries.Length == maxSize && timestamps.Length == maxSize
      && index < maxSize && count <= maxSize
      && (count < maxSize ==> index == count)
      && forall i :: 0 <= i < count ==> timestamps[i] == entries[i].timestamp
    }

    ghost function State(): (s: LogState)
      requires Valid()
      reads this, entries, timestamps
      ensures s.Valid()
    {
      RingState(entries[..count], index, maxSize)
    }

    constructor (maxSize: nat, maxAge: int)
      requires 0 < maxSize
      ensures Valid() && fresh(entries) && fresh(timestamps)
      ensures State() == Empty(maxSize) && this.maxSize == maxSize && this.maxAge == maxAge
    {
      var blank := WriteEntry("", [], "", Hlc(0, 0, ""), 0);
      entries := new WriteEntry[maxSize](_ => blank);
      timestamps := new int[maxSize](_ => 0);
      this.maxSize := maxSize;
      this.maxAge := maxAge;
      index := 0;
      count := 0;
    }

    method Add(key: string, value: Bytes, nodeId: string, stamp: Hlc, now: int)
      requires Valid()
      modifies this`index, this`count, entries, timestamps
      ensures Valid()
      ensures State() == Pushed(old(State()), WriteEntry(key, value, nodeId, stamp, now))
    {
      ghost var before := entries[..count];
      var entry := WriteEntry(key, value, nodeId, stamp, now);
      entries[index] := entry;
      timestamps[index] := now;
      assert count == maxSize ==> entries[..count] == before[index := entry];
      assert count < maxSize ==> entries[..count + 1] == before + [entry];
      index := Next(index, maxSize);
      if count < maxSize {
        count := count + 1;
      }
    }

    method GetAll(now: int) returns (result: seq<WriteEntry>)
      requires Valid()
      ensures result == Live(State().slots, now - maxAge)
    {
      var cutoff := now - maxAge;
      result := [];
      for i := 0 to count
        invariant result == Live(entries[..i], cutoff)
      {
        assert entries[..i + 1][..i] == entries[..i];
        if timestamps[i] >= cutoff {
          result := result + [entries[i]];
        }
      }
    }

    /** The unexpired entries, moved to the front of fresh arrays. */
    method Compacted(cutoff: int) returns (newEntries: array<WriteEntry>, newTimestamps: array<int>, validCount: nat)
      requires Valid()
      ensures fresh(newEntries) && fresh(newTimestamps) && newEntries.Length == newTimestamps.Length == maxSize
      ensures validCount <= count && newEntries[..validCount] == Live(State().slots, cutoff)
      ensures forall j :: 0 <= j < validCount ==> newTimestamps[j] == newEntries[j].timestamp
    {
      validCount := 0;
      var blank := WriteEntry("", [], "", Hlc(0, 0, ""), 0);
      newEntries := new WriteEntry[maxSize](_ => blank);
      newTimestamps := new int[maxSize](_ => 0);
      ghost var slots := entries[..count];
      for i := 0 to count
        modifies newEntries, newTimestamps
        invariant validCount <= i
        invariant newEntries[..validCount] == Live(slots[..i], cutoff)
        invariant forall j :: 0 <= j < validCount ==> newTimestamps[j] == newEntries[j].timestamp
      {
        assert timestamps[i] == slots[i].timestamp;
        LiveStep(slots, i, cutoff);
        if timestamps[i] >= cutoff {
          newEntries[validCount] := entries[i];
          newTimestamps[validCount] := timestamps[i];
          validCount := validCount + 1;
        }
      }
      assert slots[..count] == slots;
    }

    method Cleanup(now: int)
      requires Valid()
      modifies this
      ensures Valid() && fresh(entries) && fresh(timestamps)
      ensures State() == Cleaned(old(State()), now - maxAge)
    {
      var newEntries, newTimestamps, validCount := Compacted(now - maxAge);
      entries := newEntries;
      timestamps := newTimestamps;
      count := validCount;
      index := if validCount == maxSize then 0 else validCount;
    }
  }
}
