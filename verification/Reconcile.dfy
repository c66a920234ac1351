/** Last-writer-wins repair from the recent-write log (internal/reconcile/engine.go). */
module Reconcile {
  import opened Basics
  import opened HybridClock
  import opened Storage
  import opened WriteLog
  import opened Ring

  // ---------------------------------------------------------------- the order repair uses

  /** What repair compares: the stamp and then the node id of the record. */
  datatype Rank = Rank(physical: int, logical: int, node: string)

  function ValueRank(v: VersionedValue): Rank {
    Rank(v.hlc.physical, v.hlc.logical, v.nodeId)
  }

  function EntryRank(w: WriteEntry): Rank {
    Rank(w.hlc.physical, w.hlc.logical, w.nodeId)
  }

  function Record(w: WriteEntry): VersionedValue {
    Versioned(w.value, w.nodeId, w.hlc)
  }

  predicate Below(a: Rank, b: Rank) {
    || a.physical < b.physical
    || (a.physical == b.physical && a.logical < b.logical)
    || (a.physical == b.physical && a.logical == b.logical && StringLess(a.node, b.node))
  }

  /** That order is the order of stamps, and the order of node ids between equal stamps. */
  lemma BelowExactly(a: VersionedValue, b: VersionedValue)
    ensures Below(ValueRank(a), ValueRank(b)) <==>
            a.hlc.HappensBefore(b.hlc) || (a.hlc.Equal(b.hlc) && StringLess(a.nodeId, b.nodeId))
  {
  }

  lemma BelowTransitive(a: Rank, b: Rank, c: Rank)
    requires Below(a, b) && Below(b, c)
    ensures Below(a, c)
  {
    if StringLess(a.node, b.node) && StringLess(b.node, c.node) {
      StringLessTransitive(a.node, b.node, c.node);
    }
  }

  lemma BelowTotal(a: Rank, b: Rank)
    ensures Below(a, b) || Below(b, a) || a == b
    ensures !Below(a, a)
  {
    StringLessTotal(a.node, b.node);
    StringLessIrreflexive(a.node);
  }

  lemma AtMostTransitive(a: Rank, b: Rank, c: Rank)
    requires !Below(b, a) && !Below(c, b)
    ensures !Below(c, a)
  {
    BelowTotal(a, b);
    BelowTotal(b, c);
    BelowTotal(a, c);
    if Below(a, b) && Below(b, c) { BelowTransitive(a, b, c); BelowAsymmetric(a, c); }
  }

  lemma BelowAsymmetric(a: Rank, b: Rank)
    requires Below(a, b)
    ensures !Below(b, a)
  {
    BelowTotal(a, a);
    if Below(b, a) { BelowTransitive(a, b, a); }
  }

  // ---------------------------------------------------------------- specification

  function Resolved(data: Data, w: WriteEntry): Data {
    if w.key !in data then data
    else if Below(ValueRank(data[w.key]), EntryRank(w)) then data[w.key := Record(w)]
    else data
  }

  function Reconciled(data: Data, writes: seq<WriteEntry>): (r: Data)
    ensures r.Keys == data.Keys
  {
    if writes == [] then data
    else Resolved(Reconciled(data, writes[..|writes| - 1]), writes[|writes| - 1])
  }

  /** How many writes replaced a local value. */
  function Replaced(data: Data, writes: seq<WriteEntry>): nat {
    if writes == [] then 0
    else
      var init, w := writes[..|writes| - 1], writes[|writes| - 1];
      Replaced(data, init) + if Resolved(Reconciled(data, init), w) != Reconciled(data, init) then 1 else 0
  }

  lemma ReconciledStep(data: Data, writes: seq<WriteEntry>, k: nat)
    requires 0 < k <= |writes|
    ensures Reconciled(data, writes[..k]) == Resolved(Reconciled(data, writes[..k - 1]), writes[k - 1])
    ensures Replaced(data, writes[..k]) ==
            Replaced(data, writes[..k - 1]) + if Reconciled(data, writes[..k]) != Reconciled(data, writes[..k - 1]) then 1 else 0
  {
    assert writes[..k][..k - 1] == writes[..k - 1];
  }

  /** `v` is the maximum of the local value and the logged writes of `key`. */
  ghost predicate IsJoin(v: VersionedValue, local: VersionedValue, writes: seq<WriteEntry>, key: string) {
    && !Below(ValueRank(v), ValueRank(local))
    && (forall w | w in writes && w.key == key :: !Below(ValueRank(v), EntryRank(w)))
    && (v == local || exists w | w in writes && w.key == key :: v == Record(w))
  }

  /** For every key held locally the loop leaves the join, and it neither adds nor removes keys. */
  lemma {:induction false} ReconcileIsJoin(data: Data, writes: seq<WriteEntry>, key: string)
    requires key in data
    ensures IsJoin(Reconciled(data, writes)[key], data[key], writes, key)
    ensures var v := Reconciled(data, writes)[key];
            && !v.hlc.HappensBefore(data[key].hlc)
            && (forall w | w in writes && w.key == key ::
                  !v.hlc.HappensBefore(w.hlc) && (v.hlc.Equal(w.hlc) ==> !StringLess(v.nodeId, w.nodeId)))
  {
    BelowTotal(ValueRank(data[key]), ValueRank(data[key]));
    if writes != [] {
      var init, w := writes[..|writes| - 1], writes[|writes| - 1];
      ReconcileIsJoin(data, init, key);
      JoinStep(Reconciled(data, init)[key], data[key], init, w, key);
      assert writes == init + [w];
    }
  }

  lemma JoinStep(v: VersionedValue, local: VersionedValue, init: seq<WriteEntry>, w: WriteEntry, key: string)
    requires IsJoin(v, local, init, key)
    ensures IsJoin(if w.key == key && Below(ValueRank(v), EntryRank(w)) then Record(w) else v, local, init + [w], key)
  {
    var rv, rw := ValueRank(v), EntryRank(w);
    BelowTotal(rw, rw);
    if w.key == key && Below(rv, rw) {
      assert w in init + [w];
      BelowAsymmetric(rv, rw);
      AtMostTransitive(ValueRank(local), rv, rw);
      forall u | u in init && u.key == key ensures !Below(rw, EntryRank(u)) {
        AtMostTransitive(EntryRank(u), rv, rw);
      }
    } else if v != local {
      var u :| u in init && u.key == key && v == Record(u);
      assert u in init + [w];
    }
  }

  lemma JoinRankUnique(v1: VersionedValue, v2: VersionedValue, local: VersionedValue, ws1: seq<WriteEntry>, ws2: seq<WriteEntry>, key: string)
    requires IsJoin(v1, local, ws1, key) && IsJoin(v2, local, ws2, key)
    requires forall w :: w in ws1 <==> w in ws2
    ensures ValueRank(v1) == ValueRank(v2)
  {
    BelowTotal(ValueRank(v1), ValueRank(v2));
  }

  /** Repair does not depend on the order in which the log lists its writes: every key ends at the
      same rank, and at the same record when equal ranks of this key mean equal records. */
  lemma ReconcileIgnoresOrder(data: Data, ws1: seq<WriteEntry>, ws2: seq<WriteEntry>, key: string)
    requires key in data
    requires forall w :: w in ws1 <==> w in ws2
    ensures ValueRank(Reconciled(data, ws1)[key]) == ValueRank(Reconciled(data, ws2)[key])
    ensures RanksIdentify(data[key], ws1, key) ==> Reconciled(data, ws1)[key] == Reconciled(data, ws2)[key]
  {
    ReconcileIsJoin(data, ws1, key);
    ReconcileIsJoin(data, ws2, key);
    JoinRankUnique(Reconciled(data, ws1)[key], Reconciled(data, ws2)[key], data[key], ws1, ws2, key);
  }

  ghost predicate RanksIdentify(local: VersionedValue, writes: seq<WriteEntry>, key: string) {
    && (forall w | w in writes && w.key == key && EntryRank(w) == ValueRank(local) :: Record(w) == local)
    && (forall u, w | u in writes && w in writes && u.key == w.key == key && EntryRank(u) == EntryRank(w) :: Record(u) == Record(w))
  }

  /** `u` beats the local value and no logged write of the key beats `u`. */
  ghost predicate Wins(local: VersionedValue, writes: seq<WriteEntry>, key: string, u: WriteEntry) {
    && u in writes && u.key == key && Below(ValueRank(local), EntryRank(u))
    && forall w | w in writes && w.key == key :: !Below(EntryRank(u), EntryRank(w))
  }

  ghost predicate RepairIgnoresOrder(data: Data, writes: seq<WriteEntry>, key: string)
    requires key in data
  {
    forall ws: seq<WriteEntry> :: multiset(ws) == multiset(writes) ==> Reconciled(data, ws)[key] == Reconciled(data, writes)[key]
  }

  ghost predicate WinnersAgree(local: VersionedValue, writes: seq<WriteEntry>, key: string) {
    forall u, w | Wins(local, writes, key, u) && Wins(local, writes, key, w) :: Record(u) == Record(w)
  }

  /** The record a key ends at is independent of the order of the log exactly when all the logged
      writes that could win carry the same record. */
  lemma RepairIgnoresOrderExactly(data: Data, writes: seq<WriteEntry>, key: string)
    requires key in data
    ensures RepairIgnoresOrder(data, writes, key) <==> WinnersAgree(data[key], writes, key)
  {
    if WinnersAgree(data[key], writes, key) {
      forall ws: seq<WriteEntry> | multiset(ws) == multiset(writes) ensures Reconciled(data, ws)[key] == Reconciled(data, writes)[key] {
        SameWinners(data, writes, ws, key);
      }
    }
    if RepairIgnoresOrder(data, writes, key) {
      forall u, w | Wins(data[key], writes, key, u) && Wins(data[key], writes, key, w) ensures Record(u) == Record(w) {
        var us := WinnerFirst(data, writes, key, u);
        var ws := WinnerFirst(data, writes, key, w);
        assert Reconciled(data, us)[key] == Reconciled(data, writes)[key] == Reconciled(data, ws)[key];
      }
    }
  }

  /** Repair leaves the local value or the record of a winner. */
  lemma JoinWins(v: VersionedValue, local: VersionedValue, writes: seq<WriteEntry>, key: string)
    requires IsJoin(v, local, writes, key) && v != local
    ensures ValueRank(v) == ValueRank(local) || exists u :: Wins(local, writes, key, u) && v == Record(u)
  {
    var u :| u in writes && u.key == key && v == Record(u);
    BelowTotal(ValueRank(local), ValueRank(v));
    assert ValueRank(v) != ValueRank(local) ==> Wins(local, writes, key, u);
  }

  /** A value of the local rank is never replaced, so repair then leaves it alone. */
  lemma {:induction false} RankMoves(data: Data, writes: seq<WriteEntry>, key: string)
    requires key in data
    ensures Reconciled(data, writes)[key] == data[key] || Below(ValueRank(data[key]), ValueRank(Reconciled(data, writes)[key]))
  {
    if writes != [] {
      var init := writes[..|writes| - 1];
      RankMoves(data, init, key);
      var a, b, c := ValueRank(data[key]), ValueRank(Reconciled(data, init)[key]), ValueRank(Reconciled(data, writes)[key]);
      if Below(a, b) && Below(b, c) { BelowTransitive(a, b, c); }
    }
  }

  lemma SameWinners(data: Data, writes: seq<WriteEntry>, ws: seq<WriteEntry>, key: string)
    requires key in data && multiset(ws) == multiset(writes) && WinnersAgree(data[key], writes, key)
    ensures Reconciled(data, ws)[key] == Reconciled(data, writes)[key]
  {
    var v1, v2, local := Reconciled(data, writes)[key], Reconciled(data, ws)[key], data[key];
    forall w ensures w in ws <==> w in writes { assert w in multiset(ws) <==> w in multiset(writes); }
    ReconcileIsJoin(data, writes, key);
    ReconcileIsJoin(data, ws, key);
    JoinRankUnique(v1, v2, local, writes, ws, key);
    RankMoves(data, writes, key);
    RankMoves(data, ws, key);
    BelowTotal(ValueRank(local), ValueRank(local));
    if v1 != local && v2 != local {
      JoinWins(v1, local, writes, key);
      JoinWins(v2, local, ws, key);
      var u :| Wins(local, writes, key, u) && v1 == Record(u);
      var w :| Wins(local, ws, key, w) && v2 == Record(w);
      assert Wins(local, writes, key, w);
    }
  }

  /** Any winner is left in the store if the log lists it first. */
  lemma WinnerFirst(data: Data, writes: seq<WriteEntry>, key: string, u: WriteEntry) returns (ws: seq<WriteEntry>)
    requires key in data && Wins(data[key], writes, key, u)
    ensures multiset(ws) == multiset(writes) && Reconciled(data, ws)[key] == Record(u)
  {
    var i :| 0 <= i < |writes| && writes[i] == u;
    ws := [u] + (writes[..i] + writes[i + 1..]);
    MovedToFront(writes, i);
    forall w | w in ws ensures w in writes { assert w in multiset(writes); }
    FirstWinnerStays(data, ws, key);
  }

  lemma {:induction false} FirstWinnerStays(data: Data, ws: seq<WriteEntry>, key: string)
    requires key in data && ws != [] && Wins(data[key], ws, key, ws[0])
    ensures Reconciled(data, ws)[key] == Record(ws[0])
  {
    var init := ws[..|ws| - 1];
    if init == [] {
      assert Reconciled(data, init) == data;
    } else {
      assert ws == init + [ws[|ws| - 1]];
      FirstWinnerStays(data, init, key);
    }
  }

  /** Writes that beat nothing leave the store alone. */
  lemma {:induction false} ReconcileFixpoint(data: Data, writes: seq<WriteEntry>)
    requires forall w | w in writes && w.key in data :: !Below(ValueRank(data[w.key]), EntryRank(w))
    ensures Reconciled(data, writes) == data && Replaced(data, writes) == 0
  {
    if writes != [] {
      var init, w := writes[..|writes| - 1], writes[|writes| - 1];
      assert writes == init + [w];
      ReconcileFixpoint(data, init);
    }
  }

  /** A second run over the same log, in any order and with any repetitions, changes nothing. */
  lemma {:induction false} ReconcileIdempotent(data: Data, writes: seq<WriteEntry>, again: seq<WriteEntry>)
    requires forall w | w in again :: w in writes
    ensures Reconciled(Reconciled(data, writes), again) == Reconciled(data, writes)
    ensures Replaced(Reconciled(data, writes), again) == 0
  {
    var once := Reconciled(data, writes);
    forall w | w in again && w.key in once ensures !Below(ValueRank(once[w.key]), EntryRank(w)) {
      ReconcileIsJoin(data, writes, w.key);
    }
    ReconcileFixpoint(once, again);
  }

  /** The reported counter is zero exactly when the run changed nothing. */
  lemma {:induction false} ReplacedCountsChange(data: Data, writes: seq<WriteEntry>)
    ensures Replaced(data, writes) == 0 <==> Reconciled(data, writes) == data
  {
    if writes != [] {
      var init, w := writes[..|writes| - 1], writes[|writes| - 1];
      ReplacedCountsChange(data, init);
      var before, after := Reconciled(data, init), Reconciled(data, writes);
      if after != before {
        ReconcileIsJoin(data, init, w.key);
        var r0, r1, r2 := ValueRank(data[w.key]), ValueRank(before[w.key]), ValueRank(after[w.key]);
        assert Below(r1, r2) && !Below(r1, r0);
        assert after[w.key] != data[w.key];
      }
    }
  }

  ghost predicate ReplacesAt(data: Data, writes: seq<WriteEntry>, k: nat)
    requires k < |writes|
  {
    Reconciled(data, writes[..k + 1]) != Reconciled(data, writes[..k])
  }

  /** The positions of the log at which the loop replaced a local value. */
  ghost function ReplacedAt(data: Data, writes: seq<WriteEntry>): set<nat> {
    set k: nat | k < |writes| && ReplacesAt(data, writes, k)
  }

  lemma SamePosition(data: Data, writes: seq<WriteEntry>, n: nat, k: nat)
    requires k < n <= |writes|
    ensures ReplacesAt(data, writes[..n], k) <==> ReplacesAt(data, writes, k)
  {
    assert writes[..n][..k + 1] == writes[..k + 1] && writes[..n][..k] == writes[..k];
  }

  lemma OnePositionMore(data: Data, writes: seq<WriteEntry>, n: nat)
    requires n < |writes|
    ensures n !in ReplacedAt(data, writes[..n])
    ensures ReplacedAt(data, writes[..n + 1]) ==
            ReplacedAt(data, writes[..n]) + if Reconciled(data, writes[..n + 1]) != Reconciled(data, writes[..n]) then {n} else {}
  {
    var before, after := ReplacedAt(data, writes[..n]), ReplacedAt(data, writes[..n + 1]);
    forall k: nat | k < n ensures k in before <==> k in after {
      SamePosition(data, writes, n, k);
      SamePosition(data, writes, n + 1, k);
    }
    SamePosition(data, writes, n + 1, n);
  }

  lemma {:induction false} PrefixCountsPositions(data: Data, writes: seq<WriteEntry>, n: nat)
    requires n <= |writes|
    ensures Replaced(data, writes[..n]) == |ReplacedAt(data, writes[..n])|
    decreases n
  {
    if n == 0 {
      assert ReplacedAt(data, writes[..n]) == {};
    } else {
      PrefixCountsPositions(data, writes, n - 1);
      ReconciledStep(data, writes, n);
      OnePositionMore(data, writes, n - 1);
    }
  }

  /** The reported counter is the number of those positions. */
  lemma ReplacedCountsPositions(data: Data, writes: seq<WriteEntry>)
    ensures Replaced(data, writes) == |ReplacedAt(data, writes)|
  {
    PrefixCountsPositions(data, writes, |writes|);
    assert writes[..|writes|] == writes;
  }

  // ---------------------------------------------------------------- the engine object

  class Engine {
    const store: Store
    const recentWrites: RecentWriteLog

    ghost predicate Valid()
      reads this, recentWrites, recentWrites.entries, recentWrites.timestamps
    {
      recentWrites.Valid()
    }

    /** A log of 1000 writes kept for five minutes. */
    constructor (store: Store)
      ensures Valid() && this.store == store
      ensures fresh(recentWrites) && fresh(recentWrites.entries) && fresh(recentWrites.timestamps)
      ensures recentWrites.State() == Empty(1000) && recentWrites.maxAge == 300_000_000_000
    {
      this.store := store;
      recentWrites := new RecentWriteLog(1000, 300_000_000_000);
    }

    method RecordWrite(key: string, value: Bytes, nodeId: string, stamp: Hlc, now: int)
      requires Valid()
      modifies recentWrites`index, recentWrites`count, recentWrites.entries, recentWrites.timestamps
      ensures Valid()
      ensures recentWrites.State() == Pushed(old(recentWrites.State()), WriteEntry(key, value, nodeId, stamp, now))
    {
      recentWrites.Add(key, value, nodeId, stamp, now);
    }

    /** Look up, compare, and put if the logged write is newer; equal stamps are decided by node id. */
    method ResolveOne(write: WriteEntry) returns (replaced: bool)
      modifies store
      ensures store.data == Resolved(old(store.data), write)
      ensures replaced == (store.data != old(store.data))
      ensures replaced <==>
                && write.key in old(store.data)
                && var held := old(store.data)[write.key];
                   write.hlc.HappensAfter(held.hlc) || (write.hlc.Equal(held.hlc) && StringLess(held.nodeId, write.nodeId))
    {
      var local := store.Get(write.key);
      if local.None? {
        return false;
      }
      var stored := local.value;
      BelowTotal(EntryRank(write), EntryRank(write));
      if write.hlc.HappensAfter(stored.hlc) {
        var _ := store.PutWithHLC(write.key, write.value, write.nodeId, write.hlc);
        return true;
      } else if stored.hlc.HappensAfter(write.hlc) {
        return false;
      } else if write.hlc.Equal(stored.hlc) {
        if StringLess(stored.nodeId, write.nodeId) {
          var _ := store.PutWithHLC(write.key, write.value, write.nodeId, write.hlc);
          return true;
        }
      }
      return false;
    }

    /** The healed peer is only logged: the loop replays this node's own log. */
    method ReconcileWithPeer(now: int) returns (keysReconciled: nat)
      requires Valid()
      modifies store
      ensures Valid()
      ensures var writes := Live(old(recentWrites.State()).slots, now - recentWrites.maxAge);
              && store.data == Reconciled(old(store.data), writes)
              && keysReconciled == Replaced(old(store.data), writes)
    {
      var writes := recentWrites.GetAll(now);
      keysReconciled := 0;
      for i := 0 to |writes|
        invariant store.data == Reconciled(old(store.data), writes[..i])
        invariant keysReconciled == Replaced(old(store.data), writes[..i])
      {
        ReconciledStep(old(store.data), writes, i + 1);
        var replaced := ResolveOne(writes[i]);
        if replaced {
          keysReconciled := keysReconciled + 1;
        }
      }
      assert writes[..|writes|] == writes;
    }
  }
}
