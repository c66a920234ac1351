/**
 The request handlers of one node (internal/server/server.go). Clock readings, the current R and
 W, and what the peers answered are parameters.
 */
module Server {
  import opened Basics
  import opened Ring
  import opened HybridClock
  import opened Storage
  import opened Staleness
  import opened WriteLog
  import opened Reconcile
  import opened Replication

  datatype PutResponse = PutFailed | PutStored(version: int, timestamp: int, hlc: Hlc)

  datatype GetResponse =
    | NotFound
    | Unavailable                // too few replicas answered
    | TooStale                   // found, but past the staleness bound
    | Value(value: Bytes, version: int, timestamp: int, hlc: Hlc, isStale: bool)
  {
    predicate IsError() {
      Unavailable? || TooStale?
    }
  }

  function LocalReply(v: VersionedValue): ReplicaValue {
    ReplicaValue("local", v.value, v.version, v.timestamp, v.hlc, false)
  }

  /** The values a quorum read chooses from: the replies, then the local copy if there is one. */
  function Candidates(local: Option<VersionedValue>, replies: seq<ReplicaValue>): seq<ReplicaValue> {
    if local.Some? then replies + [LocalReply(local.value)] else replies
  }

  function Answer(best: Option<ReplicaValue>, maxAge: int, now: int): GetResponse {
    match best
    case None => NotFound
    case Some(v) =>
      if IsStale(v.hlc, maxAge, now) then TooStale else Value(v.value, v.version, v.timestamp, v.hlc, false)
  }

  function GetOutcome(local: Option<VersionedValue>, r: int, peers: set<string>, found: seq<ReplicaValue>, maxAge: int, now: int): GetResponse {
    if r == 1 then
      Answer(if local.Some? then Some(LocalReply(local.value)) else None, maxAge, now)
    else
      match QueryOutcome(peers, found, r)
      case None => Unavailable
      case Some(replies) => Answer(MostRecent(Candidates(local, replies)), maxAge, now)
  }

  /** A read that reports no error returns a value at least as new as the local copy and as every
      reply it counted, within the staleness bound. Each other response has its exact cause: too few
      answers, neither this node nor a counted peer holding the key, or a newest value that is stale. */
  lemma GetReturnsNewest(local: Option<VersionedValue>, r: int, peers: set<string>, found: seq<ReplicaValue>, maxAge: int, now: int)
    ensures var seen := Candidates(local, if r == 1 || peers == {} then [] else found);
            var tooFew := r > 1 && (if peers == {} then 0 else |found|) + 1 < r;
            var resp := GetOutcome(local, r, peers, found, maxAge, now);
            && (resp.Unavailable? <==> tooFew)
            && (resp.NotFound? <==> !tooFew && seen == [])
            && (resp.TooStale? <==> !tooFew && exists v :: Newest(seen, v) && IsStale(v.hlc, maxAge, now))
            && (resp.Value? ==>
                  && !resp.isStale && now - maxAge <= resp.hlc.physical
                  && exists v :: Newest(seen, v) && PayloadOf(v) == Payload(resp.value, resp.version, resp.timestamp, resp.hlc))
  {
    assert local.Some? ==> [] + [LocalReply(local.value)] == [LocalReply(local.value)];
    AnswerIsNewest(Candidates(local, if r == 1 || peers == {} then [] else found), maxAge, now);
  }

  /** The candidates are the replies in arrival order, and after them the stored record if there is one. */
  lemma CandidatesExactly(local: Option<VersionedValue>, found: seq<ReplicaValue>)
    ensures var seen := Candidates(local, found);
            && |seen| == |found| + (if local.Some? then 1 else 0) && seen[..|found|] == found
            && (local.Some? ==>
                  PayloadOf(seen[|found|]) == Payload(local.value.value, local.value.version, local.value.timestamp, local.value.hlc))
  {
  }

  /** With R = 1 the answer is the stored record itself, and it is refused exactly when it is stale. */
  lemma LocalReadReturnsRecord(v: VersionedValue, peers: set<string>, found: seq<ReplicaValue>, maxAge: int, now: int)
    ensures GetOutcome(Some(v), 1, peers, found, maxAge, now) ==
            if 0 <= maxAge && now - maxAge <= v.hlc.physical then Value(v.value, v.version, v.timestamp, v.hlc, false) else TooStale
    ensures GetOutcome(None, 1, peers, found, maxAge, now) == NotFound
  {
  }

  lemma AnswerIsNewest(seen: seq<ReplicaValue>, maxAge: int, now: int)
    ensures var resp := Answer(MostRecent(seen), maxAge, now);
            && !resp.Unavailable?
            && (resp.NotFound? <==> seen == [])
            && (resp.TooStale? <==> exists v :: Newest(seen, v) && IsStale(v.hlc, maxAge, now))
            && (resp.Value? ==>
                  && !resp.isStale && now - maxAge <= resp.hlc.physical
                  && exists v :: Newest(seen, v) && PayloadOf(v) == Payload(resp.value, resp.version, resp.timestamp, resp.hlc))
  {
    if seen != [] {
      MostRecentIsNewest(seen);
      var best := MostRecent(seen).value;
      assert Newest(seen, best) && PayloadOf(best) == Payload(best.value, best.version, best.timestamp, best.hlc);
    }
  }

  // ---------------------------------------------------------------- arrival order

  ghost predicate ReadIgnoresOrder(local: Option<VersionedValue>, r: int, peers: set<string>, found: seq<ReplicaValue>, maxAge: int, now: int) {
    forall shuffled: seq<ReplicaValue> :: multiset(shuffled) == multiset(found) ==>
      GetOutcome(local, r, peers, shuffled, maxAge, now) == GetOutcome(local, r, peers, found, maxAge, now)
  }

  /** No reply is needed to answer: R is one, no peer was asked, too few replied, or the local copy
      is stamped after every reply. */
  ghost predicate RepliesUnused(local: Option<VersionedValue>, r: int, peers: set<string>, found: seq<ReplicaValue>) {
    || r == 1 || peers == {} || |found| + 1 < r || found == []
    || (local.Some? && forall u | u in found :: local.value.hlc.HappensAfter(u.hlc))
  }

  ghost predicate NewestIsStale(found: seq<ReplicaValue>, maxAge: int, now: int) {
    exists v :: Newest(found, v) && IsStale(v.hlc, maxAge, now)
  }

  /** The local copy is the last candidate, so it is chosen only if it is stamped after every reply. */
  lemma LocalComesLast(local: Option<VersionedValue>, found: seq<ReplicaValue>)
    requires found != []
    ensures MostRecent(found).Some?
    ensures MostRecent(Candidates(local, found)) ==
            if local.Some? && local.value.hlc.HappensAfter(MostRecent(found).value.hlc) then Some(LocalReply(local.value)) else MostRecent(found)
  {
    MostRecentIsNewest(found);
    if local.Some? { assert (found + [LocalReply(local.value)])[..|found|] == found; }
  }

  /** What a client of a quorum read is told does not depend on the order in which the replies
      arrive exactly when no reply is needed, or the newest reply is past the staleness bound, or
      the replies with the newest stamp agree on value, version, timestamp and stamp. */
  lemma ReadIgnoresOrderExactly(local: Option<VersionedValue>, r: int, peers: set<string>, found: seq<ReplicaValue>, maxAge: int, now: int)
    ensures ReadIgnoresOrder(local, r, peers, found, maxAge, now) <==>
            RepliesUnused(local, r, peers, found) || NewestIsStale(found, maxAge, now) || NewestAgree(found)
  {
    if RepliesUnused(local, r, peers, found) {
      UnusedIgnoresOrder(local, r, peers, found, maxAge, now);
    } else if NewestIsStale(found, maxAge, now) || NewestAgree(found) {
      UsedIgnoresOrder(local, r, peers, found, maxAge, now);
    } else {
      var u, v :| Newest(found, u) && Newest(found, v) && PayloadOf(u) != PayloadOf(v);
      var us := NewestFirst(found, u);
      var vs := NewestFirst(found, v);
      WinnerAnswers(local, r, peers, found, us, u, maxAge, now);
      WinnerAnswers(local, r, peers, found, vs, v, maxAge, now);
    }
  }

  lemma SameLength<T>(xs: seq<T>, ys: seq<T>)
    requires multiset(xs) == multiset(ys)
    ensures |xs| == |ys|
  {
    assert |multiset(xs)| == |xs| && |multiset(ys)| == |ys|;
  }

  lemma UnusedIgnoresOrder(local: Option<VersionedValue>, r: int, peers: set<string>, found: seq<ReplicaValue>, maxAge: int, now: int)
    requires RepliesUnused(local, r, peers, found)
    ensures ReadIgnoresOrder(local, r, peers, found, maxAge, now)
  {
    forall shuffled: seq<ReplicaValue> | multiset(shuffled) == multiset(found)
      ensures GetOutcome(local, r, peers, shuffled, maxAge, now) == GetOutcome(local, r, peers, found, maxAge, now)
    {
      SameLength(shuffled, found);
      if r != 1 && peers != {} && |found| + 1 >= r && found != [] {
        LocalComesLast(local, found);
        LocalComesLast(local, shuffled);
        MostRecentIsNewest(found);
        MostRecentIsNewest(shuffled);
        assert MostRecent(shuffled).value in multiset(found);
      }
    }
  }

  /** If `v` wins among the replies, the read answers with it. */
  lemma WinnerAnswers(local: Option<VersionedValue>, r: int, peers: set<string>, found: seq<ReplicaValue>, shuffled: seq<ReplicaValue>,
                      v: ReplicaValue, maxAge: int, now: int)
    requires !RepliesUnused(local, r, peers, found) && multiset(shuffled) == multiset(found)
    requires Newest(found, v) && MostRecent(shuffled) == Some(v)
    ensures GetOutcome(local, r, peers, shuffled, maxAge, now) == Answer(Some(v), maxAge, now)
  {
    SameLength(shuffled, found);
    LocalComesLast(local, shuffled);
    if local.Some? {
      var u :| u in found && !local.value.hlc.HappensAfter(u.hlc);
    }
  }

  lemma SameAnswer(found: seq<ReplicaValue>, u: ReplicaValue, v: ReplicaValue, maxAge: int, now: int)
    requires Newest(found, u) && Newest(found, v) && (NewestIsStale(found, maxAge, now) || NewestAgree(found))
    ensures Answer(Some(u), maxAge, now) == Answer(Some(v), maxAge, now)
  {
    assert u.hlc.Equal(v.hlc);
    if !NewestAgree(found) {
      var w :| Newest(found, w) && IsStale(w.hlc, maxAge, now);
      assert w.hlc.Equal(u.hlc);
    }
  }

  lemma UsedIgnoresOrder(local: Option<VersionedValue>, r: int, peers: set<string>, found: seq<ReplicaValue>, maxAge: int, now: int)
    requires !RepliesUnused(local, r, peers, found) && (NewestIsStale(found, maxAge, now) || NewestAgree(found))
    ensures ReadIgnoresOrder(local, r, peers, found, maxAge, now)
  {
    MostRecentIsNewest(found);
    var best := MostRecent(found).value;
    WinnerAnswers(local, r, peers, found, found, best, maxAge, now);
    forall shuffled: seq<ReplicaValue> | multiset(shuffled) == multiset(found)
      ensures GetOutcome(local, r, peers, shuffled, maxAge, now) == GetOutcome(local, r, peers, found, maxAge, now)
    {
      ShuffledIsEmpty(shuffled, found);
      MostRecentIsNewest(shuffled);
      var v := MostRecent(shuffled).value;
      NewestOfShuffled(found, shuffled, v);
      WinnerAnswers(local, r, peers, found, shuffled, v, maxAge, now);
      SameAnswer(found, best, v, maxAge, now);
    }
  }

  class Server {
    const nodeId: string
    const clock: Clock
    const store: Store
    const detector: Detector
    const reconciler: Engine?

    ghost predicate Valid()
      reads this
      reads if reconciler == null then {} else {reconciler, reconciler.recentWrites, reconciler.recentWrites.entries, reconciler.recentWrites.timestamps}
    {
      && clock.nodeId == nodeId
      && (reconciler != null ==> reconciler.Valid() && reconciler.store == store)
    }

    constructor (nodeId: string, clock: Clock, store: Store, detector: Detector, reconciler: Engine?)
      requires clock.nodeId == nodeId
      requires reconciler != null ==> reconciler.Valid() && reconciler.store == store
      ensures Valid() && this.nodeId == nodeId && this.clock == clock && this.store == store
      ensures this.detector == detector && this.reconciler == reconciler
    {
      this.nodeId := nodeId;
      this.clock := clock;
      this.store := store;
      this.detector := detector;
      this.reconciler := reconciler;
    }

    method Put(key: string, value: Bytes, wall: int, now: int, peers: set<string>, results: seq<ReplicateResult>, requiredW: int)
      returns (resp: PutResponse)
      requires Valid() && OnePerPeer(peers, results)
      modifies clock, store
      modifies if reconciler == null then {} else {reconciler.recentWrites, reconciler.recentWrites.entries, reconciler.recentWrites.timestamps}
      ensures Valid()
      ensures clock.State() == Ticked(old(clock.State()), wall)
      ensures store.data == old(store.data)[key := Versioned(value, nodeId, clock.State().Reading())]
      ensures reconciler != null ==>
                reconciler.recentWrites.State() == Pushed(old(reconciler.recentWrites.State()), WriteEntry(key, value, nodeId, clock.State().Reading(), now))
      ensures resp.PutFailed? <==> peers != {} && 1 + |AckedPeers(results)| < requiredW
      ensures resp.PutStored? ==> resp.hlc == clock.State().Reading() && resp.version == resp.timestamp == resp.hlc.physical
    {
      var timestamp := clock.Now(wall);
      var vv := store.PutWithHLC(key, value, nodeId, timestamp);
      if reconciler != null {
        reconciler.RecordWrite(key, value, nodeId, timestamp, now);
      }
      var acks, ok := Replication.Replicate(peers, results, requiredW);
      if !ok {
        return PutFailed;
      }
      return PutStored(vv.version, vv.timestamp, vv.hlc);
    }

    method Get(key: string, requiredR: int, peers: set<string>, replies: seq<PeerReply>, now: int) returns (resp: GetResponse)
      requires Valid()
      modifies detector
      ensures resp == GetOutcome(if key in store.data then Some(store.data[key]) else None, requiredR, peers, FoundValues(replies), detector.maxAge, now)
      ensures detector.staleReadsRejected == old(detector.staleReadsRejected) + if resp.TooStale? then 1 else 0
      ensures detector.stalenessViolations == old(detector.stalenessViolations) + if resp.TooStale? then 1 else 0
    {
      var local := store.Get(key);
      if requiredR == 1 {
        if local.None? {
          return NotFound;
        }
        var rejected := detector.CheckStrict(local.value.hlc, now);
        if rejected {
          return TooStale;
        }
        return Value(local.value.value, local.value.version, local.value.timestamp, local.value.hlc, false);
      }
      var replicaValues := QueryReplicas(peers, replies, requiredR);
      if replicaValues.None? {
        return Unavailable;
      }
      var allValues := replicaValues.value;
      if local.Some? {
        allValues := allValues + [ReplicaValue("local", local.value.value, local.value.version, local.value.timestamp, local.value.hlc, false)];
      }
      var mostRecent := GetMostRecent(allValues);
      if mostRecent.None? {
        return NotFound;
      }
      var rejected := detector.CheckStrict(mostRecent.value.hlc, now);
      if rejected {
        return TooStale;
      }
      return Value(mostRecent.value.value, mostRecent.value.version, mostRecent.value.timestamp, mostRecent.value.hlc, false);
    }

    /** Answers a peer's quorum read from the local store alone; a stale copy is flagged, not refused. */
    method GetLocal(key: string, now: int) returns (resp: GetResponse)
      requires Valid()
      ensures resp.NotFound? <==> key !in store.data
      ensures !resp.IsError()
      ensures resp.Value? ==>
                var v := store.data[key];
                resp == Value(v.value, v.version, v.timestamp, v.hlc, !(0 <= detector.maxAge && now - detector.maxAge <= v.hlc.physical))
    {
      var local := store.Get(key);
      if local.None? {
        return NotFound;
      }
      var stale := IsStale(local.value.hlc, detector.maxAge, now);
      return Value(local.value.value, local.value.version, local.value.timestamp, local.value.hlc, stale);
    }

    /** A remote stamp refused for drift leaves the clock alone; the write is applied all the same. */
    method Replicate(key: string, value: Bytes, source: string, remote: Hlc, wall: int, now: int)
      requires Valid()
      modifies clock, store
      modifies if reconciler == null then {} else {reconciler.recentWrites, reconciler.recentWrites.entries, reconciler.recentWrites.timestamps}
      ensures Valid()
      ensures var m := Merged(old(clock.State()), remote, wall);
              clock.State() == if m.Some? then m.value else old(clock.State())
      ensures store.data == old(store.data)[key := Versioned(value, source, remote)]
      ensures reconciler != null ==>
                reconciler.recentWrites.State() == Pushed(old(reconciler.recentWrites.State()), WriteEntry(key, value, source, remote, now))
    {
      var _ := clock.Update(remote, wall);
      var _ := store.PutWithHLC(key, value, source, remote);
      if reconciler != null {
        reconciler.RecordWrite(key, value, source, remote, now);
      }
    }

    /** A health check hands out a stamp too, so it also moves the clock. */
    method HealthCheck(remote: Option<Hlc>, wall1: int, wall2: int) returns (stamp: Hlc)
      requires Valid()
      modifies clock
      ensures stamp == clock.State().Reading()
      ensures var before := old(clock.State());
              var m := if remote.Some? then Merged(before, remote.value, wall1) else None;
              clock.State() == Ticked(if m.Some? then m.value else before, wall2)
    {
      if remote.Some? {
        var _ := clock.Update(remote.value, wall1);
      }
      stamp := clock.Now(wall2);
    }
  }
}
