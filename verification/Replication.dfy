/**
 Quorum counting (internal/replication/coordinator.go). The peers contacted are a set of
 addresses; what their goroutines sent back is a sequence in arrival order, one entry per peer.
 */
module Replication {
  import opened Basics
  import opened HybridClock

  // ---------------------------------------------------------------- write acknowledgements

  datatype ReplicateResult = ReplicateResult(peer: string, success: bool)

  /** One result per contacted peer, which is what waiting for every goroutine guarantees. */
  ghost predicate OnePerPeer(peers: set<string>, results: seq<ReplicateResult>) {
    && (forall r | r in results :: r.peer in peers)
    && (forall i, j | 0 <= i < j < |results| :: results[i].peer != results[j].peer)
  }

  ghost function AckedPeers(results: seq<ReplicateResult>): set<string> {
    set r | r in results && r.success :: r.peer
  }

  /** The count and verdict when `acked` of the contacted peers acknowledged. A node with no
      connected peer reports success whatever `requiredAcks` is. */
  function AckOutcome(peers: set<string>, acked: nat, requiredAcks: int): (int, bool) {
    if peers == {} then (1, true) else (1 + acked, 1 + acked >= requiredAcks)
  }

  /** The acknowledgement count is the number of distinct nodes that acknowledged, this node
      included. */
  method Replicate(peers: set<string>, results: seq<ReplicateResult>, requiredAcks: int) returns (acks: int, ok: bool)
    requires OnePerPeer(peers, results)
    ensures (acks, ok) == AckOutcome(peers, |AckedPeers(results)|, requiredAcks)
    ensures acks == 1 + |AckedPeers(results)| && (ok <==> peers == {} || acks >= requiredAcks)
    ensures forall peer :: peer in AckedPeers(results) <==> ReplicateResult(peer, true) in results
    ensures acks <= 1 + |peers|
  {
    AckedPeersExactly(results);
    if |peers| == 0 {
      assert AckedPeers(results) == {};
      return 1, true;
    }
    var successCount := 1;
    for i := 0 to |results|
      invariant successCount == 1 + |AckedPeers(results[..i])|
    {
      AckedPeersStep(peers, results, i);
      if results[i].success {
        successCount := successCount + 1;
      }
    }
    assert results[..|results|] == results;
    SubsetSize(AckedPeers(results), peers);
    return successCount, successCount >= requiredAcks;
  }

  lemma AckedPeersExactly(results: seq<ReplicateResult>)
    ensures forall peer :: peer in AckedPeers(results) <==> ReplicateResult(peer, true) in results
  {
    forall peer ensures peer in AckedPeers(results) <==> ReplicateResult(peer, true) in results {
      if peer in AckedPeers(results) {
        var r :| r in results && r.success && r.peer == peer;
        assert r == ReplicateResult(peer, true);
      }
      if ReplicateResult(peer, true) in results { assert ReplicateResult(peer, true).success; }
    }
  }

  lemma AckedPeersStep(peers: set<string>, results: seq<ReplicateResult>, i: nat)
    requires OnePerPeer(peers, results) && i < |results|
    ensures |AckedPeers(results[..i + 1])| == |AckedPeers(results[..i])| + if results[i].success then 1 else 0
  {
    var before, r := results[..i], results[i];
    assert results[..i + 1] == before + [r];
    if r.success {
      assert AckedPeers(before + [r]) == AckedPeers(before) + {r.peer};
      assert r.peer !in AckedPeers(before);
    } else {
      assert AckedPeers(before + [r]) == AckedPeers(before);
    }
  }

  lemma SubsetSize<T>(a: set<T>, b: set<T>)
    requires a <= b
    ensures |a| <= |b|
  {
    assert b == a + (b - a);
  }

  // ---------------------------------------------------------------- read replies

  datatype ReplicaValue = ReplicaValue(peer: string, value: Bytes, version: int, timestamp: int, hlc: Hlc, isStale: bool)

  /** What a peer's goroutine saw: an RPC error, "not found", or a value. */
  datatype PeerReply = RpcError | Missing | Held(value: ReplicaValue)

  function FoundValues(replies: seq<PeerReply>): seq<ReplicaValue> {
    if replies == [] then []
    else
      var init := FoundValues(replies[..|replies| - 1]);
      match replies[|replies| - 1]
      case Held(v) => init + [v]
      case _ => init
  }

  /** Exactly the replies that found the key are kept, whatever their staleness flag, in the order of
      their arrival: they are the replies at the positions `at`, which increase. */
  ghost predicate KeepsFound(replies: seq<PeerReply>, found: seq<ReplicaValue>, at: seq<nat>) {
    && |at| == |found|
    && (forall i | 0 <= i < |at| :: at[i] < |replies| && replies[at[i]] == Held(found[i]))
    && (forall i, j | 0 <= i < j < |at| :: at[i] < at[j])
    && (forall k | 0 <= k < |replies| && replies[k].Held? :: k in at)
  }

  lemma KeepsOneMore(replies: seq<PeerReply>, found: seq<ReplicaValue>, at: seq<nat>, v: ReplicaValue)
    requires KeepsFound(replies, found, at)
    ensures KeepsFound(replies + [Held(v)], found + [v], at + [|replies|])
  {
    var all := at + [|replies|];
    forall k | 0 <= k < |replies| + 1 && (replies + [Held(v)])[k].Held? ensures k in all {
      if k < |replies| { assert replies[k].Held? && k in at; }
    }
  }

  lemma KeepsOneLess(replies: seq<PeerReply>, found: seq<ReplicaValue>, at: seq<nat>, r: PeerReply)
    requires KeepsFound(replies, found, at) && !r.Held?
    ensures KeepsFound(replies + [r], found, at)
  {
  }

  lemma {:induction false} FoundValuesKeepsFound(replies: seq<PeerReply>) returns (at: seq<nat>)
    ensures KeepsFound(replies, FoundValues(replies), at)
  {
    if replies == [] {
      at := [];
    } else {
      var init, r := replies[..|replies| - 1], replies[|replies| - 1];
      at := FoundValuesKeepsFound(init);
      assert replies == init + [r];
      if r.Held? {
        KeepsOneMore(init, FoundValues(init), at, r.value);
        at := at + [|init|];
      } else {
        KeepsOneLess(init, FoundValues(init), at, r);
      }
    }
  }

  /** So a value is among them if and only if some peer replied with it, and there are as many as
      replies that found the key. */
  lemma FoundValuesExactly(replies: seq<PeerReply>)
    ensures forall v :: v in FoundValues(replies) <==> Held(v) in replies
    ensures |FoundValues(replies)| == |set k | 0 <= k < |replies| && replies[k].Held?|
  {
    var at := FoundValuesKeepsFound(replies);
    var found := FoundValues(replies);
    forall v ensures v in found <==> Held(v) in replies {
      if v in found {
        var i :| 0 <= i < |found| && found[i] == v;
        assert replies[at[i]] == Held(v);
      }
      if Held(v) in replies {
        var k :| 0 <= k < |replies| && replies[k] == Held(v);
        var i :| 0 <= i < |at| && at[i] == k;
        assert found[i] == v;
      }
    }
    DistinctCount(at, set k | 0 <= k < |replies| && replies[k].Held?);
  }

  lemma {:induction false} DistinctCount(at: seq<nat>, s: set<nat>)
    requires (forall i | 0 <= i < |at| :: at[i] in s) && (forall k | k in s :: k in at)
    requires forall i, j | 0 <= i < j < |at| :: at[i] < at[j]
    ensures |at| == |s|
  {
    if at == [] {
      assert s == {};
    } else {
      var n := |at| - 1;
      var init := at[..n];
      assert at == init + [at[n]];
      DistinctCount(init, s - {at[n]});
    }
  }

  /** The read quorum: only peers holding the key count, plus this node unconditionally. */
  function QueryOutcome(peers: set<string>, found: seq<ReplicaValue>, required: int): Option<seq<ReplicaValue>> {
    if peers == {} then if required > 1 then None else Some([])
    else if |found| + 1 < required then None
    else Some(found)
  }

  method QueryReplicas(peers: set<string>, replies: seq<PeerReply>, required: int) returns (r: Option<seq<ReplicaValue>>)
    ensures r == QueryOutcome(peers, FoundValues(replies), required)
    ensures r.None? <==> (if peers == {} then 0 else |set k | 0 <= k < |replies| && replies[k].Held?|) + 1 < required
    ensures r.Some? && peers != {} ==> forall v :: v in r.value <==> Held(v) in replies
    ensures r.Some? && peers != {} ==> exists at: seq<nat> :: KeepsFound(replies, r.value, at)
    ensures r.Some? && peers == {} ==> r.value == []
  {
    FoundValuesExactly(replies);
    ghost var at := FoundValuesKeepsFound(replies);
    if |peers| == 0 {
      if required > 1 {
        return None;
      }
      return Some([]);
    }
    var allResults := [];
    for i := 0 to |replies|
      invariant allResults == FoundValues(replies[..i])
    {
      assert replies[..i + 1][..i] == replies[..i];
      match replies[i]
      case Held(v) => allResults := allResults + [v];
      case _ =>
    }
    assert replies[..|replies|] == replies;
    var totalResponses := |allResults| + 1;
    if totalResponses < required {
      return None;
    }
    return Some(allResults);
  }

  // ---------------------------------------------------------------- choosing the answer

  function MostRecent(values: seq<ReplicaValue>): Option<ReplicaValue> {
    if values == [] then None
    else if |values| == 1 then Some(values[0])
    else
      var best, v := MostRecent(values[..|values| - 1]), values[|values| - 1];
      if best.Some? && v.hlc.HappensAfter(best.value.hlc) then Some(v) else best
  }

  /** `v` is one of the values and none of them is stamped later. */
  ghost predicate Newest(values: seq<ReplicaValue>, v: ReplicaValue) {
    && v in values
    && forall u | u in values :: !u.hlc.HappensAfter(v.hlc)
  }

  lemma {:induction false} MostRecentIsNewest(values: seq<ReplicaValue>)
    requires values != []
    ensures MostRecent(values).Some? && Newest(values, MostRecent(values).value)
  {
    if |values| > 1 {
      var init, v := values[..|values| - 1], values[|values| - 1];
      MostRecentIsNewest(init);
      assert values == init + [v];
    }
  }

  method GetMostRecent(values: seq<ReplicaValue>) returns (r: Option<ReplicaValue>)
    ensures r == MostRecent(values)
    ensures r.None? <==> values == []
    ensures r.Some? ==> Newest(values, r.value)
  {
    if |values| == 0 {
      return None;
    }
    var mostRecent := values[0];
    for i := 1 to |values|
      invariant MostRecent(values[..i]) == Some(mostRecent)
    {
      assert values[..i + 1][..i] == values[..i];
      if values[i].hlc.HappensAfter(mostRecent.hlc) {
        mostRecent := values[i];
      }
    }
    assert values[..|values|] == values;
    MostRecentIsNewest(values);
    return Some(mostRecent);
  }

  lemma {:induction false} FirstWinsTies(values: seq<ReplicaValue>)
    requires values != [] && Newest(values, values[0])
    ensures MostRecent(values) == Some(values[0])
  {
    if |values| > 1 {
      var init := values[..|values| - 1];
      assert values == init + [values[|values| - 1]];
      FirstWinsTies(init);
    }
  }

  /** The stamp chosen does not depend on the order in which the replies arrived. */
  lemma MostRecentStampIgnoresOrder(values: seq<ReplicaValue>, shuffled: seq<ReplicaValue>)
    requires values != [] && multiset(values) == multiset(shuffled)
    ensures MostRecent(values).Some? && MostRecent(shuffled).Some?
    ensures MostRecent(values).value.hlc.Equal(MostRecent(shuffled).value.hlc)
  {
    assert shuffled != [] by { assert values[0] in multiset(shuffled); }
    MostRecentIsNewest(values);
    MostRecentIsNewest(shuffled);
    var a, b := MostRecent(values).value, MostRecent(shuffled).value;
    assert a in multiset(shuffled) && b in multiset(values);
  }

  /** What a client is told about a reply: everything but where it came from and its own staleness flag. */
  datatype Payload = Payload(value: Bytes, version: int, timestamp: int, hlc: Hlc)

  function PayloadOf(v: ReplicaValue): Payload {
    Payload(v.value, v.version, v.timestamp, v.hlc)
  }

  function Chosen(values: seq<ReplicaValue>): Option<Payload> {
    var best := MostRecent(values);
    if best.Some? then Some(PayloadOf(best.value)) else None
  }

  ghost predicate ChoiceIgnoresOrder(values: seq<ReplicaValue>) {
    forall shuffled: seq<ReplicaValue> :: multiset(shuffled) == multiset(values) ==> Chosen(shuffled) == Chosen(values)
  }

  /** All replies that carry the newest stamp say the same. */
  ghost predicate NewestAgree(values: seq<ReplicaValue>) {
    forall u, v | Newest(values, u) && Newest(values, v) :: PayloadOf(u) == PayloadOf(v)
  }

  lemma ShuffledIsEmpty<T>(xs: seq<T>, ys: seq<T>)
    requires multiset(xs) == multiset(ys)
    ensures xs == [] <==> ys == []
  {
    assert xs != [] ==> xs[0] in multiset(ys);
    assert ys != [] ==> ys[0] in multiset(xs);
  }

  lemma NewestOfShuffled(values: seq<ReplicaValue>, shuffled: seq<ReplicaValue>, v: ReplicaValue)
    requires multiset(values) == multiset(shuffled) && Newest(shuffled, v)
    ensures Newest(values, v)
  {
    assert v in multiset(values);
    forall u | u in values ensures !u.hlc.HappensAfter(v.hlc) { assert u in multiset(shuffled); }
  }

  /** What is chosen is independent of arrival order exactly when the replies that carry the newest
      stamp agree on value, version, timestamp and stamp, whichever peers sent them. */
  lemma MostRecentValueIgnoresOrder(values: seq<ReplicaValue>)
    ensures ChoiceIgnoresOrder(values) <==> NewestAgree(values)
  {
    if ChoiceIgnoresOrder(values) {
      forall u, v | Newest(values, u) && Newest(values, v) ensures PayloadOf(u) == PayloadOf(v) {
        var us := NewestFirst(values, u);
        var vs := NewestFirst(values, v);
        assert Chosen(us) == Some(PayloadOf(u)) && Chosen(vs) == Some(PayloadOf(v));
      }
    }
    if NewestAgree(values) {
      forall shuffled: seq<ReplicaValue> | multiset(shuffled) == multiset(values) ensures Chosen(shuffled) == Chosen(values) {
        ShuffledIsEmpty(shuffled, values);
        if values != [] {
          MostRecentIsNewest(values);
          MostRecentIsNewest(shuffled);
          NewestOfShuffled(values, shuffled, MostRecent(shuffled).value);
        }
      }
    }
  }

  /** Any newest reply wins if it arrives first. */
  lemma NewestFirst(values: seq<ReplicaValue>, v: ReplicaValue) returns (shuffled: seq<ReplicaValue>)
    requires Newest(values, v)
    ensures multiset(shuffled) == multiset(values) && shuffled != [] && shuffled[0] == v && MostRecent(shuffled) == Some(v)
  {
    var i :| 0 <= i < |values| && values[i] == v;
    shuffled := [v] + (values[..i] + values[i + 1..]);
    MovedToFront(values, i);
    forall u | u in shuffled ensures u in values { assert u in multiset(values); }
    FirstWinsTies(shuffled);
  }
}
