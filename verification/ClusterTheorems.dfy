/** The guarantees of the store, over every run of the cluster. */
module ClusterTheorems {
  import opened Replication
  import opened Server
  import opened Cluster
  import opened ClusterClocks
  import opened ClusterData

  // ---------------------------------------------------------------- acknowledged writes

  /** A finished write with at least one connected peer succeeded exactly when W distinct nodes are
      known to have stored it with its own stamp. */
  lemma SuccessMeansStored(states: seq<State>, steps: seq<Step>, i: nat)
    requires Run(states, steps) && i < |states[|steps|].writes| && i < |states[|steps|].rounds|
    requires states[|steps|].rounds[i].phase.Done? && states[|steps|].rounds[i].peers != {}
    ensures var s := states[|steps|];
            && WriteQuorum(s, i) <= s.replicas.Keys
            && (forall m | m in WriteQuorum(s, i) :: i in s.replicas[m].stored)
            && (s.rounds[i].phase.ok <==> |WriteQuorum(s, i)| >= s.rounds[i].w)
  {
    DataInvHolds(states, steps);
    var s := states[|steps|];
    assert RoundInv(s, i);
  }

  /** Success means W copies exactly when some peer was connected or one copy is enough: a node that
      reached nobody reports success for any W. */
  lemma SuccessMeansQuorumExactly(states: seq<State>, steps: seq<Step>, i: nat)
    requires Run(states, steps) && i < |states[|steps|].writes| && i < |states[|steps|].rounds|
    requires states[|steps|].rounds[i].phase == Done(true)
    ensures var s := states[|steps|]; var round := s.rounds[i];
            |WriteQuorum(s, i)| >= round.w <==> round.peers != {} || round.w <= 1
  {
    DataInvHolds(states, steps);
    var s := states[|steps|];
    assert RoundInv(s, i);
    if s.rounds[i].peers == {} { assert WriteQuorum(s, i) == {s.writes[i].node}; }
  }

  // ---------------------------------------------------------------- bounded staleness

  /** Every value a read returns is a write of that key whose issuer's wall clock had reached at
      least the reader's clock minus the staleness bound minus the issuer's drift bound; when the
      issuer's clock never went back, the reading behind the stamp itself had. */
  lemma BoundedStaleness(states: seq<State>, steps: seq<Step>, g: nat) returns (i: nat)
    requires Run(states, steps) && g < |states[|steps|].queries|
    requires var q := states[|steps|].queries[g]; q.result.Some? && q.result.value.resp.Value?
    ensures var s := states[|steps|];
            var q := s.queries[g];
            var resp := q.result.value.resp;
            && WellFormed(s)
            && i < |s.writes| && s.writes[i].key == q.key && s.writes[i].value == resp.value && s.writes[i].stamp == resp.hlc
            && resp.version == resp.timestamp == s.writes[i].stamp.physical
            && var bound := q.result.value.now - s.configs[q.node].maxStaleness - Slack(s, s.writes[i].node);
            && bound <= s.writes[i].peak
            && (s.writes[i].steady ==> bound <= s.writes[i].wall)
  {
    DataInvHolds(states, steps);
    QueryOk(states[|steps|], g);
    i := AnswerIsWrite(states[|steps|], states[|steps|].queries[g]);
    StampNearWall(states, steps, i);
  }

  lemma AnswerIsWrite(s: State, q: Read) returns (i: nat)
    requires WellFormed(s) && ReadOk(s, q) && q.result.Some? && q.result.value.resp.Value?
    ensures var resp := q.result.value.resp;
            && i < |s.writes| && s.writes[i].key == q.key && s.writes[i].value == resp.value && s.writes[i].stamp == resp.hlc
            && resp.version == resp.timestamp == s.writes[i].stamp.physical
            && q.result.value.now - s.configs[q.node].maxStaleness <= resp.hlc.physical
  {
    var fin := q.result.value;
    var found := Found(q.replies, fin.order);
    GetReturnsNewest(q.local, q.r, q.peers, found, s.configs[q.node].maxStaleness, fin.now);
    var seen := Candidates(q.local, if q.r == 1 || q.peers == {} then [] else found);
    var resp := fin.resp;
    var v :| Newest(seen, v) && PayloadOf(v) == Payload(resp.value, resp.version, resp.timestamp, resp.hlc);
    assert v in seen;
    i := SeenIsWrite(s, q, fin.order, v);
  }

  lemma SeenIsWrite(s: State, q: Read, order: seq<NodeId>, v: ReplicaValue) returns (i: nat)
    requires Informed(s, q) && (forall m | m in order :: m in q.replies)
    requires (q.local.Some? && v == LocalReply(q.local.value)) || v in Found(q.replies, order)
    ensures i < |s.writes| && s.writes[i].key == q.key && s.writes[i].value == v.value && s.writes[i].stamp == v.hlc
    ensures v.version == v.timestamp == v.hlc.physical
  {
    var found := Found(q.replies, order);
    if v in found {
      var j :| 0 <= j < |found| && found[j] == v;
      assert IsReplyOf(s.writes, q.key, q.replies[order[j]], q.origins[order[j]]);
      i := q.origins[order[j]];
    } else {
      i := q.origins[q.node];
    }
  }
}
