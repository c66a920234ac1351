/** When quorum reads are fresh: for every read of every run, and for every read a state allows. */
module ClusterFreshness {
  import opened Basics
  import opened HybridClock
  import opened Storage
  import opened Replication
  import opened Staleness
  import opened Server
  import opened Cluster
  import opened ClusterData
  import opened ClusterRuns

  // ---------------------------------------------------------------- quorums

  lemma DisjointFit<T>(nodes: set<T>, a: set<T>, b: set<T>)
    requires a <= nodes && b <= nodes && |a| + |b| > |nodes|
    ensures a * b != {}
  {
    SubsetSize(a + b, nodes);
    assert |a + b| == |a| + |b| - |a * b|;
  }

  lemma CommonMember<T>(nodes: set<T>, a: set<T>, b: set<T>) returns (x: T)
    requires a <= nodes && b <= nodes && |a| + |b| > |nodes|
    ensures x in a && x in b
  {
    DisjointFit(nodes, a, b);
    x :| x in a * b;
  }

  ghost predicate QuorumsMeet<T(!new)>(nodes: set<T>, r: int, w: int) {
    forall a: set<T>, b: set<T> | a <= nodes && b <= nodes && |a| >= r && |b| >= w :: a * b != {}
  }

  lemma {:induction false} SubsetOfSize<T>(s: set<T>, n: nat) returns (t: set<T>)
    requires n <= |s|
    ensures t <= s && |t| == n
    decreases n
  {
    if n == 0 {
      t := {};
    } else {
      var x :| x in s;
      var u := SubsetOfSize(s - {x}, n - 1);
      t := u + {x};
    }
  }

  /** The intersection rule the configuration and the controller check is exactly the one needed:
      every read quorum meets every write quorum if and only if R + W > N. */
  lemma QuorumRule<T(!new)>(nodes: set<T>, r: nat, w: nat)
    requires r <= |nodes| && w <= |nodes|
    ensures QuorumsMeet(nodes, r, w) <==> r + w > |nodes|
  {
    if r + w > |nodes| {
      forall a: set<T>, b: set<T> | a <= nodes && b <= nodes && |a| >= r && |b| >= w ensures a * b != {} {
        DisjointFit(nodes, a, b);
      }
    } else {
      var a := SubsetOfSize(nodes, r);
      assert |nodes - a| == |nodes| - r;
      var b := SubsetOfSize(nodes - a, w);
      assert a <= nodes && b <= nodes && |a| >= r && |b| >= w && a * b == {};
    }
  }

  // ---------------------------------------------------------------- one finished read

  ghost predicate NotBefore(stamp: Option<Hlc>, h: Hlc) {
    stamp.Some? && !stamp.value.HappensBefore(h)
  }

  /** The response is a value stamped no earlier than `h`. */
  ghost predicate IsFresh(resp: GetResponse, h: Hlc) {
    resp.Value? && !resp.hlc.HappensBefore(h)
  }

  /** The nodes whose copies a read chooses from. */
  ghost function Counted(q: Read): set<NodeId> {
    if q.r == 1 then {q.node} else {q.node} + q.replies.Keys
  }

  lemma {:induction false} EnumerationSize(order: seq<NodeId>, s: set<NodeId>)
    requires Enumerates(order, s)
    ensures |order| == |s|
    decreases |order|
  {
    if order == [] {
      assert s == {};
    } else {
      var rest := s - {order[0]};
      assert Enumerates(order[1..], rest);
      EnumerationSize(order[1..], rest);
    }
  }

  lemma EnoughAnswers(local: Option<VersionedValue>, r: int, to: set<NodeId>, found: seq<ReplicaValue>, maxAge: int, now: int)
    requires (to == {} ==> found == []) && !GetOutcome(local, r, to, found, maxAge, now).IsError()
    ensures r <= 1 || |found| + 1 >= r
  {
  }

  lemma CountedSize(q: Read)
    requires q.node !in q.replies
    ensures |Counted(q)| == if q.r == 1 then 1 else 1 + |q.replies.Keys|
  {
  }

  /** A read that reported no error counted R nodes, itself included. */
  lemma ReadQuorumSize(s: State, q: Read)
    requires WellFormed(s) && ReadShape(s, q) && q.result.Some? && !q.result.value.resp.IsError()
    ensures |Counted(q)| >= q.r && Counted(q) <= s.configs.Keys
  {
    var fin := q.result.value;
    EnumerationSize(fin.order, q.replies.Keys);
    CountedSize(q);
    EnoughAnswers(q.local, q.r, q.peers, Found(q.replies, fin.order), s.configs[q.node].maxStaleness, fin.now);
  }

  /** The candidates of a read are what it heard from the nodes it counted. */
  lemma CandidateOf(q: Read, order: seq<NodeId>, m: NodeId)
    requires Enumerates(order, q.replies.Keys) && q.node !in q.replies && m in Counted(q) && Heard(q, m).Some?
    ensures exists v :: v in Candidates(q.local, if q.r == 1 then [] else Found(q.replies, order)) && v.hlc == Heard(q, m).value
  {
    var found := Found(q.replies, order);
    var seen := Candidates(q.local, if q.r == 1 then [] else found);
    if m == q.node {
      assert LocalReply(q.local.value) in seen;
    } else {
      var j :| 0 <= j < |order| && order[j] == m;
      assert found[j] in seen;
    }
  }

  lemma CandidateFrom(q: Read, order: seq<NodeId>, v: ReplicaValue) returns (m: NodeId)
    requires Enumerates(order, q.replies.Keys) && q.node !in q.replies
    requires v in Candidates(q.local, if q.r == 1 then [] else Found(q.replies, order))
    ensures m in Counted(q) && Heard(q, m) == Some(v.hlc)
  {
    var found := Found(q.replies, order);
    if q.r != 1 && v in found {
      var j :| 0 <= j < |found| && found[j] == v;
      m := order[j];
      assert m in q.replies;
    } else {
      m := q.node;
    }
  }

  /** A response is fresh exactly when something the read counted was. */
  lemma ResponseIsFreshExactly(s: State, q: Read, h: Hlc)
    requires WellFormed(s) && ReadShape(s, q) && q.result.Some? && !q.result.value.resp.IsError()
    ensures IsFresh(q.result.value.resp, h) <==> exists m :: m in Counted(q) && NotBefore(Heard(q, m), h)
  {
    var fin := q.result.value;
    var found := Found(q.replies, fin.order);
    GetReturnsNewest(q.local, q.r, q.peers, found, s.configs[q.node].maxStaleness, fin.now);
    if q.peers == {} { assert fin.order == [] by { EnumerationSize(fin.order, q.replies.Keys); } }
    var seen := Candidates(q.local, if q.r == 1 then [] else found);
    assert seen == Candidates(q.local, if q.r == 1 || q.peers == {} then [] else found);
    if IsFresh(fin.resp, h) {
      var v :| Newest(seen, v) && v.hlc == fin.resp.hlc;
      var m := CandidateFrom(q, fin.order, v);
    }
    if m :| m in Counted(q) && NotBefore(Heard(q, m), h) {
      CandidateOf(q, fin.order, m);
    }
  }

  /** The copy of `key` at `m` is stamped no earlier than `h`. */
  ghost predicate Holds(s: State, m: NodeId, key: string, h: Hlc) {
    m in s.replicas && NotBefore(CopyStamp(s, m, key), h)
  }

  ghost predicate FinishedRead(s: State, g: nat) {
    g < |s.queries| && s.queries[g].result.Some? && !s.queries[g].result.value.resp.IsError()
  }

  /** `m` answered read `g` at a moment when its copy was not before `h`. */
  ghost predicate AnsweredFresh(states: seq<State>, g: nat, m: NodeId, key: string, h: Hlc) {
    exists j: nat :: AnsweredAt(states, g, m, j) && Holds(states[j], m, key, h)
  }

  lemma HeardIsHeld(states: seq<State>, steps: seq<Step>, g: nat, m: NodeId, h: Hlc)
    requires Run(states, steps) && HasAnswered(states[|steps|], g, m)
    ensures var q := states[|steps|].queries[g];
            NotBefore(Heard(q, m), h) <==> AnsweredFresh(states, g, m, q.key, h)
  {
    var q := states[|steps|].queries[g];
    var j := AnswerExists(states, steps, |steps|, g, m);
    AnswerRecorded(states, steps, g, m, j);
    if AnsweredFresh(states, g, m, q.key, h) {
      var k: nat :| AnsweredAt(states, g, m, k) && Holds(states[k], m, q.key, h);
      AnswerRecorded(states, steps, g, m, k);
    }
  }

  lemma FreshIsHeard(states: seq<State>, steps: seq<Step>, g: nat, h: Hlc)
    requires Run(states, steps) && FinishedRead(states[|steps|], g)
    ensures var q := states[|steps|].queries[g];
            IsFresh(q.result.value.resp, h) <==> exists m :: m in Counted(q) && NotBefore(Heard(q, m), h)
  {
    StateOk(states, steps, |steps|);
    QueryOk(states[|steps|], g);
    ResponseIsFreshExactly(states[|steps|], states[|steps|].queries[g], h);
  }

  /** Exactly when a read is fresh, in every run and however it interleaves with writes, repairs and
      other reads: some node it counted held a copy not before `h` at the step by which it answered. */
  lemma ReadIsFreshExactly(states: seq<State>, steps: seq<Step>, g: nat, h: Hlc)
    requires Run(states, steps) && FinishedRead(states[|steps|], g)
    ensures var q := states[|steps|].queries[g];
            IsFresh(q.result.value.resp, h) <==> exists m :: m in Counted(q) && AnsweredFresh(states, g, m, q.key, h)
  {
    var q := states[|steps|].queries[g];
    FreshIsHeard(states, steps, g, h);
    forall m | m in Counted(q) ensures NotBefore(Heard(q, m), h) <==> AnsweredFresh(states, g, m, q.key, h) {
      HeardIsHeld(states, steps, g, m, h);
    }
  }

  // ---------------------------------------------------------------- reads after a write

  /** The copy of `key` at `m` goes from not before `h` to before `h`. */
  ghost predicate FallsAt(states: seq<State>, j: nat, m: NodeId, key: string, h: Hlc) {
    j + 1 < |states| && Holds(states[j], m, key, h) && !Holds(states[j + 1], m, key, h)
  }

  /** Between storing write `i` and answering read `g`, the copy at `m` fell behind the write. */
  ghost predicate FellBehind(states: seq<State>, g: nat, i: nat, m: NodeId, w: Write) {
    exists j: nat ::
      && FallsAt(states, j, m, w.key, w.stamp)
      && i in states[j].replicas[m].stored && !HasAnswered(states[j], g, m)
  }

  lemma NewInReplica(s: State, step: Step, m: NodeId, i: nat)
    requires DataInv(s) && Enabled(s, step) && IsReplicaStep(step) && m in s.configs && i !in s.replicas[m].stored
    requires m in ExecReplica(s, step).replicas && i in ExecReplica(s, step).replicas[m].stored
    ensures step == StoreWrite(m, i)
  {
    if step.RepairStore? { RepairingIsStored(s, step.m); }
  }

  lemma RepairingIsStored(s: State, m: NodeId)
    requires DataInv(s) && m in s.configs && s.replicas[m].repairing.Some?
    ensures s.replicas[m].repairing.value in s.replicas[m].stored
  {
    assert ReplicaInv(s, m);
  }

  /** A write enters a store only by being put there. */
  lemma NewStoreStep(s: State, step: Step, m: NodeId, i: nat)
    requires DataInv(s) && Enabled(s, step) && m in s.configs && i !in s.replicas[m].stored
    requires m in Exec(s, step).replicas && i in Exec(s, step).replicas[m].stored
    ensures step == StoreWrite(m, i)
  {
    if IsReplicaStep(step) {
      NewInReplica(s, step, m, i);
    }
  }

  lemma NewlyStored(states: seq<State>, steps: seq<Step>, n: nat, m: NodeId, i: nat)
    requires Run(states, steps) && n < |steps| && DataInv(states[n]) && m in states[n].replicas && m in states[n + 1].replicas
    requires i !in states[n].replicas[m].stored && i in states[n + 1].replicas[m].stored
    ensures i < |states[n].writes|
    ensures CopyStamp(states[n + 1], m, states[n].writes[i].key) == Some(states[n].writes[i].stamp)
  {
    assert StepAt(states, steps, n);
    NewStoreStep(states[n], steps[n], m, i);
  }

  lemma NotYetAnswered(states: seq<State>, steps: seq<Step>, n: nat, g: nat, m: NodeId)
    requires Run(states, steps) && n < |steps| && !HasAnswered(states[n + 1], g, m)
    ensures !HasAnswered(states[n], g, m)
  {
    if g < |states[n].queries| { QueryGrows(states, steps, n, n + 1, g); }
  }

  lemma NotFallen(states: seq<State>, k: nat, g: nat, i: nat, m: NodeId, w: Write)
    requires k + 1 < |states| && !FellBehind(states, g, i, m, w) && Holds(states[k], m, w.key, w.stamp)
    requires i in states[k].replicas[m].stored && !HasAnswered(states[k], g, m)
    ensures Holds(states[k + 1], m, w.key, w.stamp)
  {
    assert !FallsAt(states, k, m, w.key, w.stamp);
  }

  /** While `m` has not answered and its copy has not fallen behind, it holds the write or a newer one. */
  lemma {:induction false} StaysUp(states: seq<State>, steps: seq<Step>, n: nat, g: nat, i: nat, m: NodeId, w: Write)
    requires Run(states, steps) && n <= |steps| && i < |states[n].writes| && states[n].writes[i] == w
    requires m in states[n].replicas && i in states[n].replicas[m].stored && !HasAnswered(states[n], g, m)
    requires !FellBehind(states, g, i, m, w)
    ensures Holds(states[n], m, w.key, w.stamp)
    decreases n
  {
    assert n > 0;
    var k := n - 1;
    StateOk(states, steps, k);
    RunStepExtends(states, steps, k);
    NotYetAnswered(states, steps, k, g, m);
    if i in states[k].replicas[m].stored {
      StoredExists(states[k], m, i);
      StaysUp(states, steps, k, g, i, m, w);
      NotFallen(states, k, g, i, m, w);
    } else {
      NewlyStored(states, steps, k, m, i);
    }
  }

  lemma StoredExists(s: State, m: NodeId, i: nat)
    requires DataInv(s) && m in s.configs && i in s.replicas[m].stored
    ensures i < |s.writes|
  {
    assert ReplicaInv(s, m);
    assert KeyHeld(s.writes, s.replicas[m], i);
  }

  /** A finished read of the key of write `i`, without error, that began after the write had
      succeeded; the write had a connected peer, and the R and W that were used satisfy R + W > N. */
  ghost predicate ReadAfterWrite(s: State, g: nat, i: nat) {
    && FinishedRead(s, g) && i < |s.writes| && i < |s.rounds|
    && i in s.queries[g].after && s.writes[i].key == s.queries[g].key
    && s.rounds[i].peers != {}
    && s.queries[g].r + s.rounds[i].w > |s.configs|
  }

  lemma WriteQuorumSize(s: State, i: nat)
    requires DataInv(s) && i < |s.writes| && s.rounds[i].phase == Done(true) && s.rounds[i].peers != {}
    ensures WriteQuorum(s, i) <= s.configs.Keys && |WriteQuorum(s, i)| >= s.rounds[i].w
  {
    assert RoundInv(s, i);
  }

  lemma QuorumSizes(s: State, g: nat, i: nat)
    requires DataInv(s) && ReadAfterWrite(s, g, i)
    ensures var q := s.queries[g];
            && WriteQuorum(s, i) <= s.configs.Keys && |WriteQuorum(s, i)| >= s.rounds[i].w
            && Counted(q) <= s.configs.Keys && |Counted(q)| >= q.r
  {
    QueryOk(s, g);
    WriteQuorumSize(s, i);
    ReadQuorumSize(s, s.queries[g]);
  }

  /** A node of the write quorum that the read counted. */
  lemma CommonNode(s: State, g: nat, i: nat) returns (m: NodeId)
    requires DataInv(s) && ReadAfterWrite(s, g, i)
    ensures m in Counted(s.queries[g]) && m in WriteQuorum(s, i) && HasAnswered(s, g, m)
  {
    QuorumSizes(s, g, i);
    m := CommonMember(s.configs.Keys, Counted(s.queries[g]), WriteQuorum(s, i));
  }

  lemma RunCommonNode(states: seq<State>, steps: seq<Step>, g: nat, i: nat) returns (m: NodeId)
    requires Run(states, steps) && ReadAfterWrite(states[|steps|], g, i)
    ensures m in Counted(states[|steps|].queries[g]) && m in WriteQuorum(states[|steps|], i)
    ensures HasAnswered(states[|steps|], g, m)
  {
    var s := states[|steps|];
    StateOk(states, steps, |steps|);
    m := CommonNode(s, g, i);
  }

  lemma QuorumStores(s: State, i: nat, m: NodeId)
    requires DataInv(s) && i < |s.writes| && s.rounds[i].phase == Done(true) && m in WriteQuorum(s, i)
    ensures m in s.replicas && i in s.replicas[m].stored
  {
    assert RoundInv(s, i);
  }

  lemma QuorumStored(early: State, late: State, i: nat, m: NodeId)
    requires DataInv(early) && Extends(early, late) && i in Succeeded(early.rounds)
    requires i < |late.writes| && m in WriteQuorum(late, i)
    ensures i < |early.writes| && early.writes[i] == late.writes[i]
    ensures m in early.replicas && i in early.replicas[m].stored
  {
    assert early.writes[i] == late.writes[i] && early.rounds[i] == late.rounds[i];
    QuorumStores(early, i, m);
  }

  /** A node of the write quorum had the write in its store when it answered. */
  lemma StoredWhenAnswering(states: seq<State>, steps: seq<Step>, g: nat, i: nat, m: NodeId, j: nat)
    requires Run(states, steps) && AnsweredAt(states, g, m, j)
    requires var s := states[|steps|]; i < |s.writes| && i < |s.rounds| && m in WriteQuorum(s, i)
    requires g < |states[|steps|].queries| && i in states[|steps|].queries[g].after
    ensures i < |states[j].writes| && states[j].writes[i] == states[|steps|].writes[i]
    ensures m in states[j].replicas && i in states[j].replicas[m].stored
  {
    AnswerRecorded(states, steps, g, m, j);
    StateOk(states, steps, j);
    RunGrows(states, steps, j, |steps|);
    QuorumStored(states[j], states[|steps|], i, m);
  }

  lemma FreshFrom(states: seq<State>, steps: seq<Step>, g: nat, m: NodeId, h: Hlc)
    requires Run(states, steps) && FinishedRead(states[|steps|], g)
    requires var q := states[|steps|].queries[g]; m in Counted(q) && AnsweredFresh(states, g, m, q.key, h)
    ensures IsFresh(states[|steps|].queries[g].result.value.resp, h)
  {
    ReadIsFreshExactly(states, steps, g, h);
  }

  lemma CommonAnswersFresh(states: seq<State>, steps: seq<Step>, g: nat, i: nat, m: NodeId)
    requires Run(states, steps) && HasAnswered(states[|steps|], g, m)
    requires var s := states[|steps|]; i < |s.writes| && i < |s.rounds| && m in WriteQuorum(s, i)
    requires i in states[|steps|].queries[g].after && !FellBehind(states, g, i, m, states[|steps|].writes[i])
    ensures var w := states[|steps|].writes[i]; AnsweredFresh(states, g, m, w.key, w.stamp)
  {
    var w := states[|steps|].writes[i];
    var j := AnswerExists(states, steps, |steps|, g, m);
    StoredWhenAnswering(states, steps, g, i, m, j);
    StaysUp(states, steps, j, g, i, m, w);
    assert AnsweredAt(states, g, m, j) && Holds(states[j], m, w.key, w.stamp);
  }

  /** Quorum reads are fresh: in every run such a read returns a value no older than the write, unless
      between storing the write and answering a copy of its quorum fell behind it. R and W are the ones
      the two requests actually used, wherever and whenever they read them. */
  lemma QuorumReadIsFresh(states: seq<State>, steps: seq<Step>, g: nat, i: nat)
    requires Run(states, steps) && ReadAfterWrite(states[|steps|], g, i)
    requires var s := states[|steps|];
             forall m | m in WriteQuorum(s, i) && m in Counted(s.queries[g]) :: !FellBehind(states, g, i, m, s.writes[i])
    ensures IsFresh(states[|steps|].queries[g].result.value.resp, states[|steps|].writes[i].stamp)
  {
    var m := RunCommonNode(states, steps, g, i);
    CommonAnswersFresh(states, steps, g, i, m);
    FreshFrom(states, steps, g, m, states[|steps|].writes[i].stamp);
  }

  // ---------------------------------------------------------------- ordered application

  /** The write a step puts into a store. */
  ghost function Put(s: State, step: Step): nat
    requires step.StoreWrite? || (step.RepairStore? && step.m in s.replicas && s.replicas[step.m].repairing.Some?)
  {
    if step.StoreWrite? then step.i else s.replicas[step.m].repairing.value
  }

  /** The step puts into the store of `m` a write of `key` stamped before the copy it replaces. */
  ghost predicate PutsBack(s: State, step: Step, m: NodeId, key: string) {
    && (step.StoreWrite? || step.RepairStore?) && step.m == m && m in s.replicas
    && (step.RepairStore? ==> s.replicas[m].repairing.Some?)
    && Put(s, step) < |s.writes|
    && var w := s.writes[Put(s, step)];
       w.key == key && key in s.replicas[m].data && w.stamp.HappensBefore(s.replicas[m].data[key].hlc)
  }

  lemma StoreFalls(s: State, n: NodeId, i: nat, m: NodeId, key: string, h: Hlc)
    requires n in s.replicas && i < |s.writes| && Holds(s, m, key, h) && !Holds(StoreAt(s, n, i), m, key, h)
    ensures n == m && s.writes[i].key == key && s.writes[i].stamp.HappensBefore(s.replicas[m].data[key].hlc)
  {
  }

  lemma FallIsPutBack(s: State, step: Step, m: NodeId, key: string, h: Hlc)
    requires WellFormed(s) && Enabled(s, step) && Holds(s, m, key, h) && !Holds(Exec(s, step), m, key, h)
    ensures PutsBack(s, step, m, key)
  {
    if step.StoreWrite? {
      StoreFalls(s, step.m, step.i, m, key, h);
    } else if step.RepairStore? {
      var rep := s.replicas[step.m];
      StoreFalls(s.(replicas := s.replicas[step.m := rep.(repairing := None)]), step.m, rep.repairing.value, m, key, h);
    } else {
      OthersKeepCopies(s, step, m, key);
    }
  }

  lemma OthersKeepCopies(s: State, step: Step, m: NodeId, key: string)
    requires WellFormed(s) && Enabled(s, step) && !step.StoreWrite? && !step.RepairStore? && m in s.replicas
    ensures m in Exec(s, step).replicas && CopyStamp(Exec(s, step), m, key) == CopyStamp(s, m, key)
  {
    if IsReplicaStep(step) { OthersKeepData(s, step, m); }
  }

  lemma OthersKeepData(s: State, step: Step, m: NodeId)
    requires WellFormed(s) && Enabled(s, step) && IsReplicaStep(step) && !step.StoreWrite? && !step.RepairStore? && m in s.replicas
    ensures m in ExecReplica(s, step).replicas && ExecReplica(s, step).replicas[m].data == s.replicas[m].data
  {
  }

  lemma PutBackFalls(s: State, step: Step, m: NodeId, key: string)
    requires WellFormed(s) && Enabled(s, step) && PutsBack(s, step, m, key)
    ensures var h := s.replicas[m].data[key].hlc; Holds(s, m, key, h) && !Holds(Exec(s, step), m, key, h)
  {
    assert m in s.configs;
    assert Exec(s, step) == ExecReplica(s, step);
  }

  /** A copy falls behind some stamp exactly when a write is applied out of stamp order: at step `j` the
      store of `m` receives a write of the key stamped before the copy it replaces. */
  lemma FallsExactly(states: seq<State>, steps: seq<Step>, j: nat, m: NodeId, key: string)
    requires Run(states, steps) && j < |steps|
    ensures (exists h :: FallsAt(states, j, m, key, h)) <==> PutsBack(states[j], steps[j], m, key)
  {
    assert StepAt(states, steps, j);
    if h :| FallsAt(states, j, m, key, h) {
      FallIsPutBack(states[j], steps[j], m, key, h);
    }
    if PutsBack(states[j], steps[j], m, key) {
      PutBackFalls(states[j], steps[j], m, key);
      assert FallsAt(states, j, m, key, states[j].replicas[m].data[key].hlc);
    }
  }

  ghost predicate AppliedInOrder(states: seq<State>, steps: seq<Step>, m: NodeId, key: string)
    requires |states| == |steps| + 1
  {
    forall j: nat | j < |steps| :: !PutsBack(states[j], steps[j], m, key)
  }

  /** So quorum reads are fresh in every run in which the nodes of the write quorum apply the writes of
      the key in stamp order. */
  lemma OrderedRunsAreFresh(states: seq<State>, steps: seq<Step>, g: nat, i: nat)
    requires Run(states, steps) && ReadAfterWrite(states[|steps|], g, i)
    requires var s := states[|steps|];
             forall m | m in WriteQuorum(s, i) && m in Counted(s.queries[g]) :: AppliedInOrder(states, steps, m, s.writes[i].key)
    ensures IsFresh(states[|steps|].queries[g].result.value.resp, states[|steps|].writes[i].stamp)
  {
    var s := states[|steps|];
    forall m | m in WriteQuorum(s, i) && m in Counted(s.queries[g]) ensures !FellBehind(states, g, i, m, s.writes[i]) {
      InOrderStaysUp(states, steps, g, i, m, s.writes[i]);
    }
    QuorumReadIsFresh(states, steps, g, i);
  }

  lemma InOrderStaysUp(states: seq<State>, steps: seq<Step>, g: nat, i: nat, m: NodeId, w: Write)
    requires Run(states, steps) && AppliedInOrder(states, steps, m, w.key)
    ensures !FellBehind(states, g, i, m, w)
  {
    forall j: nat ensures !FallsAt(states, j, m, w.key, w.stamp) {
      if j < |steps| { FallsExactly(states, steps, j, m, w.key); }
    }
  }

  // ---------------------------------------------------------------- every read a state allows

  /** Node `n` may ask the peers in `to` and hear from those in `order`. */
  ghost predicate CanHear(s: State, n: NodeId, key: string, to: set<NodeId>, order: seq<NodeId>) {
    && n in s.configs && to <= s.configs.Keys - {n}
    && (forall m | m in order :: m in to && m in s.replicas && key in s.replicas[m].data)
    && (forall i, j | 0 <= i < j < |order| :: order[i] != order[j])
  }

  ghost function RepliesAt(s: State, key: string, order: seq<NodeId>, asked: int): map<NodeId, ReplicaValue>
    requires WellFormed(s) && forall m | m in order :: m in s.configs && key in s.replicas[m].data
  {
    map m | m in order :: ReplyOf(s, m, key, asked)
  }

  ghost function LocalAt(s: State, n: NodeId, key: string): Option<VersionedValue>
    requires n in s.replicas
  {
    if key in s.replicas[n].data then Some(s.replicas[n].data[key]) else None
  }

  /** The response to a read that runs with nothing in between. */
  ghost function ResponseAt(s: State, n: NodeId, key: string, r: int, to: set<NodeId>, order: seq<NodeId>, asked: int, now: int): GetResponse
    requires WellFormed(s) && CanHear(s, n, key, to, order)
  {
    GetOutcome(LocalAt(s, n, key), r, to, Found(RepliesAt(s, key, order, asked), order), s.configs[n].maxStaleness, now)
  }

  /** Whoever reads `key` with read quorum `r`, and whichever peers answer, gets no value before `h`. */
  ghost predicate ReadsAreFresh(s: State, key: string, r: int, h: Hlc)
    requires WellFormed(s)
  {
    forall n, to: set<NodeId>, order: seq<NodeId>, asked, now {:trigger ResponseAt(s, n, key, r, to, order, asked, now)}
      | CanHear(s, n, key, to, order) ::
      var resp := ResponseAt(s, n, key, r, to, order, asked, now); resp.IsError() || IsFresh(resp, h)
  }

  /** The nodes whose copy is before `h`. */
  ghost function Outdated(s: State, key: string, h: Hlc): set<NodeId> {
    set m | m in s.replicas && CopyStamp(s, m, key).Some? && CopyStamp(s, m, key).value.HappensBefore(h)
  }

  /** A read at `n` can miss `h`: the copy there is missing or before `h`, R - 1 others are before `h`,
      and the reader's staleness bound lets such a value pass (or it needs nobody and has no copy). */
  ghost predicate CanMiss(s: State, n: NodeId, key: string, r: int, h: Hlc)
    requires n in s.replicas && n in s.configs
  {
    && !Holds(s, n, key, h)
    && |Outdated(s, key, h) - {n}| >= r - 1
    && (s.configs[n].maxStaleness >= 0 || (r <= 1 && CopyStamp(s, n, key).None?))
  }

  lemma {:induction false} Enumeration(nodes: set<NodeId>) returns (order: seq<NodeId>)
    ensures Enumerates(order, nodes)
    decreases |nodes|
  {
    if nodes == {} {
      order := [];
    } else {
      var m :| m in nodes;
      var rest := Enumeration(nodes - {m});
      order := [m] + rest;
    }
  }

  /** The clock reading at which the newest of these values has just been stamped. */
  lemma JustStamped(seen: seq<ReplicaValue>, maxAge: int) returns (now: int)
    requires maxAge >= 0
    ensures forall v | Newest(seen, v) :: !IsStale(v.hlc, maxAge, now)
  {
    now := 0;
    if v :| Newest(seen, v) {
      now := v.hlc.physical;
    }
  }

  /** A read that sees only values before `h` misses it, unless it is refused as stale. */
  lemma OutdatedResponse(local: Option<VersionedValue>, r: int, to: set<NodeId>, found: seq<ReplicaValue>, maxAge: int, now: int, h: Hlc)
    requires to == {} ==> found == []
    requires r == 1 || |found| + 1 >= r
    requires var seen := Candidates(local, if r == 1 then [] else found);
             forall v | v in seen :: v.hlc.HappensBefore(h) && (Newest(seen, v) ==> !IsStale(v.hlc, maxAge, now))
    ensures var resp := GetOutcome(local, r, to, found, maxAge, now); !resp.IsError() && !IsFresh(resp, h)
  {
    GetReturnsNewest(local, r, to, found, maxAge, now);
    var seen := Candidates(local, if r == 1 then [] else found);
    assert seen == Candidates(local, if r == 1 || to == {} then [] else found);
  }

  lemma RepliesFound(s: State, key: string, order: seq<NodeId>, asked: int, v: ReplicaValue) returns (m: NodeId)
    requires WellFormed(s) && (forall m | m in order :: m in s.configs && key in s.replicas[m].data)
    requires v in Found(RepliesAt(s, key, order, asked), order)
    ensures m in order && CopyStamp(s, m, key) == Some(v.hlc)
  {
    var found := Found(RepliesAt(s, key, order, asked), order);
    var j :| 0 <= j < |found| && found[j] == v;
    m := order[j];
  }

  lemma SeenIsOutdated(s: State, n: NodeId, key: string, h: Hlc, order: seq<NodeId>)
    requires WellFormed(s) && n in s.configs && !Holds(s, n, key, h)
    requires forall m | m in order :: m in s.configs && key in s.replicas[m].data && m in Outdated(s, key, h)
    ensures forall v | v in Found(RepliesAt(s, key, order, 0), order) :: v.hlc.HappensBefore(h)
    ensures forall v | v in Candidates(LocalAt(s, n, key), Found(RepliesAt(s, key, order, 0), order)) :: v.hlc.HappensBefore(h)
  {
    forall v | v in Found(RepliesAt(s, key, order, 0), order) ensures v.hlc.HappensBefore(h) {
      var m := RepliesFound(s, key, order, 0, v);
    }
  }

  /** If a read can miss `h`, some read does. */
  lemma MissedRead(s: State, n: NodeId, key: string, r: int, h: Hlc) returns (to: set<NodeId>, order: seq<NodeId>, now: int)
    requires WellFormed(s) && n in s.configs && CanMiss(s, n, key, r, h)
    ensures CanHear(s, n, key, to, order)
    ensures var resp := ResponseAt(s, n, key, r, to, order, 0, now); !resp.IsError() && !IsFresh(resp, h)
  {
    to := SubsetOfSize(Outdated(s, key, h) - {n}, Max(r - 1, 0));
    order := Enumeration(to);
    EnumerationSize(order, to);
    SeenIsOutdated(s, n, key, h, order);
    var local, found := LocalAt(s, n, key), Found(RepliesAt(s, key, order, 0), order);
    var maxAge := s.configs[n].maxStaleness;
    now := 0;
    if maxAge >= 0 {
      now := JustStamped(Candidates(local, if r == 1 then [] else found), maxAge);
    }
    OutdatedResponse(local, r, to, found, maxAge, now, h);
  }

  /** A read that misses `h` had no fresh copy of its own and heard from R - 1 outdated nodes. */
  lemma MissedResponse(local: Option<VersionedValue>, r: int, to: set<NodeId>, found: seq<ReplicaValue>, maxAge: int, now: int, h: Hlc)
    requires to == {} ==> found == []
    requires var resp := GetOutcome(local, r, to, found, maxAge, now); !resp.IsError() && !IsFresh(resp, h)
    ensures local.Some? ==> local.value.hlc.HappensBefore(h)
    ensures r > 1 ==> |found| + 1 >= r && forall v | v in found :: v.hlc.HappensBefore(h)
    ensures maxAge >= 0 || (r <= 1 && local.None?)
  {
    var seen := Candidates(local, if r == 1 || to == {} then [] else found);
    GetReturnsNewest(local, r, to, found, maxAge, now);
    if local.Some? { assert LocalReply(local.value) in seen; }
    if r > 1 { forall v | v in found ensures v in seen { } }
  }

  lemma DistinctFit<T>(xs: seq<T>, s: set<T>)
    requires (forall x | x in xs :: x in s) && (forall i, j | 0 <= i < j < |xs| :: xs[i] != xs[j])
    ensures |xs| <= |s|
    decreases |xs|
  {
    if xs != [] {
      DistinctFit(xs[1..], s - {xs[0]});
    }
  }

  lemma HeardIsOutdated(s: State, key: string, h: Hlc, order: seq<NodeId>, asked: int, j: nat)
    requires WellFormed(s) && (forall m | m in order :: m in s.configs && key in s.replicas[m].data) && j < |order|
    requires forall v | v in Found(RepliesAt(s, key, order, asked), order) :: v.hlc.HappensBefore(h)
    ensures order[j] in Outdated(s, key, h)
  {
    var found := Found(RepliesAt(s, key, order, asked), order);
    assert found[j] in found;
    assert CopyStamp(s, order[j], key) == Some(found[j].hlc);
  }

  lemma HeardFromOutdated(s: State, n: NodeId, key: string, h: Hlc, to: set<NodeId>, order: seq<NodeId>, asked: int)
    requires WellFormed(s) && CanHear(s, n, key, to, order)
    requires forall v | v in Found(RepliesAt(s, key, order, asked), order) :: v.hlc.HappensBefore(h)
    ensures |order| <= |Outdated(s, key, h) - {n}|
  {
    forall m | m in order ensures m in Outdated(s, key, h) - {n} {
      var j :| 0 <= j < |order| && order[j] == m;
      HeardIsOutdated(s, key, h, order, asked, j);
    }
    DistinctFit(order, Outdated(s, key, h) - {n});
  }

  lemma MissedMeansCanMiss(s: State, n: NodeId, key: string, r: int, h: Hlc, to: set<NodeId>, order: seq<NodeId>, asked: int, now: int)
    requires WellFormed(s) && CanHear(s, n, key, to, order)
    requires var resp := ResponseAt(s, n, key, r, to, order, asked, now); !resp.IsError() && !IsFresh(resp, h)
    ensures CanMiss(s, n, key, r, h)
  {
    var found := Found(RepliesAt(s, key, order, asked), order);
    if order != [] { assert order[0] in to; }
    MissedResponse(LocalAt(s, n, key), r, to, found, s.configs[n].maxStaleness, now, h);
    if r > 1 { HeardFromOutdated(s, n, key, h, to, order, asked); }
  }

  /** Only the latest read differs: it is under way and has heard from the nodes in `order`. */
  ghost predicate Hearing(s: State, s': State, n: NodeId, key: string, r: int, to: set<NodeId>, order: seq<NodeId>, asked: int)
    requires WellFormed(s) && CanHear(s, n, key, to, order)
  {
    && s' == s.(queries := s'.queries) && |s'.queries| == |s.queries| + 1 && s.queries <= s'.queries
    && var q := s'.queries[|s.queries|];
    && q.node == n && q.key == key && q.local == LocalAt(s, n, key) && q.sent && q.r == r && q.peers == to && q.result.None?
    && q.replies == RepliesAt(s, key, order, asked)
  }

  lemma LastIsNew<T>(xs: seq<T>, x: T)
    requires forall i, j | 0 <= i < j < |xs + [x]| :: (xs + [x])[i] != (xs + [x])[j]
    ensures x !in xs
  {
    forall j | 0 <= j < |xs| ensures xs[j] != x { assert (xs + [x])[j] != (xs + [x])[|xs|]; }
  }

  lemma HearOne(s: State, s': State, n: NodeId, key: string, r: int, to: set<NodeId>, order: seq<NodeId>, m: NodeId, asked: int) returns (s'': State)
    requires WellFormed(s) && CanHear(s, n, key, to, order) && CanHear(s, n, key, to, order + [m])
    requires Reachable(s') && Hearing(s, s', n, key, r, to, order, asked)
    ensures Reachable(s'') && Hearing(s, s'', n, key, r, to, order + [m], asked)
  {
    assert m in order + [m];
    LastIsNew(order, m);
    s'' := Answered(s', |s.queries|, m, asked);
    assert RepliesAt(s, key, order + [m], asked) == RepliesAt(s, key, order, asked)[m := ReplyOf(s, m, key, asked)];
  }

  lemma {:induction false} HearAll(s: State, n: NodeId, key: string, r: int, to: set<NodeId>, order: seq<NodeId>, asked: int) returns (s': State)
    requires Reachable(s) && CanHear(s, n, key, to, order)
    ensures Reachable(s') && Hearing(s, s', n, key, r, to, order, asked)
    decreases |order|
  {
    if order == [] {
      s' := BeginRead(s, n, key, r, to);
    } else {
      var init, m := order[..|order| - 1], order[|order| - 1];
      var before := HearAll(s, n, key, r, to, init, asked);
      assert order == init + [m];
      s' := HearOne(s, before, n, key, r, to, init, m, asked);
    }
  }

  /** Such a read is a continuation of the run: its steps lead to a state that differs only in the
      finished read, whose response is `ResponseAt`. */
  lemma UndisturbedRead(s: State, n: NodeId, key: string, r: int, to: set<NodeId>, order: seq<NodeId>, asked: int, now: int) returns (s': State)
    requires Reachable(s) && CanHear(s, n, key, to, order)
    ensures Reachable(s') && s' == s.(queries := s'.queries) && |s'.queries| == |s.queries| + 1 && s.queries <= s'.queries
    ensures var q := s'.queries[|s.queries|];
            && q.node == n && q.key == key && q.r == r
            && q.result == Some(Finish(ResponseAt(s, n, key, r, to, order, asked, now), order, now))
  {
    var heard := HearAll(s, n, key, r, to, order, asked);
    s' := EndRead(heard, |s.queries|, order, now);
  }

  /** Exactly when a state lets no read miss `h`: for each node whose copy is missing or before `h`,
      fewer than R - 1 others hold a copy before `h` (or the reader refuses such values as stale). */
  lemma ReadsAreFreshExactly(states: seq<State>, steps: seq<Step>, j: nat, key: string, r: int, h: Hlc)
    requires Run(states, steps) && j <= |steps|
    ensures WellFormed(states[j])
    ensures ReadsAreFresh(states[j], key, r, h) <==> forall n | n in states[j].configs :: !CanMiss(states[j], n, key, r, h)
  {
    StateOk(states, steps, j);
    var s := states[j];
    if ReadsAreFresh(s, key, r, h) {
      forall n | n in s.configs ensures !CanMiss(s, n, key, r, h) {
        if CanMiss(s, n, key, r, h) {
          var to, order, now := MissedRead(s, n, key, r, h);
        }
      }
    }
    if forall n | n in s.configs :: !CanMiss(s, n, key, r, h) {
      forall n, to: set<NodeId>, order: seq<NodeId>, asked, now | CanHear(s, n, key, to, order)
        ensures var resp := ResponseAt(s, n, key, r, to, order, asked, now); resp.IsError() || IsFresh(resp, h)
      {
        var resp := ResponseAt(s, n, key, r, to, order, asked, now);
        if !resp.IsError() && !IsFresh(resp, h) {
          MissedMeansCanMiss(s, n, key, r, h, to, order, asked, now);
        }
      }
    }
  }

  /** In particular no read misses `h` while a set of nodes that meets every read quorum holds it. */
  lemma QuorumOfCopiesSuffices(s: State, holders: set<NodeId>, key: string, r: int, h: Hlc, n: NodeId)
    requires WellFormed(s) && n in s.configs && holders <= s.configs.Keys && r + |holders| > |s.configs|
    requires forall m | m in holders :: Holds(s, m, key, h)
    ensures !CanMiss(s, n, key, r, h)
  {
    if n !in holders {
      var others := Outdated(s, key, h) - {n};
      SubsetSize(others + holders + {n}, s.configs.Keys);
      assert |others + holders + {n}| == |others| + |holders| + 1;
    }
  }
}
