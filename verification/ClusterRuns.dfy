/** Runs of the cluster: reachable states, and what stays true from one state of a run to a later one. */
module ClusterRuns {
  import opened Basics
  import opened HybridClock
  import opened Server
  import opened Cluster
  import opened ClusterData

  ghost predicate Reachable(s: State) {
    WellFormed(s) && exists states: seq<State>, steps: seq<Step> :: Run(states, steps) && states[|steps|] == s
  }

  lemma Then(s: State, step: Step) returns (s': State)
    requires Reachable(s) && Enabled(s, step)
    ensures Reachable(s') && s' == Exec(s, step)
  {
    var states: seq<State>, steps: seq<Step> :| Run(states, steps) && states[|steps|] == s;
    s' := Exec(s, step);
    ExecKeepsWellFormed(s, step);
    RunExtends(states, steps, step, s');
  }

  lemma RunExtends(states: seq<State>, steps: seq<Step>, step: Step, s': State)
    requires Run(states, steps) && Follows(states[|steps|], step, s')
    ensures Run(states + [s'], steps + [step])
  {
    var more, all := states + [s'], steps + [step];
    forall j | 0 <= j < |all| ensures StepAt(more, all, j) {
      assert j < |steps| ==> StepAt(states, steps, j);
    }
  }

  lemma ReachableOk(s: State)
    requires Reachable(s)
    ensures DataInv(s)
  {
    var states: seq<State>, steps: seq<Step> :| Run(states, steps) && states[|steps|] == s;
    DataInvHolds(states, steps);
  }

  // ---------------------------------------------------------------- the steps of a read

  lemma BeginRead(s: State, n: NodeId, key: string, r: int, to: set<NodeId>) returns (s': State)
    requires Reachable(s) && n in s.configs && to <= s.configs.Keys - {n}
    ensures Reachable(s') && s' == s.(queries := s.queries + [StartedRead(s, n, key).(sent := true, r := r, peers := to)])
  {
    var started := OpenRead(s, n, key);
    s' := SendTo(started, |s.queries|, r, to);
  }

  lemma OpenRead(s: State, n: NodeId, key: string) returns (s': State)
    requires Reachable(s) && n in s.configs
    ensures Reachable(s') && s' == s.(queries := s.queries + [StartedRead(s, n, key)])
  {
    s' := Then(s, StartRead(n, key));
  }

  lemma SendTo(s: State, g: nat, r: int, to: set<NodeId>) returns (s': State)
    requires Reachable(s) && g < |s.queries| && !s.queries[g].sent && to <= s.configs.Keys - {s.queries[g].node}
    ensures Reachable(s') && s' == s.(queries := s.queries[g := s.queries[g].(sent := true, r := r, peers := to)])
  {
    s' := Then(s, SendRead(g, r, to));
  }

  lemma Answered(s: State, g: nat, m: NodeId, now: int) returns (s': State)
    requires Reachable(s) && g < |s.queries| && s.queries[g].sent && s.queries[g].result.None? && m in s.configs
    requires m in s.queries[g].peers && m !in s.queries[g].replies && s.queries[g].key in s.replicas[m].data
    ensures Reachable(s') && s' == s.(queries := s.queries[g := RepliedRead(s, s.queries[g], m, now)])
  {
    s' := Then(s, Reply(m, g, now));
  }

  lemma EndRead(s: State, g: nat, order: seq<NodeId>, now: int) returns (s': State)
    requires Reachable(s) && g < |s.queries| && s.queries[g].sent && s.queries[g].result.None?
    requires Enumerates(order, s.queries[g].replies.Keys)
    ensures Reachable(s')
    ensures var q := s.queries[g];
            var resp := GetOutcome(q.local, q.r, q.peers, Found(q.replies, order), s.configs[q.node].maxStaleness, now);
            s' == s.(queries := s.queries[g := q.(result := Some(Finish(resp, order, now)))])
  {
    s' := Then(s, FinishRead(g, order, now));
  }

  // ---------------------------------------------------------------- along a run

  lemma StateOk(states: seq<State>, steps: seq<Step>, j: nat)
    requires Run(states, steps) && j <= |steps|
    ensures DataInv(states[j])
  {
    RunPrefix(states, steps, j);
    DataInvHolds(states[..j + 1], steps[..j]);
  }

  lemma ExtendsTransitive(s: State, t: State, u: State)
    requires Extends(s, t) && Extends(t, u)
    ensures Extends(s, u)
  {
    forall i | 0 <= i < |s.writes| && s.rounds[i].phase.Done? ensures u.rounds[i] == s.rounds[i] {
      assert t.rounds[i] == s.rounds[i];
    }
  }

  lemma RunStepExtends(states: seq<State>, steps: seq<Step>, j: nat)
    requires Run(states, steps) && j < |steps|
    ensures Extends(states[j], states[j + 1])
  {
    assert StepAt(states, steps, j);
    StepExtends(states[j], steps[j]);
  }

  lemma {:induction false} RunGrows(states: seq<State>, steps: seq<Step>, a: nat, b: nat)
    requires Run(states, steps) && a <= b <= |steps|
    ensures Extends(states[a], states[b])
    decreases b - a
  {
    if a == b {
      StateOk(states, steps, a);
    } else {
      RunGrows(states, steps, a, b - 1);
      RunStepExtends(states, steps, b - 1);
      ExtendsTransitive(states[a], states[b - 1], states[b]);
    }
  }

  // ---------------------------------------------------------------- reads

  /** `q'` is `q` some time later. */
  ghost predicate Continues(q: Read, q': Read) {
    && q'.node == q.node && q'.key == q.key && q'.local == q.local && q'.after == q.after
    && forall m | m in q.replies :: m in q'.replies && q'.replies[m] == q.replies[m]
  }

  lemma QueryStep(s: State, step: Step, g: nat)
    requires WellFormed(s) && Enabled(s, step) && g < |s.queries|
    ensures var s' := Exec(s, step); g < |s'.queries| && Continues(s.queries[g], s'.queries[g])
  {
    if IsReadStep(step) {
      ReadStepContinues(s, step, g);
    }
  }

  lemma ReadStepContinues(s: State, step: Step, g: nat)
    requires WellFormed(s) && Enabled(s, step) && IsReadStep(step) && g < |s.queries|
    ensures var s' := ExecRead(s, step); g < |s'.queries| && Continues(s.queries[g], s'.queries[g])
  {
  }

  lemma {:induction false} QueryGrows(states: seq<State>, steps: seq<Step>, a: nat, b: nat, g: nat)
    requires Run(states, steps) && a <= b <= |steps| && g < |states[a].queries|
    ensures g < |states[b].queries| && Continues(states[a].queries[g], states[b].queries[g])
    decreases b - a
  {
    if a < b {
      QueryGrows(states, steps, a, b - 1, g);
      assert StepAt(states, steps, b - 1);
      QueryStep(states[b - 1], steps[b - 1], g);
    }
  }

  /** Read `g` has heard from `m`: it looked up its own store when it started, and others replied. */
  ghost predicate HasAnswered(s: State, g: nat, m: NodeId) {
    g < |s.queries| && (m == s.queries[g].node || m in s.queries[g].replies)
  }

  /** Step `j` is the one by which `m` answered read `g`. */
  ghost predicate AnsweredAt(states: seq<State>, g: nat, m: NodeId, j: nat) {
    j + 1 < |states| && !HasAnswered(states[j], g, m) && HasAnswered(states[j + 1], g, m)
  }

  /** The stamp read `q` learned from `m`, if `m` had a copy. */
  ghost function Heard(q: Read, m: NodeId): Option<Hlc>
    requires m == q.node || m in q.replies
  {
    if m != q.node then Some(q.replies[m].hlc)
    else if q.local.Some? then Some(q.local.value.hlc)
    else None
  }

  ghost function CopyStamp(s: State, m: NodeId, key: string): Option<Hlc>
    requires m in s.replicas
  {
    if key in s.replicas[m].data then Some(s.replicas[m].data[key].hlc) else None
  }

  /** What a read learns from a node is that node's copy at the moment it answers. */
  lemma AnswerStep(s: State, step: Step, g: nat, m: NodeId)
    requires WellFormed(s) && Enabled(s, step) && !HasAnswered(s, g, m) && HasAnswered(Exec(s, step), g, m)
    ensures var q := Exec(s, step).queries[g];
            && m in s.replicas && Heard(q, m) == CopyStamp(s, m, q.key)
            && (q.after == Succeeded(s.rounds) || (g < |s.queries| && q.after == s.queries[g].after))
  {
    OnlyReadsAnswer(s, step);
    ReadAnswerStep(s, step, g, m);
  }

  lemma OnlyReadsAnswer(s: State, step: Step)
    requires WellFormed(s) && Enabled(s, step)
    ensures if IsReadStep(step) then Exec(s, step) == ExecRead(s, step) else Exec(s, step).queries == s.queries
  {
    if IsClockStep(step) {
      assert ExecClock(s, step).queries == s.queries;
    } else if IsReplicaStep(step) {
      assert ExecReplica(s, step).queries == s.queries;
    } else if IsRoundStep(step) {
      assert ExecRound(s, step).queries == s.queries;
    }
  }

  lemma ReadAnswerStep(s: State, step: Step, g: nat, m: NodeId)
    requires WellFormed(s) && Enabled(s, step) && IsReadStep(step)
    requires !HasAnswered(s, g, m) && HasAnswered(ExecRead(s, step), g, m)
    ensures var q := ExecRead(s, step).queries[g];
            && m in s.replicas && Heard(q, m) == CopyStamp(s, m, q.key)
            && (q.after == Succeeded(s.rounds) || (g < |s.queries| && q.after == s.queries[g].after))
  {
    if step.StartRead? {
      assert g == |s.queries| && ExecRead(s, step).queries[g] == StartedRead(s, step.n, step.key);
    } else {
      assert step.Reply? && g == step.g && m == step.m;
    }
  }

  lemma {:induction false} AnswerExists(states: seq<State>, steps: seq<Step>, n: nat, g: nat, m: NodeId) returns (j: nat)
    requires Run(states, steps) && n <= |steps| && HasAnswered(states[n], g, m)
    ensures j < n && AnsweredAt(states, g, m, j)
    decreases n
  {
    if HasAnswered(states[n - 1], g, m) {
      j := AnswerExists(states, steps, n - 1, g, m);
    } else {
      j := n - 1;
    }
  }

  /** At the end of the run read `g` still knows what `m` held when it answered, and every write the
      read began after was already done then. */
  lemma AnswerRecorded(states: seq<State>, steps: seq<Step>, g: nat, m: NodeId, j: nat)
    requires Run(states, steps) && AnsweredAt(states, g, m, j)
    ensures HasAnswered(states[|steps|], g, m) && m in states[j].replicas
    ensures var q := states[|steps|].queries[g];
            Heard(q, m) == CopyStamp(states[j], m, q.key) && q.after <= Succeeded(states[j].rounds)
  {
    assert StepAt(states, steps, j);
    AnswerStep(states[j], steps[j], g, m);
    QueryGrows(states, steps, j + 1, |steps|, g);
    if g < |states[j].queries| {
      StateOk(states, steps, j);
      QueryOk(states[j], g);
    }
  }
}
