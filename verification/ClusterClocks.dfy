/** What every run of the cluster guarantees about stamps: their shape, causality, uniqueness and
    their distance from the issuer's wall clock. */
module ClusterClocks {
  import opened Basics
  import opened HybridClock
  import opened Cluster

  // ---------------------------------------------------------------- the invariants

  ghost predicate Stamped(s: State, h: Hlc) {
    && h.physical in s.readings
    && 0 <= h.logical <= s.produced[h.physical]
  }

  function Slack(s: State, n: NodeId): int
    requires n in s.configs
  {
    Max(0, s.configs[n].maxDrift)
  }

  ghost predicate ClockShape(s: State)
    requires WellFormed(s)
  {
    forall n | n in s.configs ::
      var k := s.clocks[n];
      && k.clock.node == n && k.clock.maxDrift == s.configs[n].maxDrift
      && Stamped(s, k.clock.Reading())
      && k.clock.physical <= k.peak + Slack(s, n)
  }

  ghost predicate WriteShape(s: State)
    requires WellFormed(s)
  {
    forall i | 0 <= i < |s.writes| ::
      var w := s.writes[i];
      && w.stamp.node == w.node
      && Stamped(s, w.stamp)
      && w.stamp.physical <= w.peak + Slack(s, w.node)
      && (w.steady ==> w.wall == w.peak)
  }

  /** A node's clock has passed every stamp it issued, so its stamps increase. */
  ghost predicate OwnOrdered(s: State)
    requires WellFormed(s)
  {
    && (forall i | 0 <= i < |s.writes| :: !s.clocks[s.writes[i].node].clock.Reading().HappensBefore(s.writes[i].stamp))
    && (forall i, j | 0 <= i < j < |s.writes| && s.writes[i].node == s.writes[j].node ::
          s.writes[i].stamp.HappensBefore(s.writes[j].stamp))
  }

  ghost predicate ClockInv(s: State) {
    && WellFormed(s)
    && ClockShape(s)
    && WriteShape(s)
    && OwnOrdered(s)
  }

  // ---------------------------------------------------------------- preservation

  /** The node whose clock a clock step moves, and the wall reading it takes. */
  function Site(step: Step): NodeId
    requires IsClockStep(step)
  {
    match step
    case StampWrite(n, _, _, _) => n
    case ReceiveStamp(m, _, _) => m
    case HealthCheck(n, _) => n
  }

  function Wall(step: Step): int
    requires IsClockStep(step)
  {
    step.wall
  }

  /** Clock steps touch one clock, never move it back, and only add history. */
  lemma ClockStepFrame(s: State, step: Step)
    requires WellFormed(s) && Enabled(s, step) && IsClockStep(step)
    ensures var s', n := Exec(s, step), Site(step);
            && n in s.configs && s'.configs == s.configs && s'.clocks.Keys == s.clocks.Keys
            && (forall m | m in s.configs && m != n :: s'.clocks[m] == s.clocks[m])
            && s'.clocks[n].clock.node == s.clocks[n].clock.node
            && s'.clocks[n].clock.maxDrift == s.clocks[n].clock.maxDrift
            && s'.clocks[n].peak == Max(s.clocks[n].peak, Wall(step))
            && s'.readings == s.readings + {Wall(step)} && s.produced <= s'.produced
            && !s'.clocks[n].clock.Reading().HappensBefore(s.clocks[n].clock.Reading())
  {
    assert Exec(s, step) == ExecClock(s, step);
    match step
    case StampWrite(_, _, _, _) =>
    case ReceiveStamp(_, _, _) =>
    case HealthCheck(_, _) =>
  }

  lemma StampedGrows(s: State, s': State, h: Hlc)
    requires Stamped(s, h) && s.readings <= s'.readings && s.produced <= s'.produced
    ensures Stamped(s', h)
  {
  }

  /** A tick of a clock whose reading has the right shape. */
  lemma TickShape(s: State, n: NodeId, wall: int)
    requires n in s.clocks && Stamped(s, s.clocks[n].clock.Reading())
    ensures var s' := ClockEvent(s, n, Ticked(s.clocks[n].clock, wall), wall);
            n in s'.clocks && Stamped(s', s'.clocks[n].clock.Reading())
  {
  }

  lemma MergeShape(s: State, n: NodeId, remote: Hlc, wall: int)
    requires n in s.clocks && Stamped(s, s.clocks[n].clock.Reading()) && Stamped(s, remote)
    requires Merged(s.clocks[n].clock, remote, wall).Some?
    ensures var s' := ClockEvent(s, n, Merged(s.clocks[n].clock, remote, wall).value, wall);
            n in s'.clocks && Stamped(s', s'.clocks[n].clock.Reading())
  {
  }

  lemma SiteStamped(s: State, step: Step)
    requires WellFormed(s) && ClockShape(s) && WriteShape(s) && Enabled(s, step) && IsClockStep(step)
    ensures var s', n := Exec(s, step), Site(step);
            n in s'.clocks && Stamped(s', s'.clocks[n].clock.Reading())
  {
    var n := Site(step);
    assert Stamped(s, s.clocks[n].clock.Reading());
    match step
    case StampWrite(_, _, _, wall) => TickShape(s, n, wall);
    case HealthCheck(_, wall) => TickShape(s, n, wall);
    case ReceiveStamp(_, i, wall) =>
      var k := s.clocks[n].(received := s.clocks[n].received + {i});
      assert Stamped(s, s.writes[i].stamp);
      if Merged(k.clock, s.writes[i].stamp, wall).Some? {
        MergeShape(s.(clocks := s.clocks[n := k]), n, s.writes[i].stamp, wall);
      }
  }

  lemma SiteShape(s: State, step: Step)
    requires WellFormed(s) && ClockShape(s) && WriteShape(s) && Enabled(s, step) && IsClockStep(step)
    ensures var s', n := Exec(s, step), Site(step);
            && n in s'.clocks && Stamped(s', s'.clocks[n].clock.Reading())
            && s'.clocks[n].clock.physical <= s'.clocks[n].peak + Slack(s, n)
  {
    SiteStamped(s, step);
    var n := Site(step);
    assert s.clocks[n].clock.physical <= s.clocks[n].peak + Slack(s, n);
  }

  lemma ClockShapeStep(s: State, step: Step)
    requires WellFormed(s) && ClockShape(s) && WriteShape(s) && Enabled(s, step) && IsClockStep(step)
    ensures WellFormed(Exec(s, step)) && ClockShape(Exec(s, step))
  {
    ExecKeepsWellFormed(s, step);
    ClockStepFrame(s, step);
    SiteShape(s, step);
    var s' := Exec(s, step);
    forall m | m in s'.configs && m != Site(step)
      ensures Stamped(s', s'.clocks[m].clock.Reading())
    {
      StampedGrows(s, s', s.clocks[m].clock.Reading());
    }
  }

  lemma WriteShapeStep(s: State, step: Step)
    requires WellFormed(s) && ClockShape(s) && WriteShape(s) && Enabled(s, step) && IsClockStep(step)
    ensures WellFormed(Exec(s, step)) && WriteShape(Exec(s, step))
  {
    ExecKeepsWellFormed(s, step);
    ClockStepFrame(s, step);
    SiteShape(s, step);
    var s' := Exec(s, step);
    forall i | 0 <= i < |s.writes|
      ensures Stamped(s', s.writes[i].stamp)
    {
      StampedGrows(s, s', s.writes[i].stamp);
    }
  }

  lemma OwnStep(s: State, step: Step)
    requires WellFormed(s) && OwnOrdered(s) && Enabled(s, step) && IsClockStep(step)
    ensures WellFormed(Exec(s, step)) && OwnOrdered(Exec(s, step))
  {
    ExecKeepsWellFormed(s, step);
    ClockStepFrame(s, step);
    NewestOwnWrite(s, step);
    OwnAfter(s, Exec(s, step), Site(step));
  }

  /** A stamping step appends one write, stamped past the old reading with the new one. */
  lemma NewestOwnWrite(s: State, step: Step)
    requires WellFormed(s) && Enabled(s, step) && IsClockStep(step)
    ensures var s', n := ExecClock(s, step), Site(step);
            && n in s.clocks && n in s'.clocks
            && (s'.writes == s.writes || Appended(s, s', n))
  {
  }

  ghost predicate Appended(s: State, s': State, n: NodeId)
    requires n in s.clocks && n in s'.clocks
  {
    && |s'.writes| == |s.writes| + 1 && s.writes <= s'.writes
    && var w := s'.writes[|s.writes|];
       w.node == n && w.stamp == s'.clocks[n].clock.Reading() && s.clocks[n].clock.Reading().HappensBefore(w.stamp)
  }

  /** Only the clock of `n` moved, forwards, and it may have stamped one write. */
  ghost predicate Advanced(s: State, s': State, n: NodeId) {
    && WellFormed(s) && WellFormed(s') && s'.configs == s.configs && n in s.configs
    && (forall m | m in s.configs && m != n :: s'.clocks[m] == s.clocks[m])
    && !s'.clocks[n].clock.Reading().HappensBefore(s.clocks[n].clock.Reading())
    && (s'.writes == s.writes || Appended(s, s', n))
  }

  lemma PassedOwn(s: State, s': State, n: NodeId, i: nat)
    requires Advanced(s, s', n) && OwnOrdered(s) && i < |s'.writes|
    ensures !s'.clocks[s'.writes[i].node].clock.Reading().HappensBefore(s'.writes[i].stamp)
  {
    if i < |s.writes| {
      assert s'.writes[i] == s.writes[i];
      assert !s.clocks[s.writes[i].node].clock.Reading().HappensBefore(s.writes[i].stamp);
    }
  }

  lemma PairOrdered(s: State, s': State, n: NodeId, i: nat, j: nat)
    requires Advanced(s, s', n) && OwnOrdered(s) && i < j < |s'.writes| && s'.writes[i].node == s'.writes[j].node
    ensures s'.writes[i].stamp.HappensBefore(s'.writes[j].stamp)
  {
    assert s'.writes[i] == s.writes[i];
    if j < |s.writes| {
      assert s'.writes[j] == s.writes[j];
    } else {
      assert !s.clocks[s.writes[i].node].clock.Reading().HappensBefore(s.writes[i].stamp);
    }
  }

  lemma OwnAfter(s: State, s': State, n: NodeId)
    requires Advanced(s, s', n) && OwnOrdered(s)
    ensures OwnOrdered(s')
  {
    forall i | 0 <= i < |s'.writes|
      ensures !s'.clocks[s'.writes[i].node].clock.Reading().HappensBefore(s'.writes[i].stamp)
    {
      PassedOwn(s, s', n, i);
    }
    forall i, j | 0 <= i < j < |s'.writes| && s'.writes[i].node == s'.writes[j].node
      ensures s'.writes[i].stamp.HappensBefore(s'.writes[j].stamp)
    {
      PairOrdered(s, s', n, i, j);
    }
  }

  lemma ClockInvStep(s: State, step: Step)
    requires ClockInv(s) && Enabled(s, step)
    ensures ClockInv(Exec(s, step))
  {
    ExecKeepsWellFormed(s, step);
    if IsClockStep(step) {
      ClockShapeStep(s, step);
      WriteShapeStep(s, step);
      OwnStep(s, step);
    } else {
      OtherStepsKeepClocks(s, step);
    }
  }

  lemma OtherStepsKeepClocks(s: State, step: Step)
    requires WellFormed(s) && Enabled(s, step) && !IsClockStep(step)
    ensures var s' := Exec(s, step);
            && s'.configs == s.configs && s'.clocks == s.clocks && s'.writes == s.writes
            && s'.readings == s.readings && s'.produced == s.produced
  {
  }

  lemma {:induction false} ClockInvHolds(states: seq<State>, steps: seq<Step>)
    requires Run(states, steps)
    ensures ClockInv(states[|steps|])
    decreases |steps|
  {
    if |steps| > 0 {
      var n := |steps| - 1;
      RunPrefix(states, steps, n);
      ClockInvHolds(states[..n + 1], steps[..n]);
      assert StepAt(states, steps, n);
      ClockInvStep(states[n], steps[n]);
    }
  }

  // ---------------------------------------------------------------- theorems over whole runs

  /** Every stamp's physical part is a wall reading some node really took, and its logical part is
      at most the number of clock events that produced that physical part. */
  lemma StampShape(states: seq<State>, steps: seq<Step>, i: nat)
    requires Run(states, steps) && i < |states[|steps|].writes|
    ensures var s := states[|steps|]; var h := s.writes[i].stamp;
            h.physical in s.readings && 0 <= h.logical <= s.produced[h.physical]
  {
    ClockInvHolds(states, steps);
  }

  /** (Physical, Logical, NodeID) identifies at most one write of the cluster. */
  lemma StampsAreUnique(states: seq<State>, steps: seq<Step>, i: nat, j: nat)
    requires Run(states, steps)
    requires i < |states[|steps|].writes| && j < |states[|steps|].writes|
    requires states[|steps|].writes[i].stamp == states[|steps|].writes[j].stamp
    ensures i == j
  {
    ClockInvHolds(states, steps);
  }

  /** A stamp never runs ahead of the issuer's wall clock by more than its drift bound; when the
      issuer's readings never went backwards, that wall clock is the reading behind the stamp. */
  lemma StampNearWall(states: seq<State>, steps: seq<Step>, i: nat)
    requires Run(states, steps) && i < |states[|steps|].writes|
    ensures var s := states[|steps|]; var w := s.writes[i];
            && WellFormed(s)
            && w.stamp.physical <= w.peak + Slack(s, w.node)
            && (w.steady ==> w.stamp.physical <= w.wall + Slack(s, w.node))
  {
    ClockInvHolds(states, steps);
  }

  // ---------------------------------------------------------------- causality

  ghost predicate AcceptedReceive(s: State, step: Step)
    requires step.ReceiveStamp?
  {
    && step.m in s.clocks && step.i < |s.writes|
    && Merged(s.clocks[step.m].clock, s.writes[step.i].stamp, step.wall).Some?
  }

  ghost predicate CarriesStamp(states: seq<State>, steps: seq<Step>, a: nat, b: nat)
    requires |states| == |steps| + 1 && a < |steps| && b < |steps|
  {
    && steps[a].StampWrite? && steps[b].ReceiveStamp?
    && steps[b].i == |states[a].writes|
    && AcceptedReceive(states[b], steps[b])
  }

  /** Step `b` directly follows step `a`: both are clock steps of one node, or `a` stamps a write
      and `b` is an accepted clock update carrying that stamp. */
  ghost predicate Link(states: seq<State>, steps: seq<Step>, a: nat, b: nat)
    requires Run(states, steps)
  {
    && a < b < |steps|
    && IsClockStep(steps[a]) && IsClockStep(steps[b])
    && (Site(steps[a]) == Site(steps[b]) || CarriesStamp(states, steps, a, b))
  }

  /** Consecutive steps of `path` are linked. */
  ghost predicate Chain(states: seq<State>, steps: seq<Step>, path: seq<nat>)
    requires Run(states, steps)
    decreases |path|
  {
    && 2 <= |path|
    && Link(states, steps, path[|path| - 2], path[|path| - 1])
    && (2 < |path| ==> Chain(states, steps, path[..|path| - 1]))
  }

  /** The reading step `a` left at its node. */
  ghost function After(states: seq<State>, steps: seq<Step>, a: nat): Hlc
    requires Run(states, steps) && a < |steps| && IsClockStep(steps[a])
    requires Site(steps[a]) in states[a + 1].clocks
  {
    states[a + 1].clocks[Site(steps[a])].clock.Reading()
  }

  /** Writes are only added, and no clock goes back. */
  ghost predicate Grows(s: State, s': State) {
    && WellFormed(s) && WellFormed(s') && s'.configs == s.configs
    && s.writes <= s'.writes
    && forall n | n in s.configs :: !s'.clocks[n].clock.Reading().HappensBefore(s.clocks[n].clock.Reading())
  }

  lemma StepGrows(s: State, step: Step)
    requires WellFormed(s) && Enabled(s, step)
    ensures Grows(s, Exec(s, step))
  {
    ExecKeepsWellFormed(s, step);
    if IsClockStep(step) {
      ClockStepFrame(s, step);
      NewestOwnWrite(s, step);
    } else {
      OtherStepsKeepClocks(s, step);
    }
  }

  lemma {:induction false} ClocksAdvance(states: seq<State>, steps: seq<Step>, p: nat, q: nat)
    requires Run(states, steps) && p <= q <= |steps|
    ensures Grows(states[p], states[q])
    decreases q - p
  {
    StateIsWellFormed(states, steps, p);
    if p < q {
      ClocksAdvance(states, steps, p, q - 1);
      LastStepGrows(states, steps, q - 1);
      GrowsTransitive(states[p], states[q - 1], states[q]);
    }
  }

  lemma StateIsWellFormed(states: seq<State>, steps: seq<Step>, p: nat)
    requires Run(states, steps) && p <= |steps|
    ensures WellFormed(states[p])
  {
    RunPrefix(states, steps, p);
    ClockInvHolds(states[..p + 1], steps[..p]);
  }

  lemma LastStepGrows(states: seq<State>, steps: seq<Step>, p: nat)
    requires Run(states, steps) && p < |steps|
    ensures Grows(states[p], states[p + 1])
  {
    assert StepAt(states, steps, p);
    StepGrows(states[p], steps[p]);
  }

  lemma GrowsTransitive(a: State, b: State, c: State)
    requires Grows(a, b) && Grows(b, c)
    ensures Grows(a, c)
  {
  }

  /** What a clock step does to the reading of its node. */
  ghost predicate ClockEffect(s: State, step: Step, s': State)
    requires IsClockStep(step)
  {
    var n := Site(step);
    && n in s.configs && n in s.clocks && n in s'.clocks
    && var before, after := s.clocks[n].clock.Reading(), s'.clocks[n].clock.Reading();
    && !after.HappensBefore(before)
    && (step.StampWrite? ==>
          && before.HappensBefore(after)
          && |s'.writes| == |s.writes| + 1 && s'.writes[|s.writes|].stamp == after)
    && (step.ReceiveStamp? && AcceptedReceive(s, step) ==> s.writes[step.i].stamp.HappensBefore(after))
  }

  lemma ExecHasEffect(s: State, step: Step)
    requires WellFormed(s) && Enabled(s, step) && IsClockStep(step)
    ensures ClockEffect(s, step, Exec(s, step))
  {
  }

  lemma StepHasEffect(states: seq<State>, steps: seq<Step>, a: nat)
    requires Run(states, steps) && a < |steps| && IsClockStep(steps[a])
    ensures ClockEffect(states[a], steps[a], states[a + 1])
  {
    assert StepAt(states, steps, a);
    ExecHasEffect(states[a], steps[a]);
  }

  /** Step `b` leaves a reading not before the one step `a` left, and later if it stamps. */
  ghost predicate Advances(states: seq<State>, steps: seq<Step>, a: nat, b: nat)
    requires Run(states, steps)
  {
    && a < |steps| && b < |steps| && IsClockStep(steps[a]) && IsClockStep(steps[b])
    && Site(steps[a]) in states[a + 1].clocks && Site(steps[b]) in states[b + 1].clocks
    && !After(states, steps, b).HappensBefore(After(states, steps, a))
    && (steps[b].StampWrite? ==> After(states, steps, a).HappensBefore(After(states, steps, b)))
  }

  lemma LinkAdvances(states: seq<State>, steps: seq<Step>, a: nat, b: nat)
    requires Run(states, steps) && Link(states, steps, a, b)
    ensures Advances(states, steps, a, b)
  {
    ClocksAdvance(states, steps, a + 1, b);
    StepHasEffect(states, steps, a);
    StepHasEffect(states, steps, b);
  }

  lemma AdvancesTransitive(states: seq<State>, steps: seq<Step>, a: nat, b: nat, c: nat)
    requires Run(states, steps) && Advances(states, steps, a, b) && Advances(states, steps, b, c)
    ensures Advances(states, steps, a, c)
  {
  }

  lemma {:induction false} ChainAdvances(states: seq<State>, steps: seq<Step>, path: seq<nat>)
    requires Run(states, steps) && Chain(states, steps, path)
    ensures Advances(states, steps, path[0], path[|path| - 1])
    decreases |path|
  {
    var n := |path|;
    var b, c := path[n - 2], path[n - 1];
    LinkAdvances(states, steps, b, c);
    if n > 2 {
      ChainAdvances(states, steps, path[..n - 1]);
      AdvancesTransitive(states, steps, path[0], b, c);
    }
  }

  /** Causality, transitively along any chain of same-node steps and accepted clock updates: a
      write stamped at the end of the chain carries a strictly later stamp than the write stamped
      at its start. */
  lemma CausalWritesAreOrdered(states: seq<State>, steps: seq<Step>, path: seq<nat>)
    requires Run(states, steps) && Chain(states, steps, path)
    requires path[0] < |steps| && path[|path| - 1] < |steps|
    requires steps[path[0]].StampWrite? && steps[path[|path| - 1]].StampWrite?
    ensures var s := states[|steps|];
            var i, j := |states[path[0]].writes|, |states[path[|path| - 1]].writes|;
            && i < |s.writes| && j < |s.writes|
            && s.writes[i].stamp.HappensBefore(s.writes[j].stamp)
  {
    ChainAdvances(states, steps, path);
    StampedBy(states, steps, path[0]);
    StampedBy(states, steps, path[|path| - 1]);
  }

  /** The write a stamping step issues keeps the reading of that step as its stamp. */
  lemma StampedBy(states: seq<State>, steps: seq<Step>, a: nat)
    requires Run(states, steps) && a < |steps| && steps[a].StampWrite?
    ensures Site(steps[a]) in states[a + 1].clocks && |states[a].writes| < |states[|steps|].writes|
    ensures states[|steps|].writes[|states[a].writes|].stamp == After(states, steps, a)
  {
    StepHasEffect(states, steps, a);
    ClocksAdvance(states, steps, a + 1, |steps|);
  }
}
