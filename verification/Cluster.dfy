/**
 The cluster as a transition system. Every critical section of the handlers (clock, store, log) is
 one atomic step, so handlers of one node interleave freely with each other; messages may be
 delayed, reordered or lost. The step functions are the ones the objects of the other modules are
 proved to compute: `Ticked`, `Merged`, `Versioned`, `Pushed`, `Cleaned`, `GetOutcome`.

 Some fields are history: `peak`, `steady`, `source`, `origins`, `ops`, `after`, `readings` and
 `produced` record what happened and never influence a step.
 */
module Cluster {
  import opened Basics
  import opened Ring
  import opened HybridClock
  import opened Storage
  import opened Staleness
  import opened WriteLog
  import opened Reconcile
  import opened Replication
  import opened Server

  type NodeId = string

  datatype Config = Config(maxDrift: int, maxStaleness: int, logSize: nat, logAge: int)

  /** A client write, from the moment it is stamped. */
  datatype Write = Write(
    node: NodeId, key: string, value: Bytes, stamp: Hlc,
    wall: int,          // the wall reading behind the stamp
    peak: int,          // the largest wall reading the issuer had taken by then
    steady: bool)       // the issuer's readings had never gone backwards by then

  datatype ClockNode = ClockNode(clock: ClockState, received: set<nat>, peak: int, steady: bool)

  /** `todo` is what the repair loop has still to visit of the live log it copied when it started, and
      `repairing` the write it found newer than the store and is about to put: copying the log, each
      look-up and each overwrite are critical sections of their own. */
  datatype Replica = Replica(data: Data, log: LogState, stored: set<nat>, logged: seq<nat>,
                             todo: seq<WriteEntry>, repairing: Option<nat>,
                             source: map<string, nat>, ops: seq<LogOp>)

  datatype Phase = Open | Sent | Done(ok: bool)

  datatype Round = Round(phase: Phase, peers: set<NodeId>, w: int, acked: set<NodeId>)

  datatype Finish = Finish(resp: GetResponse, order: seq<NodeId>, now: int)

  datatype Read = Read(
    node: NodeId, key: string, local: Option<VersionedValue>, after: set<nat>,
    sent: bool, r: int, peers: set<NodeId>, replies: map<NodeId, ReplicaValue>, result: Option<Finish>,
    origins: map<NodeId, nat>)

  datatype State = State(
    configs: map<NodeId, Config>,
    clocks: map<NodeId, ClockNode>,
    replicas: map<NodeId, Replica>,
    writes: seq<Write>,
    rounds: seq<Round>,
    queries: seq<Read>,
    readings: set<int>,                     // every wall reading taken
    produced: multiset<int>)                // the physical part each clock event produced

  datatype Step =
    | StampWrite(n: NodeId, key: string, value: Bytes, wall: int)
    | StoreWrite(m: NodeId, i: nat)
    | LogWrite(m: NodeId, i: nat, now: int)
    | SendWrite(i: nat, to: set<NodeId>, w: int)
    | ReceiveStamp(m: NodeId, i: nat, wall: int)
    | Acknowledge(m: NodeId, i: nat)
    | FinishWrite(i: nat)
    | StartRead(n: NodeId, key: string)
    | SendRead(g: nat, r: int, to: set<NodeId>)
    | Reply(m: NodeId, g: nat, now: int)
    | FinishRead(g: nat, order: seq<NodeId>, now: int)
    | RepairBegin(m: NodeId, now: int)
    | RepairCheck(m: NodeId, i: nat)
    | RepairStore(m: NodeId)
    | CleanLog(m: NodeId, now: int)
    | HealthCheck(n: NodeId, wall: int)

  function RecordOf(w: Write): VersionedValue {
    Versioned(w.value, w.node, w.stamp)
  }

  function EntryOf(w: Write, now: int): WriteEntry {
    WriteEntry(w.key, w.value, w.node, w.stamp, now)
  }

  ghost predicate EntryFor(e: WriteEntry, w: Write) {
    e == EntryOf(w, e.timestamp)
  }

  function Found(replies: map<NodeId, ReplicaValue>, order: seq<NodeId>): (found: seq<ReplicaValue>)
    requires forall m | m in order :: m in replies
    ensures |found| == |order|
    ensures forall i :: 0 <= i < |order| ==> found[i] == replies[order[i]]
  {
    if order == [] then [] else [replies[order[0]]] + Found(replies, order[1..])
  }

  // ---------------------------------------------------------------- states and steps

  ghost predicate WellFormed(s: State) {
    && s.clocks.Keys == s.replicas.Keys == s.configs.Keys
    && |s.rounds| == |s.writes|
    && (forall i | 0 <= i < |s.writes| :: s.writes[i].node in s.configs)
    && (forall g | 0 <= g < |s.queries| :: s.queries[g].node in s.configs)
    && (forall m | m in s.configs :: s.replicas[m].log.Valid() && s.replicas[m].log.size == s.configs[m].logSize)
  }

  ghost predicate Initial(s: State) {
    && s.clocks.Keys == s.replicas.Keys == s.configs.Keys
    && (forall n | n in s.configs ::
          && 0 < s.configs[n].logSize
          && s.clocks[n] == ClockNode(ClockState(s.clocks[n].clock.physical, 0, n, s.configs[n].maxDrift), {}, s.clocks[n].clock.physical, true)
          && s.replicas[n] == Replica(map[], Empty(s.configs[n].logSize), {}, [], [], None, map[], []))
    && s.writes == [] && s.rounds == [] && s.queries == []
    && s.readings == (set n | n in s.configs :: s.clocks[n].clock.physical) && s.produced == multiset{}
  }

  ghost predicate Enabled(s: State, step: Step)
    requires WellFormed(s)
  {
    match step
    case StampWrite(n, _, _, _) => n in s.configs
    case StoreWrite(m, i) =>
      && m in s.configs && i < |s.writes| && i !in s.replicas[m].stored
      && (m == s.writes[i].node || i in s.clocks[m].received)
    case LogWrite(m, i, _) =>
      m in s.configs && i < |s.writes| && i in s.replicas[m].stored && i !in s.replicas[m].logged
    case SendWrite(i, to, _) =>
      && i < |s.writes| && s.rounds[i].phase == Open && i in s.replicas[s.writes[i].node].stored
      && to <= s.configs.Keys - {s.writes[i].node}
    case ReceiveStamp(m, i, _) =>
      && m in s.configs && i < |s.writes| && m in s.rounds[i].peers && i !in s.clocks[m].received
    case Acknowledge(m, i) =>
      && m in s.configs && i < |s.writes| && s.rounds[i].phase == Sent
      && m in s.rounds[i].peers && m !in s.rounds[i].acked && i in s.replicas[m].stored
    case FinishWrite(i) => i < |s.writes| && s.rounds[i].phase == Sent
    case StartRead(n, _) => n in s.configs
    case SendRead(g, _, to) =>
      g < |s.queries| && !s.queries[g].sent && to <= s.configs.Keys - {s.queries[g].node}
    case Reply(m, g, _) =>
      && m in s.configs && g < |s.queries| && s.queries[g].sent && s.queries[g].result.None?
      && m in s.queries[g].peers && m !in s.queries[g].replies && s.queries[g].key in s.replicas[m].data
    case FinishRead(g, order, _) =>
      && g < |s.queries| && s.queries[g].sent && s.queries[g].result.None?
      && Enumerates(order, s.queries[g].replies.Keys)
    case RepairBegin(m, _) => m in s.configs && s.replicas[m].todo == [] && s.replicas[m].repairing.None?
    case RepairCheck(m, i) =>
      && m in s.configs && s.replicas[m].todo != [] && s.replicas[m].repairing.None?
      && i < |s.writes| && i in s.replicas[m].logged && EntryFor(s.replicas[m].todo[0], s.writes[i])
    case RepairStore(m) =>
      && m in s.configs && s.replicas[m].repairing.Some? && s.replicas[m].repairing.value < |s.writes|
    case CleanLog(m, _) => m in s.configs
    case HealthCheck(n, _) => n in s.configs
  }

  /** A clock event at `n` that reads `wall` and leaves the clock at `c`. */
  function ClockEvent(s: State, n: NodeId, c: ClockState, wall: int): State
    requires n in s.clocks
  {
    var k := s.clocks[n];
    s.(clocks := s.clocks[n := k.(clock := c, peak := Max(k.peak, wall), steady := k.steady && wall >= k.peak)],
       readings := s.readings + {wall},
       produced := s.produced + multiset{c.physical})
  }

  /** `PutWithHLC` of write `i`, which is `w`. */
  function StoredIn(rep: Replica, i: nat, w: Write): Replica {
    rep.(data := rep.data[w.key := RecordOf(w)], stored := rep.stored + {i}, source := rep.source[w.key := i])
  }

  function StoreAt(s: State, m: NodeId, i: nat): State
    requires m in s.replicas && i < |s.writes|
  {
    s.(replicas := s.replicas[m := StoredIn(s.replicas[m], i, s.writes[i])])
  }

  /** The repair loop visits the next entry, which is of write `i`, namely `w`. */
  function Visited(rep: Replica, i: nat, w: Write): Replica
    requires rep.todo != []
  {
    var newer := w.key in rep.data && Below(ValueRank(rep.data[w.key]), ValueRank(RecordOf(w)));
    rep.(todo := rep.todo[1..], repairing := if newer then Some(i) else None)
  }

  function Succeeded(rounds: seq<Round>): set<nat> {
    set i | 0 <= i < |rounds| && rounds[i].phase == Done(true)
  }

  predicate IsClockStep(step: Step) {
    step.StampWrite? || step.ReceiveStamp? || step.HealthCheck?
  }

  predicate IsReplicaStep(step: Step) {
    || step.StoreWrite? || step.LogWrite? || step.RepairBegin? || step.RepairCheck? || step.RepairStore? || step.CleanLog?
  }

  predicate IsRoundStep(step: Step) {
    step.SendWrite? || step.Acknowledge? || step.FinishWrite?
  }

  predicate IsReadStep(step: Step) {
    step.StartRead? || step.SendRead? || step.Reply? || step.FinishRead?
  }

  ghost function ExecClock(s: State, step: Step): (s': State)
    requires WellFormed(s) && Enabled(s, step)
    requires IsClockStep(step)
    ensures s'.configs == s.configs && s'.replicas == s.replicas && s'.queries == s.queries
    ensures !step.StampWrite? ==> s'.writes == s.writes && s'.rounds == s.rounds
  {
    match step
    case StampWrite(n, key, value, wall) =>
      var k := s.clocks[n];
      var c := Ticked(k.clock, wall);
      ClockEvent(s, n, c, wall).(
        writes := s.writes + [Write(n, key, value, c.Reading(), wall, Max(k.peak, wall), k.steady && wall >= k.peak)],
        rounds := s.rounds + [Round(Open, {}, 0, {})])
    case ReceiveStamp(m, i, wall) =>
      var k := s.clocks[m].(received := s.clocks[m].received + {i});
      var merged := Merged(k.clock, s.writes[i].stamp, wall);
      if merged.None? then
        s.(clocks := s.clocks[m := k.(peak := Max(k.peak, wall), steady := k.steady && wall >= k.peak)],
           readings := s.readings + {wall})
      else
        ClockEvent(s.(clocks := s.clocks[m := k]), m, merged.value, wall)
    case HealthCheck(n, wall) =>
      ClockEvent(s, n, Ticked(s.clocks[n].clock, wall), wall)
  }

  ghost function ExecReplica(s: State, step: Step): (s': State)
    requires WellFormed(s) && Enabled(s, step)
    requires IsReplicaStep(step)
    ensures s' == s.(replicas := s'.replicas)
  {
    match step
    case StoreWrite(m, i) => StoreAt(s, m, i)
    case LogWrite(m, i, now) =>
      var rep, e := s.replicas[m], EntryOf(s.writes[i], now);
      s.(replicas := s.replicas[m := rep.(log := Pushed(rep.log, e), logged := rep.logged + [i], ops := rep.ops + [Add(e)])])
    case RepairBegin(m, now) =>
      var rep := s.replicas[m];
      s.(replicas := s.replicas[m := rep.(todo := Live(rep.log.slots, now - s.configs[m].logAge))])
    case RepairCheck(m, i) =>
      s.(replicas := s.replicas[m := Visited(s.replicas[m], i, s.writes[i])])
    case RepairStore(m) =>
      var rep := s.replicas[m];
      StoreAt(s.(replicas := s.replicas[m := rep.(repairing := None)]), m, rep.repairing.value)
    case CleanLog(m, now) =>
      var rep, cutoff := s.replicas[m], now - s.configs[m].logAge;
      s.(replicas := s.replicas[m := rep.(log := Cleaned(rep.log, cutoff), ops := rep.ops + [Cleanup(cutoff)])])
  }

  ghost function ExecRound(s: State, step: Step): (s': State)
    requires WellFormed(s) && Enabled(s, step)
    requires IsRoundStep(step)
    ensures s' == s.(rounds := s'.rounds) && |s'.rounds| == |s.rounds|
  {
    match step
    case SendWrite(i, to, w) =>
      s.(rounds := s.rounds[i := Round(Sent, to, w, {})])
    case Acknowledge(m, i) =>
      s.(rounds := s.rounds[i := s.rounds[i].(acked := s.rounds[i].acked + {m})])
    case FinishWrite(i) =>
      var round := s.rounds[i];
      s.(rounds := s.rounds[i := round.(phase := Done(round.peers == {} || 1 + |round.acked| >= round.w))])
  }

  ghost function StartedRead(s: State, n: NodeId, key: string): Read
    requires WellFormed(s) && n in s.configs
  {
    var rep := s.replicas[n];
    Read(n, key, if key in rep.data then Some(rep.data[key]) else None, Succeeded(s.rounds), false, 0, {}, map[], None,
         if key in rep.source then map[n := rep.source[key]] else map[])
  }

  /** `GetLocal` answers from the store of `m`. */
  ghost function ReplyOf(s: State, m: NodeId, key: string, now: int): ReplicaValue
    requires WellFormed(s) && m in s.configs && key in s.replicas[m].data
  {
    var v := s.replicas[m].data[key];
    ReplicaValue(m, v.value, v.version, v.timestamp, v.hlc, IsStale(v.hlc, s.configs[m].maxStaleness, now))
  }

  ghost function RepliedRead(s: State, q: Read, m: NodeId, now: int): Read
    requires WellFormed(s) && m in s.configs && q.key in s.replicas[m].data
  {
    var rep := s.replicas[m];
    q.(replies := q.replies[m := ReplyOf(s, m, q.key, now)],
       origins := if q.key in rep.source then q.origins[m := rep.source[q.key]] else q.origins)
  }

  ghost function ExecRead(s: State, step: Step): (s': State)
    requires WellFormed(s) && Enabled(s, step)
    requires IsReadStep(step)
    ensures s' == s.(queries := s'.queries)
  {
    match step
    case StartRead(n, key) => s.(queries := s.queries + [StartedRead(s, n, key)])
    case SendRead(g, r, to) =>
      s.(queries := s.queries[g := s.queries[g].(sent := true, r := r, peers := to)])
    case Reply(m, g, now) => s.(queries := s.queries[g := RepliedRead(s, s.queries[g], m, now)])
    case FinishRead(g, order, now) =>
      var read := s.queries[g];
      var resp := GetOutcome(read.local, read.r, read.peers, Found(read.replies, order), s.configs[read.node].maxStaleness, now);
      s.(queries := s.queries[g := read.(result := Some(Finish(resp, order, now)))])
  }

  ghost function Exec(s: State, step: Step): State
    requires WellFormed(s) && Enabled(s, step)
  {
    if IsClockStep(step) then ExecClock(s, step)
    else if IsReplicaStep(step) then ExecReplica(s, step)
    else if IsRoundStep(step) then ExecRound(s, step)
    else ExecRead(s, step)
  }

  lemma ExecKeepsWellFormed(s: State, step: Step)
    requires WellFormed(s) && Enabled(s, step)
    ensures WellFormed(Exec(s, step))
  {
    if IsClockStep(step) {
      ClockKeepsWellFormed(s, step);
    } else if IsReplicaStep(step) {
      ReplicaKeepsWellFormed(s, step);
    } else if IsRoundStep(step) {
    } else {
      ReadKeepsWellFormed(s, step);
    }
  }

  lemma ClockKeepsWellFormed(s: State, step: Step)
    requires WellFormed(s) && Enabled(s, step)
    requires IsClockStep(step)
    ensures WellFormed(ExecClock(s, step))
  {
  }

  /** A replica step replaces the replica of one node by one with a valid log of the same size. */
  lemma ReplicaStepShape(s: State, step: Step)
    requires WellFormed(s) && Enabled(s, step) && IsReplicaStep(step)
    ensures var s' := ExecReplica(s, step);
            && step.m in s.configs && step.m in s'.replicas
            && s'.replicas == s.replicas[step.m := s'.replicas[step.m]]
            && s'.replicas[step.m].log.Valid() && s'.replicas[step.m].log.size == s.replicas[step.m].log.size
            && s.replicas[step.m].stored <= s'.replicas[step.m].stored
  {
  }

  lemma ReplicaUpdateWellFormed(s: State, s': State, m: NodeId)
    requires WellFormed(s) && m in s.configs && m in s'.replicas
    requires s' == s.(replicas := s'.replicas)
    requires s'.replicas == s.replicas[m := s'.replicas[m]]
    requires s'.replicas[m].log.Valid() && s'.replicas[m].log.size == s.replicas[m].log.size
    ensures WellFormed(s')
  {
  }

  lemma ReplicaKeepsWellFormed(s: State, step: Step)
    requires WellFormed(s) && Enabled(s, step) && IsReplicaStep(step)
    ensures WellFormed(ExecReplica(s, step))
  {
    ReplicaStepShape(s, step);
    ReplicaUpdateWellFormed(s, ExecReplica(s, step), step.m);
  }

  lemma ReadKeepsWellFormed(s: State, step: Step)
    requires WellFormed(s) && Enabled(s, step)
    requires IsReadStep(step)
    ensures WellFormed(ExecRead(s, step))
  {
  }

  /** `states` is a run of the cluster driven by `steps`. */
  ghost predicate Run(states: seq<State>, steps: seq<Step>) {
    && |states| == |steps| + 1
    && Initial(states[0])
    && forall j | 0 <= j < |steps| :: StepAt(states, steps, j)
  }

  ghost predicate StepAt(states: seq<State>, steps: seq<Step>, j: nat)
    requires |states| == |steps| + 1 && j < |steps|
  {
    Follows(states[j], steps[j], states[j + 1])
  }

  lemma RunPrefix(states: seq<State>, steps: seq<Step>, p: nat)
    requires Run(states, steps) && p <= |steps|
    ensures Run(states[..p + 1], steps[..p])
  {
    var front, before := states[..p + 1], steps[..p];
    forall j | 0 <= j < p ensures StepAt(front, before, j) {
      assert StepAt(states, steps, j);
    }
  }

  ghost predicate Follows(s: State, step: Step, s': State) {
    WellFormed(s) && Enabled(s, step) && s' == Exec(s, step)
  }
}
