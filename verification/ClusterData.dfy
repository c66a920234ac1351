/** What every run of the cluster guarantees about the stores, the logs, write rounds and reads. */
module ClusterData {
  import opened Basics
  import opened Ring
  import opened Storage
  import opened WriteLog
  import opened Replication
  import opened Server
  import opened Cluster

  // ---------------------------------------------------------------- invariants of one replica

  ghost predicate IsRecordOf(writes: seq<Write>, key: string, v: VersionedValue, i: nat) {
    i < |writes| && writes[i].key == key && v == RecordOf(writes[i])
  }

  ghost predicate HeldFrom(writes: seq<Write>, rep: Replica, key: string) {
    && key in rep.source && rep.source[key] in rep.stored
    && key in rep.data && IsRecordOf(writes, key, rep.data[key], rep.source[key])
  }

  ghost predicate KeyHeld(writes: seq<Write>, rep: Replica, i: nat) {
    i < |writes| && writes[i].key in rep.data
  }

  /** The store holds exactly the keys of the writes put into it, each with one of those writes. */
  ghost predicate HoldsWrites(writes: seq<Write>, rep: Replica) {
    && (forall i {:trigger KeyHeld(writes, rep, i)} | i in rep.stored :: KeyHeld(writes, rep, i))
    && (forall key {:trigger HeldFrom(writes, rep, key)} | key in rep.data :: HeldFrom(writes, rep, key))
    && (rep.repairing.Some? ==> rep.repairing.value in rep.stored)
  }

  ghost predicate LoggedAt(writes: seq<Write>, rep: Replica, j: nat) {
    && j < |rep.logged| && j < |Adds(rep.ops)|
    && rep.logged[j] in rep.stored && rep.logged[j] < |writes|
    && EntryFor(Adds(rep.ops)[j], writes[rep.logged[j]])
  }

  /** The log is what its operations left, and those added exactly the logged writes, in order. */
  ghost predicate LogMatches(writes: seq<Write>, rep: Replica, size: nat) {
    && 0 < size && rep.log == RunLog(Empty(size), rep.ops)
    && |Adds(rep.ops)| == |rep.logged|
    && forall j {:trigger LoggedAt(writes, rep, j)} | 0 <= j < |rep.logged| :: LoggedAt(writes, rep, j)
  }

  ghost predicate ReplicaInv(s: State, m: NodeId)
    requires m in s.replicas && m in s.configs
  {
    && HoldsWrites(s.writes, s.replicas[m])
    && LogMatches(s.writes, s.replicas[m], s.configs[m].logSize)
  }

  // ---------------------------------------------------------------- invariants of rounds and reads

  /** The nodes known to hold write `i`: its issuer and the peers that acknowledged it. */
  ghost function WriteQuorum(s: State, i: nat): set<NodeId>
    requires i < |s.writes| && i < |s.rounds|
  {
    {s.writes[i].node} + s.rounds[i].acked
  }

  ghost predicate RoundInv(s: State, i: nat)
    requires WellFormed(s) && i < |s.writes|
  {
    var round := s.rounds[i];
    && round.acked <= round.peers <= s.configs.Keys - {s.writes[i].node}
    && (round.phase != Open ==> forall m | m in WriteQuorum(s, i) :: i in s.replicas[m].stored)
    && (round.phase == Open ==> round.acked == {})
    && (round.phase.Done? ==> (round.phase.ok <==> round.peers == {} || 1 + |round.acked| >= round.w))
  }

  ghost predicate IsReplyOf(writes: seq<Write>, key: string, v: ReplicaValue, i: nat) {
    && i < |writes| && writes[i].key == key
    && v.value == writes[i].value && v.hlc == writes[i].stamp && v.version == v.timestamp == writes[i].stamp.physical
  }

  /** What reader `q` learned comes from writes of its key, and the writes it began after are done. */
  ghost predicate Informed(s: State, q: Read) {
    && (q.local.Some? ==> q.node in q.origins && IsRecordOf(s.writes, q.key, q.local.value, q.origins[q.node]))
    && (forall m | m in q.replies :: m in q.origins && IsReplyOf(s.writes, q.key, q.replies[m], q.origins[m]))
    && q.after <= Succeeded(s.rounds)
  }

  ghost predicate ReadShape(s: State, q: Read)
    requires WellFormed(s)
  {
    && q.replies.Keys <= q.peers <= s.configs.Keys - {q.node}
    && (!q.sent ==> q.result.None? && q.replies == map[])
    && (q.result.Some? ==>
          && q.node in s.configs
          && Enumerates(q.result.value.order, q.replies.Keys)
          && q.result.value.resp ==
             GetOutcome(q.local, q.r, q.peers, Found(q.replies, q.result.value.order), s.configs[q.node].maxStaleness, q.result.value.now))
  }

  ghost predicate DataInv(s: State) {
    && WellFormed(s)
    && (forall m | m in s.configs :: ReplicaInv(s, m))
    && (forall i | 0 <= i < |s.writes| :: RoundInv(s, i))
    && (forall g | 0 <= g < |s.queries| :: Informed(s, s.queries[g]) && ReadShape(s, s.queries[g]))
  }

  // ---------------------------------------------------------------- replica steps

  lemma StoreHolds(writes: seq<Write>, rep: Replica, i: nat)
    requires HoldsWrites(writes, rep) && i < |writes|
    ensures HoldsWrites(writes, StoredIn(rep, i, writes[i]))
  {
    var rep' := StoredIn(rep, i, writes[i]);
    forall j | j in rep'.stored ensures KeyHeld(writes, rep', j) {
      assert j != i ==> KeyHeld(writes, rep, j);
    }
    forall key | key in rep'.data ensures HeldFrom(writes, rep', key) {
      assert key != writes[i].key ==> HeldFrom(writes, rep, key);
    }
  }

  ghost predicate NotBehind(writes: seq<Write>, rep: Replica, i: nat) {
    KeyHeld(writes, rep, i) ==> !rep.data[writes[i].key].hlc.HappensBefore(writes[i].stamp)
  }

  /** Every copy is not before any write of its key that was put into the store. */
  ghost predicate CopiesNewest(writes: seq<Write>, rep: Replica) {
    forall i {:trigger NotBehind(writes, rep, i)} | i in rep.stored :: NotBehind(writes, rep, i)
  }

  /** The unconditional overwrite keeps that property exactly when the write being put is not before
      the copy it replaces. */
  lemma StoreKeepsNewestExactly(writes: seq<Write>, rep: Replica, i: nat)
    requires HoldsWrites(writes, rep) && CopiesNewest(writes, rep) && i < |writes|
    ensures CopiesNewest(writes, StoredIn(rep, i, writes[i])) <==>
            !(writes[i].key in rep.data && writes[i].stamp.HappensBefore(rep.data[writes[i].key].hlc))
  {
    var w, rep' := writes[i], StoredIn(rep, i, writes[i]);
    if w.key in rep.data && w.stamp.HappensBefore(rep.data[w.key].hlc) {
      assert HeldFrom(writes, rep, w.key);
      assert !NotBehind(writes, rep', rep.source[w.key]);
    } else {
      forall j | j in rep'.stored ensures NotBehind(writes, rep', j) {
        if j != i {
          assert KeyHeld(writes, rep, j) && NotBehind(writes, rep, j);
        }
      }
    }
  }

  lemma StoreKeepsLog(writes: seq<Write>, rep: Replica, size: nat, i: nat)
    requires LogMatches(writes, rep, size) && i < |writes|
    ensures LogMatches(writes, StoredIn(rep, i, writes[i]), size)
  {
    var rep' := StoredIn(rep, i, writes[i]);
    forall j | 0 <= j < |rep.logged| ensures LoggedAt(writes, rep', j) { assert LoggedAt(writes, rep, j); }
  }

  lemma LogKeepsReplica(writes: seq<Write>, rep: Replica, size: nat, i: nat, now: int)
    requires LogMatches(writes, rep, size) && rep.log.Valid() && i in rep.stored && i < |writes|
    ensures var e := EntryOf(writes[i], now);
            LogMatches(writes, rep.(log := Pushed(rep.log, e), logged := rep.logged + [i], ops := rep.ops + [Add(e)]), size)
  {
    var e := EntryOf(writes[i], now);
    var rep' := rep.(log := Pushed(rep.log, e), logged := rep.logged + [i], ops := rep.ops + [Add(e)]);
    assert rep'.ops[..|rep'.ops| - 1] == rep.ops;
    assert Adds(rep'.ops) == Adds(rep.ops) + [e];
    forall j | 0 <= j < |rep'.logged| ensures LoggedAt(writes, rep', j) {
      assert j < |rep.logged| ==> LoggedAt(writes, rep, j);
    }
  }

  lemma CleanKeepsReplica(writes: seq<Write>, rep: Replica, size: nat, cutoff: int)
    requires LogMatches(writes, rep, size) && rep.log.Valid()
    ensures LogMatches(writes, rep.(log := Cleaned(rep.log, cutoff), ops := rep.ops + [Cleanup(cutoff)]), size)
  {
    var rep' := rep.(log := Cleaned(rep.log, cutoff), ops := rep.ops + [Cleanup(cutoff)]);
    assert rep'.ops[..|rep'.ops| - 1] == rep.ops;
    forall j | 0 <= j < |rep'.logged| ensures LoggedAt(writes, rep', j) { assert LoggedAt(writes, rep, j); }
  }

  // ---------------------------------------------------------------- what a step leaves alone

  /** Nothing recorded is ever taken back. */
  ghost predicate Extends(s: State, s': State) {
    && WellFormed(s) && WellFormed(s') && s'.configs == s.configs
    && s.writes <= s'.writes
    && (forall m | m in s.configs :: s.replicas[m].stored <= s'.replicas[m].stored)
    && (forall i | 0 <= i < |s.writes| && s.rounds[i].phase.Done? :: s'.rounds[i] == s.rounds[i])
  }

  lemma ClockExtends(s: State, step: Step)
    requires WellFormed(s) && Enabled(s, step) && IsClockStep(step)
    ensures Extends(s, ExecClock(s, step))
  {
    ClockKeepsWellFormed(s, step);
  }

  lemma ReplicaUpdateExtends(s: State, s': State, m: NodeId)
    requires WellFormed(s) && m in s.configs && m in s'.replicas
    requires s' == s.(replicas := s'.replicas)
    requires s'.replicas == s.replicas[m := s'.replicas[m]] && s.replicas[m].stored <= s'.replicas[m].stored
    requires s'.replicas[m].log.Valid() && s'.replicas[m].log.size == s.replicas[m].log.size
    ensures Extends(s, s') && OnlyReplica(s, s', m)
  {
    ReplicaUpdateWellFormed(s, s', m);
  }

  lemma RoundExtends(s: State, step: Step)
    requires WellFormed(s) && Enabled(s, step) && IsRoundStep(step)
    ensures Extends(s, ExecRound(s, step))
  {
  }

  lemma ReadExtends(s: State, step: Step)
    requires WellFormed(s) && Enabled(s, step) && IsReadStep(step)
    ensures Extends(s, ExecRead(s, step))
  {
    ReadKeepsWellFormed(s, step);
  }

  lemma HoldsGrows(writes: seq<Write>, writes': seq<Write>, rep: Replica)
    requires HoldsWrites(writes, rep) && writes <= writes'
    ensures HoldsWrites(writes', rep)
  {
    forall i | i in rep.stored ensures KeyHeld(writes', rep, i) { assert KeyHeld(writes, rep, i); }
    forall key | key in rep.data ensures HeldFrom(writes', rep, key) { assert HeldFrom(writes, rep, key); }
  }

  lemma LogGrows(writes: seq<Write>, writes': seq<Write>, rep: Replica, size: nat)
    requires LogMatches(writes, rep, size) && writes <= writes'
    ensures LogMatches(writes', rep, size)
  {
    forall j | 0 <= j < |rep.logged| ensures LoggedAt(writes', rep, j) { assert LoggedAt(writes, rep, j); }
  }

  lemma ReplicaFrame(s: State, s': State, m: NodeId)
    requires Extends(s, s') && m in s.configs && ReplicaInv(s, m) && s'.replicas[m] == s.replicas[m]
    ensures ReplicaInv(s', m)
  {
    HoldsGrows(s.writes, s'.writes, s.replicas[m]);
    LogGrows(s.writes, s'.writes, s.replicas[m], s.configs[m].logSize);
  }

  lemma RoundFrame(s: State, s': State, i: nat)
    requires Extends(s, s') && i < |s.writes| && RoundInv(s, i) && s'.rounds[i] == s.rounds[i]
    ensures RoundInv(s', i)
  {
    assert WriteQuorum(s', i) == WriteQuorum(s, i);
  }

  lemma InformedFrame(s: State, s': State, q: Read)
    requires Extends(s, s') && Informed(s, q)
    ensures Informed(s', q)
  {
    forall m | m in q.replies ensures IsReplyOf(s'.writes, q.key, q.replies[m], q.origins[m]) {
      assert IsReplyOf(s.writes, q.key, q.replies[m], q.origins[m]);
    }
  }

  lemma ReadsFrame(s: State, s': State)
    requires DataInv(s) && Extends(s, s') && s'.queries == s.queries
    ensures forall g | 0 <= g < |s'.queries| :: Informed(s', s'.queries[g]) && ReadShape(s', s'.queries[g])
  {
    forall g | 0 <= g < |s'.queries|
      ensures Informed(s', s'.queries[g]) && ReadShape(s', s'.queries[g])
    {
      InformedFrame(s, s', s.queries[g]);
    }
  }

  // ---------------------------------------------------------------- preservation

  lemma ClockStepKeepsData(s: State, step: Step)
    requires DataInv(s) && Enabled(s, step) && IsClockStep(step)
    ensures DataInv(ExecClock(s, step))
  {
    ClockExtends(s, step);
    ClockStepRounds(s, step);
    OnlyClocks(s, ExecClock(s, step));
  }

  lemma ClockStepRounds(s: State, step: Step)
    requires WellFormed(s) && Enabled(s, step) && IsClockStep(step)
    ensures var s' := ExecClock(s, step);
            s.rounds <= s'.rounds && forall i | |s.rounds| <= i < |s'.rounds| :: s'.rounds[i] == Round(Open, {}, 0, {})
  {
  }

  lemma OnlyClocks(s: State, s': State)
    requires DataInv(s) && Extends(s, s') && s'.replicas == s.replicas && s'.queries == s.queries
    requires s.rounds <= s'.rounds && forall i | |s.rounds| <= i < |s'.rounds| :: s'.rounds[i] == Round(Open, {}, 0, {})
    ensures DataInv(s')
  {
    ReadsFrame(s, s');
    forall m | m in s'.configs ensures ReplicaInv(s', m) { ReplicaFrame(s, s', m); }
    forall i | 0 <= i < |s'.writes| ensures RoundInv(s', i) {
      if i < |s.writes| { RoundFrame(s, s', i); }
    }
  }

  lemma StoreSite(s: State, m: NodeId, rep: Replica, i: nat)
    requires m in s.configs && i < |s.writes|
    requires HoldsWrites(s.writes, rep) && LogMatches(s.writes, rep, s.configs[m].logSize)
    ensures var rep' := StoredIn(rep, i, s.writes[i]); HoldsWrites(s.writes, rep') && LogMatches(s.writes, rep', s.configs[m].logSize)
  {
    StoreHolds(s.writes, rep, i);
    StoreKeepsLog(s.writes, rep, s.configs[m].logSize, i);
  }

  /** The repair loop's own state matters to none of the invariants. */
  lemma RepairingFrame(s: State, m: NodeId, todo: seq<WriteEntry>, repairing: Option<nat>)
    requires m in s.replicas && m in s.configs && ReplicaInv(s, m)
    requires repairing.Some? ==> repairing.value in s.replicas[m].stored
    ensures var rep := s.replicas[m].(todo := todo, repairing := repairing);
            HoldsWrites(s.writes, rep) && LogMatches(s.writes, rep, s.configs[m].logSize)
  {
    var rep := s.replicas[m];
    var rep' := rep.(todo := todo, repairing := repairing);
    forall i | i in rep'.stored ensures KeyHeld(s.writes, rep', i) { assert KeyHeld(s.writes, rep, i); }
    forall key | key in rep'.data ensures HeldFrom(s.writes, rep', key) { assert HeldFrom(s.writes, rep, key); }
    forall j | 0 <= j < |rep'.logged| ensures LoggedAt(s.writes, rep', j) { assert LoggedAt(s.writes, rep, j); }
  }

  lemma LogFrame(s: State, m: NodeId, rep': Replica)
    requires m in s.replicas && m in s.configs && ReplicaInv(s, m)
    requires rep' == s.replicas[m].(log := rep'.log, logged := rep'.logged, ops := rep'.ops)
    ensures HoldsWrites(s.writes, rep')
  {
    var rep := s.replicas[m];
    forall i | i in rep'.stored ensures KeyHeld(s.writes, rep', i) { assert KeyHeld(s.writes, rep, i); }
    forall key | key in rep'.data ensures HeldFrom(s.writes, rep', key) { assert HeldFrom(s.writes, rep, key); }
  }

  lemma SiteKeepsReplica(s: State, step: Step)
    requires WellFormed(s) && Enabled(s, step) && IsReplicaStep(step) && step.m in s.configs && ReplicaInv(s, step.m)
    ensures var s' := ExecReplica(s, step); step.m in s'.replicas && step.m in s'.configs && ReplicaInv(s', step.m)
  {
    var m := step.m;
    var rep, rep' := s.replicas[m], ExecReplica(s, step).replicas[m];
    match step
    case StoreWrite(_, i) =>
      StoreSite(s, m, rep, i);
    case RepairStore(_) =>
      RepairingFrame(s, m, rep.todo, None);
      StoreSite(s, m, rep.(repairing := None), rep.repairing.value);
    case LogWrite(_, i, now) =>
      LogFrame(s, m, rep');
      LogKeepsReplica(s.writes, rep, s.configs[m].logSize, i, now);
    case CleanLog(_, now) =>
      LogFrame(s, m, rep');
      CleanKeepsReplica(s.writes, rep, s.configs[m].logSize, now - s.configs[m].logAge);
    case RepairBegin(_, _) =>
      RepairingFrame(s, m, rep'.todo, None);
    case RepairCheck(_, i) =>
      VisitKeepsReplica(s, m, i);
  }

  lemma VisitKeepsReplica(s: State, m: NodeId, i: nat)
    requires m in s.replicas && m in s.configs && ReplicaInv(s, m)
    requires s.replicas[m].todo != [] && i < |s.writes| && i in s.replicas[m].logged
    ensures var rep := Visited(s.replicas[m], i, s.writes[i]);
            HoldsWrites(s.writes, rep) && LogMatches(s.writes, rep, s.configs[m].logSize)
  {
    LoggedIsStored(s.writes, s.replicas[m], s.configs[m].logSize, i);
    var rep := Visited(s.replicas[m], i, s.writes[i]);
    RepairingFrame(s, m, rep.todo, rep.repairing);
  }

  lemma LoggedIsStored(writes: seq<Write>, rep: Replica, size: nat, i: nat)
    requires LogMatches(writes, rep, size) && i in rep.logged
    ensures i in rep.stored
  {
    var j :| 0 <= j < |rep.logged| && rep.logged[j] == i;
    assert LoggedAt(writes, rep, j);
  }

  /** Only the replica of `m` may differ. */
  ghost predicate OnlyReplica(s: State, s': State, m: NodeId) {
    && Extends(s, s') && m in s.configs
    && s'.writes == s.writes && s'.rounds == s.rounds && s'.queries == s.queries
    && forall n | n in s.configs && n != m :: s'.replicas[n] == s.replicas[n]
  }

  lemma ReplicaStepTouches(s: State, step: Step)
    requires WellFormed(s) && Enabled(s, step) && IsReplicaStep(step)
    ensures OnlyReplica(s, ExecReplica(s, step), step.m)
  {
    ReplicaStepShape(s, step);
    ReplicaUpdateExtends(s, ExecReplica(s, step), step.m);
  }

  lemma ReplicaChanged(s: State, s': State, m: NodeId)
    requires DataInv(s) && OnlyReplica(s, s', m) && ReplicaInv(s', m)
    ensures DataInv(s')
  {
    ReadsFrame(s, s');
    forall n | n in s'.configs && n != m ensures ReplicaInv(s', n) { ReplicaFrame(s, s', n); }
    forall i | 0 <= i < |s'.writes| ensures RoundInv(s', i) { RoundFrame(s, s', i); }
  }

  lemma ReplicaStepKeepsData(s: State, step: Step)
    requires DataInv(s) && Enabled(s, step) && IsReplicaStep(step)
    ensures DataInv(ExecReplica(s, step))
  {
    ReplicaStepTouches(s, step);
    SiteKeepsReplica(s, step);
    ReplicaChanged(s, ExecReplica(s, step), step.m);
  }

  /** Only round `i` may differ. */
  ghost predicate OnlyRound(s: State, s': State, i: nat) {
    && Extends(s, s') && i < |s.writes|
    && s' == s.(rounds := s'.rounds)
    && forall j | 0 <= j < |s.writes| && j != i :: s'.rounds[j] == s.rounds[j]
  }

  lemma RoundStepTouches(s: State, step: Step)
    requires WellFormed(s) && Enabled(s, step) && IsRoundStep(step)
    ensures OnlyRound(s, ExecRound(s, step), step.i)
  {
    RoundExtends(s, step);
  }

  /** Round `i` alone changes, to `round`. */
  lemma RoundBecomes(s: State, s': State, i: nat, round: Round)
    requires WellFormed(s) && WellFormed(s') && i < |s.writes| && s' == s.(rounds := s.rounds[i := round])
    requires round.acked <= round.peers <= s.configs.Keys - {s.writes[i].node}
    requires round.phase != Open && forall m | m in {s.writes[i].node} + round.acked :: i in s.replicas[m].stored
    requires round.phase.Done? ==> (round.phase.ok <==> round.peers == {} || 1 + |round.acked| >= round.w)
    ensures RoundInv(s', i)
  {
  }

  lemma SiteKeepsRound(s: State, step: Step)
    requires WellFormed(s) && Enabled(s, step) && IsRoundStep(step) && step.i < |s.writes| && RoundInv(s, step.i)
    ensures WellFormed(ExecRound(s, step)) && RoundInv(ExecRound(s, step), step.i)
  {
    RoundExtends(s, step);
    var s', i := ExecRound(s, step), step.i;
    assert s.rounds[i].phase != Open ==> WriteQuorum(s, i) == {s.writes[i].node} + s.rounds[i].acked;
    RoundBecomes(s, s', i, s'.rounds[i]);
  }

  lemma RoundChanged(s: State, s': State, i: nat)
    requires DataInv(s) && OnlyRound(s, s', i) && RoundInv(s', i)
    ensures DataInv(s')
  {
    ReadsFrame(s, s');
    forall n | n in s'.configs ensures ReplicaInv(s', n) { ReplicaFrame(s, s', n); }
    forall j | 0 <= j < |s'.writes| && j != i ensures RoundInv(s', j) { RoundFrame(s, s', j); }
  }

  lemma RoundStepKeepsData(s: State, step: Step)
    requires DataInv(s) && Enabled(s, step) && IsRoundStep(step)
    ensures DataInv(ExecRound(s, step))
  {
    RoundStepTouches(s, step);
    SiteKeepsRound(s, step);
    RoundChanged(s, ExecRound(s, step), step.i);
  }

  lemma StartedInformed(s: State, n: NodeId, key: string)
    requires DataInv(s) && n in s.configs
    ensures Informed(s, StartedRead(s, n, key))
  {
    if key in s.replicas[n].data { ReplyHasOrigin(s, n, key); }
  }

  lemma RepliedInformed(s: State, q: Read, m: NodeId, now: int)
    requires DataInv(s) && Informed(s, q) && m in s.configs && m != q.node && q.key in s.replicas[m].data
    ensures Informed(s, RepliedRead(s, q, m, now))
  {
    ReplyHasOrigin(s, m, q.key);
  }

  lemma ReplyHasOrigin(s: State, m: NodeId, key: string)
    requires DataInv(s) && m in s.configs && key in s.replicas[m].data
    ensures HeldFrom(s.writes, s.replicas[m], key)
  {
    assert ReplicaInv(s, m);
  }

  ghost predicate ReadOk(s: State, q: Read)
    requires WellFormed(s)
  {
    Informed(s, q) && ReadShape(s, q)
  }

  lemma SameKnowledge(s: State, q: Read, q': Read)
    requires Informed(s, q) && q' == q.(sent := q'.sent, r := q'.r, peers := q'.peers, result := q'.result)
    ensures Informed(s, q')
  {
  }

  lemma SentOk(s: State, q: Read, r: int, to: set<NodeId>)
    requires WellFormed(s) && ReadOk(s, q) && !q.sent && to <= s.configs.Keys - {q.node}
    ensures ReadOk(s, q.(sent := true, r := r, peers := to))
  {
    SameKnowledge(s, q, q.(sent := true, r := r, peers := to));
  }

  lemma RepliedOk(s: State, q: Read, m: NodeId, now: int)
    requires DataInv(s) && ReadOk(s, q) && q.sent && q.result.None? && m in s.configs && m in q.peers && q.key in s.replicas[m].data
    ensures ReadOk(s, RepliedRead(s, q, m, now))
  {
    RepliedInformed(s, q, m, now);
  }

  lemma FinishedOk(s: State, q: Read, order: seq<NodeId>, now: int)
    requires WellFormed(s) && ReadOk(s, q) && q.sent && q.node in s.configs && Enumerates(order, q.replies.Keys)
    ensures var resp := GetOutcome(q.local, q.r, q.peers, Found(q.replies, order), s.configs[q.node].maxStaleness, now);
            ReadOk(s, q.(result := Some(Finish(resp, order, now))))
  {
    var resp := GetOutcome(q.local, q.r, q.peers, Found(q.replies, order), s.configs[q.node].maxStaleness, now);
    SameKnowledge(s, q, q.(result := Some(Finish(resp, order, now))));
  }

  /** A step on an existing read leaves that read in order. */
  lemma SiteKeepsRead(s: State, step: Step)
    requires DataInv(s) && Enabled(s, step) && (step.SendRead? || step.Reply? || step.FinishRead?)
    ensures var s' := ExecRead(s, step); step.g < |s'.queries| && ReadOk(s, s'.queries[step.g])
  {
    QueryOk(s, step.g);
    var q := s.queries[step.g];
    match step
    case SendRead(_, r, to) => SentOk(s, q, r, to);
    case Reply(m, _, now) => RepliedOk(s, q, m, now);
    case FinishRead(_, order, now) => FinishedOk(s, q, order, now);
  }

  lemma ReadStepAt(s: State, step: Step, g: nat)
    requires DataInv(s) && Enabled(s, step) && IsReadStep(step) && g < |ExecRead(s, step).queries|
    ensures ReadOk(s, ExecRead(s, step).queries[g])
  {
    if step.StartRead? {
      if g < |s.queries| {
        QueryOk(s, g);
      } else {
        StartedInformed(s, step.n, step.key);
      }
    } else {
      OtherReadsStay(s, step, g);
      if g == step.g {
        SiteKeepsRead(s, step);
      } else {
        QueryOk(s, g);
      }
    }
  }

  lemma OtherReadsStay(s: State, step: Step, g: nat)
    requires WellFormed(s) && Enabled(s, step) && (step.SendRead? || step.Reply? || step.FinishRead?)
    ensures |ExecRead(s, step).queries| == |s.queries|
    ensures g < |s.queries| && g != step.g ==> ExecRead(s, step).queries[g] == s.queries[g]
  {
  }

  lemma QueryOk(s: State, g: nat)
    requires DataInv(s) && g < |s.queries|
    ensures ReadOk(s, s.queries[g])
  {
  }

  lemma ReadStepKeepsData(s: State, step: Step)
    requires DataInv(s) && Enabled(s, step) && IsReadStep(step)
    ensures DataInv(ExecRead(s, step))
  {
    var s' := ExecRead(s, step);
    ReadExtends(s, step);
    forall g | 0 <= g < |s'.queries| ensures Informed(s', s'.queries[g]) && ReadShape(s', s'.queries[g]) {
      ReadStepAt(s, step, g);
      InformedFrame(s, s', s'.queries[g]);
    }
    forall m | m in s'.configs ensures ReplicaInv(s', m) { ReplicaFrame(s, s', m); }
    forall i | 0 <= i < |s'.writes| ensures RoundInv(s', i) { RoundFrame(s, s', i); }
  }

  lemma StepExtends(s: State, step: Step)
    requires WellFormed(s) && Enabled(s, step)
    ensures Extends(s, Exec(s, step))
  {
    if IsClockStep(step) {
      ClockExtends(s, step);
    } else if IsReplicaStep(step) {
      ReplicaStepTouches(s, step);
    } else if IsRoundStep(step) {
      RoundExtends(s, step);
    } else {
      ReadExtends(s, step);
    }
  }

  lemma DataInvStep(s: State, step: Step)
    requires DataInv(s) && Enabled(s, step)
    ensures DataInv(Exec(s, step))
  {
    if IsClockStep(step) {
      ClockStepKeepsData(s, step);
    } else if IsReplicaStep(step) {
      ReplicaStepKeepsData(s, step);
    } else if IsRoundStep(step) {
      RoundStepKeepsData(s, step);
    } else {
      ReadStepKeepsData(s, step);
    }
  }

  lemma {:induction false} DataInvHolds(states: seq<State>, steps: seq<Step>)
    requires Run(states, steps)
    ensures DataInv(states[|steps|])
    decreases |steps|
  {
    if |steps| == 0 {
      InitialData(states[0]);
    } else {
      var n := |steps| - 1;
      RunPrefix(states, steps, n);
      DataInvHolds(states[..n + 1], steps[..n]);
      StepKeepsData(states, steps, n);
    }
  }

  lemma InitialData(s: State)
    requires Initial(s)
    ensures DataInv(s)
  {
  }

  lemma StepKeepsData(states: seq<State>, steps: seq<Step>, n: nat)
    requires Run(states, steps) && n < |steps| && DataInv(states[n])
    ensures DataInv(states[n + 1])
  {
    assert StepAt(states, steps, n);
    DataInvStep(states[n], steps[n]);
  }
}
