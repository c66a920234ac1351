/** Repair and convergence, over every run of the cluster. */
module ClusterConvergence {
  import opened Basics
  import opened HybridClock
  import opened Storage
  import opened WriteLog
  import opened Reconcile
  import opened Cluster
  import opened ClusterClocks
  import opened ClusterData
  import opened ClusterRuns

  // ---------------------------------------------------------------- one repair

  /** The newest write of `key` among `indices`: none is stamped later, and none with the same stamp
      comes from a node with a greater id. */
  ghost predicate IsWinner(writes: seq<Write>, indices: set<nat>, key: string, i: nat) {
    && i in indices && i < |writes| && writes[i].key == key
    && forall j | j in indices && j < |writes| && writes[j].key == key ::
         && !writes[i].stamp.HappensBefore(writes[j].stamp)
         && (writes[i].stamp.Equal(writes[j].stamp) ==> !StringLess(writes[i].node, writes[j].node))
  }

  /** The entries the repair loop of node `m` visits when it starts at `now`. */
  ghost function LiveLog(s: State, m: NodeId, now: int): seq<WriteEntry>
    requires WellFormed(s) && m in s.configs
  {
    Live(s.replicas[m].log.slots, now - s.configs[m].logAge)
  }

  /** The store a repair run of node `m` leaves when nothing interleaves with it. */
  ghost function Repaired(s: State, m: NodeId, now: int): Data
    requires WellFormed(s) && m in s.configs
  {
    Reconciled(s.replicas[m].data, LiveLog(s, m, now))
  }

  lemma AddedIsLogged(s: State, m: NodeId, e: WriteEntry) returns (i: nat)
    requires DataInv(s) && m in s.configs && e in Adds(s.replicas[m].ops)
    ensures i in s.replicas[m].logged && i in s.replicas[m].stored && i < |s.writes| && EntryFor(e, s.writes[i])
  {
    var rep := s.replicas[m];
    assert ReplicaInv(s, m);
    var j :| 0 <= j < |Adds(rep.ops)| && Adds(rep.ops)[j] == e;
    assert LoggedAt(s.writes, rep, j);
    i := rep.logged[j];
  }

  /** Every entry of the live log is of a write the node stored and logged. */
  lemma LiveIsLogged(s: State, m: NodeId, now: int, e: WriteEntry) returns (i: nat)
    requires DataInv(s) && m in s.configs && e in LiveLog(s, m, now)
    ensures i in s.replicas[m].logged && i in s.replicas[m].stored && i < |s.writes| && EntryFor(e, s.writes[i])
  {
    LiveWasAdded(s, m, now, e);
    i := AddedIsLogged(s, m, e);
  }

  lemma LiveWasAdded(s: State, m: NodeId, now: int, e: WriteEntry)
    requires DataInv(s) && m in s.configs && e in LiveLog(s, m, now)
    ensures e in Adds(s.replicas[m].ops)
  {
    assert ReplicaInv(s, m);
    LiveMembers(s.replicas[m].log.slots, now - s.configs[m].logAge);
    SlotsWereAdded(s.configs[m].logSize, s.replicas[m].ops, e);
  }

  lemma RepairedIsJoin(s: State, m: NodeId, now: int, key: string)
    requires WellFormed(s) && m in s.configs && key in s.replicas[m].data
    ensures IsJoin(Repaired(s, m, now)[key], s.replicas[m].data[key], LiveLog(s, m, now), key)
  {
    ReconcileIsJoin(s.replicas[m].data, LiveLog(s, m, now), key);
  }

  /** What repair leaves is one of the stored writes: the one that was held, or one of the live log. */
  lemma RepairedIsStored(s: State, m: NodeId, now: int, key: string) returns (i: nat)
    requires DataInv(s) && m in s.configs && key in s.replicas[m].data
    ensures i in s.replicas[m].stored && i < |s.writes| && s.writes[i].key == key
    ensures Repaired(s, m, now)[key] == RecordOf(s.writes[i])
    ensures Recoverable(s, m, now, key, i)
  {
    RepairedIsJoin(s, m, now, key);
    var v := Repaired(s, m, now)[key];
    if v == s.replicas[m].data[key] {
      ReplyHasOrigin(s, m, key);
      i := s.replicas[m].source[key];
    } else {
      var e :| e in LiveLog(s, m, now) && e.key == key && v == Record(e);
      i := LiveIsLogged(s, m, now, e);
    }
  }

  // ---------------------------------------------------------------- what one repair restores

  ghost predicate InLiveLog(s: State, m: NodeId, now: int, i: nat)
    requires WellFormed(s) && m in s.configs && i < |s.writes|
  {
    exists e :: e in LiveLog(s, m, now) && EntryFor(e, s.writes[i])
  }

  /** Write `i` is the copy `m` holds of `key`, or is still in its live log. */
  ghost predicate Recoverable(s: State, m: NodeId, now: int, key: string, i: nat)
    requires WellFormed(s) && m in s.configs && i < |s.writes| && key in s.replicas[m].data
  {
    s.replicas[m].data[key] == RecordOf(s.writes[i]) || InLiveLog(s, m, now, i)
  }

  lemma RankIdentifies(s: State, i: nat, j: nat)
    requires ClockInv(s) && i < |s.writes| && j < |s.writes|
    requires ValueRank(RecordOf(s.writes[i])) == ValueRank(RecordOf(s.writes[j]))
    ensures i == j
  {
  }

  lemma WinnerHasKey(s: State, m: NodeId, key: string, i: nat)
    requires DataInv(s) && m in s.configs && IsWinner(s.writes, s.replicas[m].stored, key, i)
    ensures key in s.replicas[m].data
  {
    assert ReplicaInv(s, m);
    assert KeyHeld(s.writes, s.replicas[m], i);
  }

  /** A recoverable winner is not beaten by what repair leaves, which is no newer than the winner. */
  lemma RecoverableWins(s: State, m: NodeId, now: int, key: string, i: nat, j: nat)
    requires DataInv(s) && ClockInv(s) && m in s.configs && key in s.replicas[m].data
    requires IsWinner(s.writes, s.replicas[m].stored, key, i) && Recoverable(s, m, now, key, i)
    requires j in s.replicas[m].stored && j < |s.writes| && s.writes[j].key == key
    requires Repaired(s, m, now)[key] == RecordOf(s.writes[j])
    ensures i == j
  {
    RepairedIsJoin(s, m, now, key);
    var a, b := ValueRank(RecordOf(s.writes[i])), ValueRank(RecordOf(s.writes[j]));
    if InLiveLog(s, m, now, i) {
      var e :| e in LiveLog(s, m, now) && EntryFor(e, s.writes[i]);
      assert EntryRank(e) == a;
    }
    BelowTotal(a, b);
    RankIdentifies(s, i, j);
  }

  lemma RestoresInState(s: State, m: NodeId, now: int, key: string, i: nat)
    requires DataInv(s) && ClockInv(s) && m in s.configs && key in s.replicas[m].data
    requires IsWinner(s.writes, s.replicas[m].stored, key, i)
    ensures Repaired(s, m, now)[key] == RecordOf(s.writes[i]) <==> Recoverable(s, m, now, key, i)
  {
    var j := RepairedIsStored(s, m, now, key);
    if Recoverable(s, m, now, key, i) { RecoverableWins(s, m, now, key, i, j); }
    if Repaired(s, m, now)[key] == RecordOf(s.writes[i]) { RankIdentifies(s, i, j); }
  }

  /** Exactly what a repair restores: in every run, one undisturbed repair leaves the newest of the
      writes the node ever stored under a key if and only if the node still holds that write or has
      it in its live log. */
  lemma RepairRestoresExactly(states: seq<State>, steps: seq<Step>, m: NodeId, now: int, key: string, i: nat)
    requires Run(states, steps) && m in states[|steps|].configs && m in states[|steps|].replicas
    requires IsWinner(states[|steps|].writes, states[|steps|].replicas[m].stored, key, i)
    ensures WellFormed(states[|steps|]) && key in states[|steps|].replicas[m].data
    ensures var s := states[|steps|];
            Repaired(s, m, now)[key] == RecordOf(s.writes[i]) <==> Recoverable(s, m, now, key, i)
  {
    DataInvHolds(states, steps);
    ClockInvHolds(states, steps);
    WinnerHasKey(states[|steps|], m, key, i);
    RestoresInState(states[|steps|], m, now, key, i);
  }

  lemma {:induction false} BestOf(writes: seq<Write>, indices: set<nat>, key: string, start: nat) returns (i: nat)
    requires start < |writes| && writes[start].key == key
    ensures IsWinner(writes, indices + {start}, key, i)
    decreases |indices|
  {
    BelowTotal(ValueRank(RecordOf(writes[start])), ValueRank(RecordOf(writes[start])));
    if indices == {} {
      i := start;
    } else {
      var j :| j in indices;
      var best := BestOf(writes, indices - {j}, key, start);
      i := BetterOf(writes, indices - {j} + {start}, key, best, j);
      assert indices - {j} + {start} + {j} == indices + {start};
    }
  }

  lemma BetterOf(writes: seq<Write>, indices: set<nat>, key: string, best: nat, j: nat) returns (i: nat)
    requires IsWinner(writes, indices, key, best)
    ensures IsWinner(writes, indices + {j}, key, i)
  {
    i := best;
    if j < |writes| && writes[j].key == key {
      var a, b := ValueRank(RecordOf(writes[best])), ValueRank(RecordOf(writes[j]));
      BelowTotal(b, b);
      if Below(a, b) {
        i := j;
        BelowAsymmetric(a, b);
        forall k | k in indices && k < |writes| && writes[k].key == key ensures !Below(b, ValueRank(RecordOf(writes[k]))) {
          AtMostTransitive(ValueRank(RecordOf(writes[k])), a, b);
        }
      }
    }
  }

  /** Every key a node holds has a newest write among those it stored. */
  lemma WinnerExists(s: State, m: NodeId, key: string) returns (i: nat)
    requires DataInv(s) && m in s.configs && key in s.replicas[m].data
    ensures IsWinner(s.writes, s.replicas[m].stored, key, i)
  {
    ReplyHasOrigin(s, m, key);
    var rep := s.replicas[m];
    i := BestOf(s.writes, rep.stored, key, rep.source[key]);
    assert rep.stored + {rep.source[key]} == rep.stored;
  }

  // ---------------------------------------------------------------- convergence

  /** Nothing node `m` stored is missing from its log or expired at `now`: it logged every write,
      never more than the log can hold, and no clean-up used a later cutoff. */
  ghost predicate Intact(s: State, m: NodeId, now: int)
    requires WellFormed(s) && m in s.configs
  {
    var rep, cutoff := s.replicas[m], now - s.configs[m].logAge;
    && (forall i | i in rep.stored :: i in rep.logged)
    && |rep.logged| <= s.configs[m].logSize
    && (forall e | e in Adds(rep.ops) :: e.timestamp >= cutoff)
    && (forall op | op in rep.ops && op.Cleanup? :: op.cutoff <= cutoff)
  }

  lemma IntactLog(s: State, m: NodeId, now: int)
    requires DataInv(s) && m in s.configs && Intact(s, m, now)
    ensures LiveLog(s, m, now) == Adds(s.replicas[m].ops)
  {
    assert ReplicaInv(s, m);
    var rep, cutoff := s.replicas[m], now - s.configs[m].logAge;
    NothingEvicted(s.configs[m].logSize, rep.ops, cutoff);
    LiveAll(Adds(rep.ops), cutoff);
  }

  lemma LoggedWasAdded(s: State, m: NodeId, i: nat) returns (e: WriteEntry)
    requires DataInv(s) && m in s.configs && i in s.replicas[m].logged
    ensures e in Adds(s.replicas[m].ops) && i < |s.writes| && EntryFor(e, s.writes[i])
  {
    var rep := s.replicas[m];
    assert ReplicaInv(s, m);
    var j :| 0 <= j < |rep.logged| && rep.logged[j] == i;
    assert LoggedAt(s.writes, rep, j);
    e := Adds(rep.ops)[j];
  }

  lemma IntactIsLive(s: State, m: NodeId, now: int, i: nat)
    requires DataInv(s) && m in s.configs && Intact(s, m, now) && i in s.replicas[m].stored
    ensures i < |s.writes| && InLiveLog(s, m, now, i)
  {
    var e := LoggedWasAdded(s, m, i);
    IntactLog(s, m, now);
  }

  /** Repair undoes every overwrite by a late Replicate: it leaves, for each key, the newest of all
      the writes the node ever stored, in whatever order they were applied and repaired before. */
  lemma RepairedIsWinner(s: State, m: NodeId, now: int, key: string) returns (i: nat)
    requires DataInv(s) && m in s.configs && Intact(s, m, now) && key in s.replicas[m].data
    ensures key in Repaired(s, m, now)
    ensures IsWinner(s.writes, s.replicas[m].stored, key, i)
    ensures Repaired(s, m, now)[key] == RecordOf(s.writes[i])
  {
    i := RepairedIsStored(s, m, now, key);
    forall j | j in s.replicas[m].stored && j < |s.writes| && s.writes[j].key == key
      ensures !Below(ValueRank(RecordOf(s.writes[i])), ValueRank(RecordOf(s.writes[j])))
    {
      IntactNotBeaten(s, m, now, key, j);
    }
  }

  lemma IntactNotBeaten(s: State, m: NodeId, now: int, key: string, j: nat)
    requires DataInv(s) && m in s.configs && Intact(s, m, now) && key in s.replicas[m].data
    requires j in s.replicas[m].stored && j < |s.writes| && s.writes[j].key == key
    ensures !Below(ValueRank(Repaired(s, m, now)[key]), ValueRank(RecordOf(s.writes[j])))
  {
    RepairedIsJoin(s, m, now, key);
    IntactIsLive(s, m, now, j);
    var e :| e in LiveLog(s, m, now) && EntryFor(e, s.writes[j]);
    assert EntryRank(e) == ValueRank(RecordOf(s.writes[j]));
  }

  lemma SameKeys(s: State, m1: NodeId, m2: NodeId, key: string)
    requires DataInv(s) && m1 in s.configs && m2 in s.configs
    requires s.replicas[m1].stored == s.replicas[m2].stored && key in s.replicas[m1].data
    ensures key in s.replicas[m2].data
  {
    ReplyHasOrigin(s, m1, key);
    var i := s.replicas[m1].source[key];
    assert ReplicaInv(s, m2);
    assert KeyHeld(s.writes, s.replicas[m2], i);
  }

  /** The newest stored write of every key `m` holds is the copy it holds or still in its live log. */
  ghost predicate AllRecoverable(s: State, m: NodeId, now: int)
    requires WellFormed(s) && m in s.configs
  {
    forall key, i {:trigger IsWinner(s.writes, s.replicas[m].stored, key, i)}
      | key in s.replicas[m].data && IsWinner(s.writes, s.replicas[m].stored, key, i) :: Recoverable(s, m, now, key, i)
  }

  lemma SameCopy(s: State, m1: NodeId, m2: NodeId, now1: int, now2: int, key: string)
    requires DataInv(s) && ClockInv(s) && m1 in s.configs && m2 in s.configs
    requires s.replicas[m1].stored == s.replicas[m2].stored && key in s.replicas[m1].data && key in s.replicas[m2].data
    requires AllRecoverable(s, m1, now1) && AllRecoverable(s, m2, now2)
    ensures Repaired(s, m1, now1)[key] == Repaired(s, m2, now2)[key]
  {
    var i := WinnerExists(s, m1, key);
    RestoresInState(s, m1, now1, key, i);
    RestoresInState(s, m2, now2, key, i);
  }

  /** Two nodes that stored the same set of writes, in any two orders and with any repairs in between,
      hold identical stores after one undisturbed repair each, as long as neither has lost the newest
      write of a key. */
  lemma ConvergenceWhereRecoverable(states: seq<State>, steps: seq<Step>, m1: NodeId, m2: NodeId, now1: int, now2: int)
    requires Run(states, steps) && WellFormed(states[|steps|])
    requires m1 in states[|steps|].configs && m2 in states[|steps|].configs
    requires states[|steps|].replicas[m1].stored == states[|steps|].replicas[m2].stored
    requires AllRecoverable(states[|steps|], m1, now1) && AllRecoverable(states[|steps|], m2, now2)
    ensures Repaired(states[|steps|], m1, now1) == Repaired(states[|steps|], m2, now2)
  {
    var s := states[|steps|];
    DataInvHolds(states, steps);
    ClockInvHolds(states, steps);
    var a, b := Repaired(s, m1, now1), Repaired(s, m2, now2);
    forall key | key in a ensures key in b && b[key] == a[key] {
      SameKeys(s, m1, m2, key);
      SameCopy(s, m1, m2, now1, now2, key);
    }
    forall key | key in b ensures key in a {
      SameKeys(s, m2, m1, key);
    }
  }

  /** In particular as long as neither log has lost any write. */
  lemma Convergence(states: seq<State>, steps: seq<Step>, m1: NodeId, m2: NodeId, now1: int, now2: int)
    requires Run(states, steps) && WellFormed(states[|steps|])
    requires m1 in states[|steps|].configs && m2 in states[|steps|].configs
    requires states[|steps|].replicas[m1].stored == states[|steps|].replicas[m2].stored
    requires Intact(states[|steps|], m1, now1) && Intact(states[|steps|], m2, now2)
    ensures Repaired(states[|steps|], m1, now1) == Repaired(states[|steps|], m2, now2)
  {
    DataInvHolds(states, steps);
    IntactIsRecoverable(states[|steps|], m1, now1);
    IntactIsRecoverable(states[|steps|], m2, now2);
    ConvergenceWhereRecoverable(states, steps, m1, m2, now1, now2);
  }

  lemma IntactIsRecoverable(s: State, m: NodeId, now: int)
    requires DataInv(s) && m in s.configs && Intact(s, m, now)
    ensures AllRecoverable(s, m, now)
  {
    forall key, i | key in s.replicas[m].data && IsWinner(s.writes, s.replicas[m].stored, key, i)
      ensures Recoverable(s, m, now, key, i)
    {
      IntactIsLive(s, m, now, i);
    }
  }

  // ---------------------------------------------------------------- settled nodes

  /** The repair loop of node `m`, started at `now`, would find nothing to do: no entry of its live log
      beats the copy it holds. */
  ghost predicate Settled(s: State, m: NodeId, now: int)
    requires WellFormed(s) && m in s.configs
  {
    forall e | e in LiveLog(s, m, now) && e.key in s.replicas[m].data ::
      !Below(ValueRank(s.replicas[m].data[e.key]), EntryRank(e))
  }

  /** That is so exactly when a repair would leave the store as it is. */
  lemma SettledExactly(s: State, m: NodeId, now: int)
    requires WellFormed(s) && m in s.configs
    ensures Settled(s, m, now) <==> Repaired(s, m, now) == s.replicas[m].data
  {
    var data, entries := s.replicas[m].data, LiveLog(s, m, now);
    if Settled(s, m, now) { ReconcileFixpoint(data, entries); }
    if Repaired(s, m, now) == data {
      forall e | e in entries && e.key in data ensures !Below(ValueRank(data[e.key]), EntryRank(e)) {
        RepairedIsJoin(s, m, now, e.key);
      }
    }
  }

  /** In every run a settled node holds the newest write it ever stored under a key, as long as its live
      log still has that write. */
  lemma SettledHoldsWinner(states: seq<State>, steps: seq<Step>, m: NodeId, now: int, key: string, i: nat)
    requires Run(states, steps) && WellFormed(states[|steps|]) && m in states[|steps|].configs
    requires IsWinner(states[|steps|].writes, states[|steps|].replicas[m].stored, key, i)
    requires Settled(states[|steps|], m, now) && InLiveLog(states[|steps|], m, now, i)
    ensures var s := states[|steps|]; key in s.replicas[m].data && s.replicas[m].data[key] == RecordOf(s.writes[i])
  {
    RepairRestoresExactly(states, steps, m, now, key, i);
    SettledExactly(states[|steps|], m, now);
  }

  /** In every run two settled nodes that stored the same writes hold the same copy of each key whose
      newest write both live logs still have, however the steps of either interleaved. */
  lemma SettledNodesAgree(states: seq<State>, steps: seq<Step>, m1: NodeId, now1: int, m2: NodeId, now2: int, key: string, i: nat)
    requires Run(states, steps) && WellFormed(states[|steps|])
    requires m1 in states[|steps|].configs && m2 in states[|steps|].configs
    requires states[|steps|].replicas[m1].stored == states[|steps|].replicas[m2].stored
    requires IsWinner(states[|steps|].writes, states[|steps|].replicas[m1].stored, key, i)
    requires Settled(states[|steps|], m1, now1) && InLiveLog(states[|steps|], m1, now1, i)
    requires Settled(states[|steps|], m2, now2) && InLiveLog(states[|steps|], m2, now2, i)
    ensures var s := states[|steps|];
            && key in s.replicas[m1].data && key in s.replicas[m2].data
            && s.replicas[m1].data[key] == s.replicas[m2].data[key] == RecordOf(s.writes[i])
  {
    SettledHoldsWinner(states, steps, m1, now1, key, i);
    SettledHoldsWinner(states, steps, m2, now2, key, i);
  }

  // ---------------------------------------------------------------- repair, step by step

  /** Only the contents of the store of `m` and what its repair loop has still to visit differ. */
  ghost function WithStore(s: State, m: NodeId, data: Data, source: map<string, nat>, todo: seq<WriteEntry>): State
    requires m in s.replicas
  {
    s.(replicas := s.replicas[m := s.replicas[m].(data := data, source := source, todo := todo)])
  }

  lemma WithOwnStore(s: State, m: NodeId, todo: seq<WriteEntry>)
    requires m in s.replicas
    ensures WithStore(s, m, s.replicas[m].data, s.replicas[m].source, todo).replicas
            == s.replicas[m := s.replicas[m].(todo := todo)]
  {
  }

  lemma BeginRepair(s: State, m: NodeId, now: int) returns (s': State)
    requires Reachable(s) && m in s.configs && s.replicas[m].todo == [] && s.replicas[m].repairing.None?
    ensures Reachable(s') && s' == WithStore(s, m, s.replicas[m].data, s.replicas[m].source, LiveLog(s, m, now))
  {
    s' := Then(s, RepairBegin(m, now));
    WithOwnStore(s, m, LiveLog(s, m, now));
    assert s' == s.(replicas := s.replicas[m := s.replicas[m].(todo := LiveLog(s, m, now))]);
  }

  lemma VisitNext(s: State, m: NodeId, i: nat) returns (s': State)
    requires Reachable(s) && m in s.configs && s.replicas[m].todo != [] && s.replicas[m].repairing.None?
    requires i < |s.writes| && i in s.replicas[m].logged && EntryFor(s.replicas[m].todo[0], s.writes[i])
    ensures Reachable(s') && s' == s.(replicas := s.replicas[m := Visited(s.replicas[m], i, s.writes[i])])
  {
    s' := Then(s, RepairCheck(m, i));
  }

  lemma FinishRepair(s: State, m: NodeId, i: nat) returns (s': State)
    requires Reachable(s) && m in s.configs && i < |s.writes| && s.replicas[m].repairing == Some(i)
    ensures Reachable(s')
    ensures s' == s.(replicas := s.replicas[m := StoredIn(s.replicas[m].(repairing := None), i, s.writes[i])])
  {
    s' := Then(s, RepairStore(m));
    var rep := StoredIn(s.replicas[m].(repairing := None), i, s.writes[i]);
    assert s'.replicas == s.replicas[m := rep];
  }

  /** Putting a write that was stored before changes only the contents. */
  lemma StoredAgain(rep: Replica, i: nat, w: Write)
    requires i in rep.stored
    ensures StoredIn(rep, i, w) == rep.(data := rep.data[w.key := RecordOf(w)], source := rep.source[w.key := i])
  {
    assert rep.stored + {i} == rep.stored;
  }

  lemma PutBack(replicas: map<NodeId, Replica>, m: NodeId, i: nat, w: Write)
    requires m in replicas && i in replicas[m].stored && replicas[m].todo != [] && replicas[m].repairing.None?
    ensures var rep := replicas[m];
            var seen := Visited(rep, i, w);
            replicas[m := seen][m := StoredIn(seen.(repairing := None), i, w)]
            == replicas[m := rep.(data := rep.data[w.key := RecordOf(w)], source := rep.source[w.key := i], todo := rep.todo[1..])]
  {
    var rep := replicas[m];
    var rest := rep.(todo := rep.todo[1..]);
    assert Visited(rep, i, w).(repairing := None) == rest;
    StoredAgain(rest, i, w);
  }

  /** A visited entry that beats the stored value is put back by one check and one store. */
  lemma VisitNewer(s: State, m: NodeId, i: nat) returns (s': State)
    requires Reachable(s) && m in s.configs && s.replicas[m].todo != [] && s.replicas[m].repairing.None?
    requires i < |s.writes| && i in s.replicas[m].logged && i in s.replicas[m].stored
    requires EntryFor(s.replicas[m].todo[0], s.writes[i]) && s.writes[i].key in s.replicas[m].data
    requires Below(ValueRank(s.replicas[m].data[s.writes[i].key]), ValueRank(RecordOf(s.writes[i])))
    ensures var rep, w := s.replicas[m], s.writes[i];
            Reachable(s') && s' == WithStore(s, m, rep.data[w.key := RecordOf(w)], rep.source[w.key := i], rep.todo[1..])
  {
    var seen := VisitNext(s, m, i);
    s' := FinishRepair(seen, m, i);
    PutBack(s.replicas, m, i, s.writes[i]);
  }

  lemma VisitOlder(s: State, m: NodeId, i: nat) returns (s': State)
    requires Reachable(s) && m in s.configs && s.replicas[m].todo != [] && s.replicas[m].repairing.None?
    requires i < |s.writes| && i in s.replicas[m].logged && EntryFor(s.replicas[m].todo[0], s.writes[i])
    requires s.writes[i].key in s.replicas[m].data ==>
               !Below(ValueRank(s.replicas[m].data[s.writes[i].key]), ValueRank(RecordOf(s.writes[i])))
    ensures Reachable(s') && s' == WithStore(s, m, s.replicas[m].data, s.replicas[m].source, s.replicas[m].todo[1..])
  {
    s' := VisitNext(s, m, i);
    WithOwnStore(s, m, s.replicas[m].todo[1..]);
  }

  lemma WithStoreTwice(s: State, m: NodeId, d: Data, f: map<string, nat>, t: seq<WriteEntry>, d': Data, f': map<string, nat>, t': seq<WriteEntry>)
    requires m in s.replicas
    ensures WithStore(WithStore(s, m, d, f, t), m, d', f', t') == WithStore(s, m, d', f', t')
  {
    var rep := s.replicas[m];
    assert s.replicas[m := rep.(data := d, source := f, todo := t)][m := rep.(data := d', source := f', todo := t')]
        == s.replicas[m := rep.(data := d', source := f', todo := t')];
  }

  /** One turn of the repair loop, which visits the entry of write `i`. */
  lemma RepairOne(s: State, m: NodeId, data: Data, source: map<string, nat>, todo: seq<WriteEntry>, i: nat) returns (source': map<string, nat>)
    requires m in s.configs && m in s.replicas && s.replicas[m].repairing.None? && todo != []
    requires i < |s.writes| && i in s.replicas[m].logged && i in s.replicas[m].stored && EntryFor(todo[0], s.writes[i])
    requires Reachable(WithStore(s, m, data, source, todo))
    ensures Reachable(WithStore(s, m, Resolved(data, todo[0]), source', todo[1..]))
  {
    var e, now := todo[0], WithStore(s, m, data, source, todo);
    source' := source;
    if e.key in data && Below(ValueRank(data[e.key]), EntryRank(e)) {
      source' := source[e.key := i];
      var s' := VisitNewer(now, m, i);
    } else {
      var s' := VisitOlder(now, m, i);
    }
    WithStoreTwice(s, m, data, source, todo, Resolved(data, e), source', todo[1..]);
  }

  /** After `k` turns the loop has folded the first `k` entries and has the rest to visit. */
  lemma {:induction false} RepairSteps(s: State, m: NodeId, now: int, entries: seq<WriteEntry>, k: nat) returns (source: map<string, nat>)
    requires Reachable(s) && DataInv(s) && m in s.configs && s.replicas[m].todo == [] && s.replicas[m].repairing.None?
    requires entries == LiveLog(s, m, now) && k <= |entries|
    ensures Reachable(WithStore(s, m, Reconciled(s.replicas[m].data, entries[..k]), source, entries[k..]))
    decreases k
  {
    var data := s.replicas[m].data;
    if k == 0 {
      source := s.replicas[m].source;
      var s' := BeginRepair(s, m, now);
      assert entries[0..] == entries;
    } else {
      source := RepairSteps(s, m, now, entries, k - 1);
      var todo := entries[k - 1..];
      assert todo[0] == entries[k - 1] && todo[1..] == entries[k..];
      var i := LiveIsLogged(s, m, now, entries[k - 1]);
      source := RepairOne(s, m, Reconciled(data, entries[..k - 1]), source, todo, i);
      ReconciledStep(data, entries, k);
    }
  }

  /** The repair loop computes `Repaired`: whatever the run so far, from a state in which the loop is
      idle its steps alone lead to a state that differs in that store only, and there it is settled. */
  lemma RepairSettles(s: State, m: NodeId, now: int) returns (source: map<string, nat>)
    requires Reachable(s) && m in s.configs && s.replicas[m].todo == [] && s.replicas[m].repairing.None?
    ensures var s' := WithStore(s, m, Repaired(s, m, now), source, []); Reachable(s') && Settled(s', m, now)
  {
    ReachableOk(s);
    var entries := LiveLog(s, m, now);
    source := RepairSteps(s, m, now, entries, |entries|);
    assert entries[..|entries|] == entries && entries[|entries|..] == [];
    RepairedIsSettled(s, m, now, source);
  }

  lemma RepairedIsSettled(s: State, m: NodeId, now: int, source: map<string, nat>)
    requires WellFormed(s) && m in s.configs && WellFormed(WithStore(s, m, Repaired(s, m, now), source, []))
    ensures Settled(WithStore(s, m, Repaired(s, m, now), source, []), m, now)
  {
    var s', data := WithStore(s, m, Repaired(s, m, now), source, []), Repaired(s, m, now);
    assert LiveLog(s', m, now) == LiveLog(s, m, now);
    forall e | e in LiveLog(s, m, now) && e.key in data ensures !Below(ValueRank(data[e.key]), EntryRank(e)) {
      RepairedIsJoin(s, m, now, e.key);
    }
  }
}
