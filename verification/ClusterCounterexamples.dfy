/** Runs that show which hypotheses cannot be dropped: two in which a read misses a successful write
    although R + W > N, two in which the answer depends on arrival order, and one in which repair
    cannot bring back a write the log has lost. */
module ClusterCounterexamples {
  import opened Basics
  import opened Ring
  import opened HybridClock
  import opened WriteLog
  import opened Reconcile
  import opened Replication
  import opened Server
  import opened Cluster
  import opened ClusterRuns
  import opened ClusterConvergence

  const DEFAULTS := Config(500, 3000, 1000, 300_000)

  ghost predicate ThreeNodes(a: NodeId, b: NodeId, c: NodeId) {
    a != b && b != c && a != c
  }

  ghost function Start(a: NodeId, b: NodeId, c: NodeId): State {
    State(map[a := DEFAULTS, b := DEFAULTS, c := DEFAULTS],
          map[a := Fresh(a), b := Fresh(b), c := Fresh(c)],
          map[a := Blank(), b := Blank(), c := Blank()],
          [], [], [], {0}, multiset{})
  }

  function Fresh(n: NodeId): ClockNode {
    ClockNode(ClockState(0, 0, n, DEFAULTS.maxDrift), {}, 0, true)
  }

  function Blank(): Replica {
    Replica(map[], Empty(DEFAULTS.logSize), {}, [], [], None, map[], [])
  }

  lemma ThreeConfigs(a: NodeId, b: NodeId, c: NodeId)
    requires ThreeNodes(a, b, c)
    ensures Start(a, b, c).configs.Keys == {a, b, c} && |Start(a, b, c).configs| == 3
  {
    assert Start(a, b, c).configs.Keys == {a, b, c};
  }

  lemma StartIsInitial(a: NodeId, b: NodeId, c: NodeId)
    requires ThreeNodes(a, b, c)
    ensures Initial(Start(a, b, c)) && WellFormed(Start(a, b, c))
  {
    var s := Start(a, b, c);
    assert s.configs.Keys == s.clocks.Keys == s.replicas.Keys == {a, b, c};
    forall n | n in s.configs
      ensures s.configs[n] == DEFAULTS && s.clocks[n] == Fresh(n) && s.replicas[n] == Blank()
    {
    }
  }

  ghost predicate AtRest(s: State, a: NodeId, b: NodeId, c: NodeId) {
    && s.configs.Keys == {a, b, c} && |s.configs| == 3 && s.writes == [] && s.rounds == [] && s.queries == []
    && s.clocks.Keys == s.replicas.Keys == s.configs.Keys
    && forall n | n in s.configs :: s.configs[n] == DEFAULTS && s.clocks[n] == Fresh(n) && s.replicas[n] == Blank()
  }

  lemma Begin(a: NodeId, b: NodeId, c: NodeId) returns (s: State)
    requires ThreeNodes(a, b, c)
    ensures Reachable(s) && AtRest(s, a, b, c)
  {
    StartIsInitial(a, b, c);
    ThreeConfigs(a, b, c);
    s := Start(a, b, c);
    var states: seq<State>, steps: seq<Step> := [s], [];
    assert Run(states, steps) && states[|steps|] == s;
  }

  // ---------------------------------------------------------------- single steps, by their effect

  lemma Stamp(s: State, n: NodeId, key: string, value: Bytes, wall: int) returns (s': State)
    requires Reachable(s) && n in s.configs
    ensures Reachable(s')
    ensures s'.configs == s.configs && s'.replicas == s.replicas && s'.queries == s.queries
    ensures s'.clocks == s.clocks[n := s'.clocks[n]] && s'.clocks[n].clock == Ticked(s.clocks[n].clock, wall)
    ensures s'.clocks[n].received == s.clocks[n].received
    ensures |s'.writes| == |s.writes| + 1 && s'.writes[..|s.writes|] == s.writes
    ensures var w := s'.writes[|s.writes|]; w.node == n && w.key == key && w.value == value && w.stamp == s'.clocks[n].clock.Reading()
    ensures s'.rounds == s.rounds + [Round(Open, {}, 0, {})]
  {
    s' := Then(s, StampWrite(n, key, value, wall));
  }

  lemma Apply(s: State, m: NodeId, i: nat) returns (s': State)
    requires Reachable(s) && m in s.configs && i < |s.writes| && i !in s.replicas[m].stored
    requires m == s.writes[i].node || i in s.clocks[m].received
    ensures Reachable(s') && s' == StoreAt(s, m, i)
  {
    s' := Then(s, StoreWrite(m, i));
  }

  /** A node stamps a write, stores it and sends it. */
  lemma Issue(s: State, n: NodeId, key: string, value: Bytes, to: set<NodeId>, w: int) returns (s': State)
    requires Reachable(s) && n in s.configs && to <= s.configs.Keys - {n} && |s.writes| !in s.replicas[n].stored
    ensures Reachable(s') && s'.configs == s.configs && s'.queries == s.queries
    ensures |s'.writes| == |s.writes| + 1 && s'.writes[..|s.writes|] == s.writes
    ensures var e := s'.writes[|s.writes|]; e.node == n && e.key == key && e.value == value && e.stamp == s'.clocks[n].clock.Reading()
    ensures s'.rounds == s.rounds + [Round(Sent, to, w, {})]
    ensures s'.clocks == s.clocks[n := s'.clocks[n]] && s'.clocks[n].clock == Ticked(s.clocks[n].clock, 0)
    ensures s'.clocks[n].received == s.clocks[n].received
    ensures s'.replicas == s.replicas[n := StoredIn(s.replicas[n], |s.writes|, s'.writes[|s.writes|])]
  {
    var i := |s.writes|;
    var stamped := Stamp(s, n, key, value, 0);
    var stored := Apply(stamped, n, i);
    s' := Send(stored, i, to, w);
    assert s'.rounds == s.rounds + [Round(Sent, to, w, {})];
  }

  lemma Send(s: State, i: nat, to: set<NodeId>, w: int) returns (s': State)
    requires Reachable(s) && i < |s.writes| && s.rounds[i].phase == Open && i in s.replicas[s.writes[i].node].stored
    requires to <= s.configs.Keys - {s.writes[i].node}
    ensures Reachable(s') && s' == s.(rounds := s.rounds[i := Round(Sent, to, w, {})])
  {
    s' := Then(s, SendWrite(i, to, w));
  }

  /** A peer receives a write, stores it and acknowledges it. */
  lemma Deliver(s: State, m: NodeId, i: nat) returns (s': State)
    requires Reachable(s) && i < |s.writes| && s.rounds[i].phase == Sent && m in s.configs && m in s.rounds[i].peers
    requires i !in s.clocks[m].received && i !in s.replicas[m].stored && m !in s.rounds[i].acked
    ensures Reachable(s') && s'.configs == s.configs && s'.writes == s.writes && s'.queries == s.queries
    ensures s'.clocks == s.clocks[m := s'.clocks[m]] && s'.clocks[m].received == s.clocks[m].received + {i}
    ensures s'.replicas == s.replicas[m := StoredIn(s.replicas[m], i, s.writes[i])]
    ensures s'.rounds == s.rounds[i := s.rounds[i].(acked := s.rounds[i].acked + {m})]
  {
    s' := Receive(s, m, i);
    s' := Apply(s', m, i);
    s' := Confirm(s', m, i);
  }

  lemma Confirm(s: State, m: NodeId, i: nat) returns (s': State)
    requires Reachable(s) && i < |s.writes| && s.rounds[i].phase == Sent && m in s.configs && m in s.rounds[i].peers
    requires i in s.replicas[m].stored && m !in s.rounds[i].acked
    ensures Reachable(s') && s' == s.(rounds := s.rounds[i := s.rounds[i].(acked := s.rounds[i].acked + {m})])
  {
    s' := Then(s, Acknowledge(m, i));
  }

  lemma Receive(s: State, m: NodeId, i: nat) returns (s': State)
    requires Reachable(s) && i < |s.writes| && m in s.configs && m in s.rounds[i].peers && i !in s.clocks[m].received
    ensures Reachable(s')
    ensures s'.configs == s.configs && s'.replicas == s.replicas && s'.queries == s.queries
    ensures s'.writes == s.writes && s'.rounds == s.rounds
    ensures s'.clocks == s.clocks[m := s'.clocks[m]] && s'.clocks[m].received == s.clocks[m].received + {i}
  {
    s' := Then(s, ReceiveStamp(m, i, 0));
  }

  lemma Complete(s: State, i: nat) returns (s': State)
    requires Reachable(s) && i < |s.writes| && s.rounds[i].phase == Sent
    ensures Reachable(s')
    ensures var round := s.rounds[i];
            s' == s.(rounds := s.rounds[i := round.(phase := Done(round.peers == {} || 1 + |round.acked| >= round.w))])
  {
    s' := Then(s, FinishWrite(i));
  }

  // ---------------------------------------------------------------- a node without peers

  lemma LonelyWrite(a: NodeId, b: NodeId, c: NodeId, key: string, value: Bytes) returns (s: State)
    requires ThreeNodes(a, b, c)
    ensures Reachable(s) && |s.configs| == 3 && b in s.configs && s.queries == [] && key !in s.replicas[b].data
    ensures |s.writes| == |s.rounds| == 1 && s.writes[0].key == key && s.rounds[0] == Round(Done(true), {}, 3, {})
  {
    s := Begin(a, b, c);
    s := Issue(s, a, key, value, {}, 3);
    s := Complete(s, 0);
  }

  /** A write accepted by a node with no connected peer succeeds for any W, and a read elsewhere
      misses it: here W = 3, R = 1 and N = 3. */
  lemma LonelyWriteIsMissed(a: NodeId, b: NodeId, c: NodeId, key: string, value: Bytes) returns (s: State)
    requires ThreeNodes(a, b, c)
    ensures Reachable(s)
    ensures |s.writes| == |s.rounds| == |s.queries| == 1 && |s.configs| == 3
    ensures s.rounds[0].phase == Done(true) && s.rounds[0].w == 3 && s.queries[0].r == 1
    ensures s.queries[0].key == s.writes[0].key && 0 in s.queries[0].after
    ensures s.queries[0].result.Some? && s.queries[0].result.value.resp == NotFound
  {
    s := LonelyWrite(a, b, c, key, value);
    s := BeginRead(s, b, key, 1, {});
    s := EndRead(s, 0, [], 0);
  }

  // ---------------------------------------------------------------- a late Replicate

  lemma FirstSent(a: NodeId, b: NodeId, c: NodeId, others: set<NodeId>, key: string, older: Bytes) returns (s: State)
    requires ThreeNodes(a, b, c) && others == {b, c}
    ensures Reachable(s) && Trio(s, a, b, c) && s.queries == [] && |s.writes| == |s.rounds| == 1
    ensures s.writes[0].node == a && s.writes[0].key == key && s.writes[0].stamp == Hlc(0, 1, a)
    ensures s.rounds[0] == Round(Sent, others, 2, {})
    ensures s.replicas[a].stored == {0} && s.clocks[a].clock == ClockState(0, 1, a, DEFAULTS.maxDrift)
    ensures Untouched(s, b) && Untouched(s, c)
  {
    s := Begin(a, b, c);
    s := Issue(s, a, key, older, others, 2);
  }

  /** Three nodes, of which the last has the default configuration. */
  ghost predicate Trio(s: State, a: NodeId, b: NodeId, c: NodeId) {
    s.configs.Keys == {a, b, c} && |s.configs| == 3 && s.configs[c] == DEFAULTS
  }

  ghost predicate Untouched(s: State, n: NodeId) {
    n in s.replicas && n in s.clocks && s.replicas[n].stored == s.clocks[n].received == {}
  }

  /** `a` issues two writes of one key and sends both to `others`; nothing has arrived yet. */
  lemma BothSent(a: NodeId, b: NodeId, c: NodeId, others: set<NodeId>, key: string, older: Bytes, newer: Bytes) returns (s: State)
    requires ThreeNodes(a, b, c) && others == {b, c}
    ensures Reachable(s) && Trio(s, a, b, c) && s.queries == [] && TwoWrites(s, a, key)
    ensures |s.rounds| == 2 && s.rounds[0] == s.rounds[1] == Round(Sent, others, 2, {})
    ensures Untouched(s, b) && Untouched(s, c)
  {
    s := FirstSent(a, b, c, others, key, older);
    s := Issue(s, a, key, newer, others, 2);
  }

  ghost predicate TwoWrites(s: State, a: NodeId, key: string) {
    && |s.writes| == 2 && s.writes[0].node == s.writes[1].node == a && s.writes[0].key == s.writes[1].key == key
    && s.writes[0].stamp == Hlc(0, 1, a) && s.writes[1].stamp == Hlc(0, 2, a)
  }

  lemma LaterWriteArrives(a: NodeId, b: NodeId, c: NodeId, others: set<NodeId>, key: string, older: Bytes, newer: Bytes) returns (s: State)
    requires ThreeNodes(a, b, c) && others == {b, c}
    ensures Reachable(s) && Trio(s, a, b, c) && s.queries == [] && TwoWrites(s, a, key)
    ensures |s.rounds| == 2 && s.rounds[0] == Round(Sent, others, 2, {})
    ensures s.rounds[1] == Round(Sent, others, 2, s.rounds[1].acked) && |s.rounds[1].acked| == 1
    ensures 0 !in s.replicas[b].stored && 0 !in s.clocks[b].received && Untouched(s, c)
  {
    s := BothSent(a, b, c, others, key, older, newer);
    s := Deliver(s, b, 1);
  }

  /** The later write reaches `b` first and succeeds with W = 2. */
  lemma LaterWriteFirst(a: NodeId, b: NodeId, c: NodeId, others: set<NodeId>, key: string, older: Bytes, newer: Bytes) returns (s: State)
    requires ThreeNodes(a, b, c) && others == {b, c}
    ensures Reachable(s) && Trio(s, a, b, c) && s.queries == [] && TwoWrites(s, a, key)
    ensures |s.rounds| == 2 && s.rounds[0] == Round(Sent, others, 2, {}) && Succeeds(s.rounds[1], others)
    ensures 0 !in s.replicas[b].stored && 0 !in s.clocks[b].received && Untouched(s, c)
  {
    s := LaterWriteArrives(a, b, c, others, key, older, newer);
    s := Complete(s, 1);
  }

  ghost predicate Succeeds(round: Round, others: set<NodeId>) {
    round.phase == Done(true) && round.peers == others && round.w == 2
  }

  /** Then the earlier write reaches `b`, whose copy goes back. */
  lemma GoesBack(a: NodeId, b: NodeId, c: NodeId, others: set<NodeId>, key: string, older: Bytes, newer: Bytes) returns (s: State)
    requires ThreeNodes(a, b, c) && others == {b, c}
    ensures Reachable(s) && Trio(s, a, b, c) && s.queries == [] && TwoWrites(s, a, key)
    ensures |s.rounds| == 2 && s.rounds[0].phase == Sent && s.rounds[0].peers == others && c !in s.rounds[0].acked
    ensures Succeeds(s.rounds[1], others)
    ensures key in s.replicas[b].data && s.replicas[b].data[key] == RecordOf(s.writes[0]) && Untouched(s, c)
  {
    s := LaterWriteFirst(a, b, c, others, key, older, newer);
    s := DeliverBeside(s, b, 0, c);
  }

  /** What `Deliver` at `m` means for `m` and for another node that nothing has reached. */
  lemma DeliverBeside(s: State, m: NodeId, i: nat, c: NodeId) returns (s': State)
    requires Reachable(s) && i < |s.writes| && s.rounds[i].phase == Sent && m in s.configs && m in s.rounds[i].peers
    requires i !in s.clocks[m].received && i !in s.replicas[m].stored && s.rounds[i].acked == {} && c != m && Untouched(s, c)
    ensures Reachable(s') && s'.configs == s.configs && s'.writes == s.writes && s'.queries == s.queries && Untouched(s', c)
    ensures |s'.rounds| == |s.rounds| && (forall j | 0 <= j < |s.rounds| && j != i :: s'.rounds[j] == s.rounds[j])
    ensures s'.rounds[i].phase == Sent && s'.rounds[i].peers == s.rounds[i].peers && c !in s'.rounds[i].acked
    ensures var w := s.writes[i]; w.key in s'.replicas[m].data && s'.replicas[m].data[w.key] == RecordOf(w)
  {
    s' := Deliver(s, m, i);
  }

  /** And then `c`. */
  lemma EarlierWriteLast(a: NodeId, b: NodeId, c: NodeId, others: set<NodeId>, key: string, older: Bytes, newer: Bytes) returns (s: State)
    requires ThreeNodes(a, b, c) && others == {b, c}
    ensures Reachable(s) && Trio(s, a, b, c) && s.queries == [] && TwoWrites(s, a, key)
    ensures |s.rounds| == 2 && s.rounds[0].peers == others && Succeeds(s.rounds[1], others)
    ensures key in s.replicas[b].data && s.replicas[b].data[key] == RecordOf(s.writes[0])
    ensures key in s.replicas[c].data && s.replicas[c].data[key] == RecordOf(s.writes[0])
  {
    s := GoesBack(a, b, c, others, key, older, newer);
    s := Deliver(s, c, 0);
  }

  /** The overwriting store breaks freshness: with R = W = 2 and N = 3 and every request sent to both
      other nodes, a Replicate that arrives late at `b` makes a read that starts after the newer write
      succeeded return the older one. */
  lemma LateStoreHidesNewerWrite(a: NodeId, b: NodeId, c: NodeId, key: string, older: Bytes, newer: Bytes) returns (s: State)
    requires ThreeNodes(a, b, c)
    ensures Reachable(s)
    ensures |s.writes| == |s.rounds| == 2 && |s.queries| == 1 && |s.configs| == 3
    ensures s.rounds[0].peers == s.rounds[1].peers == {b, c} && s.queries[0].node == c && s.queries[0].peers == {a, b}
    ensures s.rounds[1].phase == Done(true) && s.rounds[1].w == 2 && s.queries[0].r == 2
    ensures s.queries[0].key == s.writes[1].key && 1 in s.queries[0].after
    ensures s.queries[0].result.Some? && s.queries[0].result.value.resp.Value?
    ensures s.queries[0].result.value.resp.hlc.HappensBefore(s.writes[1].stamp)
  {
    s := EarlierWriteLast(a, b, c, {b, c}, key, older, newer);
    s := HearOne(s, c, {a, b}, b, key);
    s := OlderRead(s, c, b);
  }

  /** A read at `n` with R = 2 that asks `to` and hears from `m` alone. */
  lemma HearOne(s: State, n: NodeId, to: set<NodeId>, m: NodeId, key: string) returns (s': State)
    requires Reachable(s) && n in s.configs && to <= s.configs.Keys - {n} && m in to && s.queries == []
    requires key in s.replicas[n].data && key in s.replicas[m].data
    ensures Reachable(s') && |s'.queries| == 1 && s' == s.(queries := s'.queries)
    ensures var q := s'.queries[0];
            && q.node == n && q.key == key && q.after == Succeeded(s.rounds) && q.sent && q.result.None? && q.r == 2
            && q.peers == to && q.replies.Keys == {m}
            && q.local == Some(s.replicas[n].data[key]) && q.replies[m].hlc == s.replicas[m].data[key].hlc
  {
    s' := BeginRead(s, n, key, 2, to);
    s' := Answered(s', 0, m, 0);
  }

  /** A read whose local copy and whose only reply are the first write returns it. */
  lemma OlderRead(s: State, n: NodeId, m: NodeId) returns (s': State)
    requires Reachable(s) && |s.writes| == 2 && |s.queries| == 1 && s.writes[0].stamp.physical == 0
    requires n in s.configs && s.configs[n] == DEFAULTS
    requires var q := s.queries[0];
             && q.node == n && q.sent && q.result.None? && q.r == 2 && q.peers != {} && q.replies.Keys == {m}
             && q.local == Some(RecordOf(s.writes[0])) && q.replies[m].hlc == s.writes[0].stamp
    ensures Reachable(s') && |s'.queries| == 1 && s' == s.(queries := s'.queries)
    ensures s'.queries[0] == s.queries[0].(result := s'.queries[0].result)
    ensures s'.queries[0].result.Some? && s'.queries[0].result.value.resp.Value?
    ensures s'.queries[0].result.value.resp.hlc == s.writes[0].stamp
  {
    OlderAnswer(s, m);
    s' := EndRead(s, 0, [m], 0);
  }

  lemma OlderAnswer(s: State, m: NodeId)
    requires |s.writes| == 2 && |s.queries| == 1 && s.writes[0].stamp.physical == 0
    requires var q := s.queries[0];
             && q.r == 2 && q.peers != {} && m in q.replies && q.local == Some(RecordOf(s.writes[0]))
             && q.replies[m].hlc == s.writes[0].stamp
    ensures var q := s.queries[0];
            var resp := GetOutcome(q.local, q.r, q.peers, Found(q.replies, [m]), DEFAULTS.maxStaleness, 0);
            resp.Value? && resp.hlc == s.writes[0].stamp
  {
    var q := s.queries[0];
    var found := Found(q.replies, [m]);
    assert found == [q.replies[m]];
    MostRecentIsNewest(Candidates(q.local, found));
  }

  // ---------------------------------------------------------------- equal stamps

  lemma FirstTied(a: NodeId, b: NodeId, c: NodeId, key: string, va: Bytes) returns (s: State)
    requires ThreeNodes(a, b, c)
    ensures Reachable(s) && Trio(s, a, b, c) && s.queries == [] && |s.writes| == 1
    ensures s.writes[0].stamp == Hlc(0, 1, a) && s.writes[0].value == va
    ensures key in s.replicas[a].data && s.replicas[a].data[key] == RecordOf(s.writes[0])
    ensures s.clocks[b] == Fresh(b) && s.replicas[b] == s.replicas[c] == Blank()
  {
    s := Begin(a, b, c);
    s := Issue(s, a, key, va, {b, c}, 2);
  }

  lemma Others(nodes: set<NodeId>, a: NodeId, b: NodeId, c: NodeId)
    requires nodes == {a, b, c} && ThreeNodes(a, b, c)
    ensures {a, c} <= nodes - {b} && a in nodes && b in nodes && c in nodes
  {
  }

  /** The first write of a node at wall reading 0 is stamped (0, 1). */
  lemma FirstIssue(s: State, n: NodeId, key: string, value: Bytes, to: set<NodeId>) returns (s': State)
    requires Reachable(s) && n in s.configs && to <= s.configs.Keys - {n} && s.clocks[n] == Fresh(n) && s.replicas[n] == Blank()
    ensures Reachable(s') && s'.configs == s.configs && s'.queries == s.queries
    ensures |s'.writes| == |s.writes| + 1 && forall i | 0 <= i < |s.writes| :: s'.writes[i] == s.writes[i]
    ensures var w := s'.writes[|s.writes|];
            && w.stamp == Hlc(0, 1, n) && w.value == value
            && n in s'.replicas && key in s'.replicas[n].data && s'.replicas[n].data[key] == RecordOf(w)
    ensures forall m | m in s.replicas && m != n :: m in s'.replicas && s'.replicas[m] == s.replicas[m]
  {
    s' := Issue(s, n, key, value, to, 2);
    forall i | 0 <= i < |s.writes| ensures s'.writes[i] == s.writes[i] {
      assert s'.writes[..|s.writes|][i] == s.writes[i];
    }
  }

  /** `a` and `b` each write the key at the same wall reading, so the stamps tie; both writes are still
      under way to the other nodes. */
  lemma TiedWrites(a: NodeId, b: NodeId, c: NodeId, others: set<NodeId>, key: string, va: Bytes, vb: Bytes) returns (s: State)
    requires ThreeNodes(a, b, c) && others == {a, c}
    ensures Reachable(s) && Trio(s, a, b, c) && s.queries == [] && |s.writes| == 2
    ensures s.writes[0].stamp == Hlc(0, 1, a) && s.writes[0].value == va && s.writes[1].stamp == Hlc(0, 1, b) && s.writes[1].value == vb
    ensures key in s.replicas[a].data && s.replicas[a].data[key] == RecordOf(s.writes[0])
    ensures key in s.replicas[b].data && s.replicas[b].data[key] == RecordOf(s.writes[1])
    ensures key !in s.replicas[c].data
  {
    var first := FirstTied(a, b, c, key, va);
    Others(first.configs.Keys, a, b, c);
    s := FirstIssue(first, b, key, vb, others);
  }

  lemma HearBoth(s: State, a: NodeId, b: NodeId, c: NodeId, key: string) returns (s': State)
    requires Reachable(s) && s.configs.Keys == {a, b, c} && ThreeNodes(a, b, c) && s.queries == []
    requires key in s.replicas[a].data && key in s.replicas[b].data && key !in s.replicas[c].data
    ensures Reachable(s') && |s'.queries| == 1 && s' == s.(queries := s'.queries)
    ensures var q := s'.queries[0];
            && q.node == c && q.key == key && q.local.None? && q.sent && q.result.None? && q.r == 2 && q.peers == {a, b}
            && q.replies.Keys == {a, b} && q.replies[a] == ReplyOf(s, a, key, 0) && q.replies[b] == ReplyOf(s, b, key, 0)
  {
    s' := BeginRead(s, c, key, 2, {a, b});
    s' := Answered(s', 0, a, 0);
    s' := Answered(s', 0, b, 0);
  }

  lemma FirstReplyAnswers(u: ReplicaValue, v: ReplicaValue, peers: set<NodeId>)
    requires peers != {} && u.hlc.physical == 0 && u.hlc.Equal(v.hlc)
    ensures GetOutcome(None, 2, peers, [u, v], DEFAULTS.maxStaleness, 0) == Value(u.value, u.version, u.timestamp, u.hlc, false)
  {
    assert [u, v][..1] == [u] && MostRecent([u]) == Some(u);
    assert MostRecent([u, v]) == Some(u);
    assert Candidates(None, [u, v]) == [u, v];
  }

  lemma TiedHeard(a: NodeId, b: NodeId, c: NodeId, key: string, va: Bytes, vb: Bytes) returns (s: State)
    requires ThreeNodes(a, b, c)
    ensures Reachable(s) && |s.queries| == 1 && c in s.configs && s.configs[c] == DEFAULTS
    ensures var q := s.queries[0];
            && q.node == c && q.local.None? && q.sent && q.result.None? && q.r == 2 && q.peers == {a, b} && q.replies.Keys == {a, b}
            && q.replies[a].value == va && q.replies[b].value == vb
            && q.replies[a].hlc.physical == q.replies[b].hlc.physical == 0 && q.replies[a].hlc.Equal(q.replies[b].hlc)
  {
    var tied := TiedWrites(a, b, c, {a, c}, key, va, vb);
    s := HearBoth(tied, a, b, c, key);
  }

  /** Equal stamps make a quorum read depend on arrival order: from one and the same state two runs in
      which only the order of the two replies differs return different values. */
  lemma TiedStampsDependOnOrder(a: NodeId, b: NodeId, c: NodeId, key: string, va: Bytes, vb: Bytes) returns (s1: State, s2: State)
    requires ThreeNodes(a, b, c) && va != vb
    ensures Reachable(s1) && Reachable(s2) && s2 == s1.(queries := s2.queries) && |s1.queries| == |s2.queries| == 1
    ensures s2.queries[0] == s1.queries[0].(result := s2.queries[0].result)
    ensures s1.queries[0].result.Some? && s1.queries[0].result.value.order == [a, b]
    ensures s2.queries[0].result.Some? && s2.queries[0].result.value.order == [b, a]
    ensures s1.queries[0].result.value.resp.Value? && s1.queries[0].result.value.resp.value == va
    ensures s2.queries[0].result.value.resp.Value? && s2.queries[0].result.value.resp.value == vb
  {
    var s := TiedHeard(a, b, c, key, va, vb);
    s1 := EndInOrder(s, a, b, c);
    s2 := EndInOrder(s, b, a, c);
  }

  lemma EndInOrder(s: State, m: NodeId, n: NodeId, c: NodeId) returns (s': State)
    requires Reachable(s) && |s.queries| == 1 && c in s.configs && s.configs[c] == DEFAULTS && m != n
    requires var q := s.queries[0];
             && q.node == c && q.local.None? && q.sent && q.result.None? && q.r == 2 && q.peers != {} && q.replies.Keys == {m, n}
             && q.replies[m].hlc.physical == 0 && q.replies[m].hlc.Equal(q.replies[n].hlc)
    ensures Reachable(s') && |s'.queries| == 1 && s' == s.(queries := s'.queries)
    ensures s'.queries[0] == s.queries[0].(result := s'.queries[0].result)
    ensures s'.queries[0].result.Some? && s'.queries[0].result.value.order == [m, n]
    ensures var resp := s'.queries[0].result.value.resp; resp.Value? && resp.value == s.queries[0].replies[m].value
  {
    var q := s.queries[0];
    assert Enumerates([m, n], q.replies.Keys);
    assert Found(q.replies, [m, n]) == [q.replies[m], q.replies[n]];
    FirstReplyAnswers(q.replies[m], q.replies[n], q.peers);
    s' := EndRead(s, 0, [m, n], 0);
  }

  // ---------------------------------------------------------------- a write the log has lost

  const SMALL := DEFAULTS.(logSize := 1)

  ghost function StartAlone(a: NodeId): State {
    State(map[a := SMALL], map[a := Fresh(a)], map[a := Replica(map[], Empty(1), {}, [], [], None, map[], [])],
          [], [], [], {0}, multiset{})
  }

  lemma BeginAlone(a: NodeId) returns (s: State)
    ensures Reachable(s) && s == StartAlone(a)
  {
    s := StartAlone(a);
    assert s.configs.Keys == s.clocks.Keys == s.replicas.Keys == {a};
    assert s.readings == set n | n in s.configs :: s.clocks[n].clock.physical;
    var states: seq<State>, steps: seq<Step> := [s], [];
    assert Run(states, steps) && states[|steps|] == s;
  }

  lemma Record(s: State, m: NodeId, i: nat) returns (s': State)
    requires Reachable(s) && m in s.configs && i < |s.writes| && i in s.replicas[m].stored && i !in s.replicas[m].logged
    ensures Reachable(s')
    ensures var rep, e := s.replicas[m], EntryOf(s.writes[i], 0);
            s' == s.(replicas := s.replicas[m := rep.(log := Pushed(rep.log, e), logged := rep.logged + [i], ops := rep.ops + [Add(e)])])
  {
    s' := Then(s, LogWrite(m, i, 0));
  }

  /** The issuer applies and logs its own write. */
  lemma Process(s: State, m: NodeId, i: nat) returns (s': State)
    requires Reachable(s) && m in s.configs && i < |s.writes| && s.writes[i].node == m
    requires i !in s.replicas[m].stored && i !in s.replicas[m].logged
    ensures Reachable(s') && s'.configs == s.configs && s'.writes == s.writes
    ensures var rep, rep', e := s.replicas[m], s'.replicas[m], EntryOf(s.writes[i], 0);
            && rep'.stored == rep.stored + {i} && rep'.logged == rep.logged + [i] && rep'.log == Pushed(rep.log, e)
            && rep'.data == rep.data[s.writes[i].key := RecordOf(s.writes[i])]
  {
    s' := Apply(s, m, i);
    s' := Record(s', m, i);
  }

  lemma TwoStamped(a: NodeId, key: string, older: Bytes, newer: Bytes) returns (s: State)
    ensures Reachable(s) && a in s.configs && s.configs[a] == SMALL && TwoWrites(s, a, key)
    ensures s.replicas[a].stored == {} && s.replicas[a].logged == [] && s.replicas[a].log == Empty(1)
  {
    s := BeginAlone(a);
    s := Stamp(s, a, key, older, 0);
    s := Stamp(s, a, key, newer, 0);
  }

  lemma TwoPushes(e: WriteEntry, f: WriteEntry)
    ensures Pushed(Empty(1), e).Valid() && Pushed(Pushed(Empty(1), e), f).slots == [f]
  {
  }

  /** A node with room for one log entry stamps two writes and applies and logs the newer one. */
  lemma NewerApplied(a: NodeId, key: string, older: Bytes, newer: Bytes) returns (s: State)
    ensures Reachable(s) && a in s.configs && s.configs[a] == SMALL && TwoWrites(s, a, key)
    ensures s.replicas[a].stored == {1} && s.replicas[a].logged == [1] && s.replicas[a].log == Pushed(Empty(1), EntryOf(s.writes[1], 0))
  {
    s := TwoStamped(a, key, older, newer);
    s := Process(s, a, 1);
  }

  /** Then it applies and logs the older one, which evicts the newer one from the log. */
  lemma OlderApplied(a: NodeId, key: string, older: Bytes, newer: Bytes) returns (s: State)
    ensures Reachable(s) && a in s.configs && s.configs[a] == SMALL && TwoWrites(s, a, key)
    ensures var rep := s.replicas[a];
            && rep.stored == {0, 1} && rep.logged == [1, 0] && rep.log.slots == [EntryOf(s.writes[0], 0)]
            && key in rep.data && rep.data[key] == RecordOf(s.writes[0])
  {
    s := NewerApplied(a, key, older, newer);
    s := Process(s, a, 0);
    TwoPushes(EntryOf(s.writes[1], 0), EntryOf(s.writes[0], 0));
  }

  /** Repair cannot bring back a write the log has lost: everything the node stored was logged and its
      repair loop finds nothing to do, and yet it holds the older of the two writes. */
  lemma EvictedWriteStaysLost(a: NodeId, key: string, older: Bytes, newer: Bytes) returns (s: State)
    ensures Reachable(s) && a in s.configs && |s.writes| == 2
    ensures forall i | i in s.replicas[a].stored :: i in s.replicas[a].logged
    ensures IsWinner(s.writes, s.replicas[a].stored, key, 1) && !InLiveLog(s, a, 0, 1) && Settled(s, a, 0)
    ensures key in s.replicas[a].data && s.replicas[a].data[key] == RecordOf(s.writes[0]) != RecordOf(s.writes[1])
  {
    s := OlderApplied(a, key, older, newer);
    OnlyOlderIsLive(s, a);
    LaterWins(s, a, key);
    BelowTotal(ValueRank(RecordOf(s.writes[0])), ValueRank(RecordOf(s.writes[0])));
  }

  lemma LaterWins(s: State, a: NodeId, key: string)
    requires TwoWrites(s, a, key)
    ensures IsWinner(s.writes, {0, 1}, key, 1)
  {
    BelowTotal(ValueRank(RecordOf(s.writes[1])), ValueRank(RecordOf(s.writes[1])));
  }

  lemma OnlyOlderIsLive(s: State, a: NodeId)
    requires WellFormed(s) && a in s.configs && s.configs[a] == SMALL && |s.writes| == 2
    requires s.replicas[a].log.slots == [EntryOf(s.writes[0], 0)]
    ensures LiveLog(s, a, 0) == [EntryOf(s.writes[0], 0)]
  {
    LiveAll(s.replicas[a].log.slots, -SMALL.logAge);
  }
}
