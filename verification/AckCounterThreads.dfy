/**
 The acknowledged counter under all interleavings. Each read or write of the shared window, limit and
 lock is one atomic step of one thread; `acked` and `claimed` are history.
 */
module AckCounterThreads {
  import opened Basics
  import opened AckCounter

  datatype Phase =
    | Checking(v: int)                  // about to test the slot
    | Setting(v: int)                   // about to raise it
    | Trying                            // about to try the lock
    | Loading                           // holds the lock, about to read the limit
    | Scanning(stop: int, index: int)   // about to test the flag of `index`
    | Clearing(stop: int, index: int)   // about to lower it
    | Storing(index: int)               // about to publish `index - 1`
    | Unlocking

  type Thread = nat

  datatype Shared = Shared(
    start: int, window: Flags, limit: int, lock: Option<Thread>, threads: map<Thread, Phase>, panicked: bool,
    claimed: set<int>, acked: set<int>)

  datatype Step = Call(t: Thread, v: int) | Run(t: Thread)

  ghost predicate Initial(s: Shared) {
    && 0 < |s.window| && (forall i | 0 <= i < |s.window| :: !s.window[i])
    && s.limit == s.start - 1 && s.lock == None && s.threads == map[] && !s.panicked && s.claimed == {} && s.acked == {}
  }

  /** Callers acknowledge each value once and never more than a window past the published limit. */
  ghost predicate Enabled(s: Shared, step: Step) {
    match step
    case Call(t, v) => t !in s.threads && v !in s.claimed && s.start <= v <= s.limit + |s.window|
    case Run(t) => t in s.threads
  }

  ghost function Exec(s: Shared, step: Step): Shared
    requires Enabled(s, step) && 0 < |s.window|
  {
    match step
    case Call(t, v) => s.(threads := s.threads[t := Checking(v)], claimed := s.claimed + {v})
    case Run(t) => Advance(s, t)
  }

  ghost function At(s: Shared, t: Thread, p: Phase): Shared {
    s.(threads := s.threads[t := p])
  }

  ghost function Advance(s: Shared, t: Thread): Shared
    requires t in s.threads && 0 < |s.window|
  {
    var size := |s.window|;
    match s.threads[t]
    case Checking(v) =>
      if s.window[Slot(v, size)] then s.(threads := s.threads - {t}, panicked := true) else At(s, t, Setting(v))
    case Setting(v) =>
      At(s.(window := s.window[Slot(v, size) := true], acked := s.acked + {v}), t, Trying)
    case Trying =>
      if s.lock.None? then At(s.(lock := Some(t)), t, Loading) else s.(threads := s.threads - {t})
    case Loading => At(s, t, Scanning(Slot(s.limit, size), s.limit + 1))
    case Scanning(stop, index) =>
      if index == stop || !s.window[Slot(index, size)] then At(s, t, Storing(index)) else At(s, t, Clearing(stop, index))
    case Clearing(stop, index) => At(s.(window := s.window[Slot(index, size) := false]), t, Scanning(stop, index + 1))
    case Storing(index) => At(s.(limit := index - 1), t, Unlocking)
    case Unlocking => s.(lock := None, threads := s.threads - {t})
  }

  // ---------------------------------------------------------------- invariant

  predicate Holds(p: Phase) {
    p.Loading? || p.Scanning? || p.Clearing? || p.Storing? || p.Unlocking?
  }

  /** How far flags have been lowered: ahead of the limit while a scan is under way. */
  ghost function Reach(s: Shared): int {
    if s.lock.Some? && s.lock.value in s.threads then
      match s.threads[s.lock.value]
      case Scanning(_, index) => index - 1
      case Clearing(_, index) => index - 1
      case Storing(index) => index - 1
      case _ => s.limit
    else s.limit
  }

  /** A thread between its call and raising its flag owns a value nobody has acknowledged. */
  ghost predicate Pending(s: Shared, t: Thread) {
    t in s.threads && (s.threads[t].Checking? || s.threads[t].Setting?)
  }

  ghost predicate OwnsValue(s: Shared, t: Thread) {
    Pending(s, t) ==> s.threads[t].v in s.claimed && s.threads[t].v !in s.acked
  }

  ghost predicate Apart(s: Shared, t: Thread, u: Thread) {
    t != u && Pending(s, t) && Pending(s, u) ==> s.threads[t].v != s.threads[u].v
  }

  ghost predicate LockFits(s: Shared, t: Thread) {
    t in s.threads ==> (Holds(s.threads[t]) <==> s.lock == Some(t))
  }

  ghost predicate ThreadsInv(s: Shared) {
    && (forall t {:trigger OwnsValue(s, t)} :: OwnsValue(s, t))
    && (forall t, u {:trigger Apart(s, t, u)} :: Apart(s, t, u))
    && (forall t {:trigger LockFits(s, t)} :: LockFits(s, t))
    && (s.lock.Some? ==> s.lock.value in s.threads)
  }

  ghost predicate Inv(s: Shared) {
    && !s.panicked
    && ThreadsInv(s)
    && s.acked <= s.claimed
    && (forall v | v in s.claimed :: s.start <= v <= s.limit + |s.window|)
    && Shows(s.window, Reach(s), s.start, s.acked)
    && s.start - 1 <= s.limit <= Reach(s)
    && (s.lock.Some? && s.threads[s.lock.value].Clearing? ==> s.threads[s.lock.value].index in s.acked)
  }

  // ---------------------------------------------------------------- preservation

  lemma ThreadsStep(s: Shared, step: Step)
    requires Inv(s) && Enabled(s, step)
    requires step.Run? && s.threads[step.t].Checking? ==> !s.window[Slot(s.threads[step.t].v, |s.window|)]
    ensures ThreadsInv(Exec(s, step))
  {
    var s' := Exec(s, step);
    assert LockFits(s, step.t);
    assert s.lock.Some? ==> LockFits(s, s.lock.value);
    forall t ensures OwnsValue(s', t) && LockFits(s', t) {
      assert OwnsValue(s, t) && OwnsValue(s, step.t) && LockFits(s, t) && LockFits(s, step.t) && Apart(s, t, step.t);
    }
    forall t, u ensures Apart(s', t, u) {
      assert Apart(s, t, u) && OwnsValue(s, t) && OwnsValue(s, u);
    }
  }

  lemma NoPanic(s: Shared, t: Thread)
    requires Inv(s) && t in s.threads && s.threads[t].Checking?
    ensures !s.window[Slot(s.threads[t].v, |s.window|)]
  {
    var v := s.threads[t].v;
    assert OwnsValue(s, t);
    assert v > Reach(s);
    assert Flag(s.window, v) <==> v in s.acked;
  }

  lemma RaiseStep(s: Shared, t: Thread)
    requires Inv(s) && t in s.threads && s.threads[t].Setting?
    ensures Inv(Exec(s, Run(t)))
  {
    var v := s.threads[t].v;
    assert OwnsValue(s, t) && LockFits(s, t);
    ThreadsStep(s, Run(t));
    RaiseShows(s.window, Reach(s), s.start, s.acked, v);
    assert Reach(Exec(s, Run(t))) == Reach(s);
  }

  lemma ScanStep(s: Shared, t: Thread)
    requires Inv(s) && t in s.threads && Holds(s.threads[t])
    ensures Inv(Exec(s, Run(t)))
  {
    assert LockFits(s, t);
    ThreadsStep(s, Run(t));
    var p := s.threads[t];
    if p.Scanning? {
      assert Flag(s.window, p.index) <==> p.index in s.acked;
    } else if p.Clearing? {
      assert Flag(s.window, p.index) <==> p.index in s.acked;
      LowerShows(s.window, p.index - 1, s.start, s.acked);
    }
  }

  lemma OtherStep(s: Shared, step: Step)
    requires Inv(s) && Enabled(s, step)
    requires step.Run? ==> s.threads[step.t].Checking? || s.threads[step.t].Trying?
    ensures Inv(Exec(s, step))
  {
    assert LockFits(s, step.t);
    if step.Run? && s.threads[step.t].Checking? { NoPanic(s, step.t); }
    ThreadsStep(s, step);
    assert Reach(Exec(s, step)) == Reach(s);
  }

  lemma InvStep(s: Shared, step: Step)
    requires Inv(s) && Enabled(s, step)
    ensures Inv(Exec(s, step))
  {
    if step.Run? && s.threads[step.t].Setting? {
      RaiseStep(s, step.t);
    } else if step.Run? && Holds(s.threads[step.t]) {
      ScanStep(s, step.t);
    } else {
      OtherStep(s, step);
    }
  }

  // ---------------------------------------------------------------- theorems over whole runs

  ghost predicate StepAt(states: seq<Shared>, steps: seq<Step>, j: nat)
    requires |states| == |steps| + 1 && j < |steps|
  {
    && 0 < |states[j].window| && Enabled(states[j], steps[j])
    && states[j + 1] == Exec(states[j], steps[j])
  }

  ghost predicate IsRun(states: seq<Shared>, steps: seq<Step>) {
    && |states| == |steps| + 1 && Initial(states[0])
    && forall j | 0 <= j < |steps| :: StepAt(states, steps, j)
  }

  lemma {:induction false} InvHolds(states: seq<Shared>, steps: seq<Step>, j: nat)
    requires IsRun(states, steps) && j <= |steps|
    ensures Inv(states[j])
  {
    if j > 0 {
      InvHolds(states, steps, j - 1);
      assert StepAt(states, steps, j - 1);
      InvStep(states[j - 1], steps[j - 1]);
    } else {
      InitialInv(states[0]);
    }
  }

  lemma InitialInv(s: Shared)
    requires Initial(s)
    ensures Inv(s)
  {
  }

  /** In every interleaving nobody panics, `Last` only ever covers acknowledged values, and every
      flag scan stays within one window of the published limit, so it ends. */
  lemma LastIsSafe(states: seq<Shared>, steps: seq<Step>, j: nat)
    requires IsRun(states, steps) && j <= |steps|
    ensures var s := states[j];
            && !s.panicked
            && (forall v | s.start <= v <= s.limit :: v in s.acked)
            && (forall t | t in s.threads && s.threads[t].Scanning? :: s.threads[t].index <= s.limit + |s.window| + 1)
  {
    InvHolds(states, steps, j);
    var s := states[j];
    forall t | t in s.threads && s.threads[t].Scanning? ensures s.threads[t].index <= s.limit + |s.window| + 1 {
      assert LockFits(s, t);
      assert Reach(s) == s.threads[t].index - 1;
      assert Reach(s) < s.start || Reach(s) in s.acked;
    }
  }

  lemma {:induction false} LimitNeverDecreases(states: seq<Shared>, steps: seq<Step>, i: nat, j: nat)
    requires IsRun(states, steps) && i <= j <= |steps|
    ensures states[i].limit <= states[j].limit
    decreases j - i
  {
    if i < j {
      LimitNeverDecreases(states, steps, i, j - 1);
      InvHolds(states, steps, j - 1);
      assert StepAt(states, steps, j - 1);
      StepKeepsLimit(states[j - 1], steps[j - 1]);
    }
  }

  lemma StepKeepsLimit(s: Shared, step: Step)
    requires Inv(s) && Enabled(s, step)
    ensures s.limit <= Exec(s, step).limit
  {
    assert LockFits(s, step.t);
  }

  // ---------------------------------------------------------------- every call ends

  /** An upper bound on the steps thread `t` still takes before its call returns. */
  ghost function Remaining(s: Shared, t: Thread): int
    requires t in s.threads
  {
    var size, last := |s.window|, s.limit + |s.window| + 1;
    match s.threads[t]
    case Checking(_) => 2 * size + 6
    case Setting(_) => 2 * size + 5
    case Trying => 2 * size + 4
    case Loading => 2 * size + 3
    case Scanning(_, index) => 2 * (last - index) + 2
    case Clearing(_, index) => 2 * (last - index) + 1
    case Storing(_) => 1
    case Unlocking => 0
  }

  /** Wait freedom: the bound is never negative, each step of the thread itself shortens it or ends
      the call, and steps of other threads leave it alone. */
  lemma CallsEnd(states: seq<Shared>, steps: seq<Step>, j: nat, t: Thread)
    requires IsRun(states, steps) && j < |steps| && t in states[j].threads
    ensures 0 <= Remaining(states[j], t) <= 2 * |states[j].window| + 6
    ensures steps[j].t == t ==> t !in states[j + 1].threads || Remaining(states[j + 1], t) < Remaining(states[j], t)
    ensures steps[j].t != t ==> t in states[j + 1].threads && Remaining(states[j + 1], t) == Remaining(states[j], t)
  {
    InvHolds(states, steps, j);
    assert StepAt(states, steps, j);
    RemainingStep(states[j], steps[j], t);
  }

  lemma RemainingStep(s: Shared, step: Step, t: Thread)
    requires Inv(s) && Enabled(s, step) && t in s.threads
    ensures var s' := Exec(s, step);
            && 0 <= Remaining(s, t) <= 2 * |s.window| + 6
            && (step.t == t ==> t !in s'.threads || Remaining(s', t) < Remaining(s, t))
            && (step.t != t ==> t in s'.threads && Remaining(s', t) == Remaining(s, t))
  {
    assert LockFits(s, t) && LockFits(s, step.t);
    if s.threads[t].Scanning? {
      assert Reach(s) == s.threads[t].index - 1;
      assert Reach(s) < s.start || Reach(s) in s.acked;
    }
  }

  // ---------------------------------------------------------------- lag, and catching up

  /** Thread `t` runs its call to the end while every other thread pauses. */
  ghost function Alone(s: Shared, t: Thread): (s': Shared)
    requires Inv(s)
    ensures Inv(s') && t !in s'.threads
    decreases if t in s.threads then Remaining(s, t) + 1 else 0
  {
    if t !in s.threads then s
    else
      InvStep(s, Run(t));
      RemainingStep(s, Run(t), t);
      Alone(Exec(s, Run(t)), t)
  }

  lemma AloneStep(s: Shared, t: Thread)
    requires Inv(s) && t in s.threads
    ensures Inv(Exec(s, Run(t))) && Alone(s, t) == Alone(Exec(s, Run(t)), t)
  {
    InvStep(s, Run(t));
    RemainingStep(s, Run(t), t);
  }

  lemma AloneEnds(s: Shared, t: Thread)
    requires Inv(s) && t in s.threads && s.threads[t].Scanning?
    requires s.threads[t].index == s.threads[t].stop || !s.window[Slot(s.threads[t].index, |s.window|)]
    ensures Alone(s, t) == s.(limit := s.threads[t].index - 1, lock := None, threads := s.threads - {t})
  {
    assert LockFits(s, t);
    AloneStep(s, t);
    var s1 := Exec(s, Run(t));
    AloneStep(s1, t);
    var s2 := Exec(s1, Run(t));
    AloneStep(s2, t);
    assert s2.threads - {t} == s.threads - {t};
  }

  lemma AloneLowers(s: Shared, t: Thread)
    requires Inv(s) && t in s.threads && s.threads[t].Scanning?
    requires s.threads[t].index != s.threads[t].stop && s.window[Slot(s.threads[t].index, |s.window|)]
    ensures var p := s.threads[t];
            var s' := s.(window := s.window[Slot(p.index, |s.window|) := false], threads := s.threads[t := Scanning(p.stop, p.index + 1)]);
            Inv(s') && Alone(s, t) == Alone(s', t)
  {
    AloneStep(s, t);
    var s1 := Exec(s, Run(t));
    AloneStep(s1, t);
    var p := Scanning(s.threads[t].stop, s.threads[t].index + 1);
    assert s1.threads[t := p] == s.threads[t := p];
  }

  /** From the scan on, an undisturbed holder of the lock does what the sequential scan does. */
  lemma {:induction false} AloneScans(s: Shared, t: Thread)
    requires Inv(s) && t in s.threads && s.threads[t].Scanning?
    ensures var s' := Alone(s, t);
            var (win, index) := Scan(s.window, s.threads[t].index, s.threads[t].stop);
            s' == s.(window := win, limit := index - 1, lock := None, threads := s.threads - {t})
    decreases Raised(s.window)
  {
    var stop, index := s.threads[t].stop, s.threads[t].index;
    var slot := Slot(index, |s.window|);
    if index == stop || !s.window[slot] {
      AloneEnds(s, t);
    } else {
      LoweringCounts(s.window, slot);
      AloneLowers(s, t);
      var s' := s.(window := s.window[slot := false], threads := s.threads[t := Scanning(stop, index + 1)]);
      AloneScans(s', t);
      assert s'.threads - {t} == s.threads - {t};
    }
  }

  lemma AloneLocks(s: Shared, t: Thread)
    requires Inv(s) && s.lock.None? && t in s.threads && s.threads[t].Trying?
    ensures var s' := s.(lock := Some(t), threads := s.threads[t := Scanning(Slot(s.limit, |s.window|), s.limit + 1)]);
            Inv(s') && Alone(s, t) == Alone(s', t)
  {
    AloneStep(s, t);
    var s1 := Exec(s, Run(t));
    AloneStep(s1, t);
    var p := Scanning(Slot(s.limit, |s.window|), s.limit + 1);
    assert s1.threads[t := p] == s.threads[t := p];
  }

  lemma AlonePublishes(s: Shared, t: Thread)
    requires Inv(s) && s.lock.None? && t in s.threads && s.threads[t].Trying?
    ensures var (win, index) := Scan(s.window, s.limit + 1, Slot(s.limit, |s.window|));
            Alone(s, t) == s.(window := win, limit := index - 1, threads := s.threads - {t})
  {
    AloneLocks(s, t);
    var s' := s.(lock := Some(t), threads := s.threads[t := Scanning(Slot(s.limit, |s.window|), s.limit + 1)]);
    AloneScans(s', t);
    assert s'.threads - {t} == s.threads - {t};
  }

  lemma AloneRaises(s: Shared, t: Thread, v: int)
    requires Inv(s) && t in s.threads && s.threads[t] == Checking(v)
    ensures var s' := s.(window := s.window[Slot(v, |s.window|) := true], acked := s.acked + {v}, threads := s.threads[t := Trying]);
            !s.window[Slot(v, |s.window|)] && Inv(s') && Alone(s, t) == Alone(s', t)
  {
    NoPanic(s, t);
    AloneStep(s, t);
    var s1 := Exec(s, Run(t));
    AloneStep(s1, t);
    assert s1.threads[t := Trying] == s.threads[t := Trying];
  }

  /** An undisturbed call while nobody holds the lock is the sequential `Acknowledge`. */
  lemma AloneAcknowledges(s: Shared, t: Thread, v: int)
    requires Inv(s) && s.lock.None? && Enabled(s, Call(t, v))
    ensures Inv(Exec(s, Call(t, v)))
    ensures var s', r := Alone(Exec(s, Call(t, v)), t), Acknowledged(Counter(s.window, s.limit), v);
            r.Some? && s' == s.(window := r.value.window, limit := r.value.limit, claimed := s.claimed + {v}, acked := s.acked + {v})
  {
    InvStep(s, Call(t, v));
    var s1 := Exec(s, Call(t, v));
    AloneRaises(s1, t, v);
    var s2 := s1.(window := s.window[Slot(v, |s.window|) := true], acked := s.acked + {v}, threads := s1.threads[t := Trying]);
    AlonePublishes(s2, t);
    assert s2.threads - {t} == s.threads;
  }

  /** Whatever the interleaving left behind, the next undisturbed call brings `Last` to the end of
      the longest acknowledged prefix, unless the limit is negative and the loop guard fires. */
  lemma NextCallCatchesUp(states: seq<Shared>, steps: seq<Step>, t: Thread, v: int, e: int)
    requires IsRun(states, steps) && states[|steps|].lock.None? && Enabled(states[|steps|], Call(t, v))
    requires IsPrefixEnd(states[|steps|].start, states[|steps|].acked + {v}, e)
    ensures 0 < |states[|steps|].window|
    ensures var s := states[|steps|];
            && Inv(Exec(s, Call(t, v)))
            && (Alone(Exec(s, Call(t, v)), t).limit == e <==> s.limit >= 0 || e < Slot(s.limit, |s.window|))
  {
    var s := states[|steps|];
    InvHolds(states, steps, |steps|);
    AloneAcknowledges(s, t, v);
    AcknowledgeRefines(Counter(s.window, s.limit), s.start, s.acked, v, e);
  }

  /** Exactly when a run leaves no lag: while nobody holds the lock, in particular once every call has
      returned, `Last` is the end of the longest acknowledged prefix if and only if the flag of the
      next value is down. */
  lemma NoLagExactly(states: seq<Shared>, steps: seq<Step>)
    requires IsRun(states, steps) && (states[|steps|].lock.None? || states[|steps|].threads == map[])
    ensures 0 < |states[|steps|].window|
    ensures var s := states[|steps|];
            IsPrefixEnd(s.start, s.acked, s.limit) <==> !s.window[Slot(s.limit + 1, |s.window|)]
  {
    InvHolds(states, steps, |steps|);
    var s := states[|steps|];
    assert Flag(s.window, s.limit + 1) <==> s.limit + 1 in s.acked;
  }

  ghost predicate Reachable(s: Shared) {
    0 < |s.window| && exists states: seq<Shared>, steps: seq<Step> :: IsRun(states, steps) && states[|steps|] == s
  }

  lemma Then(s: Shared, step: Step) returns (s': Shared)
    requires Reachable(s) && Enabled(s, step)
    ensures s' == Exec(s, step) && Reachable(s')
  {
    var states: seq<Shared>, steps: seq<Step> :| IsRun(states, steps) && states[|steps|] == s;
    s' := Exec(s, step);
    var more, all := states + [s'], steps + [step];
    forall j | 0 <= j < |all| ensures StepAt(more, all, j) {
      assert j < |steps| ==> StepAt(states, steps, j);
    }
    assert IsRun(more, all) && more[|all|] == s';
  }

  lemma FirstSlots(size: nat)
    requires 2 <= size
    ensures Slot(0, size) == 0 && Slot(1, size) == 1 && Slot(2, size) == if size == 2 then 0 else 2
  {
    RemainderUnique(0, size, 0, 0);
    RemainderUnique(1, size, 0, 1);
    RemainderUnique(2, size, if size == 2 then 1 else 0, if size == 2 then 0 else 2);
  }

  function Down(size: nat): Flags {
    seq(size, _ => false)
  }

  lemma FirstLock(size: nat) returns (s: Shared)
    requires 2 <= size
    ensures Reachable(s) && s == Shared(1, Down(size)[1 := true], 0, Some(0), map[0 := Loading], false, {1}, {1})
  {
    FirstSlots(size);
    s := Shared(1, Down(size), 0, None, map[], false, {}, {});
    var states: seq<Shared>, steps: seq<Step> := [s], [];
    assert IsRun(states, steps) && states[|steps|] == s;
    s := Then(s, Call(0, 1));
    s := Then(s, Run(0));
    s := Then(s, Run(0));
    s := Then(s, Run(0));
  }

  /** The first caller has raised, lowered and passed value 1 and is about to publish it. */
  lemma FirstScan(size: nat) returns (s: Shared)
    requires 2 <= size
    ensures Reachable(s) && s == Shared(1, Down(size), 0, Some(0), map[0 := Storing(2)], false, {1}, {1})
  {
    FirstSlots(size);
    s := FirstLock(size);
    s := Then(s, Run(0));
    s := Then(s, Run(0));
    s := Then(s, Run(0));
    assert s.window == Down(size);
    s := Then(s, Run(0));
  }

  /** A caller that finds the lock taken returns although the scan has already passed its slot: with
      every call finished, `Last` is short of the acknowledged prefix. */
  lemma LoserLeavesLag(size: nat) returns (s: Shared)
    requires 2 <= size
    ensures Reachable(s) && |s.window| == size && s.start == 1 && s.threads == map[] && s.lock.None?
    ensures s.acked == {1, 2} && s.limit == 1 && IsPrefixEnd(1, s.acked, 2)
  {
    FirstSlots(size);
    s := FirstScan(size);
    s := Then(s, Call(1, 2));
    s := Then(s, Run(1));
    s := Then(s, Run(1));
    s := Then(s, Run(1));
    s := Then(s, Run(0));
    s := Then(s, Run(0));
  }
}
