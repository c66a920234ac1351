/** What every run of the quorum controller keeps, how often it may act, and where it ends up. */
module ControllerRuns {
  import opened Basics
  import opened Quorums
  import opened Adjuster
  import opened Score
  import opened Settling

  /** A tick as the quorum sees it: what the score asked for, and when. */
  datatype Tick = Tick(d: Direction, t: Times)

  function MovedAll(q: Quorum, l: Limits, ticks: seq<Tick>): Quorum {
    if ticks == [] then q
    else
      var before, tick := MovedAll(q, l, ticks[..|ticks| - 1]), ticks[|ticks| - 1];
      Moved(before, l, tick.d, tick.t)
  }

  lemma {:induction false} MovedAllSplit(q: Quorum, l: Limits, a: seq<Tick>, b: seq<Tick>)
    ensures MovedAll(q, l, a + b) == MovedAll(MovedAll(q, l, a), l, b)
    decreases |b|
  {
    if b == [] {
      assert a + b == a;
    } else {
      assert (a + b)[..|a + b| - 1] == a + b[..|b| - 1];
      MovedAllSplit(q, l, a, b[..|b| - 1]);
    }
  }

  // ---------------------------------------------------------------- the conserved sum

  /** Every run keeps R + W, and never leaves the bounds once inside. */
  lemma {:induction false} SumConserved(q: Quorum, l: Limits, ticks: seq<Tick>)
    ensures var q' := MovedAll(q, l, ticks); q'.r + q'.w == q.r + q.w
    ensures InBounds(l, q.r, q.w) ==> var q' := MovedAll(q, l, ticks); InBounds(l, q'.r, q'.w)
  {
    if ticks != [] { SumConserved(q, l, ticks[..|ticks| - 1]); }
  }

  /** Started from a configuration that passed validation, no run ever offers the intersection check
      a move it would reject, so quorums overlap throughout. */
  lemma IntersectionNeverRejects(c: NodeConfig, l: Limits, ticks: seq<Tick>, d: Direction, check: int)
    requires ValidateConfig(c).None? && l.n == c.n
    ensures var q := MovedAll(Quorum(c.r, c.w, None), l, ticks);
            var (r, w) := Target(q, d);
            && q.r + q.w > c.n
            && ValidateError(l, r, w) != Some(Intersection)
            && SetError(q, l, r, w, check) != Some(Intersection)
  {
    SumConserved(Quorum(c.r, c.w, None), l, ticks);
  }

  // ---------------------------------------------------------------- accepted adjustments

  /** The times at which a run changed the quorum. */
  function AcceptedTimes(q: Quorum, l: Limits, ticks: seq<Tick>): seq<int> {
    if ticks == [] then []
    else
      var init, tick := ticks[..|ticks| - 1], ticks[|ticks| - 1];
      var before := MovedAll(q, l, init);
      AcceptedTimes(q, l, init) + if Moved(before, l, tick.d, tick.t) != before then [tick.t.stamp] else []
  }

  /** Each accepted adjustment moves R and W by one. */
  lemma {:induction false} DriftBound(q: Quorum, l: Limits, ticks: seq<Tick>)
    ensures var q', k := MovedAll(q, l, ticks), |AcceptedTimes(q, l, ticks)|;
            q.r - k <= q'.r <= q.r + k && q.w - k <= q'.w <= q.w + k
  {
    if ticks != [] { DriftBound(q, l, ticks[..|ticks| - 1]); }
  }

  /** R read at one moment and W read at another fall short of the conserved sum by at most the
      number of adjustments accepted in between, so they still intersect if fewer than
      R + W - N were. */
  lemma CrossTimeQuorums(q: Quorum, l: Limits, ticks: seq<Tick>, i: nat)
    requires i <= |ticks|
    ensures var early := MovedAll(q, l, ticks[..i]);
            var late := MovedAll(q, l, ticks);
            var k := |AcceptedTimes(early, l, ticks[i..])|;
            && early.r + late.w >= q.r + q.w - k
            && late.r + early.w >= q.r + q.w - k
            && (k < q.r + q.w - l.n ==> early.r + late.w > l.n && late.r + early.w > l.n)
  {
    var early := MovedAll(q, l, ticks[..i]);
    assert ticks == ticks[..i] + ticks[i..];
    MovedAllSplit(q, l, ticks[..i], ticks[i..]);
    SumConserved(q, l, ticks[..i]);
    DriftBound(early, l, ticks[i..]);
  }

  // ---------------------------------------------------------------- the rate limit

  /** The clock does not go back within a tick. */
  ghost predicate Timely(ticks: seq<Tick>) {
    forall i | 0 <= i < |ticks| :: ticks[i].t.now <= ticks[i].t.check <= ticks[i].t.stamp
  }

  lemma {:induction false} LastIsLatest(q: Quorum, l: Limits, ticks: seq<Tick>)
    ensures var times := AcceptedTimes(q, l, ticks);
            MovedAll(q, l, ticks).last == if times == [] then q.last else Some(times[|times| - 1])
  {
    if ticks != [] { LastIsLatest(q, l, ticks[..|ticks| - 1]); }
  }

  lemma AcceptedAfterLockout(q: Quorum, l: Limits, tick: Tick)
    requires tick.t.now <= tick.t.check <= tick.t.stamp
    requires Moved(q, l, tick.d, tick.t) != q && q.last.Some?
    ensures tick.t.stamp - q.last.value >= l.lockout
  {
  }

  /** Any two accepted adjustments are at least as many lockouts apart as there are steps between
      them. */
  lemma {:induction false} RateLimit(q: Quorum, l: Limits, ticks: seq<Tick>, i: nat, j: nat)
    requires Timely(ticks) && i <= j < |AcceptedTimes(q, l, ticks)|
    ensures var times := AcceptedTimes(q, l, ticks); times[j] - times[i] >= (j - i) * l.lockout
    decreases |ticks|
  {
    var init, tick := ticks[..|ticks| - 1], ticks[|ticks| - 1];
    var before := AcceptedTimes(q, l, init);
    if j < |before| {
      RateLimit(q, l, init, i, j);
    } else if i < j {
      RateLimit(q, l, init, i, j - 1);
      LastIsLatest(q, l, init);
      AcceptedAfterLockout(MovedAll(q, l, init), l, tick);
      assert (j - i) * l.lockout == (j - 1 - i) * l.lockout + l.lockout;
    }
  }

  /** So an interval of length T contains at most T / lockout + 1 of them. */
  lemma AtMostPerInterval(q: Quorum, l: Limits, ticks: seq<Tick>, i: nat, j: nat, length: nat)
    requires Timely(ticks) && i <= j < |AcceptedTimes(q, l, ticks)| && l.lockout > 0
    requires AcceptedTimes(q, l, ticks)[j] - AcceptedTimes(q, l, ticks)[i] <= length
    ensures j - i + 1 <= length / l.lockout + 1
  {
    RateLimit(q, l, ticks, i, j);
    QuotientBound(j - i, length, l.lockout);
  }

  lemma QuotientBound(k: int, t: nat, m: int)
    requires m > 0 && k * m <= t
    ensures k <= t / m
  {
    var d := t / m;
    assert t < (d + 1) * m;
    assert k >= d + 1 ==> k * m >= (d + 1) * m;
  }

  // ---------------------------------------------------------------- progress

  /** How many moves are left in a direction before a bound stops the controller. */
  function Room(q: Quorum, l: Limits, d: Direction): int {
    match d
    case Tighten => Min(q.r - l.minR, l.maxW - q.w)
    case Relax => Min(l.maxR - q.r, q.w - l.minW)
    case Hold => 0
  }

  ghost predicate Proper(l: Limits, q: Quorum) {
    InBounds(l, q.r, q.w) && q.r + q.w > l.n
  }

  /** An unlocked tick uses up one move; with none left nothing changes. */
  lemma MoveUsesRoom(q: Quorum, l: Limits, d: Direction, t: Times)
    requires Proper(l, q) && !d.Hold? && t.now <= t.check
    ensures Proper(l, Moved(q, l, d, t))
    ensures Room(q, l, d) == 0 || Locked(q, l, t.now) ==> Moved(q, l, d, t) == q
    ensures Room(q, l, d) > 0 && !Locked(q, l, t.now) ==> Room(Moved(q, l, d, t), l, d) == Room(q, l, d) - 1
    ensures Room(q, l, d) >= 0
  {
  }

  ghost predicate AllAre(ticks: seq<Tick>, d: Direction) {
    forall i | 0 <= i < |ticks| :: ticks[i].d == d
  }

  /** A tick that starts no earlier than the ticker fired and is over within `delay`. */
  ghost predicate Prompt(t: Times, delay: int) {
    t.fired <= t.now <= t.check <= t.stamp <= t.fired + delay
  }

  ghost predicate Spaced(ticks: seq<Tick>, i: nat, interval: int)
    requires i + 1 < |ticks|
  {
    ticks[i + 1].t.fired >= ticks[i].t.fired + interval
  }

  /** Successive firings of the ticker are at least `interval` apart, each tick is over within `delay`
      of its firing, and so was the tick of the last adjustment. */
  ghost predicate Paced(q: Quorum, ticks: seq<Tick>, interval: int, delay: int) {
    && 0 < interval && 0 <= delay
    && (forall i | 0 <= i < |ticks| :: Prompt(ticks[i].t, delay))
    && (forall i {:trigger Spaced(ticks, i, interval)} | 0 <= i < |ticks| - 1 :: Spaced(ticks, i, interval))
    && (ticks != [] && q.last.Some? ==> ticks[0].t.fired + delay >= q.last.value + interval)
  }

  /** Out of moves, the quorum stays frozen. */
  lemma {:induction false} Frozen(q: Quorum, l: Limits, d: Direction, ticks: seq<Tick>)
    requires Proper(l, q) && !d.Hold? && Room(q, l, d) == 0 && AllAre(ticks, d) && Timely(ticks)
    ensures MovedAll(q, l, ticks) == q
  {
    if ticks != [] {
      Frozen(q, l, d, ticks[..|ticks| - 1]);
      MoveUsesRoom(q, l, d, ticks[|ticks| - 1].t);
    }
  }

  lemma {:induction false} RoomNeverGrows(q: Quorum, l: Limits, d: Direction, ticks: seq<Tick>)
    requires Proper(l, q) && !d.Hold? && AllAre(ticks, d) && Timely(ticks)
    ensures var q' := MovedAll(q, l, ticks);
            Proper(l, q') && 0 <= Room(q', l, d) <= Room(q, l, d) && (q' == q || Room(q', l, d) < Room(q, l, d))
  {
    if ticks == [] {
      MoveUsesRoom(q, l, d, Times(0, 0, 0, 0));
    } else {
      var init := ticks[..|ticks| - 1];
      RoomNeverGrows(q, l, d, init);
      MoveUsesRoom(MovedAll(q, l, init), l, d, ticks[|ticks| - 1].t);
    }
  }

  lemma {:induction false} NowGrows(q: Quorum, ticks: seq<Tick>, interval: int, delay: int, k: nat)
    requires Paced(q, ticks, interval, delay) && k < |ticks| && q.last.Some?
    ensures ticks[k].t.fired + delay - q.last.value >= (k + 1) * interval
  {
    if k > 0 {
      NowGrows(q, ticks, interval, delay, k - 1);
      assert Spaced(ticks, k - 1, interval);
      assert (k + 1) * interval == k * interval + interval;
    }
  }

  /** The number of ticks a lockout lasts: (lockout + delay) / interval, rounded up. */
  function LockoutTicks(l: Limits, interval: int, delay: int): (p: nat)
    requires 0 < interval
    ensures 0 < p && p * interval >= l.lockout + delay
    ensures l.lockout + delay > 0 ==> (p - 1) * interval < l.lockout + delay
  {
    var span := l.lockout + delay;
    if span <= 0 then 1
    else
      var p := (span + interval - 1) / interval;
      assert span - 1 < p * interval <= span + interval - 1;
      assert (p - 1) * interval == p * interval - interval;
      p
  }

  lemma Unlocked(q: Quorum, l: Limits, ticks: seq<Tick>, interval: int, delay: int)
    requires Paced(q, ticks, interval, delay) && |ticks| == LockoutTicks(l, interval, delay)
    ensures !Locked(q, l, ticks[|ticks| - 1].t.now)
  {
    if q.last.Some? {
      NowGrows(q, ticks, interval, delay, |ticks| - 1);
    }
  }

  /** One lockout's worth of ticks makes at least one move, if there is one to make. */
  lemma BlockMoves(q: Quorum, l: Limits, d: Direction, ticks: seq<Tick>, interval: int, delay: int)
    requires Proper(l, q) && !d.Hold? && AllAre(ticks, d) && Paced(q, ticks, interval, delay) && |ticks| == LockoutTicks(l, interval, delay)
    ensures Room(q, l, d) > 0 ==> Room(MovedAll(q, l, ticks), l, d) < Room(q, l, d)
  {
    var n := |ticks| - 1;
    var init := ticks[..n];
    RoomNeverGrows(q, l, d, init);
    Unlocked(q, l, ticks, interval, delay);
    MoveUsesRoom(MovedAll(q, l, init), l, d, ticks[n].t);
  }

  lemma SpacedSlice(ticks: seq<Tick>, a: nat, part: seq<Tick>, interval: int)
    requires a + |part| <= |ticks| && part == ticks[a..a + |part|]
    requires forall i {:trigger Spaced(ticks, i, interval)} | 0 <= i < |ticks| - 1 :: Spaced(ticks, i, interval)
    ensures forall i {:trigger Spaced(part, i, interval)} | 0 <= i < |part| - 1 :: Spaced(part, i, interval)
  {
    forall i | 0 <= i < |part| - 1 ensures Spaced(part, i, interval) {
      assert Spaced(ticks, a + i, interval);
    }
  }

  lemma {:induction false} LastStamp(q: Quorum, l: Limits, ticks: seq<Tick>, interval: int, delay: int)
    requires Paced(q, ticks, interval, delay)
    ensures var q' := MovedAll(q, l, ticks);
            ticks == [] || q' == q || (q'.last.Some? && q'.last.value <= ticks[|ticks| - 1].t.fired + delay)
  {
    if ticks != [] {
      var init := ticks[..|ticks| - 1];
      SpacedSlice(ticks, 0, init, interval);
      LastStamp(q, l, init, interval, delay);
      if init != [] {
        assert Spaced(ticks, |init| - 1, interval);
      }
    }
  }

  lemma PacedRest(q: Quorum, l: Limits, ticks: seq<Tick>, interval: int, delay: int, p: nat)
    requires Paced(q, ticks, interval, delay) && 0 < p <= |ticks|
    ensures Paced(q, ticks[..p], interval, delay) && Paced(MovedAll(q, l, ticks[..p]), ticks[p..], interval, delay)
  {
    SpacedSlice(ticks, 0, ticks[..p], interval);
    SpacedSlice(ticks, p, ticks[p..], interval);
    LastStamp(q, l, ticks[..p], interval, delay);
    var rest := ticks[p..];
    if rest != [] {
      assert Spaced(ticks, p - 1, interval);
      if q.last.Some? { NowGrows(q, ticks, interval, delay, p); assert (p + 1) * interval >= interval; }
    }
  }

  /** Progress: while the score keeps asking for one direction, the controller runs out of moves
      within that many lockouts and stays there. */
  lemma {:induction false} ReachesLimit(q: Quorum, l: Limits, d: Direction, ticks: seq<Tick>, interval: int, delay: int)
    requires Proper(l, q) && !d.Hold? && AllAre(ticks, d) && Paced(q, ticks, interval, delay)
    requires |ticks| >= Room(q, l, d) * LockoutTicks(l, interval, delay)
    ensures Room(MovedAll(q, l, ticks), l, d) == 0
    decreases |ticks|
  {
    RoomNeverGrows(q, l, d, []);
    if Room(q, l, d) == 0 {
      Frozen(q, l, d, ticks);
    } else {
      var p, room := LockoutTicks(l, interval, delay), Room(q, l, d);
      assert room * p >= p;
      var block, rest := ticks[..p], ticks[p..];
      PacedRest(q, l, ticks, interval, delay, p);
      BlockMoves(q, l, d, block, interval, delay);
      RoomNeverGrows(q, l, d, block);
      var q' := MovedAll(q, l, block);
      ScaledLess(Room(q', l, d), room, p);
      ReachesLimit(q', l, d, rest, interval, delay);
      assert ticks == block + rest;
      MovedAllSplit(q, l, block, rest);
    }
  }

  lemma ScaledLess(a: int, b: int, p: nat)
    requires a < b
    ensures a * p <= b * p - p
  {
    var k: nat := b - 1 - a;
    assert k * p >= 0;
    assert b * p == a * p + p + k * p;
  }

  /** No moves left means R is at its least (tighten) or greatest (relax) possible value for the sum. */
  lemma LimitIsExtreme(q: Quorum, l: Limits)
    requires Proper(l, q)
    ensures Room(q, l, Tighten) == 0 <==> q.r == Max(l.minR, q.r + q.w - l.maxW)
    ensures Room(q, l, Relax) == 0 <==> q.r == Min(l.maxR, q.r + q.w - l.minW)
  {
  }

  // ---------------------------------------------------------------- scores and quorum together

  datatype Controller = Controller(windows: Windows, quorum: Quorum)

  function Ran(k: Controller, l: Limits, th: Thresholds, xs: seq<Sample>, times: seq<Times>): (k': Controller)
    requires k.windows.Valid() && |xs| == |times|
    ensures k'.windows.Valid()
  {
    if xs == [] then k
    else
      var n := |xs| - 1;
      var before := Ran(k, l, th, xs[..n], times[..n]);
      var windows := Observed(before.windows, xs[n]);
      Controller(windows, Moved(before.quorum, l, Decide(th, Smoothed(windows)), times[n]))
  }

  /** The ticks the quorum sees when the windows are fed `xs`. */
  ghost function TicksOf(c: Windows, th: Thresholds, xs: seq<Sample>, times: seq<Times>): seq<Tick>
    requires c.Valid() && |xs| == |times|
  {
    seq(|xs|, i requires 0 <= i < |xs| => Tick(Decide(th, Smoothed(ObservedAll(c, xs[..i + 1]))), times[i]))
  }

  lemma {:induction false} RanSplits(k: Controller, l: Limits, th: Thresholds, xs: seq<Sample>, times: seq<Times>)
    requires k.windows.Valid() && |xs| == |times|
    ensures var k' := Ran(k, l, th, xs, times);
            && k'.windows == ObservedAll(k.windows, xs)
            && k'.quorum == MovedAll(k.quorum, l, TicksOf(k.windows, th, xs, times))
    decreases |xs|
  {
    if xs != [] {
      var n := |xs| - 1;
      RanSplits(k, l, th, xs[..n], times[..n]);
      TicksPrefix(k.windows, th, xs, times);
      TicksLast(k.windows, th, xs, times);
      LastMove(k.quorum, l, TicksOf(k.windows, th, xs, times));
    }
  }

  lemma LastMove(q: Quorum, l: Limits, ticks: seq<Tick>)
    requires ticks != []
    ensures var tick := ticks[|ticks| - 1];
            MovedAll(q, l, ticks) == Moved(MovedAll(q, l, ticks[..|ticks| - 1]), l, tick.d, tick.t)
  {
  }

  lemma TickAt(c: Windows, th: Thresholds, xs: seq<Sample>, times: seq<Times>, i: nat)
    requires c.Valid() && |xs| == |times| && i < |xs|
    ensures TicksOf(c, th, xs, times)[i] == Tick(Decide(th, Smoothed(ObservedAll(c, xs[..i + 1]))), times[i])
  {
  }

  lemma TicksLast(c: Windows, th: Thresholds, xs: seq<Sample>, times: seq<Times>)
    requires c.Valid() && |xs| == |times| && xs != []
    ensures var n := |xs| - 1; TicksOf(c, th, xs, times)[n] == Tick(Decide(th, Smoothed(ObservedAll(c, xs))), times[n])
  {
    TickAt(c, th, xs, times, |xs| - 1);
    assert xs[..|xs| - 1 + 1] == xs;
  }

  lemma TicksPrefix(c: Windows, th: Thresholds, xs: seq<Sample>, times: seq<Times>)
    requires c.Valid() && |xs| == |times| && xs != []
    ensures var n := |xs| - 1; TicksOf(c, th, xs, times)[..n] == TicksOf(c, th, xs[..n], times[..n])
  {
    var n := |xs| - 1;
    var all, front := TicksOf(c, th, xs, times), TicksOf(c, th, xs[..n], times[..n]);
    forall i | 0 <= i < n ensures all[i] == front[i] {
      assert xs[..n][..i + 1] == xs[..i + 1];
    }
  }

  lemma HeldPrefix(x: Sample, n: nat, i: nat)
    requires i <= n
    ensures Held(x, n)[..i] == Held(x, i)
  {
  }

  /** From the nineteenth tick on a constant input asks for one and the same direction. */
  lemma SteadyDirection(c: Windows, th: Thresholds, x: Sample, times: seq<Times>, d: Direction)
    requires c.Valid() && Decide(th, ScoreOf(x)) == d && |times| >= 18
    ensures AllAre(TicksOf(c, th, Held(x, |times|), times)[18..], d)
  {
    var n := |times|;
    var ticks := TicksOf(c, th, Held(x, n), times);
    forall i | 18 <= i < n ensures ticks[i].d == d {
      HeldPrefix(x, n, i + 1);
      SettlesInNineteen(c, x, i + 1);
    }
    forall i | 0 <= i < n - 18 ensures ticks[18..][i].d == d {
      assert ticks[18..][i] == ticks[i + 18];
    }
  }

  lemma LongEnough(q: Quorum, l: Limits, interval: int, delay: int, n: nat)
    requires Proper(l, q) && 0 < interval && n >= 18 + (l.maxR - l.minR) * LockoutTicks(l, interval, delay)
    ensures n >= 18
  {
    var range: nat, p := l.maxR - l.minR, LockoutTicks(l, interval, delay);
    assert range * p >= 0;
  }

  /** End to end: whatever the history, measurements that keep scoring below the relax threshold drive R
      to its greatest value, and measurements that keep scoring above the tighten threshold drive it to
      its least, that the bounds and the conserved sum allow; within 18 ticks of settling plus one
      lockout per step of the whole range, and there it stays. */
  lemma ConstantInputReachesLimit(k: Controller, l: Limits, th: Thresholds, x: Sample, times: seq<Times>, interval: int, delay: int)
    requires k.windows.Valid() && Proper(l, k.quorum) && (ScoreOf(x) < th.relax || ScoreOf(x) > th.tighten)
    requires Paced(k.quorum, TicksOf(k.windows, th, Held(x, |times|), times), interval, delay)
    requires |times| >= 18 + (l.maxR - l.minR) * LockoutTicks(l, interval, delay)
    ensures var q, q' := k.quorum, Ran(k, l, th, Held(x, |times|), times).quorum;
            && q'.r + q'.w == q.r + q.w
            && (ScoreOf(x) < th.relax ==> q'.r == Min(l.maxR, q.r + q.w - l.minW))
            && (ScoreOf(x) >= th.relax ==> q'.r == Max(l.minR, q.r + q.w - l.maxW))
  {
    var d := if ScoreOf(x) < th.relax then Relax else Tighten;
    ConstantDirectionReachesLimit(k, l, th, x, times, interval, delay, d);
  }

  /** `q'` is where a run from `q` in direction `d` can get at most. */
  ghost predicate AtExtreme(q: Quorum, q': Quorum, l: Limits, d: Direction) {
    && q'.r + q'.w == q.r + q.w
    && (d.Relax? ==> q'.r == Min(l.maxR, q.r + q.w - l.minW))
    && (d.Tighten? ==> q'.r == Max(l.minR, q.r + q.w - l.maxW))
  }

  lemma ConstantDirectionReachesLimit(k: Controller, l: Limits, th: Thresholds, x: Sample, times: seq<Times>, interval: int, delay: int, d: Direction)
    requires k.windows.Valid() && Proper(l, k.quorum) && Decide(th, ScoreOf(x)) == d && !d.Hold?
    requires Paced(k.quorum, TicksOf(k.windows, th, Held(x, |times|), times), interval, delay)
    requires |times| >= 18 + (l.maxR - l.minR) * LockoutTicks(l, interval, delay)
    ensures AtExtreme(k.quorum, Ran(k, l, th, Held(x, |times|), times).quorum, l, d)
  {
    RanSplits(k, l, th, Held(x, |times|), times);
    LongEnough(k.quorum, l, interval, delay, |times|);
    ConstantTicksReachLimit(k, l, th, x, times, TicksOf(k.windows, th, Held(x, |times|), times), interval, delay, d);
  }

  lemma ConstantTicksReachLimit(k: Controller, l: Limits, th: Thresholds, x: Sample, times: seq<Times>, ticks: seq<Tick>,
                                interval: int, delay: int, d: Direction)
    requires k.windows.Valid() && Proper(l, k.quorum) && Decide(th, ScoreOf(x)) == d && !d.Hold?
    requires ticks == TicksOf(k.windows, th, Held(x, |times|), times) && Paced(k.quorum, ticks, interval, delay)
    requires |times| >= 18 && |times| >= 18 + (l.maxR - l.minR) * LockoutTicks(l, interval, delay)
    ensures AtExtreme(k.quorum, MovedAll(k.quorum, l, ticks), l, d)
  {
    SteadyDirection(k.windows, th, x, times, d);
    FinalQuorum(k, l, d, ticks, interval, delay);
  }

  lemma FinalQuorum(k: Controller, l: Limits, d: Direction, ticks: seq<Tick>, interval: int, delay: int)
    requires Proper(l, k.quorum) && !d.Hold? && Paced(k.quorum, ticks, interval, delay) && |ticks| >= 18 && AllAre(ticks[18..], d)
    requires |ticks| >= 18 + (l.maxR - l.minR) * LockoutTicks(l, interval, delay)
    ensures AtExtreme(k.quorum, MovedAll(k.quorum, l, ticks), l, d)
  {
    SumConserved(k.quorum, l, ticks);
    LimitFrom(k.quorum, l, d, ticks, interval, delay, 18);
    LimitIsExtreme(MovedAll(k.quorum, l, ticks), l);
  }

  lemma LimitFrom(q: Quorum, l: Limits, d: Direction, ticks: seq<Tick>, interval: int, delay: int, m: nat)
    requires Proper(l, q) && !d.Hold? && Paced(q, ticks, interval, delay) && 0 < m <= |ticks| && AllAre(ticks[m..], d)
    requires |ticks| >= m + (l.maxR - l.minR) * LockoutTicks(l, interval, delay)
    ensures Room(MovedAll(q, l, ticks), l, d) == 0
  {
    var front, rest := ticks[..m], ticks[m..];
    PacedRest(q, l, ticks, interval, delay, m);
    SumConserved(q, l, front);
    var q' := MovedAll(q, l, front);
    var p := LockoutTicks(l, interval, delay);
    assert Room(q', l, d) <= l.maxR - l.minR;
    ScaledAtMost(Room(q', l, d), l.maxR - l.minR, p);
    ReachesLimit(q', l, d, rest, interval, delay);
    assert ticks == front + rest;
    MovedAllSplit(q, l, front, rest);
  }

  lemma ScaledAtMost(a: int, b: int, p: nat)
    requires a <= b
    ensures a * p <= b * p
  {
  }
}
