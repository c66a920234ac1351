/** The consistency confidence score (internal/adaptive/ccs.go and adjuster.go:93-133). */
module Score {
  import opened Ring
  import opened MetricWindows

  const WINDOW: nat := 10

  /** One set of measurements as the controller records it. */
  datatype Sample = Sample(rtt: real, success: real, variance: real, error: real, clock: real)

  ghost predicate Plausible(x: Sample) {
    && 0.0 <= x.rtt && 0.0 <= x.variance && 0.0 <= x.clock
    && 0.0 <= x.success <= 1.0
    && x.error == 1.0 - x.success
  }

  /** How a tick derives its sample: availability is the write success rate times the fraction of
      reachable peers, and variance is the squared spread between p95 and average latency. */
  function Measured(successRate: real, reachable: nat, peers: nat, avg: real, p95: real, drift: real): (x: Sample)
    requires 0 < peers && reachable <= peers && 0.0 <= successRate <= 1.0 && 0.0 <= avg && 0.0 <= drift
    ensures Plausible(x)
    ensures x.rtt == avg && x.clock == drift
    ensures x.success * peers as real == successRate * reachable as real
    ensures x.variance == if reachable > 0 && p95 > 0.0 then (p95 - avg) * (p95 - avg) else 0.0
  {
    var peerAvailability := reachable as real / peers as real;
    DivBounds(reachable as real, peers, 0.0, 1.0);
    var combined := successRate * peerAvailability;
    ProductInUnit(successRate, peerAvailability);
    Rescaled(successRate, reachable as real, peers as real);
    var spread := p95 - avg;
    assert spread * spread >= 0.0;
    Sample(avg, combined, if reachable > 0 && p95 > 0.0 then spread * spread else 0.0, 1.0 - combined, drift)
  }

  lemma Rescaled(a: real, b: real, c: real)
    requires c != 0.0
    ensures a * (b / c) * c == a * b
  {
    assert b / c * c == b;
  }

  lemma NonNegativeProduct(a: real, b: real)
    requires 0.0 <= a && 0.0 <= b
    ensures 0.0 <= a * b
  {
  }

  lemma ProductInUnit(a: real, b: real)
    requires 0.0 <= a <= 1.0 && 0.0 <= b <= 1.0
    ensures 0.0 <= a * b <= 1.0
  {
    NonNegativeProduct(a, b);
    NonNegativeProduct(1.0 - a, b);
    assert (1.0 - a) * b == b - a * b;
  }

  datatype Components = Components(rtt: real, avail: real, variance: real, error: real, clock: real)

  function RealMin(a: real, b: real): real {
    if a < b then a else b
  }

  function ComponentsOf(x: Sample): Components {
    Components(1.0 - RealMin(x.rtt / 0.2, 1.0), x.success, 1.0 - RealMin(x.variance / 0.0025, 1.0), 1.0 - x.error, 1.0 - RealMin(x.clock / 0.1, 1.0))
  }

  function ScoreOf(x: Sample): real {
    var c := ComponentsOf(x);
    0.20 * c.rtt + 0.40 * c.avail + 0.15 * c.variance + 0.15 * c.error + 0.10 * c.clock
  }

  /** The score is a convex combination of components in [0, 1]. */
  lemma ScoreInUnit(x: Sample)
    requires Plausible(x)
    ensures 0.0 <= ScoreOf(x) <= 1.0
  {
  }

  // ---------------------------------------------------------------- how the score responds

  /** What one unit of each measurement costs while it is below its threshold of 200 ms, (50 ms)^2 and
      100 ms: a latency at the threshold costs 0.20, a variance 0.15, a clock drift 0.10. */
  lemma ScoreFollowsDelays(x: Sample, rtt: real, variance: real, clock: real)
    ensures x.rtt <= 0.2 && rtt <= 0.2 ==> ScoreOf(x) - ScoreOf(x.(rtt := rtt)) == rtt - x.rtt
    ensures x.variance <= 0.0025 && variance <= 0.0025 ==> ScoreOf(x) - ScoreOf(x.(variance := variance)) == 60.0 * (variance - x.variance)
    ensures x.clock <= 0.1 && clock <= 0.1 ==> ScoreOf(x) - ScoreOf(x.(clock := clock)) == clock - x.clock
  {
  }

  /** Past its threshold a measurement costs no more. */
  lemma ScoreSaturates(x: Sample, rtt: real, variance: real, clock: real)
    ensures x.rtt >= 0.2 && rtt >= 0.2 ==> ScoreOf(x.(rtt := rtt)) == ScoreOf(x)
    ensures x.variance >= 0.0025 && variance >= 0.0025 ==> ScoreOf(x.(variance := variance)) == ScoreOf(x)
    ensures x.clock >= 0.1 && clock >= 0.1 ==> ScoreOf(x.(clock := clock)) == ScoreOf(x)
  {
  }

  /** Availability weighs 0.40 and the error rate 0.15, so a plausible sample loses 0.55 per unit of
      availability. */
  lemma ScoreFollowsAvailability(x: Sample, success: real, error: real)
    ensures ScoreOf(x) - ScoreOf(x.(success := success)) == 0.40 * (x.success - success)
    ensures ScoreOf(x) - ScoreOf(x.(error := error)) == 0.15 * (error - x.error)
    ensures Plausible(x) && Plausible(x.(success := success, error := error)) ==>
              ScoreOf(x) - ScoreOf(x.(success := success, error := error)) == 0.55 * (x.success - success)
  {
  }

  /** A perfect sample scores 1, and one that is as bad as it can be scores 0. */
  lemma ScoreExtremes(x: Sample)
    requires Plausible(x)
    ensures ScoreOf(x) == 1.0 <==> x.rtt == x.variance == x.clock == 0.0 && x.success == 1.0
    ensures ScoreOf(x) == 0.0 <==> x.rtt >= 0.2 && x.variance >= 0.0025 && x.clock >= 0.1 && x.success == 0.0
  {
  }

  /** The components behind it: each is 1 for a perfect measurement, falls in proportion and reaches 0
      at the threshold. */
  lemma ComponentsFollow(x: Sample)
    requires 0.0 <= x.rtt && 0.0 <= x.variance && 0.0 <= x.clock
    ensures var c := ComponentsOf(x);
            && (if x.rtt <= 0.2 then x.rtt == 0.2 * (1.0 - c.rtt) else c.rtt == 0.0)
            && (if x.variance <= 0.0025 then x.variance == 0.0025 * (1.0 - c.variance) else c.variance == 0.0)
            && (if x.clock <= 0.1 then x.clock == 0.1 * (1.0 - c.clock) else c.clock == 0.0)
            && c.avail == x.success && c.error + x.error == 1.0
  {
  }

  // ---------------------------------------------------------------- the computer's state

  datatype Windows = Windows(rtt: WindowState, success: WindowState, variance: WindowState, error: WindowState, clock: WindowState, history: WindowState) {
    ghost predicate Valid() {
      && rtt.Valid() && success.Valid() && variance.Valid() && error.Valid() && clock.Valid() && history.Valid()
      && rtt.size == success.size == variance.size == error.size == clock.size == history.size == WINDOW
    }
  }

  const EMPTY_WINDOWS := Windows(Empty(WINDOW), Empty(WINDOW), Empty(WINDOW), Empty(WINDOW), Empty(WINDOW), Empty(WINDOW))

  function Recorded(c: Windows, x: Sample): (r: Windows)
    requires c.Valid()
    ensures r.Valid()
  {
    Windows(Pushed(c.rtt, x.rtt), Pushed(c.success, x.success), Pushed(c.variance, x.variance), Pushed(c.error, x.error), Pushed(c.clock, x.clock), c.history)
  }

  /** The window averages, as one sample. */
  function Averages(c: Windows): Sample {
    Sample(Average(c.rtt.slots), Average(c.success.slots), Average(c.variance.slots), Average(c.error.slots), Average(c.clock.slots))
  }

  function RawScore(c: Windows): real {
    ScoreOf(Averages(c))
  }

  function Smoothed(c: Windows): real {
    Average(c.history.slots)
  }

  /** What one tick does to the windows: record, score, remember the score. */
  function Observed(c: Windows, x: Sample): (r: Windows)
    requires c.Valid()
    ensures r.Valid()
  {
    var recorded := Recorded(c, x);
    recorded.(history := Pushed(c.history, RawScore(recorded)))
  }

  function ObservedAll(c: Windows, xs: seq<Sample>): (r: Windows)
    requires c.Valid()
    ensures r.Valid()
  {
    if xs == [] then c else Observed(ObservedAll(c, xs[..|xs| - 1]), xs[|xs| - 1])
  }

  // ---------------------------------------------------------------- the score stays in range

  ghost predicate InUnit(xs: seq<real>) {
    forall i | 0 <= i < |xs| :: 0.0 <= xs[i] <= 1.0
  }

  ghost predicate NonNegative(xs: seq<real>) {
    forall i | 0 <= i < |xs| :: 0.0 <= xs[i]
  }

  /** The error window mirrors the success window sample by sample. */
  ghost predicate Lockstep(success: WindowState, error: WindowState) {
    && |success.slots| == |error.slots| && success.index == error.index && success.size == error.size
    && forall i | 0 <= i < |success.slots| :: error.slots[i] == 1.0 - success.slots[i]
  }

  ghost predicate Sound(c: Windows) {
    && c.Valid()
    && NonNegative(c.rtt.slots) && NonNegative(c.variance.slots) && NonNegative(c.clock.slots)
    && InUnit(c.success.slots) && InUnit(c.history.slots)
    && Lockstep(c.success, c.error)
    && |c.rtt.slots| == |c.success.slots| == |c.variance.slots| == |c.clock.slots|
  }

  lemma PushKeepsRange(w: WindowState, x: real)
    requires w.Valid()
    ensures NonNegative(w.slots) && 0.0 <= x ==> NonNegative(Pushed(w, x).slots)
    ensures InUnit(w.slots) && 0.0 <= x <= 1.0 ==> InUnit(Pushed(w, x).slots)
    ensures |Pushed(w, x).slots| > 0
  {
  }

  lemma PushLockstep(a: WindowState, b: WindowState, x: real)
    requires a.Valid() && b.Valid() && Lockstep(a, b)
    ensures Lockstep(Pushed(a, x), Pushed(b, 1.0 - x))
  {
  }

  lemma {:induction false} AverageNonNegative(xs: seq<real>)
    requires NonNegative(xs)
    ensures 0.0 <= Average(xs)
  {
    if xs != [] {
      SumNonNegative(xs);
      var s, n := Sum(xs), |xs| as real;
      assert s / n >= 0.0;
    }
  }

  lemma {:induction false} SumNonNegative(xs: seq<real>)
    requires NonNegative(xs)
    ensures 0.0 <= Sum(xs)
  {
    if xs != [] {
      SumNonNegative(xs[..|xs| - 1]);
    }
  }

  lemma AveragesPlausible(c: Windows)
    requires Sound(c) && c.success.slots != []
    ensures Plausible(Averages(c))
  {
    AverageNonNegative(c.rtt.slots);
    AverageNonNegative(c.variance.slots);
    AverageNonNegative(c.clock.slots);
    AverageBounds(c.success.slots, 0.0, 1.0);
    AverageComplement(c.success.slots, c.error.slots);
  }

  lemma RecordKeepsSound(c: Windows, x: Sample)
    requires Sound(c) && Plausible(x)
    ensures Sound(Recorded(c, x)) && Recorded(c, x).success.slots != []
  {
    PushKeepsRange(c.rtt, x.rtt);
    PushKeepsRange(c.success, x.success);
    PushKeepsRange(c.variance, x.variance);
    PushKeepsRange(c.clock, x.clock);
    PushLockstep(c.success, c.error, x.success);
  }

  lemma ObserveKeepsSound(c: Windows, x: Sample)
    requires Sound(c) && Plausible(x)
    ensures Sound(Observed(c, x)) && Observed(c, x).success.slots != [] && Observed(c, x).history.slots != []
  {
    RecordKeepsSound(c, x);
    var recorded := Recorded(c, x);
    AveragesPlausible(recorded);
    ScoreInUnit(Averages(recorded));
    PushKeepsRange(c.history, RawScore(recorded));
  }

  lemma {:induction false} SoundRun(xs: seq<Sample>)
    requires forall x | x in xs :: Plausible(x)
    ensures Sound(ObservedAll(EMPTY_WINDOWS, xs))
    ensures xs != [] ==> var c := ObservedAll(EMPTY_WINDOWS, xs); c.success.slots != [] && c.history.slots != []
  {
    if xs != [] {
      assert xs[|xs| - 1] in xs;
      SoundRun(xs[..|xs| - 1]);
      ObserveKeepsSound(ObservedAll(EMPTY_WINDOWS, xs[..|xs| - 1]), xs[|xs| - 1]);
    }
  }

  /** Over every run: raw and smoothed scores stay in [0, 1], and the error component is redundant,
      being always equal to the availability component. */
  lemma ScoreInvariants(xs: seq<Sample>)
    requires xs != [] && forall x | x in xs :: Plausible(x)
    ensures var c := ObservedAll(EMPTY_WINDOWS, xs);
            && 0.0 <= RawScore(c) <= 1.0
            && 0.0 <= Smoothed(c) <= 1.0
            && ComponentsOf(Averages(c)).error == ComponentsOf(Averages(c)).avail
  {
    SoundRun(xs);
    var c := ObservedAll(EMPTY_WINDOWS, xs);
    AveragesPlausible(c);
    ScoreInUnit(Averages(c));
    AverageBounds(c.history.slots, 0.0, 1.0);
  }
}
