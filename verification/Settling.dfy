/**
 How long a constant input takes to get through the two composed ten-slot windows. Some lemmas take
 the number 9 as a parameter `nine`: as a literal it would make the solver unroll the windows.
 */
module Settling {
  import opened Ring
  import opened MetricWindows
  import opened Score

  /** `x`, n times over. */
  function Held<T>(x: T, n: nat): (xs: seq<T>)
    ensures |xs| == n && forall i | 0 <= i < n :: xs[i] == x
  {
    seq(n, _ => x)
  }

  lemma HeldStep<T>(x: T, n: nat)
    requires 0 < n
    ensures Held(x, n)[..n - 1] == Held(x, n - 1) && Held(x, n)[n - 1] == x
  {
  }

  // ---------------------------------------------------------------- one window

  lemma SumRotated(xs: seq<real>, i: nat)
    requires i <= |xs|
    ensures Sum(Rotated(xs, i)) == Sum(xs)
  {
    var front, back := xs[..|xs| - i], xs[|xs| - i..];
    assert xs == front + back;
    SumConcat(front, back);
    SumConcat(back, front);
  }

  lemma {:induction false} SumHeld(x: real, n: nat)
    ensures Sum(Held(x, n)) == n as real * x
  {
    if n > 0 {
      HeldStep(x, n);
      SumHeld(x, n - 1);
    }
  }

  /** As many equal samples as the window has slots make the average that sample, whatever the
      window held before. */
  lemma WindowSettles(w: WindowState, x: real, n: nat)
    requires w.Valid() && n >= w.size
    ensures Average(PushedAll(w, Held(x, n)).slots) == x
  {
    var first, last := Held(x, n - w.size), Held(x, w.size);
    assert Held(x, n) == first + last;
    PushedAllSplit(w, first, last);
    var mid := PushedAll(w, first);
    FullTurn(mid, last);
    RotatedHeld(x, w.size, mid.index);
    AverageBounds(Rotated(last, mid.index), x, x);
  }

  lemma RotatedHeld(x: real, n: nat, i: nat)
    requires i <= n
    ensures |Rotated(Held(x, n), i)| == n && forall j | 0 <= j < n :: Rotated(Held(x, n), i)[j] == x
  {
  }

  /** One slot short of that, the sample before them still counts once. */
  lemma WindowAlmostSettles(w: WindowState, y: real, x: real, nine: nat)
    requires w.Valid() && w.size == WINDOW && nine == 9
    ensures Average(PushedAll(Pushed(w, y), Held(x, nine)).slots) == (y + 9.0 * x) / 10.0
  {
    var xs := [y] + Held(x, nine);
    PushOne(w, y);
    PushedAllSplit(w, [y], Held(x, nine));
    FullTurn(w, xs);
    SumRotated(xs, w.index);
    SumConcat([y], Held(x, nine));
    SumHeld(x, nine);
    assert Sum([y]) == y by { assert [y][..0] == []; }
  }

  lemma PushOne(w: WindowState, y: real)
    requires w.Valid()
    ensures PushedAll(w, [y]) == Pushed(w, y)
  {
    assert [y][..0] == [];
  }

  // ---------------------------------------------------------------- all windows together

  lemma {:induction false} MetricsUnderHeld(c: Windows, x: Sample, n: nat)
    requires c.Valid()
    ensures var r := ObservedAll(c, Held(x, n));
            && r.rtt == PushedAll(c.rtt, Held(x.rtt, n))
            && r.success == PushedAll(c.success, Held(x.success, n))
            && r.variance == PushedAll(c.variance, Held(x.variance, n))
            && r.error == PushedAll(c.error, Held(x.error, n))
            && r.clock == PushedAll(c.clock, Held(x.clock, n))
  {
    if n > 0 {
      MetricsUnderHeld(c, x, n - 1);
      HeldStep(x, n);
      HeldStep(x.rtt, n);
      HeldStep(x.success, n);
      HeldStep(x.variance, n);
      HeldStep(x.error, n);
      HeldStep(x.clock, n);
    }
  }

  /** Ten equal samples fix the raw score. */
  lemma RawSettles(c: Windows, x: Sample, n: nat)
    requires c.Valid() && n >= WINDOW
    ensures RawScore(ObservedAll(c, Held(x, n))) == ScoreOf(x)
  {
    MetricsUnderHeld(c, x, n);
    WindowSettles(c.rtt, x.rtt, n);
    WindowSettles(c.success, x.success, n);
    WindowSettles(c.variance, x.variance, n);
    WindowSettles(c.error, x.error, n);
    WindowSettles(c.clock, x.clock, n);
  }

  lemma LastRaw(c: Windows, x: Sample, n: nat)
    requires c.Valid() && n > 0
    ensures var r, before := ObservedAll(c, Held(x, n)), ObservedAll(c, Held(x, n - 1));
            r.history == Pushed(before.history, RawScore(r))
  {
    HeldStep(x, n);
    var before := ObservedAll(c, Held(x, n - 1));
    assert RawScore(Recorded(before, x)) == RawScore(Observed(before, x));
  }

  /** A window that receives `t` at every step after the `n`th. */
  lemma {:induction false} PushChain(w: nat -> WindowState, n: nat, k: nat, t: real)
    requires forall m: nat :: w(m).Valid()
    requires forall m: nat | m > n :: w(m) == Pushed(w(m - 1), t)
    ensures w(n + k) == PushedAll(w(n), Held(t, k))
  {
    if k > 0 {
      PushChain(w, n, k - 1, t);
      HeldStep(t, k);
    }
  }

  /** The smoothing window after `m` ticks with input `x`. */
  function HistoryAt(c: Windows, x: Sample, m: nat): (w: WindowState)
    requires c.Valid()
    ensures w.Valid() && w.size == WINDOW
  {
    ObservedAll(c, Held(x, m)).history
  }

  lemma SettledPush(c: Windows, x: Sample, m: nat)
    requires c.Valid() && m >= WINDOW
    ensures HistoryAt(c, x, m) == Pushed(HistoryAt(c, x, m - 1), ScoreOf(x))
  {
    LastRaw(c, x, m);
    RawSettles(c, x, m);
  }

  /** From the tenth tick on, every score pushed into the smoothing window is the settled one. */
  lemma HistoryUnderHeld(c: Windows, x: Sample, nine: nat, k: nat)
    requires c.Valid() && nine == 9
    ensures HistoryAt(c, x, nine + k) == PushedAll(HistoryAt(c, x, nine), Held(ScoreOf(x), k))
  {
    var w: nat -> WindowState := (m: nat) => if c.Valid() then HistoryAt(c, x, m) else Empty(WINDOW);
    forall m: nat | m > nine ensures w(m) == Pushed(w(m - 1), ScoreOf(x)) {
      SettledPush(c, x, m);
    }
    PushChain(w, nine, k, ScoreOf(x));
  }

  /** From any history, nineteen ticks with the same inputs make the smoothed score exactly the
      score of those inputs, and it stays there as long as they do. */
  lemma SettlesInNineteen(c: Windows, x: Sample, n: nat)
    requires c.Valid() && n >= 19
    ensures Smoothed(ObservedAll(c, Held(x, n))) == ScoreOf(x)
  {
    SettledFrom(c, x, n, WINDOW - 1, ScoreOf(x));
  }

  lemma SettledFrom(c: Windows, x: Sample, n: nat, nine: nat, target: real)
    requires c.Valid() && n >= 19 && nine == 9 && target == ScoreOf(x)
    ensures Average(HistoryAt(c, x, n).slots) == target
  {
    HistoryUnderHeld(c, x, nine, n - nine);
    WindowSettles(HistoryAt(c, x, nine), target, n - nine);
  }

  lemma ShortOfSettling(c: Windows, x: Sample, nine: nat, raw: real, target: real)
    requires c.Valid() && nine == 9
    requires HistoryAt(c, x, nine) == Pushed(HistoryAt(c, x, nine - 1), raw)
    requires HistoryAt(c, x, nine + nine) == PushedAll(HistoryAt(c, x, nine), Held(target, nine))
    ensures Average(HistoryAt(c, x, nine + nine).slots) == target <==> raw == target
  {
    WindowBlends(HistoryAt(c, x, nine - 1), raw, target, nine);
    BlendFixes(raw, target);
  }

  lemma BlendFixes(y: real, x: real)
    ensures Blend(y, x) == x <==> y == x
  {
  }

  /** Eighteen are enough exactly when the raw score had already settled after the ninth. */
  lemma EighteenSuffice(c: Windows, x: Sample, nine: nat)
    requires c.Valid() && nine == 9
    ensures Smoothed(ObservedAll(c, Held(x, nine + nine))) == ScoreOf(x) <==> RawScore(ObservedAll(c, Held(x, nine))) == ScoreOf(x)
  {
    LastRaw(c, x, nine);
    HistoryUnderHeld(c, x, nine, nine);
    ShortOfSettling(c, x, nine, RawScore(ObservedAll(c, Held(x, nine))), ScoreOf(x));
  }

  lemma AlmostSettledAverages(c: Windows, d: Windows, y: Sample, x: Sample, nine: nat)
    requires c.Valid() && d.Valid() && nine == 9
    requires d.rtt == Pushed(c.rtt, y.rtt) && d.success == Pushed(c.success, y.success) && d.variance == Pushed(c.variance, y.variance)
    requires d.error == Pushed(c.error, y.error) && d.clock == Pushed(c.clock, y.clock)
    ensures Averages(ObservedAll(d, Held(x, nine))) ==
            Sample(Blend(y.rtt, x.rtt), Blend(y.success, x.success), Blend(y.variance, x.variance), Blend(y.error, x.error), Blend(y.clock, x.clock))
  {
    MetricsUnderHeld(d, x, nine);
    WindowBlends(c.rtt, y.rtt, x.rtt, nine);
    WindowBlends(c.success, y.success, x.success, nine);
    WindowBlends(c.variance, y.variance, x.variance, nine);
    WindowBlends(c.error, y.error, x.error, nine);
    WindowBlends(c.clock, y.clock, x.clock, nine);
  }

  function Blend(y: real, x: real): real {
    (y + 9.0 * x) / 10.0
  }

  lemma WindowBlends(w: WindowState, y: real, x: real, nine: nat)
    requires w.Valid() && w.size == WINDOW && nine == 9
    ensures Average(PushedAll(Pushed(w, y), Held(x, nine)).slots) == Blend(y, x)
  {
    WindowAlmostSettles(w, y, x, nine);
  }

  /** So nineteen is the least such number: from any history, a cluster that was down for one tick
      and is perfectly healthy from then on has not settled after eighteen. */
  lemma EighteenAreNotEnough(c: Windows, nine: nat)
    requires c.Valid() && nine == 9
    ensures var down, up := Sample(0.0, 0.0, 0.0, 1.0, 0.0), Sample(0.0, 1.0, 0.0, 0.0, 0.0);
            Smoothed(ObservedAll(Observed(c, down), Held(up, nine + nine))) != ScoreOf(up)
  {
    var down, up := Sample(0.0, 0.0, 0.0, 1.0, 0.0), Sample(0.0, 1.0, 0.0, 0.0, 0.0);
    AlmostSettledAverages(c, Observed(c, down), down, up, nine);
    EighteenSuffice(Observed(c, down), up, nine);
  }
}
