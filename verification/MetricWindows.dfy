/** Sliding metric windows and their averages (internal/adaptive/ccs.go), over real numbers. */
module MetricWindows {
  import opened Ring

  type WindowState = RingState<real>

  function Sum(xs: seq<real>): real {
    if xs == [] then 0.0 else Sum(xs[..|xs| - 1]) + xs[|xs| - 1]
  }

  function Average(xs: seq<real>): real {
    if xs == [] then 0.0 else Sum(xs) / |xs| as real
  }

  // ---------------------------------------------------------------- averages

  lemma {:induction false} SumConcat(xs: seq<real>, ys: seq<real>)
    ensures Sum(xs + ys) == Sum(xs) + Sum(ys)
    decreases |ys|
  {
    if ys == [] {
      assert xs + ys == xs;
    } else {
      assert (xs + ys)[..|xs + ys| - 1] == xs + ys[..|ys| - 1];
      SumConcat(xs, ys[..|ys| - 1]);
    }
  }

  /** The average of any number of samples is their sum shared equally. */
  lemma AverageOfSamples(xs: seq<real>)
    requires xs != []
    ensures Average(xs) * |xs| as real == Sum(xs)
  {
  }

  lemma {:induction false} SumBounds(xs: seq<real>, lo: real, hi: real)
    requires forall i | 0 <= i < |xs| :: lo <= xs[i] <= hi
    ensures |xs| as real * lo <= Sum(xs) <= |xs| as real * hi
  {
    if xs != [] {
      var init := xs[..|xs| - 1];
      SumBounds(init, lo, hi);
      assert |xs| as real * lo == |init| as real * lo + lo;
      assert |xs| as real * hi == |init| as real * hi + hi;
    }
  }

  lemma DivUnique(s: real, n: real, q: real)
    requires n != 0.0 && s == q * n
    ensures s / n == q
  {
    var d := s / n;
    assert (d - q) * n == 0.0;
  }

  lemma DivBounds(s: real, n: nat, lo: real, hi: real)
    requires 0 < n && n as real * lo <= s <= n as real * hi
    ensures lo <= s / n as real <= hi
  {
    var q := s / n as real;
    assert q * n as real == s;
    assert q < lo ==> q * n as real < lo * n as real;
    assert q > hi ==> q * n as real > hi * n as real;
  }

  /** An average lies between any bounds its samples share; of equal samples it is that sample. */
  lemma AverageBounds(xs: seq<real>, lo: real, hi: real)
    requires xs != [] && forall i | 0 <= i < |xs| :: lo <= xs[i] <= hi
    ensures lo <= Average(xs) <= hi
  {
    SumBounds(xs, lo, hi);
    DivBounds(Sum(xs), |xs|, lo, hi);
  }

  lemma {:induction false} SumComplement(xs: seq<real>, ys: seq<real>)
    requires |xs| == |ys| && forall i | 0 <= i < |xs| :: ys[i] == 1.0 - xs[i]
    ensures Sum(ys) == |xs| as real - Sum(xs)
  {
    if xs != [] {
      SumComplement(xs[..|xs| - 1], ys[..|ys| - 1]);
    }
  }

  /** Complementary samples have complementary averages. */
  lemma AverageComplement(xs: seq<real>, ys: seq<real>)
    requires xs != [] && |xs| == |ys| && forall i | 0 <= i < |xs| :: ys[i] == 1.0 - xs[i]
    ensures Average(ys) == 1.0 - Average(xs)
  {
    SumComplement(xs, ys);
    var n, s := |xs| as real, Sum(xs);
    var q := s / n;
    assert (1.0 - q) * n == n - q * n;
    DivUnique(n - s, n, 1.0 - q);
  }

  // ---------------------------------------------------------------- the object

  class MetricsWindow {
    const samples: array<real>
    const size: nat
    var index: nat
    var count: nat

    ghost predicate Valid()
      reads this
    {
      && 0 < size && samples.Length == size
      && index < size && count <= size
      && (count < size ==> index == count)
    }

    ghost function State(): (s: WindowState)
      requires Valid()
      reads this, samples
      ensures s.Valid()
    {
      RingState(samples[..count], index, size)
    }

    constructor (size: nat)
      requires 0 < size
      ensures Valid() && fresh(samples) && State() == Empty(size)
    {
      samples := new real[size](_ => 0.0);
      this.size := size;
      index := 0;
      count := 0;
    }

    method Add(value: real)
      requires Valid()
      modifies this, samples
      ensures Valid() && State() == Pushed(old(State()), value)
    {
      ghost var before := samples[..count];
      samples[index] := value;
      assert count == size ==> samples[..count] == before[index := value];
      assert count < size ==> samples[..count + 1] == before + [value];
      index := Next(index, size);
      if count < size {
        count := count + 1;
      }
    }

    method GetAverage() returns (avg: real)
      requires Valid()
      ensures avg == Average(State().slots)
    {
      if count == 0 {
        return 0.0;
      }
      var sum := 0.0;
      for i := 0 to count
        invariant sum == Sum(samples[..i])
      {
        assert samples[..i + 1][..i] == samples[..i];
        sum := sum + samples[i];
      }
      return sum / count as real;
    }
  }
}
