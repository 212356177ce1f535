/** The exponentially weighted baseline (EWMA) and the composite security index (SAI) of
    rm/librmcommon/sai.cpp, over reals. */
module Sai {

  // One call of update: the sample and the smoothing factor it came with
  datatype Sample = Sample(x: real, alpha: real)

  datatype Baseline = Baseline(mean: real, variance: real, count: nat)

  const EMPTY := Baseline(0.0, 0.0, 0)

  function Updated(b: Baseline, s: Sample): Baseline {
    if b.count == 0 then Baseline(s.x, 0.0, 1)
    else
      var d := s.x - b.mean;
      Baseline(b.mean + s.alpha * d, (1.0 - s.alpha) * (b.variance + s.alpha * d * d), b.count + 1)
  }

  class Ewma {
    var mean: real
    var variance: real
    var count: nat

    ghost function View(): Baseline
      reads this
    {
      Baseline(mean, variance, count)
    }

    constructor ()
      ensures View() == EMPTY
    {
      mean, variance, count := 0.0, 0.0, 0;
    }

    method Update(x: real, alpha: real)
      modifies this
      ensures View() == Updated(old(View()), Sample(x, alpha))
    {
      if count == 0 {
        mean := x;
        variance := 0.0;
      } else {
        var d := x - mean;
        mean := mean + alpha * d;
        variance := (1.0 - alpha) * (variance + alpha * d * d);
      }
      count := count + 1;
    }
  }

  // The baseline after the first n samples
  function After(s: seq<Sample>, n: nat): (b: Baseline)
    requires n <= |s|
    ensures b.count == n
  {
    if n == 0 then EMPTY else Updated(After(s, n - 1), s[n - 1])
  }

  // ---------- the definition: weighted mean and weighted variance ----------

  // The weight of sample k among the first n: what it entered with, times what every later
  // sample left of it. The first sample enters with weight 1.
  function Weight(s: seq<Sample>, n: nat, k: nat): real
    requires k < n <= |s|
  {
    if k == n - 1 then (if k == 0 then 1.0 else s[k].alpha)
    else Weight(s, n - 1, k) * (1.0 - s[n - 1].alpha)
  }

  // The weighted sum of the values v over the first i of the first n samples
  function Sum(s: seq<Sample>, n: nat, v: seq<real>, i: nat): real
    requires i <= n <= |s| == |v|
  {
    if i == 0 then 0.0 else Sum(s, n, v, i - 1) + Weight(s, n, i - 1) * v[i - 1]
  }

  function Ones(s: seq<Sample>): (v: seq<real>)
    ensures |v| == |s| && forall k :: 0 <= k < |s| ==> v[k] == 1.0
  {
    seq(|s|, k => 1.0)
  }

  function Values(s: seq<Sample>): (v: seq<real>)
    ensures |v| == |s| && forall k :: 0 <= k < |s| ==> v[k] == s[k].x
  {
    seq(|s|, k requires 0 <= k < |s| => s[k].x)
  }

  // The squared distances from c
  function Squares(s: seq<Sample>, c: real): (v: seq<real>)
    ensures |v| == |s| && forall k :: 0 <= k < |s| ==> v[k] == (s[k].x - c) * (s[k].x - c)
  {
    seq(|s|, k requires 0 <= k < |s| => (s[k].x - c) * (s[k].x - c))
  }

  function WeightedMean(s: seq<Sample>, n: nat): real
    requires n <= |s|
  {
    Sum(s, n, Values(s), n)
  }

  // The weighted mean of the squared distances from the weighted mean
  function WeightedVariance(s: seq<Sample>, n: nat): real
    requires n <= |s|
  {
    Sum(s, n, Squares(s, WeightedMean(s, n)), n)
  }

  // One more sample scales every sum so far
  lemma {:induction false} SumScales(s: seq<Sample>, n: nat, v: seq<real>, i: nat)
    requires i < n <= |s| == |v|
    ensures Sum(s, n, v, i) == Sum(s, n - 1, v, i) * (1.0 - s[n - 1].alpha)
    decreases i
  {
    if i > 0 {
      SumScales(s, n, v, i - 1);
      Scale(Weight(s, n - 1, i - 1), 1.0 - s[n - 1].alpha, v[i - 1]);
    }
  }

  lemma Scale(w: real, keep: real, v: real)
    ensures (w * keep) * v == (w * v) * keep
  {
  }

  // The same weighted sum, built up one sample at a time
  function Fold(s: seq<Sample>, v: seq<real>, n: nat): real
    requires 0 < n <= |s| == |v|
  {
    if n == 1 then v[0] else Blend(Fold(s, v, n - 1), v[n - 1], s[n - 1].alpha)
  }

  function Blend(sum: real, term: real, alpha: real): real {
    sum * (1.0 - alpha) + alpha * term
  }

  lemma {:induction false} FoldIsSum(s: seq<Sample>, v: seq<real>, n: nat)
    requires 0 < n <= |s| == |v|
    ensures Fold(s, v, n) == Sum(s, n, v, n)
  {
    if n > 1 {
      FoldIsSum(s, v, n - 1);
      SumScales(s, n, v, n - 1);
    } else {
      assert Weight(s, 1, 0) == 1.0;
      assert Sum(s, 1, v, 0) == 0.0;
    }
  }

  // The weights are a distribution
  lemma {:induction false} WeightsSumToOne(s: seq<Sample>, n: nat)
    requires 0 < n <= |s|
    ensures Sum(s, n, Ones(s), n) == 1.0
  {
    FoldIsSum(s, Ones(s), n);
    if n > 1 {
      WeightsSumToOne(s, n - 1);
      FoldIsSum(s, Ones(s), n - 1);
    }
  }

  lemma FirstSample(s: seq<Sample>)
    requires |s| > 0
    ensures After(s, 1) == Baseline(s[0].x, 0.0, 1)
  {
    assert After(s, 0) == EMPTY;
  }

  lemma {:induction false} MeanIsFold(s: seq<Sample>, n: nat)
    requires 0 < n <= |s|
    ensures After(s, n).mean == Fold(s, Values(s), n)
  {
    if n > 1 {
      MeanIsFold(s, n - 1);
      MeanBlends(After(s, n - 1), s[n - 1]);
    } else {
      FirstSample(s);
    }
  }

  lemma MeanBlends(b: Baseline, s: Sample)
    requires b.count > 0
    ensures Updated(b, s).mean == Blend(b.mean, s.x, s.alpha)
  {
  }

  // The mean squared distance from c, by variance and mean
  function SpreadAbout(b: Baseline, c: real): real {
    b.variance + (b.mean - c) * (b.mean - c)
  }

  lemma FirstSpread(s: seq<Sample>, c: real)
    requires |s| > 0
    ensures SpreadAbout(After(s, 1), c) == Squares(s, c)[0]
  {
    FirstSample(s);
  }

  lemma {:induction false} SpreadIsFold(s: seq<Sample>, n: nat, c: real)
    requires 0 < n <= |s|
    ensures SpreadAbout(After(s, n), c) == Fold(s, Squares(s, c), n)
  {
    hide SpreadAbout, Updated, Blend;
    if n > 1 {
      SpreadIsFold(s, n - 1, c);
      SpreadBlends(After(s, n - 1), s[n - 1], c, Squares(s, c)[n - 1]);
    } else {
      FirstSpread(s, c);
    }
  }

  lemma UpdatedFields(b: Baseline, s: Sample, d: real)
    requires b.count > 0 && d == s.x - b.mean
    ensures Updated(b, s).mean == b.mean + s.alpha * d
    ensures Updated(b, s).variance == (1.0 - s.alpha) * (b.variance + s.alpha * d * d)
  {
  }

  lemma SpreadBlends(b: Baseline, s: Sample, c: real, term: real)
    requires b.count > 0 && term == (s.x - c) * (s.x - c)
    ensures SpreadAbout(Updated(b, s), c) == Blend(SpreadAbout(b, c), term, s.alpha)
  {
    hide Updated, SpreadAbout, Blend;
    var u, d := b.mean - c, s.x - b.mean;
    UpdatedFields(b, s, d);
    var x := s.x - c;
    assert x == u + d && term == x * x;
    SpreadMixes(Updated(b, s), b, c, u, d, s.alpha, x);
  }

  lemma SpreadMixes(b': Baseline, b: Baseline, c: real, u: real, d: real, a: real, x: real)
    requires b'.variance == (1.0 - a) * (b.variance + a * d * d)
    requires b'.mean - c == u + a * d && x == u + d && u == b.mean - c
    ensures SpreadAbout(b', c) == Blend(SpreadAbout(b, c), x * x, a)
  {
    MixOfSquares(b.variance, u, d, a);
  }

  lemma MixOfSquares(v: real, u: real, d: real, a: real)
    ensures (1.0 - a) * (v + a * d * d) + (u + a * d) * (u + a * d) ==
            (v + u * u) * (1.0 - a) + a * ((u + d) * (u + d))
  {
    var ud, dd := u * d, d * d;
    assert (u + d) * (u + d) == u * u + 2.0 * ud + dd;
    assert (u + a * d) * (u + a * d) == u * u + 2.0 * (a * ud) + a * (a * dd);
    assert (1.0 - a) * (v + a * d * d) == (1.0 - a) * v + a * dd - a * (a * dd);
  }

  // After any samples, whatever their smoothing factors, the incremental mean and variance are
  // the exponentially weighted mean and variance by definition
  lemma EwmaIsWeighted(s: seq<Sample>, n: nat)
    requires 0 < n <= |s|
    ensures After(s, n).mean == WeightedMean(s, n)
    ensures After(s, n).variance == WeightedVariance(s, n)
  {
    var m := WeightedMean(s, n);
    MeanIsFold(s, n);
    FoldIsSum(s, Values(s), n);
    SpreadIsFold(s, n, m);
    FoldIsSum(s, Squares(s, m), n);
    assert After(s, n).mean - m == 0.0;
  }

  // With one smoothing factor throughout, the weights are the powers of the definition
  function Power(b: real, e: nat): real {
    if e == 0 then 1.0 else Power(b, e - 1) * b
  }

  lemma {:induction false} WeightsArePowers(s: seq<Sample>, n: nat, k: nat, alpha: real)
    requires k < n <= |s| && forall i :: 0 <= i < n ==> s[i].alpha == alpha
    ensures Weight(s, n, k) == (if k == 0 then 1.0 else alpha) * Power(1.0 - alpha, n - 1 - k)
  {
    if k < n - 1 {
      WeightsArePowers(s, n - 1, k, alpha);
    }
  }

  ghost predicate Smoothing(s: seq<Sample>) {
    forall i :: 0 <= i < |s| ==> 0.0 <= s[i].alpha <= 1.0
  }

  // The mean stays between any bounds of the samples and the variance is never negative
  lemma {:induction false} EwmaStaysInRange(s: seq<Sample>, n: nat, lo: real, hi: real)
    requires 0 < n <= |s| && Smoothing(s)
    requires forall i :: 0 <= i < n ==> lo <= s[i].x <= hi
    ensures lo <= After(s, n).mean <= hi
    ensures After(s, n).variance >= 0.0
  {
    if n > 1 {
      EwmaStaysInRange(s, n - 1, lo, hi);
      UpdateStaysInRange(After(s, n - 1), s[n - 1], lo, hi);
    } else {
      FirstSample(s);
    }
  }

  lemma UpdateStaysInRange(b: Baseline, s: Sample, lo: real, hi: real)
    requires b.count > 0 && 0.0 <= s.alpha <= 1.0
    requires lo <= b.mean <= hi && lo <= s.x <= hi && b.variance >= 0.0
    ensures lo <= Updated(b, s).mean <= hi && Updated(b, s).variance >= 0.0
  {
    var a, d := s.alpha, s.x - b.mean;
    NonNegative(1.0 - a, b.mean - lo);
    NonNegative(a, s.x - lo);
    NonNegative(1.0 - a, hi - b.mean);
    NonNegative(a, hi - s.x);
    Mix(b.mean, s.x, a, lo);
    Mix(b.mean, s.x, a, hi);
    SquareNonNegative(d);
    NonNegative(a, d * d);
    assert a * d * d == a * (d * d);
    NonNegative(1.0 - a, b.variance + a * d * d);
  }

  lemma Mix(mean: real, x: real, a: real, c: real)
    ensures mean + a * (x - mean) - c == (1.0 - a) * (mean - c) + a * (x - c)
    ensures c - (mean + a * (x - mean)) == (1.0 - a) * (c - mean) + a * (c - x)
  {
  }

  lemma SquareNonNegative(d: real)
    ensures d * d >= 0.0
  {
    if d >= 0.0 { NonNegative(d, d); } else { NonNegative(-d, -d); }
  }

  lemma NonNegative(a: real, b: real)
    requires a >= 0.0 && b >= 0.0
    ensures a * b >= 0.0
  {
  }
}
