/**
 * The load averages of Windows: three exponential moving averages over one stream of samples.
 * float64 is modelled by real numbers; the smoothing factors are any three with
 * 0 < f1 < f5 < f15 < 1.
 */
module LoadAverage {
  import opened Text

  /** One step of an average with smoothing factor f. */
  function Smooth(avg: real, load: real, f: real): real {
    avg * f + load * (1.0 - f)
  }

  function Average(xs: seq<real>, f: real): real {
    if xs == [] then 0.0 else Smooth(Average(xs[..|xs| - 1], f), xs[|xs| - 1], f)
  }

  datatype Factors = Factors(f1: real, f5: real, f15: real)

  predicate Valid(k: Factors) {
    0.0 < k.f1 < k.f5 < k.f15 < 1.0
  }

  /** The shared averages; every tick folds in the current queue length, even one read with an error. */
  class LoadAverages {
    const factors: Factors
    var loadErr: Option<int>
    var loadAvg1M: real
    var loadAvg5M: real
    var loadAvg15M: real
    ghost var samples: seq<real>

    ghost predicate Holds()
      reads this
    {
      && loadAvg1M == Average(samples, factors.f1)
      && loadAvg5M == Average(samples, factors.f5)
      && loadAvg15M == Average(samples, factors.f15)
    }

    constructor (factors: Factors)
      ensures this.factors == factors && Holds() && samples == [] && loadErr == None
    {
      this.factors, samples, loadErr := factors, [], None;
      loadAvg1M, loadAvg5M, loadAvg15M := 0.0, 0.0, 0.0;
    }

    method Tick(currentLoad: real, err: Option<int>)
      requires Holds()
      modifies this
      ensures Holds() && samples == old(samples) + [currentLoad] && loadErr == err
    {
      samples := samples + [currentLoad];
      assert samples[..|samples| - 1] == old(samples);
      loadErr := err;
      loadAvg1M := loadAvg1M * factors.f1 + currentLoad * (1.0 - factors.f1);
      loadAvg5M := loadAvg5M * factors.f5 + currentLoad * (1.0 - factors.f5);
      loadAvg15M := loadAvg15M * factors.f15 + currentLoad * (1.0 - factors.f15);
    }
  }

  /* ---- the closed form ---- */

  function Power(f: real, n: nat): real {
    if n == 0 then 1.0 else f * Power(f, n - 1)
  }

  /** The sum of (1-f) * f^(n-1-k) * x_k over the first `upto` of the n samples. */
  function WeightedSum(xs: seq<real>, f: real, upto: nat): real
    requires upto <= |xs|
  {
    if upto == 0 then 0.0
    else WeightedSum(xs, f, upto - 1) + Term(f, Power(f, |xs| - upto), xs[upto - 1])
  }

  function Term(f: real, weight: real, x: real): real {
    (1.0 - f) * weight * x
  }

  lemma Regroup(f: real, a: real, p: real, y: real)
    ensures f * a + Term(f, f * p, y) == f * (a + Term(f, p, y))
  {
    var b := Term(f, p, y);
    assert Term(f, f * p, y) == f * b;
    assert f * (a + b) == f * a + f * b;
  }

  lemma SumStep(xs: seq<real>, f: real, upto: nat)
    requires 0 < upto <= |xs|
    ensures WeightedSum(xs, f, upto) == WeightedSum(xs, f, upto - 1) + Term(f, Power(f, |xs| - upto), xs[upto - 1])
  {
    hide Power, Term;
  }

  lemma PowerStep(f: real, n: nat)
    ensures Power(f, n + 1) == f * Power(f, n)
  {
  }

  lemma {:induction false} OneMoreSample(xs: seq<real>, x: real, f: real, upto: nat)
    requires upto <= |xs|
    ensures WeightedSum(xs + [x], f, upto) == f * WeightedSum(xs, f, upto)
  {
    if upto > 0 {
      hide Power, Term, WeightedSum;
      OneMoreSample(xs, x, f, upto - 1);
      PowerStep(f, |xs| - upto);
      SumStep(xs, f, upto);
      SumStep(xs + [x], f, upto);
      Regroup(f, WeightedSum(xs, f, upto - 1), Power(f, |xs| - upto), xs[upto - 1]);
    }
  }

  lemma {:induction false} ClosedForm(xs: seq<real>, f: real)
    ensures Average(xs, f) == WeightedSum(xs, f, |xs|)
  {
    if xs != [] {
      var n := |xs| - 1;
      ClosedForm(xs[..n], f);
      OneMoreSample(xs[..n], xs[n], f, n);
      assert xs[..n] + [xs[n]] == xs;
      assert Power(f, 0) == 1.0;
    }
  }

  /* ---- consequences ---- */

  predicate Within(xs: seq<real>, lo: real, hi: real) {
    forall i :: 0 <= i < |xs| ==> lo <= xs[i] <= hi
  }

  lemma NonNegative(a: real, b: real)
    requires a >= 0.0 && b >= 0.0
    ensures a * b >= 0.0
  {
  }

  lemma SmoothBetween(a: real, x: real, f: real, lo: real, hi: real)
    requires 0.0 < f < 1.0 && lo <= a <= hi && lo <= x <= hi
    ensures lo <= Smooth(a, x, f) <= hi
  {
    NonNegative(f, a - lo);
    NonNegative(1.0 - f, x - lo);
    NonNegative(f, hi - a);
    NonNegative(1.0 - f, hi - x);
    assert Smooth(a, x, f) - lo == f * (a - lo) + (1.0 - f) * (x - lo);
    assert hi - Smooth(a, x, f) == f * (hi - a) + (1.0 - f) * (hi - x);
  }

  /** For non-negative samples an average lies between 0 and the largest sample. */
  lemma {:induction false} AverageBounded(xs: seq<real>, f: real, most: real)
    requires 0.0 < f < 1.0 && 0.0 <= most && Within(xs, 0.0, most)
    ensures 0.0 <= Average(xs, f) <= most
  {
    if xs != [] {
      var n := |xs| - 1;
      AverageBounded(xs[..n], f, most);
      SmoothBetween(Average(xs[..n], f), xs[n], f, 0.0, most);
    }
  }

  /** Constant load c gives c * (1 - f^n). */
  lemma {:induction false} ConstantLoad(xs: seq<real>, f: real, c: real)
    requires forall i :: 0 <= i < |xs| ==> xs[i] == c
    ensures Average(xs, f) == c * (1.0 - Power(f, |xs|))
  {
    if xs != [] {
      var n := |xs| - 1;
      ConstantLoad(xs[..n], f, c);
      var p := Power(f, n);
      assert c * (1.0 - p) * f + c * (1.0 - f) == c * (1.0 - f * p);
    }
  }

  predicate NonDecreasing(xs: seq<real>) {
    forall i, j :: 0 <= i < j < |xs| ==> xs[i] <= xs[j]
  }

  lemma SmoothOrdered(a: real, b: real, x: real, f: real, g: real)
    requires 0.0 < f < g < 1.0 && b <= a && b <= x
    ensures Smooth(b, x, g) <= Smooth(a, x, f)
  {
    NonNegative(f, a - b);
    NonNegative(g - f, x - b);
    assert Smooth(a, x, f) - Smooth(b, x, g) == f * (a - b) + (g - f) * (x - b);
  }

  /** Under rising load the shorter average stays above the longer one. */
  lemma {:induction false} ShorterReactsFaster(xs: seq<real>, f: real, g: real)
    requires 0.0 < f < g < 1.0 && NonDecreasing(xs) && (xs == [] || 0.0 <= xs[0])
    ensures Average(xs, g) <= Average(xs, f)
  {
    if xs != [] {
      var n := |xs| - 1;
      var x := xs[n];
      ShorterReactsFaster(xs[..n], f, g);
      assert Within(xs[..n], 0.0, x);
      AverageBounded(xs[..n], g, x);
      SmoothOrdered(Average(xs[..n], f), Average(xs[..n], g), x, f, g);
    }
  }

  lemma ThreeAveragesOrdered(xs: seq<real>, k: Factors)
    requires Valid(k) && NonDecreasing(xs) && (xs == [] || 0.0 <= xs[0])
    ensures Average(xs, k.f15) <= Average(xs, k.f5) <= Average(xs, k.f1)
  {
    ShorterReactsFaster(xs, k.f1, k.f5);
    ShorterReactsFaster(xs, k.f5, k.f15);
  }

  /** Once idle, an average decays by its factor at every tick. */
  lemma {:induction false} IdleDecay(xs: seq<real>, idle: seq<real>, f: real)
    requires forall i :: 0 <= i < |idle| ==> idle[i] == 0.0
    ensures Average(xs + idle, f) == Power(f, |idle|) * Average(xs, f)
  {
    if idle == [] {
      assert xs + idle == xs;
    } else {
      var n := |idle| - 1;
      IdleDecay(xs, idle[..n], f);
      var all := xs + idle;
      assert all[..|all| - 1] == xs + idle[..n];
      assert Power(f, n) * Average(xs, f) * f == f * Power(f, n) * Average(xs, f);
    }
  }
}
