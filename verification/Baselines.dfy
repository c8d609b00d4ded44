/**
  Baseline statistics (baselines.py, clean_values and seasonal_bucket in
  features.py): cleaning a series, summarising it, winsorising it to its 5th and
  95th percentiles, and sorting it into seasonal buckets.
*/
module Baselines {
  import opened Options
  import opened Clock
  import opened Samples
  import opened Counting

  ghost predicate Rounding(rnd: real -> real) {
    rnd(0.0) == 0.0 && forall x, y :: x <= y ==> rnd(x) <= rnd(y)
  }

  // ---- cleaning ----

  /** A value as a feature delivers it. */
  datatype Raw = Missing | NotNumeric | NotFinite | Number(value: real)

  function Power(base: real, n: nat): real {
    if n == 0 then 1.0 else base * Power(base, n - 1)
  }

  /** The safe numeric bound, 1e300. */
  function Bound(): real {
    Power(10.0, 300)
  }

  predicate Acceptable(v: Raw, allowMissing: bool, nonNegative: bool) {
    match v
    case Missing => allowMissing
    case Number(x) => (nonNegative ==> 0.0 <= x) && -Bound() <= x <= Bound()
    case _ => false
  }

  function Present(values: seq<Raw>): (r: seq<real>)
    ensures |r| <= |values|
  {
    if values == [] then []
    else Present(values[..|values| - 1]) + if values[|values| - 1].Number? then [values[|values| - 1].value] else []
  }

  predicate Cleanable(values: seq<Raw>, allowMissing: bool, nonNegative: bool) {
    |values| <= MAX_VALUES && forall i :: 0 <= i < |values| ==> Acceptable(values[i], allowMissing, nonNegative)
  }

  /** Keeps the numbers in order and counts the missing values; refuses anything else, and too long a series. */
  method CleanValues(values: seq<Raw>, allowMissing: bool, nonNegative: bool) returns (r: Result<(seq<real>, nat)>)
    ensures r.Ok? <==> Cleanable(values, allowMissing, nonNegative)
    ensures r.Ok? ==> r.value.0 == Present(values) && |r.value.0| + r.value.1 == |values|
    ensures r.Ok? ==> r.value.1 == Counting.Number(values, (v: Raw) => v.Missing?)
  {
    hide Bound, Counting.Number, Counting.Where;
    var kept, missing := [], 0;
    NumberOfNone((v: Raw) => v.Missing?);
    for i := 0 to |values|
      invariant kept == Present(values[..i]) && |kept| + missing == i <= MAX_VALUES
      invariant missing == Counting.Number(values[..i], (v: Raw) => v.Missing?)
      invariant forall j :: 0 <= j < i ==> Acceptable(values[j], allowMissing, nonNegative)
    {
      if |kept| + missing >= MAX_VALUES {
        return Invalid;
      }
      assert values[..i + 1][..i] == values[..i];
      NumberUnfolds(values[..i + 1], (v: Raw) => v.Missing?);
      if values[i].Missing? {
        if !allowMissing {
          return Invalid;
        }
        missing := missing + 1;
        continue;
      }
      if !values[i].Number? || (nonNegative && values[i].value < 0.0) {
        return Invalid;
      }
      if values[i].value > Bound() || values[i].value < -Bound() {
        return Invalid;
      }
      kept := kept + [values[i].value];
    }
    assert values[..|values|] == values;
    return Ok((kept, missing));
  }

  /** What is clean: at most ten thousand values, each a number within bounds or, where allowed, missing. */
  lemma CleanMeans(values: seq<Raw>, allowMissing: bool, nonNegative: bool)
    ensures Cleanable(values, allowMissing, nonNegative) <==>
            |values| <= 10_000 && forall i :: 0 <= i < |values| ==>
              || (allowMissing && values[i] == Missing)
              || (values[i].Number? && (values[i].value < 0.0 ==> !nonNegative && -Power(10.0, 300) <= values[i].value) && values[i].value <= Power(10.0, 300))
  {
    hide Power;
    PowerIsPositive(300);
  }

  lemma {:induction false} PowerIsPositive(n: nat)
    ensures 0.0 < Power(10.0, n)
  {
    if n > 0 { PowerIsPositive(n - 1); }
  }

  /** Each number is kept, at the place given by the numbers before it. */
  lemma {:induction false} PresentAt(values: seq<Raw>, i: nat)
    requires i < |values| && values[i].Number?
    ensures |Present(values)| == Counting.Number(values, (v: Raw) => v.Number?)
    ensures var k := Counting.Number(values[..i], (v: Raw) => v.Number?);
            k < |Present(values)| && Present(values)[k] == values[i].value
    decreases |values|
  {
    hide Counting.Number, Counting.Where;
    var n := |values| - 1;
    PresentCounts(values);
    PresentCounts(values[..i]);
    if i < n {
      assert values[..n][..i] == values[..i];
      PresentAt(values[..n], i);
    }
  }

  lemma {:induction false} PresentCounts(values: seq<Raw>)
    ensures |Present(values)| == Counting.Number(values, (v: Raw) => v.Number?)
  {
    hide Counting.Number, Counting.Where;
    NumberUnfolds(values, (v: Raw) => v.Number?);
    if values != [] { PresentCounts(values[..|values| - 1]); }
  }

  // ---- summaries ----

  function Percentile(rnd: real -> real, values: Sample, q: real): real
    requires Percent(q)
  {
    rnd(Quantile(values, q))
  }

  /** What a caller of the percentile gets: an error, nothing for an empty sample, or the rounded quantile. */
  function PercentileOf(rnd: real -> real, values: seq<real>, q: real): (r: Result<Option<real>>)
    ensures r.Ok? <==> |values| <= MAX_VALUES && Percent(q)
    ensures r.Ok? ==> (r.value.None? <==> values == [])
  {
    if |values| > MAX_VALUES || !Percent(q) then Invalid
    else if values == [] then Ok(None)
    else Ok(Some(Percentile(rnd, values, q)))
  }

  /** The answer does not depend on the order of the sample, whatever the quantile. */
  lemma PercentileIgnoresOrder(rnd: real -> real, a: seq<real>, b: seq<real>, q: real)
    requires multiset(a) == multiset(b)
    ensures PercentileOf(rnd, a, q) == PercentileOf(rnd, b, q)
  {
    hide Quantile;
    assert |multiset(a)| == |a| && |multiset(b)| == |b|;
    if a != [] && Percent(q) { QuantileIgnoresOrder(a, b, q); }
  }

  /**
    The percentile interpolates: a fraction `t` of the way between the percentages
    of two neighbouring ranks it is that fraction of the way between their values.
  */
  lemma PercentileInterpolates(rnd: real -> real, values: seq<real>, k: nat, t: real, x: real, y: real)
    requires k + 1 < |values| <= 10_000 && 0.0 <= t <= 1.0 && HasRank(x, values, k) && HasRank(y, values, k + 1)
    ensures var q := Along(RankPercent(|values|, k), RankPercent(|values|, k + 1), t);
            PercentileOf(rnd, values, q) == Ok(Some(rnd(Along(x, y, t))))
  {
    hide Quantile, RankPercent, Along, HasRank;
    QuantileIsAffine(values, k, t);
    QuantileAtRank(values, k);
    QuantileAtRank(values, k + 1);
    RankIsUnique(x, Quantile(values, RankPercent(|values|, k)), values, k);
    RankIsUnique(y, Quantile(values, RankPercent(|values|, k + 1)), values, k + 1);
  }

  /** Raising the quantile, or raising any of the samples, never lowers the answer. */
  lemma PercentileIsMonotone(rnd: real -> real, a: Sample, b: Sample, q: real, r: real)
    requires Rounding(rnd) && Percent(q) && Percent(r) && q <= r && Below(a, b)
    ensures Percentile(rnd, a, q) <= Percentile(rnd, b, r)
  {
    hide Quantile;
    QuantileMonotone(a, q, r);
    QuantileRises(a, b, r);
  }

  function Deviations(values: seq<real>, center: real): (r: seq<real>)
    ensures |r| == |values|
  {
    seq(|values|, i requires 0 <= i < |values| => if values[i] < center then center - values[i] else values[i] - center)
  }

  function Least(values: Sample): real {
    if |values| == 1 then values[0]
    else
      var m := Least(values[1..]);
      if values[0] < m then values[0] else m
  }

  function Greatest(values: Sample): real {
    if |values| == 1 then values[0]
    else
      var m := Greatest(values[1..]);
      if m < values[0] then values[0] else m
  }

  lemma {:induction false} ExtremesBound(values: Sample)
    ensures IsMin(Least(values), values) && IsMax(Greatest(values), values)
  {
    if |values| > 1 {
      ExtremesBound(values[1..]);
      assert forall i :: 0 < i < |values| ==> values[i] == values[1..][i - 1];
    }
  }

  datatype Summary = Summary(
    mean: real, median: real, minimum: real, maximum: real, deviation: real, mad: real, iqr: real,
    p5: real, p25: real, p50: real, p75: real, p95: real)

  /** `root` is the square root of the platform. */
  function Summarize(rnd: real -> real, root: real -> real, values: Sample): Summary {
    var p25, p75 := Percentile(rnd, values, 25.0), Percentile(rnd, values, 75.0);
    Summary(rnd(Mean(values)), rnd(Median(values)), rnd(Least(values)), rnd(Greatest(values)),
            if |values| > 1 then rnd(root(Variance(values))) else 0.0,
            rnd(Median(Deviations(values, Median(values)))), rnd(p75 - p25),
            Percentile(rnd, values, 5.0), p25, Percentile(rnd, values, 50.0), p75, Percentile(rnd, values, 95.0))
  }

  ghost predicate Rooting(root: real -> real) {
    root(0.0) == 0.0 && forall x, y :: 0.0 <= x <= y ==> root(x) <= root(y)
  }

  lemma MedianAtLeast(values: Sample, low: real)
    requires forall i :: 0 <= i < |values| ==> low <= values[i]
    ensures low <= Median(values)
  {
    QuantileLandmarks(values);
    QuantileMonotone(values, 0.0, 50.0);
  }

  lemma {:induction false} SumBetween(s: seq<real>, low: real, high: real)
    requires forall i :: 0 <= i < |s| ==> low <= s[i] <= high
    ensures |s| as real * low <= Sum(s) <= |s| as real * high
  {
    if s != [] {
      SumBetween(s[1..], low, high);
      OneMoreTerm(|s[1..]| as real, low);
      OneMoreTerm(|s[1..]| as real, high);
      assert |s| as real == |s[1..]| as real + 1.0;
    }
  }

  lemma OneMoreTerm(n: real, x: real)
    ensures (n + 1.0) * x == x + n * x
  {
  }

  lemma MeanBetween(values: Sample, low: real, high: real)
    requires forall i :: 0 <= i < |values| ==> low <= values[i] <= high
    ensures low <= Mean(values) <= high
  {
    SumBetween(values, low, high);
    var n := |values| as real;
    Divided(Sum(values), n);
    CancelFactor(low, Mean(values), n);
    CancelFactor(Mean(values), high, n);
  }

  lemma {:induction false} SquaresNonNegative(s: seq<real>, c: real)
    ensures 0.0 <= SquaresAbout(s, c)
  {
    hide Square;
    if s != [] {
      SquareShrinks(s[0] - c, 0.0);
      assert Square(0.0) == 0.0 by { SquareOfZero(); }
      SquaresNonNegative(s[1..], c);
    }
  }

  lemma SquareOfZero()
    ensures Square(0.0) == 0.0
  {
  }

  lemma VarianceNonNegative(values: Sample)
    ensures 0.0 <= Variance(values)
  {
    hide SquaresAbout, Mean;
    SquaresNonNegative(values, Mean(values));
    Divided(SquaresAbout(values, Mean(values)), |values| as real);
    CancelFactor(0.0, Variance(values), |values| as real);
  }

  lemma QuantilesAreOrdered(rnd: real -> real, values: Sample)
    requires Rounding(rnd)
    ensures rnd(Least(values)) <= Percentile(rnd, values, 5.0) <= Percentile(rnd, values, 25.0) <= Percentile(rnd, values, 50.0)
    ensures Percentile(rnd, values, 50.0) == rnd(Median(values))
    ensures Percentile(rnd, values, 50.0) <= Percentile(rnd, values, 75.0) <= Percentile(rnd, values, 95.0) <= rnd(Greatest(values))
  {
    hide Quantile, Median, Least, Greatest;
    QuantileLandmarks(values);
    ExtremesBound(values);
    QuantileMonotone(values, 0.0, 5.0);
    QuantileMonotone(values, 5.0, 25.0);
    QuantileMonotone(values, 25.0, 50.0);
    QuantileMonotone(values, 50.0, 75.0);
    QuantileMonotone(values, 75.0, 95.0);
    QuantileMonotone(values, 95.0, 100.0);
  }

  /** Every summary is ordered from minimum to maximum around the median, the mean lies between them, and no spread is negative. */
  lemma SummaryIsOrdered(rnd: real -> real, root: real -> real, values: Sample)
    requires Rounding(rnd) && Rooting(root)
    ensures var s := Summarize(rnd, root, values);
            && s.minimum <= s.p5 <= s.p25 <= s.p50 == s.median <= s.p75 <= s.p95 <= s.maximum
            && s.minimum <= s.mean <= s.maximum
            && 0.0 <= s.iqr && 0.0 <= s.mad && 0.0 <= s.deviation
  {
    hide Percentile, Median, Deviations, Mean, Variance, Least, Greatest;
    QuantilesAreOrdered(rnd, values);
    ExtremesBound(values);
    MeanBetween(values, Least(values), Greatest(values));
    VarianceNonNegative(values);
    var deviations := Deviations(values, Median(values));
    assert forall i :: 0 <= i < |deviations| ==> 0.0 <= deviations[i] by { DeviationsNonNegative(values, Median(values)); }
    MedianAtLeast(deviations, 0.0);
  }

  lemma DeviationsNonNegative(values: seq<real>, center: real)
    ensures forall i :: 0 <= i < |values| ==> 0.0 <= Deviations(values, center)[i]
  {
  }

  // ---- variance ----

  function Sum(s: seq<real>): real {
    if s == [] then 0.0 else s[0] + Sum(s[1..])
  }

  function Square(x: real): real {
    x * x
  }

  function SquaresAbout(s: seq<real>, c: real): real {
    if s == [] then 0.0 else Square(s[0] - c) + SquaresAbout(s[1..], c)
  }

  function Mean(s: Sample): real {
    Sum(s) / |s| as real
  }

  /** The square of the population standard deviation. */
  function Variance(s: Sample): real {
    SquaresAbout(s, Mean(s)) / |s| as real
  }

  /** The squared differences of all pairs of values. */
  function Pairs(s: seq<real>): real {
    if s == [] then 0.0 else SquaresAbout(s[1..], s[0]) + Pairs(s[1..])
  }

  /** The squares about `c` of `n` values with the given sum and sum of squares. */
  function Shifted(c: real, n: real, total: real, squares: real): real {
    squares - 2.0 * c * total + n * (c * c)
  }

  lemma ShiftedStep(x: real, c: real, n: real, total: real, squares: real)
    ensures Square(x - c) + Shifted(c, n, total, squares) == Shifted(c, n + 1.0, x + total, Square(x - 0.0) + squares)
    ensures Shifted(c, 0.0, 0.0, 0.0) == 0.0
  {
  }

  lemma {:induction false} SquaresExpand(s: seq<real>, c: real)
    ensures SquaresAbout(s, c) == Shifted(c, |s| as real, Sum(s), SquaresAbout(s, 0.0))
  {
    hide Shifted, Square;
    if s == [] {
      ShiftedStep(0.0, c, 0.0, 0.0, 0.0);
    } else {
      SquaresExpand(s[1..], c);
      ShiftedStep(s[0], c, |s[1..]| as real, Sum(s[1..]), SquaresAbout(s[1..], 0.0));
      assert |s| as real == |s[1..]| as real + 1.0;
    }
  }

  /** The pairwise squares of `n` values with the given sum and sum of squares. */
  function Paired(n: real, total: real, squares: real): real {
    n * squares - total * total
  }

  lemma PairedStep(x: real, n: real, total: real, squares: real)
    ensures Shifted(x, n, total, squares) + Paired(n, total, squares) == Paired(n + 1.0, x + total, Square(x - 0.0) + squares)
    ensures Paired(0.0, 0.0, 0.0) == 0.0
  {
  }

  lemma {:induction false} PairsExpand(s: seq<real>)
    ensures Pairs(s) == Paired(|s| as real, Sum(s), SquaresAbout(s, 0.0))
  {
    hide Shifted, Square, Paired;
    if s == [] {
      PairedStep(0.0, 0.0, 0.0, 0.0);
    } else {
      PairsExpand(s[1..]);
      SquaresExpand(s[1..], s[0]);
      PairedStep(s[0], |s[1..]| as real, Sum(s[1..]), SquaresAbout(s[1..], 0.0));
      assert |s| as real == |s[1..]| as real + 1.0;
    }
  }

  lemma CancelFactor(a: real, b: real, n: real)
    requires 0.0 < n
    ensures n * a <= n * b ==> a <= b
    ensures n * a < n * b ==> a < b
  {
    assert n * a - n * b == n * (a - b);
  }

  lemma Divided(a: real, n: real)
    requires n != 0.0
    ensures n * (a / n) == a
  {
  }

  lemma Collapse(n: real, m: real, total: real, squares: real)
    requires n * m == total
    ensures n * Shifted(m, n, total, squares) == Paired(n, total, squares)
  {
    assert n * (n * (m * m)) == (n * m) * (n * m);
    assert n * (2.0 * m * total) == 2.0 * (n * m) * total;
  }

  /** Variance is the sum over pairs, divided by the square of the size. */
  lemma VarianceIsPairwise(s: Sample)
    ensures |s| as real * (|s| as real * Variance(s)) == Pairs(s)
  {
    hide Sum, SquaresAbout, Pairs, Shifted, Paired;
    var n, m := |s| as real, Mean(s);
    SquaresExpand(s, m);
    PairsExpand(s);
    Divided(Sum(s), n);
    Divided(SquaresAbout(s, m), n);
    Collapse(n, m, Sum(s), SquaresAbout(s, 0.0));
  }

  // ---- winsorising ----

  function Clamp(low: real, high: real, x: real): real {
    var capped := if x < high then x else high;
    if low < capped then capped else low
  }

  function Winsorized(rnd: real -> real, values: Sample): (r: seq<real>)
    ensures |r| == |values|
  {
    var low, high := Percentile(rnd, values, 5.0), Percentile(rnd, values, 95.0);
    seq(|values|, i requires 0 <= i < |values| => Clamp(low, high, values[i]))
  }

  /** No two values end up further apart than they were. */
  ghost predicate Contracts(a: seq<real>, b: seq<real>) {
    |a| == |b| && forall i, j :: 0 <= i < |a| && 0 <= j < |a| && a[i] <= a[j] ==> b[i] <= b[j] <= b[i] + (a[j] - a[i])
  }

  lemma SquareShrinks(x: real, y: real)
    requires -x <= y <= x || x <= y <= -x
    ensures Square(y) <= Square(x)
  {
    if -x <= y <= x {
      Product(x - y, x + y);
    } else {
      Product(y - x, -x - y);
      assert (y - x) * (-x - y) == (x - y) * (x + y);
    }
    assert (x - y) * (x + y) == x * x - y * y;
  }

  lemma {:induction false} SquaresShrink(a: seq<real>, b: seq<real>, x: real, y: real)
    requires |a| == |b| && forall i :: 0 <= i < |a| ==> (-(a[i] - x) <= b[i] - y <= a[i] - x || a[i] - x <= b[i] - y <= -(a[i] - x))
    ensures SquaresAbout(b, y) <= SquaresAbout(a, x)
  {
    hide Square;
    if a != [] {
      SquareShrinks(a[0] - x, b[0] - y);
      SquaresShrink(a[1..], b[1..], x, y);
    }
  }

  lemma {:induction false} PairsShrink(a: seq<real>, b: seq<real>)
    requires Contracts(a, b)
    ensures Pairs(b) <= Pairs(a)
  {
    if a != [] {
      forall i | 0 <= i < |a[1..]|
        ensures -(a[1..][i] - a[0]) <= b[1..][i] - b[0] <= a[1..][i] - a[0] || a[1..][i] - a[0] <= b[1..][i] - b[0] <= -(a[1..][i] - a[0])
      {
        assert a[1..][i] == a[i + 1] && b[1..][i] == b[i + 1];
      }
      SquaresShrink(a[1..], b[1..], a[0], b[0]);
      assert forall i :: 0 <= i < |a[1..]| ==> a[1..][i] == a[i + 1] && b[1..][i] == b[i + 1];
      PairsShrink(a[1..], b[1..]);
    }
  }

  lemma VarianceShrinks(a: Sample, b: Sample)
    requires Contracts(a, b)
    ensures Variance(b) <= Variance(a)
  {
    hide Variance, Contracts;
    VarianceIsPairwise(a);
    VarianceIsPairwise(b);
    PairsShrink(a, b);
    assert |a| == |b| by { SameLength(a, b); }
    var n := |a| as real;
    CancelFactor(n * Variance(b), n * Variance(a), n);
    CancelFactor(Variance(b), Variance(a), n);
  }

  lemma SameLength(a: seq<real>, b: seq<real>)
    requires Contracts(a, b)
    ensures |a| == |b|
  {
  }

  /** Winsorising keeps length and order, moves exactly the outliers to the nearer percentile, and never increases the variance. */
  lemma WinsorisingTames(rnd: real -> real, values: Sample)
    requires Rounding(rnd)
    ensures var used := Winsorized(rnd, values);
            && Contracts(values, used)
            && (forall i :: 0 <= i < |used| ==> Percentile(rnd, values, 5.0) <= used[i] <= Percentile(rnd, values, 95.0))
            && (forall i :: 0 <= i < |used| && Percentile(rnd, values, 5.0) <= values[i] <= Percentile(rnd, values, 95.0) ==> used[i] == values[i])
            && (forall i :: 0 <= i < |used| && values[i] < Percentile(rnd, values, 5.0) ==> used[i] == Percentile(rnd, values, 5.0))
            && (forall i :: 0 <= i < |used| && Percentile(rnd, values, 95.0) < values[i] ==> used[i] == Percentile(rnd, values, 95.0))
            && Variance(used) <= Variance(values)
  {
    hide Quantile, Variance;
    QuantileMonotone(values, 5.0, 95.0);
    VarianceShrinks(values, Winsorized(rnd, values));
  }

  /** Winsorising never increases the standard deviation a summary reports. */
  lemma WinsorisedDeviation(rnd: real -> real, root: real -> real, values: Sample)
    requires Rounding(rnd) && Rooting(root)
    ensures Summarize(rnd, root, Winsorized(rnd, values)).deviation <= Summarize(rnd, root, values).deviation
  {
    hide Variance, Percentile, Median, Mean, Winsorized;
    WinsorisingTames(rnd, values);
    VarianceNonNegative(Winsorized(rnd, values));
  }

  // ---- what a summary says ----

  predicate IsDistanceTo(d: real, x: real, center: real) {
    0.0 <= d && (d == x - center || d == center - x)
  }

  /** The mean by the sum of the values, and the standard deviation by their pairwise differences. */
  lemma SummaryMoments(rnd: real -> real, root: real -> real, values: Sample, mean: real, variance: real)
    requires mean * |values| as real == Sum(values)
    requires |values| as real * (|values| as real * variance) == Pairs(values)
    ensures var s := Summarize(rnd, root, values);
            s.mean == rnd(mean) && s.deviation == if |values| == 1 then 0.0 else rnd(root(variance))
  {
    hide Median, Least, Greatest, Sum, Pairs, Variance, Percentile, Deviations;
    var n := |values| as real;
    SameProduct(mean, Mean(values), n, Sum(values));
    VarianceIsPairwise(values);
    SameFactors(variance, Variance(values), n);
  }

  /** The other members by percentiles: of the values, and of their distances to the median. */
  lemma SummaryPercentiles(rnd: real -> real, root: real -> real, values: Sample, distances: Sample)
    requires |distances| == |values| && forall i :: 0 <= i < |values| ==> IsDistanceTo(distances[i], values[i], Quantile(values, 50.0))
    ensures var s := Summarize(rnd, root, values);
            && s.mad == rnd(Quantile(distances, 50.0)) && s.iqr == rnd(s.p75 - s.p25)
            && s.p5 == rnd(Quantile(values, 5.0)) && s.p25 == rnd(Quantile(values, 25.0)) && s.p50 == rnd(Quantile(values, 50.0))
            && s.p75 == rnd(Quantile(values, 75.0)) && s.p95 == rnd(Quantile(values, 95.0))
            && s.minimum == rnd(Quantile(values, 0.0)) && s.maximum == rnd(Quantile(values, 100.0)) && s.median == s.p50
  {
    hide Quantile, Median, Least, Greatest, Mean, Variance, IsMin, IsMax;
    QuantileLandmarks(values);
    EndsAreExtremes(values);
    assert distances == Deviations(values, Median(values));
    QuantileLandmarks(distances);
  }

  lemma EndsAreExtremes(values: Sample)
    ensures Least(values) == Quantile(values, 0.0) && Greatest(values) == Quantile(values, 100.0)
  {
    hide Quantile, Least, Greatest;
    QuantileLandmarks(values);
    ExtremesBound(values);
  }

  lemma SameProduct(a: real, b: real, n: real, total: real)
    requires 0.0 < n && a * n == total && b == total / n
    ensures a == b
  {
  }

  lemma SameFactors(a: real, b: real, n: real)
    requires 0.0 < n && n * (n * a) == n * (n * b)
    ensures a == b
  {
    CancelFactor(n * a, n * b, n);
    CancelFactor(n * b, n * a, n);
    CancelFactor(a, b, n);
    CancelFactor(b, a, n);
  }

  // ---- seasonal buckets ----

  datatype Seasonality = NoSeason | HourOfDay | DayOfWeek | WeekdayWeekend | FixedUtc

  datatype Bucket = All | Hour(hour: int) | Weekday(day: int) | Weekend | Workdays | Utc(from: int)

  const BUCKET_HOURS := 6

  function HourOf(t: Time): int {
    (t / HOUR) % 24
  }

  /** Monday is 0; the epoch was a Thursday. */
  function WeekdayOf(t: Time): int {
    (t / DAY + 3) % 7
  }

  function BucketOf(t: Time, season: Seasonality): Bucket {
    match season
    case NoSeason => All
    case HourOfDay => Hour(HourOf(t))
    case DayOfWeek => Weekday(WeekdayOf(t))
    case WeekdayWeekend => if WeekdayOf(t) >= 5 then Weekend else Workdays
    case FixedUtc => Utc((HourOf(t) / BUCKET_HOURS) * BUCKET_HOURS)
  }

  /** Buckets follow the UTC calendar: day `d` since the epoch, a Thursday, and hour `h` of that day. */
  lemma BucketsFollowTheCalendar(t: Time, d: int, h: int)
    requires 0 <= h < 24 && d * DAY + h * HOUR <= t < d * DAY + (h + 1) * HOUR
    ensures BucketOf(t, HourOfDay) == Hour(h)
    ensures BucketOf(t, DayOfWeek) == Weekday((d + 3) % 7)
    ensures BucketOf(t, WeekdayWeekend) == if (d + 3) % 7 in {5, 6} then Weekend else Workdays
    ensures BucketOf(t, FixedUtc) == Utc(if h < 6 then 0 else if h < 12 then 6 else if h < 18 then 12 else 18)
  {
    assert t / HOUR == 24 * d + h && t / DAY == d;
    assert HourOf(t) == h;
  }

  /** The numbers whose timestamps fall into bucket `b`, in order. */
  function Select(values: seq<Raw>, stamps: seq<Time>, season: Seasonality, b: Bucket): seq<real>
    requires |stamps| == |values|
  {
    if values == [] then []
    else
      var n := |values| - 1;
      Select(values[..n], stamps[..n], season, b)
      + if values[n].Number? && BucketOf(stamps[n], season) == b then [values[n].value] else []
  }

  function BucketsOf(values: seq<Raw>, stamps: seq<Time>, season: Seasonality): set<Bucket>
    requires |stamps| == |values|
  {
    set i | 0 <= i < |values| && values[i].Number? :: BucketOf(stamps[i], season)
  }

  lemma FrontBuckets(values: seq<Raw>, stamps: seq<Time>, season: Seasonality)
    requires |stamps| == |values| > 0
    ensures var n := |values| - 1;
            BucketsOf(values, stamps, season) ==
            BucketsOf(values[..n], stamps[..n], season) + if values[n].Number? then {BucketOf(stamps[n], season)} else {}
  {
    var n := |values| - 1;
    assert forall i :: 0 <= i < n ==> values[..n][i] == values[i] && stamps[..n][i] == stamps[i];
    forall b | b in BucketsOf(values, stamps, season)
      ensures b in BucketsOf(values[..n], stamps[..n], season) + if values[n].Number? then {BucketOf(stamps[n], season)} else {}
    {
      var i :| 0 <= i < |values| && values[i].Number? && BucketOf(stamps[i], season) == b;
      assert i < n ==> BucketOf(stamps[..n][i], season) in BucketsOf(values[..n], stamps[..n], season);
    }
    forall b | b in BucketsOf(values[..n], stamps[..n], season) ensures b in BucketsOf(values, stamps, season) {
      var i :| 0 <= i < n && values[..n][i].Number? && BucketOf(stamps[..n][i], season) == b;
      assert BucketOf(stamps[i], season) == b;
    }
  }

  lemma NothingSelected(season: Seasonality)
    ensures BucketsOf([], [], season) == {} && forall b :: Select([], [], season, b) == []
  {
  }

  lemma OneMoreSelected(values: seq<Raw>, stamps: seq<Time>, season: Seasonality, i: nat)
    requires i < |stamps| == |values|
    ensures BucketsOf(values[..i + 1], stamps[..i + 1], season) ==
            BucketsOf(values[..i], stamps[..i], season) + if values[i].Number? then {BucketOf(stamps[i], season)} else {}
    ensures forall b ::
              Select(values[..i + 1], stamps[..i + 1], season, b) ==
              Select(values[..i], stamps[..i], season, b) + if values[i].Number? && BucketOf(stamps[i], season) == b then [values[i].value] else []
  {
    hide BucketOf;
    FrontBuckets(values[..i + 1], stamps[..i + 1], season);
    assert values[..i + 1][..i] == values[..i] && stamps[..i + 1][..i] == stamps[..i];
  }

  /** The loop that files every number under its bucket. */
  method FillBuckets(values: seq<Raw>, stamps: seq<Time>, season: Seasonality) returns (buckets: map<Bucket, seq<real>>)
    requires |stamps| == |values|
    ensures buckets.Keys == BucketsOf(values, stamps, season)
    ensures forall b :: b in buckets ==> buckets[b] == Select(values, stamps, season, b)
  {
    hide BucketOf, Select, BucketsOf;
    buckets := map[];
    NothingSelected(season);
    for i := 0 to |values|
      invariant buckets.Keys == BucketsOf(values[..i], stamps[..i], season)
      invariant forall b :: b in buckets ==> buckets[b] == Select(values[..i], stamps[..i], season, b)
      invariant forall b :: b !in buckets ==> Select(values[..i], stamps[..i], season, b) == []
    {
      OneMoreSelected(values, stamps, season, i);
      if !values[i].Number? {
        continue;
      }
      var b := BucketOf(stamps[i], season);
      var filed := if b in buckets then buckets[b] else [];
      buckets := buckets[b := filed + [values[i].value]];
    }
    assert values[..|values|] == values && stamps[..|values|] == stamps;
  }

  ghost function Filed(buckets: set<Bucket>, values: seq<Raw>, stamps: seq<Time>, season: Seasonality): nat
    requires |stamps| == |values|
    decreases buckets
  {
    if buckets == {} then 0
    else
      var b :| b in buckets;
      |Select(values, stamps, season, b)| + Filed(buckets - {b}, values, stamps, season)
  }

  lemma {:induction false} OneMoreFiled(buckets: set<Bucket>, values: seq<Raw>, stamps: seq<Time>, season: Seasonality)
    requires |stamps| == |values| > 0
    ensures var n := |values| - 1;
            Filed(buckets, values, stamps, season) ==
            Filed(buckets, values[..n], stamps[..n], season) + if values[n].Number? && BucketOf(stamps[n], season) in buckets then 1 else 0
    decreases buckets
  {
    hide BucketOf;
    if buckets != {} {
      var b :| b in buckets && Filed(buckets, values, stamps, season) ==
                               |Select(values, stamps, season, b)| + Filed(buckets - {b}, values, stamps, season);
      OneMoreFiled(buckets - {b}, values, stamps, season);
      var n := |values| - 1;
      assert |Select(values, stamps, season, b)| == |Select(values[..n], stamps[..n], season, b)|
             + if values[n].Number? && BucketOf(stamps[n], season) == b then 1 else 0;
      FiledBy(buckets, b, values[..|values| - 1], stamps[..|values| - 1], season);
    }
  }

  /** The sum over the buckets does not depend on the order in which they are taken. */
  lemma {:induction false} FiledBy(buckets: set<Bucket>, b: Bucket, values: seq<Raw>, stamps: seq<Time>, season: Seasonality)
    requires b in buckets && |stamps| == |values|
    ensures Filed(buckets, values, stamps, season) == |Select(values, stamps, season, b)| + Filed(buckets - {b}, values, stamps, season)
    decreases buckets
  {
    var c :| c in buckets && Filed(buckets, values, stamps, season) ==
                             |Select(values, stamps, season, c)| + Filed(buckets - {c}, values, stamps, season);
    if c != b {
      FiledBy(buckets - {c}, b, values, stamps, season);
      FiledBy(buckets - {b}, c, values, stamps, season);
      assert buckets - {c} - {b} == buckets - {b} - {c};
    }
  }

  /** Every present value is filed under exactly one bucket. */
  lemma {:induction false} BucketsPartition(values: seq<Raw>, stamps: seq<Time>, season: Seasonality, buckets: set<Bucket>)
    requires |stamps| == |values| && BucketsOf(values, stamps, season) <= buckets
    ensures Filed(buckets, values, stamps, season) == |Present(values)|
    decreases |values|
  {
    hide BucketOf;
    if values == [] {
      NothingFiled(buckets, stamps, season);
    } else {
      var n := |values| - 1;
      FrontBuckets(values, stamps, season);
      BucketsPartition(values[..n], stamps[..n], season, buckets);
      OneMoreFiled(buckets, values, stamps, season);
    }
  }

  lemma {:induction false} NothingFiled(buckets: set<Bucket>, stamps: seq<Time>, season: Seasonality)
    requires stamps == []
    ensures Filed(buckets, [], stamps, season) == 0
    decreases buckets
  {
    if buckets != {} {
      var b :| b in buckets && Filed(buckets, [], stamps, season) == |Select([], stamps, season, b)| + Filed(buckets - {b}, [], stamps, season);
      NothingFiled(buckets - {b}, stamps, season);
      assert Select([], stamps, season, b) == [];
    }
  }

  // ---- a baseline's statistics ----

  const MIN_PEER_GROUP_SIZE := 5
  const MAX_BASELINE_WINDOWS := 1000

  datatype Status = Ready | InsufficientData

  /** A bucket with too few values falls back to the baseline without seasons. */
  datatype SeasonSummary = Fallback(count: nat) | SeasonReady(count: nat, of: Summary)

  datatype Statistics = Statistics(
    summary: Option<Summary>, original: Option<Summary>, observations: nat, missing: nat, status: Status, winsorizedCount: nat,
    seasons: map<Bucket, SeasonSummary>)

  function SummaryOf(rnd: real -> real, root: real -> real, values: seq<real>): Option<Summary> {
    if values == [] then None else Some(Summarize(rnd, root, values))
  }

  function SeasonMinimum(minimumSamples: int): int {
    var bounded := if minimumSamples < 10 then minimumSamples else 10;
    if bounded < 3 then 3 else bounded
  }

  function SeasonOf(rnd: real -> real, root: real -> real, values: seq<real>, minimumSamples: int): SeasonSummary {
    if |values| < SeasonMinimum(minimumSamples) then Fallback(|values|) else SeasonReady(|values|, Summarize(rnd, root, values))
  }

  predicate Stamped(values: seq<Raw>, season: Seasonality, stamps: Option<seq<Time>>) {
    season.NoSeason? || (stamps.Some? && |stamps.value| == |values|)
  }

  function SeasonsOf(rnd: real -> real, root: real -> real, values: seq<Raw>, minimumSamples: int, season: Seasonality, stamps: Option<seq<Time>>)
    : map<Bucket, SeasonSummary>
    requires Stamped(values, season, stamps)
  {
    if season.NoSeason? then map[]
    else
      map b | b in BucketsOf(values, stamps.value, season) ::
        SeasonOf(rnd, root, Select(values, stamps.value, season, b), minimumSamples)
  }

  function Used(rnd: real -> real, clean: seq<real>, winsorize: bool): (r: seq<real>)
    ensures |r| == |clean|
  {
    if winsorize && clean != [] then Winsorized(rnd, clean) else clean
  }

  function Differing(a: seq<real>, b: seq<real>): nat
    requires |a| == |b|
  {
    if a == [] then 0 else Differing(a[..|a| - 1], b[..|a| - 1]) + if a[|a| - 1] != b[|a| - 1] then 1 else 0
  }

  function Zip(a: seq<real>, b: seq<real>): seq<(real, real)>
    requires |a| == |b|
  {
    seq(|a|, i requires 0 <= i < |a| => (a[i], b[i]))
  }

  lemma {:induction false} DifferingIsNumber(a: seq<real>, b: seq<real>)
    requires |a| == |b|
    ensures Differing(a, b) == Counting.Number(Zip(a, b), (p: (real, real)) => p.0 != p.1)
  {
    hide Counting.Number, Counting.Where;
    NumberUnfolds(Zip(a, b), (p: (real, real)) => p.0 != p.1);
    if a != [] {
      var n := |a| - 1;
      DifferingIsNumber(a[..n], b[..n]);
      assert Zip(a, b)[..n] == Zip(a[..n], b[..n]);
    }
  }

  /** The status depends only on the size of the peer group and the number of usable windows. */
  function StatusOf(observations: nat, minimumSamples: int, peerGroup: Option<int>): Status {
    if (peerGroup.Some? && peerGroup.value < MIN_PEER_GROUP_SIZE) || observations < minimumSamples then InsufficientData else Ready
  }

  predicate Buildable(values: seq<Raw>, minimumSamples: int, season: Seasonality, stamps: Option<seq<Time>>) {
    1 <= minimumSamples <= MAX_BASELINE_WINDOWS && Cleanable(values, true, true) && Stamped(values, season, stamps)
  }

  function StatisticsOf(rnd: real -> real, root: real -> real, values: seq<Raw>, minimumSamples: int, winsorize: bool, peerGroup: Option<int>,
                        season: Seasonality, stamps: Option<seq<Time>>): Statistics
    requires Stamped(values, season, stamps)
  {
    var clean := Present(values);
    var used := Used(rnd, clean, winsorize);
    Statistics(SummaryOf(rnd, root, used), SummaryOf(rnd, root, clean), |clean|, |values| - |clean|,
               StatusOf(|clean|, minimumSamples, peerGroup), Differing(clean, used),
               SeasonsOf(rnd, root, values, minimumSamples, season, stamps))
  }

  /**
    What decides a baseline: enough windows and a large enough peer group make it
    ready, three values and the minimum or ten make a bucket ready, and the
    winsorised values are counted where they differ.
  */
  lemma StatisticsDecide(rnd: real -> real, root: real -> real, values: seq<Raw>, minimumSamples: int, winsorize: bool, peerGroup: Option<int>,
                         season: Seasonality, stamps: Option<seq<Time>>)
    requires Stamped(values, season, stamps)
    ensures var s := StatisticsOf(rnd, root, values, minimumSamples, winsorize, peerGroup, season, stamps);
            && s.observations == Counting.Number(values, (v: Raw) => v.Number?) && s.observations + s.missing == |values|
            && (s.status.Ready? <==> minimumSamples <= s.observations && (peerGroup.Some? ==> 5 <= peerGroup.value))
            && (season.NoSeason? ==> s.seasons == map[])
            && (forall b :: b in s.seasons ==>
                  && !season.NoSeason? && s.seasons[b].count == |Select(values, stamps.value, season, b)|
                  && (s.seasons[b].SeasonReady? <==> 3 <= s.seasons[b].count && (10 <= s.seasons[b].count || minimumSamples <= s.seasons[b].count)))
            && (!winsorize ==> s.summary == s.original && s.winsorizedCount == 0)
            && s.winsorizedCount == Counting.Number(Zip(Present(values), Used(rnd, Present(values), winsorize)), (p: (real, real)) => p.0 != p.1)
  {
    hide Present, Summarize, Winsorized, Differing, Select, BucketsOf, Counting.Number;
    PresentCounts(values);
    DifferingIsNumber(Present(values), Used(rnd, Present(values), winsorize));
    SameDoesNotDiffer(Present(values));
  }

  lemma {:induction false} SameDoesNotDiffer(a: seq<real>)
    ensures Differing(a, a) == 0
  {
    if a != [] { SameDoesNotDiffer(a[..|a| - 1]); }
  }

  method Winsorize(rnd: real -> real, clean: seq<real>, winsorize: bool) returns (used: seq<real>, changed: nat)
    ensures used == Used(rnd, clean, winsorize) && changed == Differing(clean, used)
  {
    hide Percentile, Clamp;
    used, changed := clean, 0;
    if winsorize && clean != [] {
      var low, high := Percentile(rnd, clean, 5.0), Percentile(rnd, clean, 95.0);
      used := seq(|clean|, i requires 0 <= i < |clean| => Clamp(low, high, clean[i]));
      assert used == Winsorized(rnd, clean);
    }
    for i := 0 to |clean|
      invariant changed == Differing(clean[..i], used[..i])
    {
      assert clean[..i + 1][..i] == clean[..i] && used[..i + 1][..i] == used[..i];
      if clean[i] != used[i] {
        changed := changed + 1;
      }
    }
    assert clean[..|clean|] == clean && used[..|clean|] == used;
  }

  method BuildStatistics(rnd: real -> real, root: real -> real, values: seq<Raw>, minimumSamples: int, winsorize: bool, peerGroup: Option<int>,
                         season: Seasonality, stamps: Option<seq<Time>>)
    returns (r: Result<Statistics>)
    ensures r.Ok? <==> Buildable(values, minimumSamples, season, stamps)
    ensures r.Ok? ==> r.value == StatisticsOf(rnd, root, values, minimumSamples, winsorize, peerGroup, season, stamps)
  {
    hide Present, Summarize, Used, Differing, Acceptable, Select, BucketsOf;
    if !(1 <= minimumSamples <= MAX_BASELINE_WINDOWS) {
      return Invalid;
    }
    var cleaned := CleanValues(values, true, true);
    if cleaned.Invalid? {
      return Invalid;
    }
    var (clean, missing) := cleaned.value;
    var used, changed := Winsorize(rnd, clean, winsorize);
    var status := Ready;
    if peerGroup.Some? && peerGroup.value < MIN_PEER_GROUP_SIZE {
      status := InsufficientData;
    } else if |used| < minimumSamples {
      status := InsufficientData;
    }
    var seasons: map<Bucket, SeasonSummary> := map[];
    if !season.NoSeason? {
      if stamps.None? || |stamps.value| != |values| {
        return Invalid;
      }
      var buckets := FillBuckets(values, stamps.value, season);
      seasons := map b | b in buckets :: SeasonOf(rnd, root, buckets[b], minimumSamples);
    }
    assert seasons == SeasonsOf(rnd, root, values, minimumSamples, season, stamps);
    return Ok(Statistics(SummaryOf(rnd, root, used), SummaryOf(rnd, root, clean), |used|, missing, status, changed, seasons));
  }
}
