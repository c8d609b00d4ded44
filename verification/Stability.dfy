/**
  The population stability index (drift.py), before rounding.  Of the logarithm
  only what the argument needs is assumed.
*/
module Stability {
  import opened Options
  import opened Baselines

  /** Strictly increasing, zero at one, and odd under reciprocal. */
  ghost predicate Logarithm(ln: real -> real) {
    && ln(1.0) == 0.0
    && (forall x, y :: 0.0 < x < y ==> ln(x) < ln(y))
    && (forall x, y :: 0.0 < x && 0.0 < y ==> OddUnderReciprocal(ln, x, y))
  }

  predicate OddUnderReciprocal(ln: real -> real, x: real, y: real)
    requires x != 0.0 && y != 0.0
  {
    ln(x / y) == -ln(y / x)
  }

  const FLOOR := 0.000001

  predicate Histogram(bins: seq<real>) {
    (forall i :: 0 <= i < |bins| ==> 0.0 <= bins[i]) && 0.0 < Sum(bins)
  }

  predicate Comparable(before: seq<real>, after: seq<real>) {
    0 < |before| == |after| <= 50 && Histogram(before) && Histogram(after)
  }

  function Quotient(a: real, b: real): real
    requires b != 0.0
  {
    a / b
  }

  function Share(bins: seq<real>, i: nat): (r: real)
    requires i < |bins| && 0.0 < Sum(bins)
    ensures FLOOR <= r
  {
    var share := Quotient(bins[i], Sum(bins));
    if share < FLOOR then FLOOR else share
  }

  function Term(ln: real -> real, expected: real, actual: real): real
    requires expected != 0.0
  {
    (actual - expected) * ln(actual / expected)
  }

  /** The sum of the first `n` terms. */
  function Index(ln: real -> real, before: seq<real>, after: seq<real>, n: nat): real
    requires n <= |before| == |after| && 0.0 < Sum(before) && 0.0 < Sum(after)
  {
    if n == 0 then 0.0 else Index(ln, before, after, n - 1) + Term(ln, Share(before, n - 1), Share(after, n - 1))
  }

  method StabilityIndex(ln: real -> real, before: seq<real>, after: seq<real>) returns (r: Result<real>)
    ensures r.Ok? <==> Comparable(before, after)
    ensures r.Ok? ==> r.value == Index(ln, before, after, |before|)
  {
    hide Sum;
    if before == [] || |before| != |after| || |before| > 50 {
      return Invalid;
    }
    if (exists i :: 0 <= i < |before| && before[i] < 0.0) || (exists i :: 0 <= i < |after| && after[i] < 0.0) {
      return Invalid;
    }
    if Sum(before) <= 0.0 || Sum(after) <= 0.0 {
      return Invalid;
    }
    var score := 0.0;
    for i := 0 to |before|
      invariant score == Index(ln, before, after, i)
    {
      var expected, actual := Share(before, i), Share(after, i);
      score := score + (actual - expected) * ln(actual / expected);
    }
    return Ok(score);
  }

  // ---- one term ----

  lemma RatioAboveOne(x: real, y: real)
    requires 0.0 < x < y
    ensures 1.0 < y / x
  {
    assert x * (y / x) == y;
    CancelFactor(1.0, y / x, x);
  }

  lemma TermFacts(ln: real -> real, x: real, y: real)
    requires Logarithm(ln) && 0.0 < x && 0.0 < y
    ensures 0.0 <= Term(ln, x, y) == Term(ln, y, x)
    ensures Term(ln, x, y) == 0.0 <==> x == y
  {
    var l, m := ln(y / x), ln(x / y);
    assert OddUnderReciprocal(ln, x, y);
    if x < y {
      RatioAboveOne(x, y);
      assert ln(1.0) < l;
    } else if y < x {
      RatioAboveOne(y, x);
      assert ln(1.0) < m;
    }
    SignedProduct(x, y, l, m);
  }

  lemma SignedProduct(x: real, y: real, l: real, m: real)
    requires m == -l && (x < y ==> 0.0 < l) && (y < x ==> 0.0 < m)
    ensures 0.0 <= (y - x) * l == (x - y) * m
    ensures (y - x) * l == 0.0 <==> x == y
  {
    if x < y { Positive(y - x, l); } else if y < x { Positive(x - y, m); }
  }

  lemma Positive(a: real, b: real)
    requires 0.0 < a && 0.0 < b
    ensures 0.0 < a * b
  {
  }

  // ---- the index ----

  /** The floored shares of the first `n` bins agree. */
  ghost predicate SharesAgree(before: seq<real>, after: seq<real>, n: nat)
    requires n <= |before| == |after| && 0.0 < Sum(before) && 0.0 < Sum(after)
  {
    forall i :: 0 <= i < n ==> Share(before, i) == Share(after, i)
  }

  /** Non-negative, symmetric, and zero exactly when the floored shares agree. */
  lemma {:induction false} IndexMeasuresShift(ln: real -> real, before: seq<real>, after: seq<real>, n: nat)
    requires Logarithm(ln) && n <= |before| == |after| && 0.0 < Sum(before) && 0.0 < Sum(after)
    ensures 0.0 <= Index(ln, before, after, n) == Index(ln, after, before, n)
    ensures Index(ln, before, after, n) == 0.0 <==> SharesAgree(before, after, n)
  {
    hide Share, Term, Logarithm, Sum;
    if n > 0 {
      IndexMeasuresShift(ln, before, after, n - 1);
      TermFacts(ln, Share(before, n - 1), Share(after, n - 1));
      assert SharesAgree(before, after, n) <==> SharesAgree(before, after, n - 1) && Share(before, n - 1) == Share(after, n - 1);
    }
  }

  // ---- the index as a divergence ----

  /** `p` is bin `i`'s share of the whole, and no less than one in a million. */
  predicate IsShare(p: real, bins: seq<real>, i: nat)
    requires i < |bins|
  {
    if bins[i] < 0.000001 * Sum(bins) then p == 0.000001 else p * Sum(bins) == bins[i]
  }

  lemma ShareIsShare(bins: seq<real>, i: nat)
    requires i < |bins| && 0.0 < Sum(bins)
    ensures IsShare(Share(bins, i), bins, i)
  {
    hide Sum;
    var q := bins[i] / Sum(bins);
    assert q * Sum(bins) == bins[i];
    var t := Sum(bins);
    assert (q - 0.000001) * t == bins[i] - 0.000001 * t;
    SameSign(q - 0.000001, t);
  }

  lemma SameSign(x: real, t: real)
    requires 0.0 < t
    ensures x * t < 0.0 <==> x < 0.0
  {
    if x < 0.0 { Positive(-x, t); } else if 0.0 < x { Positive(x, t); }
  }

  lemma ShareIsUnique(p: real, q: real, bins: seq<real>, i: nat)
    requires i < |bins| && 0.0 < Sum(bins) && IsShare(p, bins, i) && IsShare(q, bins, i)
    ensures p == q
  {
    hide Sum;
    var t := Sum(bins);
    if !(bins[i] < 0.000001 * t) {
      assert (p - q) * t == 0.0;
      SameSign(p - q, t);
      SameSign(q - p, t);
    }
  }

  function Surprise(ln: real -> real, x: real, y: real): real
    requires y != 0.0
  {
    x * ln(x / y)
  }

  /** The relative entropy of the first `n` shares: how surprising `p` is to somebody who expects `q`. */
  function Divergence(ln: real -> real, p: seq<real>, q: seq<real>, n: nat): real
    requires n <= |p| == |q| && forall i :: 0 <= i < |q| ==> 0.0 < q[i]
  {
    if n == 0 then 0.0 else Divergence(ln, p, q, n - 1) + Surprise(ln, p[n - 1], q[n - 1])
  }

  /** The index is the divergence of each distribution from the other, added up. */
  lemma {:induction false} IndexIsDivergence(ln: real -> real, before: seq<real>, after: seq<real>, p: seq<real>, q: seq<real>, n: nat)
    requires Logarithm(ln) && n <= |before| == |after| == |p| == |q| && 0.0 < Sum(before) && 0.0 < Sum(after)
    requires forall i :: 0 <= i < |p| ==> 0.0 < p[i] && 0.0 < q[i] && IsShare(p[i], before, i) && IsShare(q[i], after, i)
    ensures Index(ln, before, after, n) == Divergence(ln, p, q, n) + Divergence(ln, q, p, n)
  {
    hide Sum, Share, IsShare, Term, Surprise, Logarithm;
    if n > 0 {
      IndexIsDivergence(ln, before, after, p, q, n - 1);
      ShareIsShare(before, n - 1);
      ShareIsShare(after, n - 1);
      ShareIsUnique(p[n - 1], Share(before, n - 1), before, n - 1);
      ShareIsUnique(q[n - 1], Share(after, n - 1), after, n - 1);
      TermSplits(ln, p[n - 1], q[n - 1]);
    }
  }

  lemma TermSplits(ln: real -> real, x: real, y: real)
    requires Logarithm(ln) && 0.0 < x && 0.0 < y
    ensures Term(ln, x, y) == Surprise(ln, x, y) + Surprise(ln, y, x)
  {
    assert OddUnderReciprocal(ln, x, y);
    var l := ln(y / x);
    assert ln(x / y) == -l;
    assert (y - x) * l == y * l + x * (-l);
  }

  function Scaled(bins: seq<real>, factor: real): (r: seq<real>)
    ensures |r| == |bins|
  {
    seq(|bins|, i requires 0 <= i < |bins| => bins[i] * factor)
  }

  lemma {:induction false} ScaledSum(bins: seq<real>, factor: real)
    ensures Sum(Scaled(bins, factor)) == Sum(bins) * factor
  {
    if bins != [] {
      forall i | 0 <= i < |bins| - 1 ensures Scaled(bins, factor)[1..][i] == Scaled(bins[1..], factor)[i] {
        assert bins[1..][i] == bins[i + 1];
      }
      assert Scaled(bins, factor)[1..] == Scaled(bins[1..], factor);
      ScaledSum(bins[1..], factor);
      assert Sum(Scaled(bins, factor)) == bins[0] * factor + Sum(Scaled(bins[1..], factor));
      assert (bins[0] + Sum(bins[1..])) * factor == bins[0] * factor + Sum(bins[1..]) * factor;
    }
  }

  lemma RatioScales(a: real, b: real, factor: real, x: real, y: real)
    requires 0.0 < b && 0.0 < factor && x == a * factor && y == b * factor
    ensures 0.0 < y && Quotient(x, y) == Quotient(a, b)
  {
    Positive(b, factor);
    var q := a / b;
    assert q * b == a;
    assert q * (b * factor) == a * factor;
    Unique(x, y, q);
  }

  lemma Unique(x: real, y: real, q: real)
    requires y != 0.0 && q * y == x
    ensures x / y == q
  {
  }

  lemma ScaledShare(bins: seq<real>, factor: real, i: nat)
    requires i < |bins| && 0.0 < Sum(bins) && 0.0 < factor
    ensures 0.0 < Sum(Scaled(bins, factor)) && Share(Scaled(bins, factor), i) == Share(bins, i)
  {
    hide Sum, Quotient;
    ScaledSum(bins, factor);
    assert Scaled(bins, factor)[i] == bins[i] * factor;
    RatioScales(bins[i], Sum(bins), factor, Scaled(bins, factor)[i], Sum(Scaled(bins, factor)));
  }

  /** Scaling either histogram changes nothing. */
  lemma {:induction false} IndexIgnoresScale(ln: real -> real, before: seq<real>, after: seq<real>, f: real, g: real, n: nat)
    requires n <= |before| == |after| && 0.0 < Sum(before) && 0.0 < Sum(after) && 0.0 < f && 0.0 < g
    ensures 0.0 < Sum(Scaled(before, f)) && 0.0 < Sum(Scaled(after, g))
    ensures Index(ln, Scaled(before, f), Scaled(after, g), n) == Index(ln, before, after, n)
  {
    hide Share, Term, Sum, Scaled;
    ScaledSum(before, f);
    ScaledSum(after, g);
    Positive(Sum(before), f);
    Positive(Sum(after), g);
    if n > 0 {
      IndexIgnoresScale(ln, before, after, f, g, n - 1);
      ScaledShare(before, f, n - 1);
      ScaledShare(after, g, n - 1);
    }
  }
}
