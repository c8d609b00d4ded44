/**
  Order statistics of a sample (features.py): sorting, the interpolated
  percentile and the median, over exact reals.  Rounding is any monotone function.
*/
module Samples {
  import opened Options
  import opened Counting

  type Sample = s: seq<real> | s != [] witness [0.0]

  ghost predicate Sorted(s: seq<real>) {
    forall i, j :: 0 <= i < j < |s| ==> s[i] <= s[j]
  }

  function Insert(x: real, s: seq<real>): (r: seq<real>)
    ensures |r| == |s| + 1
  {
    if s == [] || x <= s[0] then [x] + s else [s[0]] + Insert(x, s[1..])
  }

  function Sort(s: seq<real>): (r: seq<real>)
    ensures |r| == |s|
  {
    if s == [] then [] else Insert(s[0], Sort(s[1..]))
  }

  lemma {:induction false} InsertKeepsValues(x: real, s: seq<real>)
    ensures multiset(Insert(x, s)) == multiset(s) + multiset{x}
  {
    if s != [] && s[0] < x {
      InsertKeepsValues(x, s[1..]);
      assert s == [s[0]] + s[1..];
    }
  }

  lemma {:induction false} InsertAtLeast(low: real, x: real, s: seq<real>)
    requires low <= x && forall i :: 0 <= i < |s| ==> low <= s[i]
    ensures forall i :: 0 <= i < |Insert(x, s)| ==> low <= Insert(x, s)[i]
  {
    if s != [] && s[0] < x { InsertAtLeast(low, x, s[1..]); }
  }

  lemma {:induction false} InsertSorts(x: real, s: seq<real>)
    requires Sorted(s)
    ensures Sorted(Insert(x, s))
  {
    if s != [] && s[0] < x {
      InsertSorts(x, s[1..]);
      InsertAtLeast(s[0], x, s[1..]);
    }
  }

  lemma {:induction false} SortSorts(s: seq<real>)
    ensures Sorted(Sort(s)) && multiset(Sort(s)) == multiset(s)
  {
    if s != [] {
      SortSorts(s[1..]);
      InsertSorts(s[0], Sort(s[1..]));
      InsertKeepsValues(s[0], Sort(s[1..]));
      assert s == [s[0]] + s[1..];
    }
  }

  lemma FirstIsLeast(s: seq<real>, x: real)
    requires Sorted(s) && s != [] && x in multiset(s)
    ensures s[0] <= x
  {
    var i :| 0 <= i < |s| && s[i] == x;
  }

  lemma SortedRest(s: seq<real>)
    requires Sorted(s) && s != []
    ensures Sorted(s[1..])
  {
  }

  lemma RestOfMultiset(s: seq<real>)
    requires s != []
    ensures multiset(s[1..]) == multiset(s) - multiset{s[0]}
  {
    assert s == [s[0]] + s[1..];
  }

  /** A multiset of values has one sorted arrangement. */
  lemma {:induction false} SortedIsUnique(a: seq<real>, b: seq<real>)
    requires Sorted(a) && Sorted(b) && multiset(a) == multiset(b)
    ensures a == b
  {
    hide Sorted;
    assert |multiset(a)| == |a| && |multiset(b)| == |b|;
    if a != [] {
      assert a[0] in multiset(a) && b[0] in multiset(b);
      FirstIsLeast(a, b[0]);
      FirstIsLeast(b, a[0]);
      SortedRest(a);
      SortedRest(b);
      RestOfMultiset(a);
      RestOfMultiset(b);
      SortedIsUnique(a[1..], b[1..]);
      SameParts(a, b);
    }
  }

  lemma SameParts(a: seq<real>, b: seq<real>)
    requires a != [] && b != [] && a[0] == b[0] && a[1..] == b[1..]
    ensures a == b
  {
    assert a == [a[0]] + a[1..] && b == [b[0]] + b[1..];
  }

  ghost predicate Below(a: seq<real>, b: seq<real>) {
    |a| == |b| && forall i :: 0 <= i < |a| ==> a[i] <= b[i]
  }

  lemma RestBelow(a: seq<real>, b: seq<real>)
    requires Below(a, b) && a != []
    ensures b != [] && a[0] <= b[0] && Below(a[1..], b[1..])
  {
  }

  lemma ConsBelow(x: real, a: seq<real>, y: real, b: seq<real>)
    requires x <= y && Below(a, b)
    ensures Below([x] + a, [y] + b)
  {
  }

  lemma {:induction false} InsertBelow(x: real, a: seq<real>, y: real, b: seq<real>)
    requires x <= y && Below(a, b) && Sorted(a) && Sorted(b)
    ensures Below(Insert(x, a), Insert(y, b))
    decreases |a|
  {
    hide Below, Sorted;
    if a == [] {
      assert b == [] by { EmptyBelow(a, b); }
      ConsBelow(x, a, y, b);
    } else {
      RestBelow(a, b);
      SortedRest(a);
      SortedRest(b);
      InsertFront(a);
      InsertFront(b);
      if x <= a[0] && y <= b[0] {
        ConsBelow(x, a, y, b);
      } else if x <= a[0] {
        InsertBelow(a[0], a[1..], y, b[1..]);
        ConsBelow(x, a, b[0], Insert(y, b[1..]));
      } else if y <= b[0] {
        InsertBelow(x, a[1..], b[0], b[1..]);
        ConsBelow(a[0], Insert(x, a[1..]), y, b);
      } else {
        InsertBelow(x, a[1..], y, b[1..]);
        ConsBelow(a[0], Insert(x, a[1..]), b[0], Insert(y, b[1..]));
      }
    }
  }

  lemma EmptyBelow(a: seq<real>, b: seq<real>)
    requires Below(a, b) && a == []
    ensures b == []
  {
  }

  lemma InsertFront(s: seq<real>)
    requires s != [] && Sorted(s)
    ensures Insert(s[0], s[1..]) == s
  {
    assert [s[0]] + s[1..] == s;
  }

  /** Raising samples raises every order statistic. */
  lemma {:induction false} SortBelow(a: seq<real>, b: seq<real>)
    requires Below(a, b)
    ensures Below(Sort(a), Sort(b))
  {
    if a != [] {
      SortBelow(a[1..], b[1..]);
      SortSorts(a[1..]);
      SortSorts(b[1..]);
      InsertBelow(a[0], Sort(a[1..]), b[0], Sort(b[1..]));
    }
  }

  // ---- interpolation between order statistics ----

  predicate OnScale(s: Sample, p: real) {
    0.0 <= p <= (|s| - 1) as real
  }

  /** The value at a fractional position: the two neighbours, weighted. */
  function At(s: Sample, p: real): real
    requires OnScale(s, p)
  {
    var lower := p.Floor;
    if lower as real == p then s[lower] else s[lower] + (s[lower + 1] - s[lower]) * (p - lower as real)
  }

  lemma Product(x: real, y: real)
    requires 0.0 <= x && 0.0 <= y
    ensures 0.0 <= x * y
  {
  }

  lemma Mix(x: real, y: real, t: real)
    requires x <= y && 0.0 <= t <= 1.0
    ensures x <= x + (y - x) * t <= y
  {
    Product(y - x, t);
    Product(y - x, 1.0 - t);
    assert (y - x) * t + (y - x) * (1.0 - t) == y - x;
  }

  lemma AtBetween(s: Sample, p: real)
    requires Sorted(s) && OnScale(s, p)
    ensures s[p.Floor] <= At(s, p)
    ensures p.Floor + 1 < |s| ==> At(s, p) <= s[p.Floor + 1]
  {
    var lower := p.Floor;
    if lower as real != p { Mix(s[lower], s[lower + 1], p - lower as real); }
  }

  lemma AtMonotone(s: Sample, p: real, q: real)
    requires Sorted(s) && OnScale(s, p) && OnScale(s, q) && p <= q
    ensures At(s, p) <= At(s, q)
  {
    var i, j := p.Floor, q.Floor;
    AtBetween(s, p);
    AtBetween(s, q);
    if i < j {
      assert s[i + 1] <= s[j];
    } else if q != j as real {
      Product(s[i + 1] - s[i], q - p);
      assert (s[i + 1] - s[i]) * (q - i as real) == (s[i + 1] - s[i]) * (q - p) + (s[i + 1] - s[i]) * (p - i as real);
    }
  }

  lemma AtBelow(a: Sample, b: Sample, p: real)
    requires Below(a, b) && OnScale(a, p)
    ensures At(a, p) <= At(b, p)
  {
    var i := p.Floor;
    if i as real != p {
      var t := p - i as real;
      Weighted(a[i], a[i + 1], t);
      Weighted(b[i], b[i + 1], t);
      Product(b[i] - a[i], 1.0 - t);
      Product(b[i + 1] - a[i + 1], t);
      assert b[i] * (1.0 - t) - a[i] * (1.0 - t) == (b[i] - a[i]) * (1.0 - t);
      assert b[i + 1] * t - a[i + 1] * t == (b[i + 1] - a[i + 1]) * t;
    }
  }

  lemma Weighted(x: real, y: real, t: real)
    ensures x + (y - x) * t == x * (1.0 - t) + y * t
  {
  }

  // ---- percentiles ----

  const MAX_VALUES := 10_000

  predicate Percent(q: real) {
    0.0 <= q <= 100.0
  }

  function Position(n: nat, q: real): real {
    (n - 1) as real * q / 100.0
  }

  lemma PositionOnScale(n: nat, q: real)
    requires 0 < n && Percent(q)
    ensures 0.0 <= Position(n, q) <= (n - 1) as real
  {
    var m := (n - 1) as real;
    Product(m, q);
    Product(m, 100.0 - q);
    assert m * q + m * (100.0 - q) == m * 100.0;
  }

  /** The percentile before rounding. */
  function Quantile(values: Sample, q: real): real
    requires Percent(q)
  {
    PositionOnScale(|values|, q);
    At(Sort(values), Position(|values|, q))
  }

  lemma QuantileIgnoresOrder(a: Sample, b: Sample, q: real)
    requires Percent(q) && multiset(a) == multiset(b)
    ensures Quantile(a, q) == Quantile(b, q)
  {
    SortSorts(a);
    SortSorts(b);
    SortedIsUnique(Sort(a), Sort(b));
  }

  lemma QuantileMonotone(values: Sample, q: real, r: real)
    requires Percent(q) && Percent(r) && q <= r
    ensures Quantile(values, q) <= Quantile(values, r)
  {
    SortSorts(values);
    PositionOnScale(|values|, q);
    PositionOnScale(|values|, r);
    Product((|values| - 1) as real, r - q);
    assert (|values| - 1) as real * q + (|values| - 1) as real * (r - q) == (|values| - 1) as real * r;
    AtMonotone(Sort(values), Position(|values|, q), Position(|values|, r));
  }

  lemma QuantileRises(a: Sample, b: Sample, q: real)
    requires Percent(q) && Below(a, b)
    ensures Quantile(a, q) <= Quantile(b, q)
  {
    SortBelow(a, b);
    PositionOnScale(|a|, q);
    AtBelow(Sort(a), Sort(b), Position(|a|, q));
  }

  ghost predicate IsMin(m: real, values: seq<real>) {
    m in values && forall i :: 0 <= i < |values| ==> m <= values[i]
  }

  ghost predicate IsMax(m: real, values: seq<real>) {
    m in values && forall i :: 0 <= i < |values| ==> values[i] <= m
  }

  /** The middle value of the sorted sample, or the mean of the middle two. */
  function Median(values: Sample): real {
    var s, n := Sort(values), |values|;
    if n % 2 == 1 then s[n / 2] else (s[n / 2 - 1] + s[n / 2]) / 2.0
  }

  lemma LastIsGreatest(s: seq<real>, x: real)
    requires Sorted(s) && s != [] && x in multiset(s)
    ensures x <= s[|s| - 1]
  {
    var i :| 0 <= i < |s| && s[i] == x;
  }

  lemma ExtremesAreEnds(values: Sample)
    ensures IsMin(Sort(values)[0], values) && IsMax(Sort(values)[|values| - 1], values)
  {
    hide Sorted, Sort;
    var s, n := Sort(values), |values|;
    SortSorts(values);
    assert s[0] in multiset(s) && s[n - 1] in multiset(s);
    forall i | 0 <= i < n ensures s[0] <= values[i] <= s[n - 1] {
      assert values[i] in multiset(values);
      FirstIsLeast(s, values[i]);
      LastIsGreatest(s, values[i]);
    }
  }

  lemma MiddlePosition(n: nat)
    requires 0 < n
    ensures n % 2 == 1 ==> Position(n, 50.0) == (n / 2) as real
    ensures n % 2 == 0 ==> Position(n, 50.0) == (n / 2 - 1) as real + 0.5
  {
    if n % 2 == 1 { assert n == 2 * (n / 2) + 1; } else { assert n == 2 * (n / 2); }
  }

  lemma AtHalf(s: Sample, i: nat)
    requires i + 1 < |s|
    ensures At(s, i as real + 0.5) == (s[i] + s[i + 1]) / 2.0
  {
    assert (i as real + 0.5).Floor == i;
  }

  /** The percentiles 0, 50 and 100 are the minimum, the median and the maximum. */
  lemma QuantileLandmarks(values: Sample)
    ensures IsMin(Quantile(values, 0.0), values) && Quantile(values, 50.0) == Median(values) && IsMax(Quantile(values, 100.0), values)
  {
    hide Sort, IsMin, IsMax;
    var n := |values|;
    ExtremesAreEnds(values);
    MiddlePosition(n);
    assert Position(n, 0.0) == 0.0 && Position(n, 100.0) == (n - 1) as real;
    if n % 2 == 0 { AtHalf(Sort(values), n / 2 - 1); }
  }

  // ---- which order statistic a percentage means, and what lies between ----

  /** `x` is the value with rank `k`, counted from zero: enough values lie at or below it, and enough at or above. */
  ghost predicate HasRank(x: real, values: seq<real>, k: nat) {
    x in values && k + 1 <= Number(values, v => v <= x) && |values| - k <= Number(values, v => x <= v)
  }

  lemma SortedHasRank(values: Sample, k: nat)
    requires k < |values|
    ensures HasRank(Sort(values)[k], values, k)
  {
    hide Sort, Number;
    var s := Sort(values);
    var x := s[k];
    SortSorts(values);
    NumberAtLeast(s, v => v <= x, 0, k + 1);
    NumberAtLeast(s, v => x <= v, k, |s|);
    NumberPermutes(values, s, v => v <= x);
    NumberPermutes(values, s, v => x <= v);
    assert x in multiset(s);
    assert x in multiset(values);
  }

  /** A rank belongs to one value only. */
  lemma RankIsUnique(x: real, y: real, values: seq<real>, k: nat)
    requires HasRank(x, values, k) && HasRank(y, values, k)
    ensures x == y
  {
    hide Number;
    if x < y {
      NumberDisjoint(values, v => v <= x, v => y <= v);
    } else if y < x {
      NumberDisjoint(values, v => v <= y, v => x <= v);
    }
  }

  /** The percentage that means rank `k` among `n` values. */
  function RankPercent(n: nat, k: nat): real
    requires 2 <= n
  {
    100.0 * k as real / (n - 1) as real
  }

  lemma RankPosition(n: nat, k: nat)
    requires 2 <= n && k < n
    ensures Percent(RankPercent(n, k)) && Position(n, RankPercent(n, k)) == k as real
  {
    var m, q := (n - 1) as real, RankPercent(n, k);
    assert m * q == 100.0 * k as real;
    ScaleDown(q, 0.0, m);
    ScaleDown(100.0, q, m);
  }

  lemma ScaleDown(x: real, y: real, m: real)
    requires 0.0 < m && m * y <= m * x
    ensures y <= x
  {
    assert m * x - m * y == m * (x - y);
  }

  /** At the percentage of a rank, the percentile is the value of that rank. */
  lemma QuantileAtRank(values: Sample, k: nat)
    requires 2 <= |values| && k < |values|
    ensures Percent(RankPercent(|values|, k)) && HasRank(Quantile(values, RankPercent(|values|, k)), values, k)
  {
    hide Sort, HasRank;
    RankPosition(|values|, k);
    SortedHasRank(values, k);
  }

  /** The point a fraction `t` of the way from `x` to `y`. */
  function Along(x: real, y: real, t: real): real {
    x + (y - x) * t
  }

  lemma BetweenPositions(n: nat, k: nat, t: real)
    requires 2 <= n && k + 1 < n && 0.0 <= t <= 1.0
    ensures var q := Along(RankPercent(n, k), RankPercent(n, k + 1), t);
            Percent(q) && Position(n, q) == k as real + t
  {
    var m, a, b := (n - 1) as real, RankPercent(n, k), RankPercent(n, k + 1);
    RankPosition(n, k);
    RankPosition(n, k + 1);
    assert m * a == 100.0 * k as real && m * b == 100.0 * (k + 1) as real;
    assert m * (b - a) == 100.0;
    var q := Along(a, b, t);
    assert m * ((b - a) * t) == (m * (b - a)) * t;
    assert m * q == 100.0 * (k as real + t);
    ScaleDown(b, a, m);
    Mix(a, b, t);
  }

  /** Between the percentages of neighbouring ranks the percentile is a straight line. */
  lemma QuantileIsAffine(values: Sample, k: nat, t: real)
    requires k + 1 < |values| && 0.0 <= t <= 1.0
    ensures var (q, r) := (RankPercent(|values|, k), RankPercent(|values|, k + 1));
            && Percent(q) && Percent(r) && Percent(Along(q, r, t))
            && Quantile(values, Along(q, r, t)) == Along(Quantile(values, q), Quantile(values, r), t)
  {
    hide Sort, Position, RankPercent, Along, At;
    RankPosition(|values|, k);
    RankPosition(|values|, k + 1);
    BetweenPositions(|values|, k, t);
    AtMix(Sort(values), k, t);
  }

  lemma AtMix(s: Sample, k: nat, t: real)
    requires k + 1 < |s| && 0.0 <= t <= 1.0
    ensures At(s, k as real) == s[k] && At(s, (k + 1) as real) == s[k + 1]
    ensures At(s, k as real + t) == Along(s[k], s[k + 1], t)
  {
    if t < 1.0 { assert (k as real + t).Floor == k; } else { assert k as real + t == (k + 1) as real; }
  }

  /** A single value is every percentile of itself. */
  lemma QuantileOfOne(x: real, q: real)
    requires Percent(q)
    ensures Quantile([x], q) == x
  {
    assert Position(1, q) == 0.0;
    assert Sort([x]) == [x] by { assert [x][1..] == []; }
  }

  /** Every percentage lies between those of two neighbouring ranks. */
  lemma PercentLiesBetweenRanks(n: nat, q: real) returns (k: nat, t: real)
    requires 2 <= n && Percent(q)
    ensures k + 1 < n && 0.0 <= t <= 1.0 && q == Along(RankPercent(n, k), RankPercent(n, k + 1), t)
  {
    var p := Position(n, q);
    PositionOnScale(n, q);
    k := if p.Floor == n - 1 then n - 2 else p.Floor;
    t := p - k as real;
    var m, a, b := (n - 1) as real, RankPercent(n, k), RankPercent(n, k + 1);
    assert m * a == 100.0 * k as real && m * b == 100.0 * (k + 1) as real;
    assert m * (b - a) == 100.0;
    assert m * ((b - a) * t) == (m * (b - a)) * t;
    assert m * q == 100.0 * p;
    assert m * Along(a, b, t) == m * q;
    ScaleDown(q, Along(a, b, t), m);
    ScaleDown(Along(a, b, t), q, m);
  }
}
