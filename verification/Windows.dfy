/**
  Historical windows (window_series and _count in features.py) and the baseline
  built over them (build_baseline, with the validation in schemas.py).
*/
module Windows {
  import opened Options
  import opened Clock
  import opened Baselines
  import opened Counting

  const MAX_RANGE_SECONDS := 31_622_400
  const MAX_WINDOWS := 1000
  const COUNT_CAP := 10_001

  predicate ApprovedWindow(seconds: int) {
    seconds in {900, 3600, 21600, 86400, 604800, 2592000}
  }

  /** The events of [from, to). */
  function Counted(events: seq<Time>, from: Time, to: Time): nat {
    if events == [] then 0
    else Counted(events[..|events| - 1], from, to) + if from <= events[|events| - 1] < to then 1 else 0
  }

  /** The query stops counting one past the sample limit. */
  function Capped(events: seq<Time>, from: Time, to: Time): nat {
    if Counted(events, from, to) < COUNT_CAP then Counted(events, from, to) else COUNT_CAP
  }

  datatype Window = Window(from: Time, to: Time, count: nat)

  /** Where window `k` starts, and window `k - 1` ends. */
  function Edge(start: Time, width: Time, k: nat): Time {
    start + k * width
  }

  function Tile(events: seq<Time>, start: Time, width: Time, k: nat): Window {
    Window(Edge(start, width, k), Edge(start, width, k + 1), Capped(events, Edge(start, width, k), Edge(start, width, k + 1)))
  }

  /** The first `n` windows of the given width, side by side. */
  function Tiles(events: seq<Time>, start: Time, width: Time, n: nat): (r: seq<Window>)
    ensures |r| == n
  {
    seq(n, k requires 0 <= k < n => Tile(events, start, width, k))
  }

  predicate SeriesAllowed(start: Time, end: Time, seconds: int) {
    && ApprovedWindow(seconds)
    && 0 < (end - start) / SECOND <= MAX_RANGE_SECONDS
    && end - start <= MAX_WINDOWS * (seconds * SECOND)
  }

  /** Windows of a quarter, one or six hours, a day, a week or thirty days, over at most 366 days and a thousand windows. */
  lemma SeriesLimits(start: Time, end: Time, seconds: int)
    ensures SeriesAllowed(start, end, seconds) <==>
      && (seconds == 15 * 60 || seconds == 3600 || seconds == 6 * 3600 || seconds == 24 * 3600 || seconds == 7 * 24 * 3600 || seconds == 30 * 24 * 3600)
      && SECOND <= end - start < 366 * DAY + SECOND && end - start <= 1000 * (seconds * SECOND)
  {
  }

  lemma CancelWidth(a: int, b: int, width: int)
    requires 0 < width && a * width < b * width
    ensures a < b
  {
    assert (b - a) * width > 0;
  }

  lemma WidthsGrow(a: int, b: int, width: int)
    requires 0 < width && a <= b
    ensures a * width <= b * width
  {
    assert (b - a) * width >= 0;
  }

  lemma OneMore(k: int, width: int)
    ensures (k + 1) * width == k * width + width
  {
  }

  lemma EdgeStep(start: Time, width: Time, k: nat)
    ensures Edge(start, width, k + 1) == Edge(start, width, k) + width && Edge(start, width, 0) == start
  {
    OneMore(k, width);
  }

  lemma QuotientBounds(range: int, width: int)
    requires 0 < width
    ensures (range / width) * width <= range < (range / width) * width + width
  {
  }

  /** The source's ceiling of range over width. */
  lemma CeilingBound(range: int, width: int, limit: nat)
    requires 0 < width && 0 <= range
    ensures (range + width - 1) / width <= limit <==> range <= limit * width
  {
    var c := (range + width - 1) / width;
    QuotientBounds(range + width - 1, width);
    if c <= limit {
      WidthsGrow(c, limit, width);
    } else {
      WidthsGrow(limit + 1, c, width);
      OneMore(limit, width);
    }
  }

  lemma QuotientIs(range: int, width: int, k: nat)
    requires 0 < width && k * width <= range < k * width + width
    ensures range / width == k
  {
    var q := range / width;
    QuotientBounds(range, width);
    OneMore(q, width);
    OneMore(k, width);
    CancelWidth(k, q + 1, width);
    CancelWidth(q, k + 1, width);
  }

  lemma FullWindows(start: Time, end: Time, width: Time, k: nat)
    requires 0 < width && Edge(start, width, k) <= end < Edge(start, width, k) + width
    ensures (end - start) / width == k
  {
    QuotientIs(end - start, width, k);
  }

  /** Exactly as many full windows as fit, contiguous from the start; a partial last one is left out. */
  method WindowSeries(events: seq<Time>, start: Time, end: Time, seconds: int) returns (r: Result<seq<Window>>)
    ensures r.Ok? <==> SeriesAllowed(start, end, seconds)
    ensures r.Ok? ==> r.value == Tiles(events, start, seconds * SECOND, (end - start) / (seconds * SECOND))
  {
    hide Counted, Capped, Edge;
    if !ApprovedWindow(seconds) {
      return Invalid;
    }
    var width := seconds * SECOND;
    if !(0 < (end - start) / SECOND <= MAX_RANGE_SECONDS) {
      return Invalid;
    }
    CeilingBound(end - start, width, MAX_WINDOWS);
    if (end - start + width - 1) / width > MAX_WINDOWS {
      return Invalid;
    }
    var series: seq<Window>, cursor := [], start;
    EdgeStep(start, width, 0);
    while cursor < end
      invariant series == Tiles(events, start, width, |series|)
      invariant Edge(start, width, |series|) <= end
      invariant cursor == Edge(start, width, |series|) || (cursor == end < Edge(start, width, |series|) + width)
      decreases end - cursor
    {
      var boundary := if cursor + width <= end then cursor + width else end;
      if (boundary - cursor) / SECOND == seconds {
        ghost var k := |series|;
        EdgeStep(start, width, k);
        series := series + [Window(cursor, boundary, Capped(events, cursor, boundary))];
        assert series == Tiles(events, start, width, k + 1);
      }
      cursor := boundary;
    }
    FullWindows(start, end, width, |series|);
    return Ok(series);
  }

  // ---- the windows tile the range ----

  /** The windows are full, disjoint and contiguous from the start, each counts its events, and what they leave uncovered is shorter than one. */
  lemma TilesCoverTheRange(events: seq<Time>, start: Time, end: Time, seconds: int)
    requires SeriesAllowed(start, end, seconds)
    ensures var (width, n) := (seconds * SECOND, (end - start) / (seconds * SECOND));
            var r := Tiles(events, start, width, n);
            && (forall k :: 0 <= k < n ==> r[k].to == r[k].from + width)
            && (forall k :: 0 < k < n ==> r[k].from == r[k - 1].to)
            && (n > 0 ==> r[0].from == start && r[n - 1].to <= end < r[n - 1].to + width)
            && (forall k :: 0 <= k < n ==>
                  var held := Counting.Number(events, t => r[k].from <= t < r[k].to);
                  r[k].count == if held < 10_001 then held else 10_001)
  {
    hide Edge, Counted, Counting.Number, Counting.Where;
    forall from, to ensures Counted(events, from, to) == Counting.Number(events, t => from <= t < to) {
      CountedIsNumber(events, from, to);
    }
    var width := seconds * SECOND;
    var n := (end - start) / width;
    EdgeStep(start, width, n);
    EdgeOf(start, end, width);
    forall k | 0 <= k < n ensures Edge(start, width, k + 1) == Edge(start, width, k) + width {
      EdgeStep(start, width, k);
    }
  }

  lemma {:induction false} CountedIsNumber(events: seq<Time>, from: Time, to: Time)
    ensures Counted(events, from, to) == Counting.Number(events, t => from <= t < to)
  {
    hide Counting.Number, Counting.Where;
    NumberUnfolds(events, t => from <= t < to);
    if events != [] { CountedIsNumber(events[..|events| - 1], from, to); }
  }

  lemma EdgeOf(start: Time, end: Time, width: Time)
    requires 0 < width && start <= end
    ensures var n := (end - start) / width; n >= 0 && Edge(start, width, n) <= end < Edge(start, width, n) + width
  {
    QuotientBounds(end - start, width);
  }

  lemma {:induction false} CountedSplits(events: seq<Time>, a: Time, b: Time, c: Time)
    requires a <= b <= c
    ensures Counted(events, a, c) == Counted(events, a, b) + Counted(events, b, c)
  {
    if events != [] { CountedSplits(events[..|events| - 1], a, b, c); }
  }

  function Total(series: seq<Window>): nat {
    if series == [] then 0 else Total(series[..|series| - 1]) + series[|series| - 1].count
  }

  predicate NoneCapped(events: seq<Time>, series: seq<Window>) {
    forall k :: 0 <= k < |series| ==> Counted(events, series[k].from, series[k].to) <= COUNT_CAP
  }

  lemma TilesFront(events: seq<Time>, start: Time, width: Time, n: nat)
    ensures Tiles(events, start, width, n + 1)[..n] == Tiles(events, start, width, n)
  {
  }

  lemma {:induction false} TotalIsAtMost(events: seq<Time>, start: Time, width: Time, n: nat)
    requires 0 < width
    ensures var r := Tiles(events, start, width, n);
            && Total(r) <= Counted(events, start, Edge(start, width, n))
            && (Total(r) == Counted(events, start, Edge(start, width, n)) <==> NoneCapped(events, r))
  {
    hide Counted, Edge;
    EdgeStep(start, width, 0);
    if n == 0 {
      CountedNothing(events, start);
    } else {
      TotalIsAtMost(events, start, width, n - 1);
      TilesFront(events, start, width, n - 1);
      var r, front := Tiles(events, start, width, n), Tiles(events, start, width, n - 1);
      EdgeStep(start, width, n - 1);
      EdgesGrow(start, width, n - 1);
      CountedSplits(events, start, Edge(start, width, n - 1), Edge(start, width, n));
      assert r[n - 1] == Tile(events, start, width, n - 1);
      assert forall k :: 0 <= k < n - 1 ==> r[k] == front[k];
      assert NoneCapped(events, r) <==> NoneCapped(events, front) && Counted(events, r[n - 1].from, r[n - 1].to) <= COUNT_CAP;
    }
  }

  lemma EdgesGrow(start: Time, width: Time, k: nat)
    requires 0 < width
    ensures start <= Edge(start, width, k)
  {
    WidthsGrow(0, k, width);
  }

  lemma {:induction false} CountedNothing(events: seq<Time>, a: Time)
    ensures Counted(events, a, a) == 0
  {
    if events != [] { CountedNothing(events[..|events| - 1], a); }
  }

  /** The window counts add up to the count over the covered range exactly when no window reached the cap. */
  lemma CountsAddUp(events: seq<Time>, start: Time, end: Time, seconds: int)
    requires SeriesAllowed(start, end, seconds)
    ensures var (width, n) := (seconds * SECOND, (end - start) / (seconds * SECOND));
            var r := Tiles(events, start, width, n);
            Total(r) == Counted(events, start, Edge(start, width, n)) <==> NoneCapped(events, r)
  {
    TotalIsAtMost(events, start, seconds * SECOND, (end - start) / (seconds * SECOND));
  }

  /** As many events at each instant of [from, to) in the one sequence as in the other, wherever they stand. */
  ghost predicate AgreeWithin(a: seq<Time>, b: seq<Time>, from: Time, to: Time) {
    forall t :: from <= t < to ==> multiset(a)[t] == multiset(b)[t]
  }

  lemma {:induction false} CountedConcat(a: seq<Time>, b: seq<Time>, from: Time, to: Time)
    ensures Counted(a + b, from, to) == Counted(a, from, to) + Counted(b, from, to)
    decreases |b|
  {
    if b == [] {
      assert a + b == a;
    } else {
      var n := |b| - 1;
      assert (a + b)[..|a + b| - 1] == a + b[..n];
      CountedConcat(a, b[..n], from, to);
    }
  }

  lemma {:induction false} NoneCounted(events: seq<Time>, from: Time, to: Time)
    requires AgreeWithin([], events, from, to)
    ensures Counted(events, from, to) == 0
    decreases |events|
  {
    if events != [] {
      var front, last := events[..|events| - 1], events[|events| - 1];
      assert events == front + [last];
      assert multiset(events)[last] > 0;
      forall t | from <= t < to ensures multiset(front)[t] == multiset([])[t] {
        assert multiset(events)[t] == 0 && t != last;
      }
      NoneCounted(front, from, to);
    }
  }

  lemma OneCounted(x: Time, from: Time, to: Time)
    ensures Counted([x], from, to) == if from <= x < to then 1 else 0
  {
    assert [x][..0] == [];
  }

  lemma WithoutOne(events: seq<Time>, j: nat, from: Time, to: Time)
    requires j < |events|
    ensures var rest := events[..j] + events[j + 1..];
            && Counted(events, from, to) == Counted(rest, from, to) + (if from <= events[j] < to then 1 else 0)
            && multiset(events) == multiset(rest) + multiset{events[j]}
  {
    hide Counted;
    var head, x, tail := events[..j], events[j], events[j + 1..];
    assert events == head + [x] + tail;
    CountedConcat(head, tail, from, to);
    CountedConcat(head + [x], tail, from, to);
    CountedConcat(head, [x], from, to);
    OneCounted(x, from, to);
  }

  /** The count depends on the events inside the window only, and not on their order. */
  lemma {:induction false} CountedAgrees(a: seq<Time>, b: seq<Time>, from: Time, to: Time)
    requires AgreeWithin(a, b, from, to)
    ensures Counted(a, from, to) == Counted(b, from, to)
    decreases |a|
  {
    hide Counted;
    if a == [] {
      NoneCounted(b, from, to);
      NoneCounted(a, from, to);
    } else {
      var n := |a| - 1;
      var front, x := a[..n] + a[n + 1..], a[n];
      WithoutOne(a, n, from, to);
      if from <= x < to {
        assert multiset(a)[x] > 0;
        assert x in multiset(b);
        var j :| 0 <= j < |b| && b[j] == x;
        WithoutOne(b, j, from, to);
        var rest := b[..j] + b[j + 1..];
        forall t | from <= t < to ensures multiset(front)[t] == multiset(rest)[t] {
          assert multiset(a)[t] == multiset(b)[t];
        }
        CountedAgrees(front, rest, from, to);
      } else {
        CountedAgrees(front, b, from, to);
      }
    }
  }

  /** Events at or after the cutoff change no window, wherever they stand among the others. */
  lemma FutureIsInvisible(events: seq<Time>, others: seq<Time>, start: Time, end: Time, seconds: int)
    requires SeriesAllowed(start, end, seconds)
    requires AgreeWithin(events, others, start, end)
    ensures var (width, n) := (seconds * SECOND, (end - start) / (seconds * SECOND));
            Tiles(events, start, width, n) == Tiles(others, start, width, n)
  {
    hide Counted, Edge;
    var width, n := seconds * SECOND, (end - start) / (seconds * SECOND);
    EdgeOf(start, end, width);
    EdgeStep(start, width, 0);
    forall k | 0 <= k < n ensures Tile(events, start, width, k) == Tile(others, start, width, k) {
      EdgesOrdered(start, width, 0, k);
      EdgesOrdered(start, width, k + 1, n);
      CountedAgrees(events, others, Edge(start, width, k), Edge(start, width, k + 1));
    }
  }

  lemma EdgesOrdered(start: Time, width: Time, j: nat, k: nat)
    requires 0 < width && j <= k
    ensures Edge(start, width, j) <= Edge(start, width, k)
  {
    WidthsGrow(j, k, width);
  }

  // ---- baselines of validated configurations ----

  datatype Configuration = Configuration(windowSeconds: int, lookbackSeconds: int, minimumWindows: int)

  predicate Validated(c: Configuration) {
    && ApprovedWindow(c.windowSeconds)
    && 3600 <= c.lookbackSeconds <= MAX_RANGE_SECONDS
    && 2 <= c.minimumWindows <= 1000
    && c.windowSeconds * c.minimumWindows <= c.lookbackSeconds
  }

  function Values(series: seq<Window>): (r: seq<Raw>)
    ensures |r| == |series| && forall i :: 0 <= i < |r| ==> r[i] == Number(series[i].count as real)
  {
    seq(|series|, i requires 0 <= i < |series| => Number(series[i].count as real))
  }

  function Ends(series: seq<Window>): (r: seq<Time>)
    ensures |r| == |series|
  {
    seq(|series|, i requires 0 <= i < |series| => series[i].to)
  }

  /** What a baseline is computed from: the full windows of the lookback before the cutoff. */
  function Observed(events: seq<Time>, cutoff: Time, c: Configuration): seq<Window>
    requires 0 < c.windowSeconds <= c.lookbackSeconds
  {
    var width, lookback := c.windowSeconds * SECOND, c.lookbackSeconds * SECOND;
    Tiles(events, cutoff - lookback, width, lookback / width)
  }

  /** Which configurations a baseline can be built for. */
  predicate Supported(c: Configuration) {
    && ApprovedWindow(c.windowSeconds)
    && c.windowSeconds <= c.lookbackSeconds <= MAX_RANGE_SECONDS
    && c.lookbackSeconds <= MAX_WINDOWS * c.windowSeconds
    && 1 <= c.minimumWindows <= MAX_BASELINE_WINDOWS
  }

  method BuildBaseline(rnd: real -> real, root: real -> real, events: seq<Time>, cutoff: Time, c: Configuration, winsorize: bool,
                       peerGroup: Option<int>, season: Seasonality)
    returns (r: Result<Statistics>)
    ensures r.Ok? <==> Supported(c)
    ensures r.Ok? ==>
      var series := Observed(events, cutoff, c);
      r.value == StatisticsOf(rnd, root, Values(series), c.minimumWindows, winsorize, peerGroup, season, Some(Ends(series)))
  {
    hide Capped, StatisticsOf, Tiles, Cleanable;
    if c.lookbackSeconds < c.windowSeconds || c.lookbackSeconds > MAX_RANGE_SECONDS {
      return Invalid;
    }
    var start := cutoff - c.lookbackSeconds * SECOND;
    var series := WindowSeries(events, start, cutoff, c.windowSeconds);
    if series.Invalid? {
      return Invalid;
    }
    SeriesIsShort(c);
    CountsAreClean(events, start, c.windowSeconds * SECOND, |series.value|);
    r := BuildStatistics(rnd, root, Values(series.value), c.minimumWindows, winsorize, peerGroup, season, Some(Ends(series.value)));
  }

  lemma SeriesIsShort(c: Configuration)
    requires 0 < c.windowSeconds && c.lookbackSeconds * SECOND <= MAX_WINDOWS * (c.windowSeconds * SECOND)
    ensures c.lookbackSeconds <= MAX_WINDOWS * c.windowSeconds
    ensures (c.lookbackSeconds * SECOND) / (c.windowSeconds * SECOND) <= MAX_WINDOWS
  {
    var width := c.windowSeconds * SECOND;
    QuotientBounds(c.lookbackSeconds * SECOND, width);
    OneMore(MAX_WINDOWS, width);
    CancelWidth((c.lookbackSeconds * SECOND) / width, MAX_WINDOWS + 1, width);
  }

  lemma {:induction false} PowersGrow(n: nat)
    requires 5 <= n
    ensures 100_000.0 <= Power(10.0, n)
  {
    if n == 5 {
      assert Power(10.0, 1) == 10.0 && Power(10.0, 2) == 100.0 && Power(10.0, 3) == 1000.0 && Power(10.0, 4) == 10_000.0;
    } else {
      PowersGrow(n - 1);
    }
  }

  lemma CountsAreClean(events: seq<Time>, start: Time, width: Time, n: nat)
    requires n <= MAX_WINDOWS
    ensures Cleanable(Values(Tiles(events, start, width, n)), true, true)
  {
    hide Counted, Edge, Power;
    PowersGrow(300);
  }

  lemma {:induction false} AllPresent(values: seq<Raw>)
    requires forall i :: 0 <= i < |values| ==> values[i].Number?
    ensures |Present(values)| == |values|
  {
    if values != [] { AllPresent(values[..|values| - 1]); }
  }

  /**
    A validated configuration of at most a thousand windows yields a baseline over
    every window of its lookback, ready unless the peer group is too small.
  */
  lemma ValidatedIsReady(rnd: real -> real, root: real -> real, events: seq<Time>, cutoff: Time, c: Configuration, winsorize: bool,
                         peerGroup: Option<int>, season: Seasonality)
    requires Validated(c)
    ensures Supported(c) <==> c.lookbackSeconds <= MAX_WINDOWS * c.windowSeconds
    ensures Supported(c) ==>
      var series := Observed(events, cutoff, c);
      var s := StatisticsOf(rnd, root, Values(series), c.minimumWindows, winsorize, peerGroup, season, Some(Ends(series)));
      && s.observations == c.lookbackSeconds / c.windowSeconds >= c.minimumWindows && s.missing == 0
      && (s.status.Ready? <==> peerGroup.None? || MIN_PEER_GROUP_SIZE <= peerGroup.value)
  {
    hide Counted, Capped, Used, SummaryOf, Differing, SeasonsOf, Present;
    EnoughWindows(c);
    LookbackCovers(c);
    AllPresent(Values(Observed(events, cutoff, c)));
  }

  lemma LookbackCovers(c: Configuration)
    requires Validated(c)
    ensures c.windowSeconds <= c.lookbackSeconds
  {
    WidthsGrow(1, c.minimumWindows, c.windowSeconds);
  }

  lemma EnoughWindows(c: Configuration)
    requires Validated(c)
    ensures (c.lookbackSeconds * SECOND) / (c.windowSeconds * SECOND) == c.lookbackSeconds / c.windowSeconds >= c.minimumWindows
    ensures c.lookbackSeconds * SECOND <= MAX_WINDOWS * (c.windowSeconds * SECOND) <==> c.lookbackSeconds <= MAX_WINDOWS * c.windowSeconds
  {
    var (l, w) := (c.lookbackSeconds, c.windowSeconds);
    var q := l / w;
    QuotientBounds(l, w);
    Rescale(q, w);
    QuotientIs(l * SECOND, w * SECOND, q);
    OneMore(q, w);
    CancelWidth(c.minimumWindows, q + 1, w);
  }

  lemma Rescale(q: int, w: int)
    ensures q * (w * SECOND) == (q * w) * SECOND
  {
  }
}
