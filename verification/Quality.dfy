/**
  Analyst feedback folded to its latest revisions and the quality metrics
  computed from it (evaluation.py).
*/
module Quality {
  import opened Options
  import opened Samples
  import opened Counting

  datatype Feedback = Feedback(anomaly: int, analyst: int, revision: int, verdict: string, reviewSeconds: Option<real>)

  predicate SameKey(f: Feedback, g: Feedback) {
    f.anomaly == g.anomaly && f.analyst == g.analyst
  }

  predicate Confirming(f: Feedback) {
    f.verdict == "confirmed_true_positive" || f.verdict == "likely_true_positive"
  }

  predicate Dismissing(f: Feedback) {
    f.verdict == "false_positive" || f.verdict == "benign_expected_behavior"
  }

  // ---- folding to the latest revision ----

  /** The row kept for the key of `f`, in the order keys were first met. */
  function Slot(latest: seq<Feedback>, f: Feedback): (r: nat)
    ensures r <= |latest|
    ensures r < |latest| ==> SameKey(latest[r], f)
    ensures forall i :: 0 <= i < r ==> !SameKey(latest[i], f)
  {
    if latest == [] then 0
    else if SameKey(latest[0], f) then 0
    else
      var r := Slot(latest[1..], f);
      assert forall i :: 1 <= i < 1 + r ==> latest[i] == latest[1..][i - 1];
      1 + r
  }

  function Put(latest: seq<Feedback>, f: Feedback): seq<Feedback> {
    var i := Slot(latest, f);
    if i == |latest| then latest + [f]
    else if f.revision > latest[i].revision then latest[i := f]
    else latest
  }

  function Fold(feedback: seq<Feedback>): seq<Feedback> {
    if feedback == [] then [] else Put(Fold(feedback[..|feedback| - 1]), feedback[|feedback| - 1])
  }

  ghost predicate DistinctKeys(s: seq<Feedback>) {
    forall i, j :: 0 <= i < j < |s| ==> !SameKey(s[i], s[j])
  }

  /** No revision in `feedback` is newer than `f`. */
  ghost predicate Newest(feedback: seq<Feedback>, f: Feedback) {
    forall g :: g in feedback && SameKey(f, g) ==> g.revision <= f.revision
  }

  predicate Has(s: seq<Feedback>, f: Feedback) {
    Slot(s, f) < |s|
  }

  /** Every kept row is one of `feedback`, and none of its key there is newer. */
  ghost predicate Sound(s: seq<Feedback>, feedback: seq<Feedback>) {
    forall i :: 0 <= i < |s| ==> s[i] in feedback && Newest(feedback, s[i])
  }

  lemma PutKeepsDistinct(s: seq<Feedback>, last: Feedback)
    requires DistinctKeys(s)
    ensures DistinctKeys(Put(s, last))
  {
  }

  lemma PutHas(s: seq<Feedback>, last: Feedback, g: Feedback)
    ensures Has(s, g) || SameKey(g, last) ==> Has(Put(s, last), g)
  {
    var t := Put(s, last);
    if SameKey(g, last) {
      assert SameKey(t[Slot(s, last)], g);
    } else if Has(s, g) {
      assert t[Slot(s, g)] == s[Slot(s, g)];
    }
  }

  lemma KeptStaysNewest(front: seq<Feedback>, kept: Feedback, last: Feedback)
    requires Newest(front, kept) && (SameKey(kept, last) ==> last.revision <= kept.revision)
    ensures Newest(front + [last], kept)
  {
  }

  lemma LastIsNewest(s: seq<Feedback>, front: seq<Feedback>, last: Feedback)
    requires Sound(s, front) && forall g :: g in front ==> Has(s, g)
    requires forall i :: 0 <= i < |s| && SameKey(s[i], last) ==> s[i].revision <= last.revision
    ensures Newest(front + [last], last)
  {
    forall g | g in front + [last] && SameKey(last, g) ensures g.revision <= last.revision {
      if g != last {
        assert g in front && Has(s, g);
        var kept := s[Slot(s, g)];
        assert Newest(front, kept) && SameKey(kept, g);
      }
    }
  }

  lemma PutKeepsSound(s: seq<Feedback>, front: seq<Feedback>, last: Feedback)
    requires DistinctKeys(s) && Sound(s, front) && forall g :: g in front ==> Has(s, g)
    ensures Sound(Put(s, last), front + [last])
  {
    hide Newest, Has;
    var i, t := Slot(s, last), Put(s, last);
    if i == |s| || last.revision > s[i].revision { LastIsNewest(s, front, last); }
    forall k | 0 <= k < |t| ensures t[k] in front + [last] && Newest(front + [last], t[k]) {
      if k != i || (i < |s| && last.revision <= s[i].revision) {
        assert t[k] == s[k];
        KeptStaysNewest(front, s[k], last);
      }
    }
  }

  lemma {:induction false} FoldKeepsNewest(feedback: seq<Feedback>)
    ensures DistinctKeys(Fold(feedback)) && Sound(Fold(feedback), feedback) && forall g :: g in feedback ==> Has(Fold(feedback), g)
  {
    hide DistinctKeys, Sound, Put, Has;
    if feedback == [] {
      NothingFolded();
    } else {
      var front, last := feedback[..|feedback| - 1], feedback[|feedback| - 1];
      assert feedback == front + [last];
      FoldKeepsNewest(front);
      PutKeepsDistinct(Fold(front), last);
      PutKeepsSound(Fold(front), front, last);
      forall g | g in feedback ensures Has(Fold(feedback), g) {
        PutHas(Fold(front), last, g);
      }
    }
  }

  lemma NothingFolded()
    ensures DistinctKeys([]) && Sound([], [])
  {
  }

  /** The database allows one row per anomaly, analyst and revision. */
  ghost predicate UniqueRevisions(feedback: seq<Feedback>) {
    forall f, g :: f in feedback && g in feedback && SameKey(f, g) && f.revision == g.revision ==> f == g
  }

  /** With unique revisions, the fold holds exactly the newest rows. */
  lemma FoldIsNewest(feedback: seq<Feedback>, f: Feedback)
    requires UniqueRevisions(feedback)
    ensures f in Fold(feedback) <==> f in feedback && Newest(feedback, f)
  {
    FoldKeepsNewest(feedback);
    var s := Fold(feedback);
    if f in s {
      var i :| 0 <= i < |s| && s[i] == f;
    }
    if f in feedback && Newest(feedback, f) {
      assert Has(s, f);
      var kept := s[Slot(s, f)];
      assert kept in feedback && Newest(feedback, kept) && SameKey(kept, f);
      assert kept == f;
    }
  }

  lemma {:induction false} OnceEach(s: seq<Feedback>, f: Feedback)
    requires DistinctKeys(s)
    ensures multiset(s)[f] == if f in s then 1 else 0
  {
    if s != [] {
      OnceEach(s[1..], f);
      assert s == [s[0]] + s[1..];
      forall j | 0 <= j < |s[1..]| ensures s[1..][j] != s[0] {
        assert !SameKey(s[0], s[j + 1]);
      }
    }
  }

  /** Two folds that hold the same rows are rearrangements of each other. */
  lemma SameRowsSameFold(a: seq<Feedback>, b: seq<Feedback>)
    requires DistinctKeys(a) && DistinctKeys(b) && forall f :: f in a <==> f in b
    ensures multiset(a) == multiset(b)
  {
    forall f ensures multiset(a)[f] == multiset(b)[f] {
      OnceEach(a, f);
      OnceEach(b, f);
    }
  }

  // ---- the metrics ----

  datatype Metrics = Metrics(
    reviewedAnomalies: nat, confirmed: nat, dismissed: nat, precision: Option<real>, falsePositives: Option<real>,
    coverage: real, medianReviewSeconds: Option<real>, duplicateRate: real, suppressionHitRate: real)

  predicate Counts(f: Feedback, confirming: bool) {
    if confirming then Confirming(f) else Dismissing(f)
  }

  /** How many rows confirm, or how many dismiss. */
  function Tally(s: seq<Feedback>, confirming: bool): nat {
    if s == [] then 0 else (if Counts(s[0], confirming) then 1 else 0) + Tally(s[1..], confirming)
  }

  function TimeOf(f: Feedback): seq<real> {
    if f.reviewSeconds.Some? then [f.reviewSeconds.value] else []
  }

  function Times(s: seq<Feedback>): seq<real> {
    if s == [] then [] else TimeOf(s[0]) + Times(s[1..])
  }

  function Anomalies(s: seq<Feedback>): set<int> {
    set f | f in s :: f.anomaly
  }

  /** A share of a whole, or zero of nothing. */
  function Rate(rnd: real -> real, part: nat, whole: nat): real {
    if whole == 0 then 0.0 else rnd(part as real / whole as real)
  }

  function Estimate(rnd: real -> real, part: nat, whole: nat): Option<real> {
    if whole == 0 then None else Some(rnd(part as real / whole as real))
  }

  function MetricsOf(rnd: real -> real, latest: seq<Feedback>, occurrences: seq<int>, hits: nat): Metrics {
    var confirmed, dismissed := Tally(latest, true), Tally(latest, false);
    var reviewed, total := confirmed + dismissed, |occurrences|;
    var times := Times(latest);
    Metrics(|Anomalies(latest)|, confirmed, dismissed,
            Estimate(rnd, confirmed, reviewed), Estimate(rnd, dismissed, reviewed),
            Rate(rnd, |Anomalies(latest)|, total),
            if times == [] then None else Some(rnd(Median(times))),
            Rate(rnd, Repeated(occurrences), total),
            Rate(rnd, hits, total + hits))
  }

  function Repeated(occurrences: seq<int>): nat {
    if occurrences == [] then 0 else (if occurrences[0] > 1 then 1 else 0) + Repeated(occurrences[1..])
  }

  // ---- measures of rearranged rows ----

  lemma {:induction false} TimesSplit(a: seq<Feedback>, b: seq<Feedback>)
    ensures Times(a + b) == Times(a) + Times(b)
  {
    hide TimeOf;
    if a == [] {
      assert a + b == b;
    } else {
      assert (a + b)[1..] == a[1..] + b && (a + b)[0] == a[0];
      TimesSplit(a[1..], b);
    }
  }

  lemma {:induction false} TallySplits(a: seq<Feedback>, b: seq<Feedback>, confirming: bool)
    ensures Tally(a + b, confirming) == Tally(a, confirming) + Tally(b, confirming)
  {
    hide Counts;
    if a == [] {
      assert a + b == b;
    } else {
      assert (a + b)[1..] == a[1..] + b && (a + b)[0] == a[0];
      TallySplits(a[1..], b, confirming);
    }
  }

  /** The rows without the one at `i`. */
  function Without(b: seq<Feedback>, i: nat): seq<Feedback>
    requires i < |b|
  {
    b[..i] + b[i + 1..]
  }

  lemma RowsWithout(b: seq<Feedback>, i: nat)
    requires i < |b|
    ensures multiset(Without(b, i)) == multiset(b) - multiset{b[i]}
  {
    assert b == b[..i] + ([b[i]] + b[i + 1..]);
  }

  lemma TimesWithout(b: seq<Feedback>, i: nat)
    requires i < |b|
    ensures multiset(Times(b)) == multiset(Times(Without(b, i))) + multiset(Times([b[i]]))
  {
    hide Times;
    assert b == b[..i] + ([b[i]] + b[i + 1..]);
    TimesSplit(b[..i], [b[i]] + b[i + 1..]);
    TimesSplit([b[i]], b[i + 1..]);
    TimesSplit(b[..i], b[i + 1..]);
  }

  lemma TallyWithout(b: seq<Feedback>, i: nat, confirming: bool)
    requires i < |b|
    ensures Tally(b, confirming) == Tally(Without(b, i), confirming) + Tally([b[i]], confirming)
  {
    hide Tally;
    assert b == b[..i] + ([b[i]] + b[i + 1..]);
    TallySplits(b[..i], [b[i]] + b[i + 1..], confirming);
    TallySplits([b[i]], b[i + 1..], confirming);
    TallySplits(b[..i], b[i + 1..], confirming);
  }

  /** Rearranging rows changes no count and no collection of times. */
  lemma {:induction false} RearrangedMeasures(a: seq<Feedback>, b: seq<Feedback>)
    requires multiset(a) == multiset(b)
    ensures multiset(Times(a)) == multiset(Times(b)) && Tally(a, true) == Tally(b, true) && Tally(a, false) == Tally(b, false)
    decreases |a|
  {
    hide Times, Tally, Without;
    assert |multiset(a)| == |a| && |multiset(b)| == |b|;
    if a != [] {
      assert a[0] in multiset(b);
      var i :| 0 <= i < |b| && b[i] == a[0];
      RowsWithout(a, 0);
      RowsWithout(b, i);
      TimesWithout(a, 0);
      TimesWithout(b, i);
      TallyWithout(a, 0, true);
      TallyWithout(b, i, true);
      TallyWithout(a, 0, false);
      TallyWithout(b, i, false);
      assert |Without(a, 0)| < |a| by { assert |multiset(Without(a, 0))| == |Without(a, 0)|; }
      RearrangedMeasures(Without(a, 0), Without(b, i));
    }
  }

  lemma SameMetrics(rnd: real -> real, a: seq<Feedback>, b: seq<Feedback>, occurrences: seq<int>, hits: nat)
    requires multiset(a) == multiset(b)
    ensures MetricsOf(rnd, a, occurrences, hits) == MetricsOf(rnd, b, occurrences, hits)
  {
    hide Median, Tally, Times, Repeated, Rate, Estimate;
    RearrangedMeasures(a, b);
    assert forall f :: f in a <==> f in multiset(a);
    assert forall f :: f in b <==> f in multiset(b);
    assert Anomalies(a) == Anomalies(b);
    assert |Times(a)| == |multiset(Times(a))| && |Times(b)| == |multiset(Times(b))|;
    if Times(a) != [] {
      QuantileIgnoresOrder(Times(a), Times(b), 50.0);
      QuantileLandmarks(Times(a));
      QuantileLandmarks(Times(b));
    }
  }

  /** The newest rows decide everything: feedback with the same newest rows has the same metrics. */
  lemma NewestDecides(rnd: real -> real, a: seq<Feedback>, b: seq<Feedback>, occurrences: seq<int>, hits: nat)
    requires UniqueRevisions(a) && UniqueRevisions(b)
    requires forall f :: f in a && Newest(a, f) <==> f in b && Newest(b, f)
    ensures MetricsOf(rnd, Fold(a), occurrences, hits) == MetricsOf(rnd, Fold(b), occurrences, hits)
  {
    hide Fold, MetricsOf, Newest, UniqueRevisions;
    forall f ensures f in Fold(a) <==> f in Fold(b) {
      FoldIsNewest(a, f);
      FoldIsNewest(b, f);
    }
    FoldKeepsNewest(a);
    FoldKeepsNewest(b);
    SameRowsSameFold(Fold(a), Fold(b));
    SameMetrics(rnd, Fold(a), Fold(b), occurrences, hits);
  }

  /** The metrics do not depend on the order in which feedback arrives. */
  lemma OrderIsIrrelevant(rnd: real -> real, a: seq<Feedback>, b: seq<Feedback>, occurrences: seq<int>, hits: nat)
    requires UniqueRevisions(a) && multiset(a) == multiset(b)
    ensures MetricsOf(rnd, Fold(a), occurrences, hits) == MetricsOf(rnd, Fold(b), occurrences, hits)
  {
    hide Fold, MetricsOf;
    assert forall f :: f in a <==> f in multiset(a);
    assert forall f :: f in b <==> f in multiset(b);
    NewestDecides(rnd, a, b, occurrences, hits);
  }

  /** A revision that is already superseded changes no metric, wherever it is added. */
  lemma SupersededIsIrrelevant(rnd: real -> real, before: seq<Feedback>, after: seq<Feedback>, stale: Feedback, newer: Feedback, occurrences: seq<int>, hits: nat)
    requires newer in before + after && SameKey(stale, newer) && stale.revision < newer.revision
    requires UniqueRevisions(before + [stale] + after)
    ensures MetricsOf(rnd, Fold(before + [stale] + after), occurrences, hits) == MetricsOf(rnd, Fold(before + after), occurrences, hits)
  {
    hide Fold, MetricsOf;
    var long, short := before + [stale] + after, before + after;
    assert forall f :: f in long <==> f in short || f == stale;
    forall f ensures f in long && Newest(long, f) <==> f in short && Newest(short, f) {
      if f in short && Newest(short, f) && SameKey(f, stale) {
        assert newer.revision <= f.revision;
      }
    }
    NewestDecides(rnd, long, short, occurrences, hits);
  }

  // ---- the computation ----

  /**
    Keeps one row for each anomaly and analyst that occur, none of them older than
    another revision by that analyst of that anomaly.
  */
  method LatestRevisions(feedback: seq<Feedback>) returns (latest: seq<Feedback>)
    ensures latest == Fold(feedback)
    ensures DistinctKeys(latest) && Sound(latest, feedback) && forall g :: g in feedback ==> Has(latest, g)
  {
    hide Slot;
    latest := [];
    for i := 0 to |feedback|
      invariant latest == Fold(feedback[..i])
    {
      assert feedback[..i + 1][..i] == feedback[..i];
      var f := feedback[i];
      var slot := Slot(latest, f);
      if slot == |latest| {
        latest := latest + [f];
      } else if f.revision > latest[slot].revision {
        latest := latest[slot := f];
      }
    }
    assert feedback[..|feedback|] == feedback;
    FoldKeepsNewest(feedback);
  }

  method Measure(latest: seq<Feedback>) returns (confirmed: nat, dismissed: nat, times: seq<real>, ids: set<int>)
    ensures confirmed == Tally(latest, true) && dismissed == Tally(latest, false)
    ensures times == Times(latest) && ids == Anomalies(latest)
  {
    hide Counts, TimeOf;
    confirmed, dismissed, times, ids := 0, 0, [], {};
    for i := 0 to |latest|
      invariant confirmed == Tally(latest[..i], true) && dismissed == Tally(latest[..i], false)
      invariant times == Times(latest[..i]) && ids == Anomalies(latest[..i])
    {
      OneMoreRow(latest, i);
      if Counts(latest[i], true) { confirmed := confirmed + 1; }
      if Counts(latest[i], false) { dismissed := dismissed + 1; }
      times := times + TimeOf(latest[i]);
      ids := ids + {latest[i].anomaly};
    }
    assert latest[..|latest|] == latest;
  }

  /** Feedback is folded to its latest revisions, then measured. */
  method QualityMetrics(rnd: real -> real, feedback: seq<Feedback>, occurrences: seq<int>, hits: nat) returns (m: Metrics)
    ensures m == MetricsOf(rnd, Fold(feedback), occurrences, hits)
  {
    hide Put, Slot, Median, Tally, Times, Anomalies, DistinctKeys, Sound, Has;
    var latest := LatestRevisions(feedback);
    var confirmed, dismissed, times, ids := Measure(latest);
    var repeated := 0;
    for i := 0 to |occurrences|
      invariant repeated + Repeated(occurrences[i..]) == Repeated(occurrences)
    {
      if occurrences[i] > 1 { repeated := repeated + 1; }
    }
    var reviewed, total := confirmed + dismissed, |occurrences|;
    m := Metrics(|ids|, confirmed, dismissed,
                 if reviewed > 0 then Some(rnd(confirmed as real / reviewed as real)) else None,
                 if reviewed > 0 then Some(rnd(dismissed as real / reviewed as real)) else None,
                 if total > 0 then rnd(|ids| as real / total as real) else 0.0,
                 if times != [] then Some(rnd(Median(times))) else None,
                 if total > 0 then rnd(repeated as real / total as real) else 0.0,
                 if total + hits > 0 then rnd(hits as real / (total + hits) as real) else 0.0);
  }

  lemma OneMoreRow(s: seq<Feedback>, i: nat)
    requires i < |s|
    ensures Tally(s[..i + 1], true) == Tally(s[..i], true) + if Counts(s[i], true) then 1 else 0
    ensures Tally(s[..i + 1], false) == Tally(s[..i], false) + if Counts(s[i], false) then 1 else 0
    ensures Times(s[..i + 1]) == Times(s[..i]) + TimeOf(s[i])
    ensures Anomalies(s[..i + 1]) == Anomalies(s[..i]) + {s[i].anomaly}
  {
    hide Counts, TimeOf;
    assert s[..i + 1] == s[..i] + [s[i]];
    TallySplits(s[..i], [s[i]], true);
    TallySplits(s[..i], [s[i]], false);
    TimesSplit(s[..i], [s[i]]);
  }

  /** The estimates are shares of what was reviewed and, before rounding, sum to one. */
  lemma EstimatesAreShares(latest: seq<Feedback>, occurrences: seq<int>, hits: nat)
    ensures var m := MetricsOf(x => x, latest, occurrences, hits);
            && (m.precision.Some? <==> m.confirmed + m.dismissed > 0) && (m.falsePositives.Some? <==> m.precision.Some?)
            && m.confirmed == Number(latest, SaysYes) && m.dismissed == Number(latest, SaysNo)
            && (m.precision.Some? ==>
                  && m.precision.value * (m.confirmed + m.dismissed) as real == m.confirmed as real
                  && m.falsePositives.value * (m.confirmed + m.dismissed) as real == m.dismissed as real
                  && 0.0 <= m.precision.value <= 1.0 && 0.0 <= m.falsePositives.value <= 1.0
                  && m.precision.value + m.falsePositives.value == 1.0)
  {
    hide Tally, Times, Median, Repeated, Number;
    var c, d := Tally(latest, true), Tally(latest, false);
    assert (c + d) as real == c as real + d as real;
    TallyIsNumber(latest);
    if c + d > 0 {
      SharesSumToOne(c as real, d as real);
      ShareTimes(c as real, (c + d) as real);
      ShareTimes(d as real, (c + d) as real);
    }
  }

  ghost predicate SaysYes(f: Feedback) {
    f.verdict in {"confirmed_true_positive", "likely_true_positive"}
  }

  ghost predicate SaysNo(f: Feedback) {
    f.verdict in {"false_positive", "benign_expected_behavior"}
  }

  lemma {:induction false} TallyIsNumber(s: seq<Feedback>)
    ensures Tally(s, true) == Number(s, SaysYes) && Tally(s, false) == Number(s, SaysNo)
  {
    hide Number;
    NumberUnfolds(s, SaysYes);
    NumberUnfolds(s, SaysNo);
    if s != [] {
      var n := |s| - 1;
      TallyIsNumber(s[..n]);
      assert s == s[..n] + [s[n]];
      TallySplits(s[..n], [s[n]], true);
      TallySplits(s[..n], [s[n]], false);
    }
  }

  lemma {:induction false} RepeatedSplits(s: seq<int>, x: int)
    ensures Repeated(s + [x]) == Repeated(s) + if x > 1 then 1 else 0
  {
    if s == [] {
      assert s + [x] == [x];
    } else {
      assert (s + [x])[1..] == s[1..] + [x];
      RepeatedSplits(s[1..], x);
    }
  }

  lemma {:induction false} RepeatedIsNumber(s: seq<int>)
    ensures Repeated(s) == Number(s, x => x > 1)
  {
    hide Number;
    NumberUnfolds(s, x => x > 1);
    if s != [] {
      var n := |s| - 1;
      assert s == s[..n] + [s[n]];
      RepeatedSplits(s[..n], s[n]);
      RepeatedIsNumber(s[..n]);
    }
  }

  /** Every review time of a kept row is measured once, and nothing else is. */
  lemma {:induction false} TimesAreReviewTimes(s: seq<Feedback>, x: real)
    ensures multiset(Times(s))[x] == Number(s, (f: Feedback) => f.reviewSeconds == Some(x))
  {
    hide Number, Where;
    NumberUnfolds(s, (f: Feedback) => f.reviewSeconds == Some(x));
    if s != [] {
      TimesAreReviewTimes(s[..|s| - 1], x);
      LastTime(s);
    }
  }

  lemma LastTime(s: seq<Feedback>)
    requires s != []
    ensures Times(s) == Times(s[..|s| - 1]) + if s[|s| - 1].reviewSeconds.Some? then [s[|s| - 1].reviewSeconds.value] else []
  {
    var n := |s| - 1;
    assert s == s[..n] + [s[n]];
    TimesSplit(s[..n], [s[n]]);
  }

  lemma {:induction false} TimesCount(s: seq<Feedback>)
    ensures |Times(s)| == Number(s, (f: Feedback) => f.reviewSeconds.Some?)
  {
    hide Number, Where;
    NumberUnfolds(s, (f: Feedback) => f.reviewSeconds.Some?);
    if s != [] {
      TimesCount(s[..|s| - 1]);
      LastTime(s);
    }
  }

  lemma ShareTimes(part: real, whole: real)
    requires whole != 0.0
    ensures (part / whole) * whole == part
  {
  }

  /** The remaining metrics, before rounding: coverage, median review time, and the rates of repetition and suppression. */
  lemma RatesAreShares(latest: seq<Feedback>, occurrences: seq<int>, hits: nat)
    ensures var m := MetricsOf(x => x, latest, occurrences, hits);
            var total := |occurrences|;
            && m.reviewedAnomalies == |set f | f in latest :: f.anomaly|
            && (total > 0 ==> m.coverage * total as real == m.reviewedAnomalies as real)
            && (total > 0 ==> m.duplicateRate * total as real == Number(occurrences, x => x > 1) as real)
            && (total + hits > 0 ==> m.suppressionHitRate * (total + hits) as real == hits as real)
            && (m.medianReviewSeconds.None? <==> Number(latest, (f: Feedback) => f.reviewSeconds.Some?) == 0)
            && (m.medianReviewSeconds.Some? ==> m.medianReviewSeconds.value == Quantile(Times(latest), 50.0))
  {
    hide Tally, Times, Median, Repeated, Quantile, Number;
    var total := |occurrences|;
    RepeatedIsNumber(occurrences);
    if total > 0 {
      ShareTimes(|Anomalies(latest)| as real, total as real);
      ShareTimes(Repeated(occurrences) as real, total as real);
    }
    if total + hits > 0 { ShareTimes(hits as real, (total + hits) as real); }
    TimesCount(latest);
    if Times(latest) != [] { QuantileLandmarks(Times(latest)); }
  }

  lemma SharesSumToOne(c: real, d: real)
    requires 0.0 <= c && 0.0 <= d && 0.0 < c + d
    ensures 0.0 <= c / (c + d) <= 1.0 && 0.0 <= d / (c + d) <= 1.0 && c / (c + d) + d / (c + d) == 1.0
  {
    var t := c + d;
    assert c / t + d / t == (c + d) / t;
  }
}
