/** The analysis of one domain's traffic window: merging the rows, the alert rules, and the cycle. */
module Observability {
  import opened Php
  import opened Sequences
  import opened Histogram
  import opened Alerts

  datatype Metric = Metric(
    domainId: int,
    bucket: int,
    requestCount: nat,
    status5xx: nat,
    injectAttempted: nat,
    injectFailed: nat,
    latency: Bins)

  const WINDOW := 5
  const BASELINE_WINDOW := 15

  function Window(ms: seq<Metric>, d: int, now: int): seq<Metric> {
    Filter(ms, (m: Metric) => m.domainId == d && m.bucket >= now - Minutes(WINDOW))
  }

  /** Both ends of the baseline window are included, so a row exactly WINDOW minutes old counts twice. */
  function Baseline(ms: seq<Metric>, d: int, now: int): seq<Metric> {
    Filter(ms, (m: Metric) =>
      m.domainId == d && now - Minutes(WINDOW + BASELINE_WINDOW) <= m.bucket <= now - Minutes(WINDOW))
  }

  /** The rows that count in the window and in its own baseline: those exactly WINDOW minutes old. */
  lemma CountedTwiceIff(ms: seq<Metric>, d: int, now: int, m: Metric)
    ensures m in Window(ms, d, now) && m in Baseline(ms, d, now)
       <==> m in ms && m.domainId == d && m.bucket == now - Minutes(WINDOW)
  {
  }

  function Sum(ms: seq<Metric>, field: Metric -> nat): nat {
    if ms == [] then 0 else field(ms[0]) + Sum(ms[1..], field)
  }

  function Requests(ms: seq<Metric>): nat { Sum(ms, (m: Metric) => m.requestCount) }

  function Errors(ms: seq<Metric>): nat { Sum(ms, (m: Metric) => m.status5xx) }

  function Attempts(ms: seq<Metric>): nat { Sum(ms, (m: Metric) => m.injectAttempted) }

  function Failures(ms: seq<Metric>): nat { Sum(ms, (m: Metric) => m.injectFailed) }

  /** part/whole, and 0 when there is nothing to divide by. */
  function Rate(part: nat, whole: nat): Fraction { if whole > 0 then Fraction(part, whole) else Fraction(0, 1) }

  /** f > percent/100 */
  predicate Above(f: Fraction, percent: nat) { 100 * f.num > percent * f.den }

  /** f > 2 * base, for a base above 0 */
  predicate Doubled(f: Fraction, base: Fraction) { base.num > 0 && f.num * base.den > 2 * (base.num * f.den) }

  function Latencies(ms: seq<Metric>): seq<Bins> {
    seq(|ms|, i requires 0 <= i < |ms| => ms[i].latency)
  }

  function P95(ms: seq<Metric>): nat { Percentile(MergeAll(Latencies(ms)), 95.0) }

  function When(alerts: seq<Alert>, condition: bool, a: Alert): seq<Alert> {
    if condition then alerts + [a] else alerts
  }

  /** What the rules look at: the window's figures and the baseline's. */
  datatype Figures = Figures(p95: nat, errors: Fraction, failures: Fraction, baseP95: nat, baseErrors: Fraction)

  function FiguresOf(ms: seq<Metric>, base: seq<Metric>): Figures {
    Figures(P95(ms), Rate(Errors(ms), Requests(ms)), Rate(Failures(ms), Attempts(ms)),
            P95(base), Rate(Errors(base), Requests(base)))
  }

  function LatencyAlert(f: Figures): Alert { Alert(HighLatency, Warning, Fraction(f.p95, 1)) }

  function ErrorAlert(f: Figures): Alert { Alert(High5xxRate, if Above(f.errors, 15) then Critical else Warning,
      f.errors) }

  function InjectionAlert(f: Figures): Alert { Alert(InjectionFailure, Warning, f.failures) }

  function SlowdownAlert(f: Figures): Alert { Alert(LatencyDegradation, Warning, Fraction(f.p95, f.baseP95)) }

  function WorseningAlert(f: Figures): Alert {
    Alert(ErrorRateDegradation, Warning, Fraction(f.errors.num * f.baseErrors.den, f.errors.den * f.baseErrors.num))
  }

  /** Without baseline rows both baseline figures are 0 and the two comparisons do not fire. */
  function Rules(f: Figures): seq<Alert> {
    var latency := When([], f.p95 > 3000, LatencyAlert(f));
    var errors := When(latency, Above(f.errors, 5), ErrorAlert(f));
    var injection := When(errors, Above(f.failures, 2), InjectionAlert(f));
    var slowdown := When(injection, f.baseP95 > 0 && f.p95 > 2 * f.baseP95, SlowdownAlert(f));
    When(slowdown, Doubled(f.errors, f.baseErrors), WorseningAlert(f))
  }

  function Alarms(ms: seq<Metric>, d: int, now: int): seq<Alert> {
    Rules(FiguresOf(Window(ms, d, now), Baseline(ms, d, now)))
  }

  /** A cycle is evaluated only when the window holds rows with at least one request. */
  predicate IsEvaluated(ms: seq<Metric>, d: int, now: int) {
    var window := Window(ms, d, now);
    window != [] && Requests(window) != 0
  }

  function Analysed(t: seq<Row>, ms: seq<Metric>, d: int, now: int): seq<Row> {
    if IsEvaluated(ms, d, now) then Cycle(t, d, Alarms(ms, d, now), now) else t
  }

  /** `analyseDomain` for a domain that exists */
  method AnalyseDomain(table: AlertTable, ms: seq<Metric>, d: int, now: int) returns (dispatched: seq<Alert>)
    modifies table
    ensures table.rows == Analysed(old(table.rows), ms, d, now)
    ensures dispatched
         == if IsEvaluated(ms, d, now) then Dispatchable(old(table.rows), d, Alarms(ms, d, now), now) else []
  {
    dispatched := [];
    var window := Window(ms, d, now);
    if window == [] || Requests(window) == 0 {
      return;
    }
    var alerts := CheckRules(window, Baseline(ms, d, now));
    dispatched := table.ProcessAlerts(d, alerts, now);
    table.CheckRecovery(d, Kinds(alerts), now);
  }

  method CheckRules(window: seq<Metric>, base: seq<Metric>) returns (alerts: seq<Alert>)
    ensures alerts == Rules(FiguresOf(window, base))
  {
    var merged := MergeWindow(Latencies(window));
    var p95 := PercentileFromHistogram(merged, 0, 95.0);
    var errors := Rate(Errors(window), Requests(window));
    var failures := Rate(Failures(window), Attempts(window));
    var baseP95, baseErrors := 0, Fraction(0, 1);
    if base != [] {
      var baseMerged := MergeWindow(Latencies(base));
      baseP95 := PercentileFromHistogram(baseMerged, 0, 95.0);
      baseErrors := Rate(Errors(base), Requests(base));
    } else {
      NoBaseline();
    }
    alerts := Compare(Figures(p95, errors, failures, baseP95, baseErrors));
  }

  lemma NoBaseline()
    ensures P95([]) == 0
    ensures Rate(Errors([]), Requests([])) == Fraction(0, 1)
  {
    assert Latencies([]) == [];
    TotalOfRaw([]);
    MergeIsClassification([], []);
    assert Histograms([]) == [];
  }

  method Compare(f: Figures) returns (alerts: seq<Alert>)
    ensures alerts == Rules(f)
  {
    alerts := [];
    if f.p95 > 3000 {
      alerts := alerts + [LatencyAlert(f)];
    }
    if Above(f.errors, 5) {
      alerts := alerts + [ErrorAlert(f)];
    }
    if Above(f.failures, 2) {
      alerts := alerts + [InjectionAlert(f)];
    }
    if f.baseP95 > 0 && f.p95 > 2 * f.baseP95 {
      alerts := alerts + [SlowdownAlert(f)];
    }
    if Doubled(f.errors, f.baseErrors) {
      alerts := alerts + [WorseningAlert(f)];
    }
  }

  lemma WhenKinds(before: seq<Alert>, condition: bool, a: Alert)
    requires DistinctKinds(before) && a.kind !in Kinds(before)
    ensures DistinctKinds(When(before, condition, a))
    ensures Kinds(When(before, condition, a)) == Kinds(before) + if condition then {a.kind} else {}
  {
    if condition {
      assert forall i :: 0 <= i < |before| ==> before[i] in before && before[i].kind in Kinds(before);
      KindsAppend(before, a);
    }
  }

  /** Which rules fire; and no rule fires a type twice. */
  lemma RulesMean(f: Figures)
    ensures DistinctKinds(Rules(f))
    ensures HighLatency in Kinds(Rules(f)) <==> f.p95 > 3000
    ensures High5xxRate in Kinds(Rules(f)) <==> Above(f.errors, 5)
    ensures InjectionFailure in Kinds(Rules(f)) <==> Above(f.failures, 2)
    ensures LatencyDegradation in Kinds(Rules(f)) <==> f.baseP95 > 0 && f.p95 > 2 * f.baseP95
    ensures ErrorRateDegradation in Kinds(Rules(f)) <==> Doubled(f.errors, f.baseErrors)
  {
    FiveRules(f.p95 > 3000, LatencyAlert(f), Above(f.errors, 5), ErrorAlert(f), Above(f.failures, 2), InjectionAlert(f),
              f.baseP95 > 0 && f.p95 > 2 * f.baseP95, SlowdownAlert(f), Doubled(f.errors, f.baseErrors),
              WorseningAlert(f));
  }

  lemma FiveRules(c1: bool, a1: Alert, c2: bool, a2: Alert, c3: bool, a3: Alert, c4: bool, a4: Alert, c5: bool,
      a5: Alert)
    requires a1.kind == HighLatency && a2.kind == High5xxRate && a3.kind == InjectionFailure
    requires a4.kind == LatencyDegradation && a5.kind == ErrorRateDegradation
    ensures
      var all := When(When(When(When(When([], c1, a1), c2, a2), c3, a3), c4, a4), c5, a5);
      && DistinctKinds(all)
      && (HighLatency in Kinds(all) <==> c1)
      && (High5xxRate in Kinds(all) <==> c2)
      && (InjectionFailure in Kinds(all) <==> c3)
      && (LatencyDegradation in Kinds(all) <==> c4)
      && (ErrorRateDegradation in Kinds(all) <==> c5)
  {
    var s1 := When([], c1, a1);
    var s2 := When(s1, c2, a2);
    var s3 := When(s2, c3, a3);
    var s4 := When(s3, c4, a4);
    WhenKinds([], c1, a1);
    WhenKinds(s1, c2, a2);
    WhenKinds(s2, c3, a3);
    WhenKinds(s3, c4, a4);
    WhenKinds(s4, c5, a5);
  }

  /** After an evaluated cycle an alert type is active exactly when its rule fired. */
  lemma ActiveIffAlarm(t: seq<Row>, ms: seq<Metric>, d: int, now: int, kind: AlertType)
    requires IsEvaluated(ms, d, now)
    ensures HasActive(Analysed(t, ms, d, now), d, kind) <==> kind in Kinds(Alarms(ms, d, now))
  {
    ActiveAreFired(t, d, Alarms(ms, d, now), now);
  }

  // ---------------------------------------------------------------- from the rows of the metric table

  /** A row of domain d whose bucket lies between two times, both included; no upper end means now. */
  predicate Within(m: Metric, d: int, from: int, to: Option<int>) {
    m.domainId == d && from <= m.bucket && (to.Some? ==> m.bucket <= to.value)
  }

  /** A field summed over the rows of domain d in a stretch of time. */
  function SumOver(ms: seq<Metric>, d: int, from: int, to: Option<int>, field: Metric -> nat): nat {
    if ms == [] then 0
    else
      var last := ms[|ms| - 1];
      SumOver(ms[..|ms| - 1], d, from, to, field) + if Within(last, d, from, to) then field(last) else 0
  }

  /** The raw latencies of the rows of domain d in a stretch of time, row by row; raw[i] stands for the
      requests counted in row i. */
  function RawOver(ms: seq<Metric>, raw: seq<seq<int>>, d: int, from: int, to: Option<int>): seq<seq<int>>
    requires |raw| == |ms|
  {
    if ms == [] then []
    else
      var n := |ms| - 1;
      RawOver(ms[..n], raw[..n], d, from, to) + if Within(ms[n], d, from, to) then [raw[n]] else []
  }

  /** The window reaches back 5 minutes, the baseline from 20 to 5 minutes ago. */
  function Recent(ms: seq<Metric>, d: int, now: int, field: Metric -> nat): nat {
    SumOver(ms, d, now - 300, None, field)
  }

  function Before(ms: seq<Metric>, d: int, now: int, field: Metric -> nat): nat {
    SumOver(ms, d, now - 1200, Some(now - 300), field)
  }

  lemma WindowSnoc(ms: seq<Metric>, m: Metric, d: int, now: int)
    ensures Window(ms + [m], d, now) == Window(ms, d, now) + if Within(m, d, now - 300, None) then [m] else []
  {
    FilterSnoc(ms, m, (x: Metric) => x.domainId == d && x.bucket >= now - Minutes(WINDOW));
    assert Window(ms, d, now) + [] == Window(ms, d, now);
  }

  lemma BaselineSnoc(ms: seq<Metric>, m: Metric, d: int, now: int)
    ensures Baseline(ms + [m], d, now)
         == Baseline(ms, d, now) + if Within(m, d, now - 1200, Some(now - 300)) then [m] else []
  {
    FilterSnoc(ms, m, (x: Metric) =>
      x.domainId == d && now - Minutes(WINDOW + BASELINE_WINDOW) <= x.bucket <= now - Minutes(WINDOW));
    assert Baseline(ms, d, now) + [] == Baseline(ms, d, now);
  }

  lemma {:induction false} SumSnoc(ms: seq<Metric>, m: Metric, field: Metric -> nat)
    ensures Sum(ms + [m], field) == Sum(ms, field) + field(m)
  {
    if ms == [] {
      assert ms + [m] == [m];
    } else {
      assert (ms + [m])[1..] == ms[1..] + [m];
      SumSnoc(ms[1..], m, field);
    }
  }

  lemma {:induction false} WindowSum(ms: seq<Metric>, d: int, now: int, f: Metric -> nat, g: Metric -> nat)
    requires forall m :: f(m) == g(m)
    ensures Sum(Window(ms, d, now), f) == Recent(ms, d, now, g)
  {
    if ms != [] {
      var init, last := ms[..|ms| - 1], ms[|ms| - 1];
      assert ms == init + [last];
      WindowSum(init, d, now, f, g);
      WindowSnoc(init, last, d, now);
      SumSnoc(Window(init, d, now), last, f);
      assert Window(init, d, now) + [] == Window(init, d, now);
    }
  }

  lemma {:induction false} BaselineSum(ms: seq<Metric>, d: int, now: int, f: Metric -> nat, g: Metric -> nat)
    requires forall m :: f(m) == g(m)
    ensures Sum(Baseline(ms, d, now), f) == Before(ms, d, now, g)
  {
    if ms != [] {
      var init, last := ms[..|ms| - 1], ms[|ms| - 1];
      assert ms == init + [last];
      BaselineSum(init, d, now, f, g);
      BaselineSnoc(init, last, d, now);
      SumSnoc(Baseline(init, d, now), last, f);
      assert Baseline(init, d, now) + [] == Baseline(init, d, now);
    }
  }

  /** The counts the rules work on, read off the table. */
  lemma WindowCounts(ms: seq<Metric>, d: int, now: int)
    ensures Requests(Window(ms, d, now)) == Recent(ms, d, now, (m: Metric) => m.requestCount)
    ensures Errors(Window(ms, d, now)) == Recent(ms, d, now, (m: Metric) => m.status5xx)
    ensures Attempts(Window(ms, d, now)) == Recent(ms, d, now, (m: Metric) => m.injectAttempted)
    ensures Failures(Window(ms, d, now)) == Recent(ms, d, now, (m: Metric) => m.injectFailed)
  {
    WindowSum(ms, d, now, (m: Metric) => m.requestCount, (m: Metric) => m.requestCount);
    WindowSum(ms, d, now, (m: Metric) => m.status5xx, (m: Metric) => m.status5xx);
    WindowSum(ms, d, now, (m: Metric) => m.injectAttempted, (m: Metric) => m.injectAttempted);
    WindowSum(ms, d, now, (m: Metric) => m.injectFailed, (m: Metric) => m.injectFailed);
  }

  lemma BaselineCounts(ms: seq<Metric>, d: int, now: int)
    ensures Requests(Baseline(ms, d, now)) == Before(ms, d, now, (m: Metric) => m.requestCount)
    ensures Errors(Baseline(ms, d, now)) == Before(ms, d, now, (m: Metric) => m.status5xx)
  {
    BaselineSum(ms, d, now, (m: Metric) => m.requestCount, (m: Metric) => m.requestCount);
    BaselineSum(ms, d, now, (m: Metric) => m.status5xx, (m: Metric) => m.status5xx);
  }

  /** A cycle is evaluated exactly when the last five minutes saw a request. */
  lemma EvaluatedIff(ms: seq<Metric>, d: int, now: int)
    ensures IsEvaluated(ms, d, now) <==> Recent(ms, d, now, (m: Metric) => m.requestCount) > 0
  {
    WindowCounts(ms, d, now);
  }

  predicate LatencyBatches(ms: seq<Metric>, raw: seq<seq<int>>) {
    |ms| == |raw| && forall i :: 0 <= i < |ms| ==> ms[i].latency == HistogramOf(raw[i])
  }

  lemma LatenciesSnoc(ms: seq<Metric>, m: Metric)
    ensures Latencies(ms + [m]) == Latencies(ms) + [m.latency]
  {
  }

  lemma HistogramsSnoc(batches: seq<seq<int>>, batch: seq<int>)
    ensures Histograms(batches + [batch]) == Histograms(batches) + [HistogramOf(batch)]
  {
  }

  /** One more row on either side. */
  lemma RawStep(ms: seq<Metric>, batches: seq<seq<int>>, m: Metric, batch: seq<int>, within: bool)
    requires Latencies(ms) == Histograms(batches) && m.latency == HistogramOf(batch)
    ensures Latencies(ms + if within then [m] else []) == Histograms(batches + if within then [batch] else [])
  {
    if within {
      LatenciesSnoc(ms, m);
      HistogramsSnoc(batches, batch);
    } else {
      assert ms + [] == ms && batches + [] == batches;
    }
  }

  lemma {:induction false} WindowRaw(ms: seq<Metric>, raw: seq<seq<int>>, d: int, now: int)
    requires LatencyBatches(ms, raw)
    ensures Latencies(Window(ms, d, now)) == Histograms(RawOver(ms, raw, d, now - 300, None))
  {
    if ms != [] {
      var n := |ms| - 1;
      assert ms == ms[..n] + [ms[n]];
      WindowRaw(ms[..n], raw[..n], d, now);
      WindowSnoc(ms[..n], ms[n], d, now);
      RawStep(Window(ms[..n], d, now), RawOver(ms[..n], raw[..n], d, now - 300, None), ms[n], raw[n],
              Within(ms[n], d, now - 300, None));
    }
  }

  lemma {:induction false} BaselineRaw(ms: seq<Metric>, raw: seq<seq<int>>, d: int, now: int)
    requires LatencyBatches(ms, raw)
    ensures Latencies(Baseline(ms, d, now)) == Histograms(RawOver(ms, raw, d, now - 1200, Some(now - 300)))
  {
    if ms != [] {
      var n := |ms| - 1;
      assert ms == ms[..n] + [ms[n]];
      BaselineRaw(ms[..n], raw[..n], d, now);
      BaselineSnoc(ms[..n], ms[n], d, now);
      RawStep(Baseline(ms[..n], d, now), RawOver(ms[..n], raw[..n], d, now - 1200, Some(now - 300)), ms[n], raw[n],
              Within(ms[n], d, now - 1200, Some(now - 300)));
    }
  }

  // ---------------------------------------------------------------- the five rules, from rows to alert table

  /** From raw requests to the alert table: after an evaluated cycle the domain has an active
      high-latency alert exactly when strictly more than 5% of the requests of the last five minutes
      took at least 2000 ms. */
  lemma HighLatencyAlert(t: seq<Row>, ms: seq<Metric>, d: int, now: int, raw: seq<seq<int>>)
    requires IsEvaluated(ms, d, now) && LatencyBatches(ms, raw)
    ensures
      var recent := Flatten(RawOver(ms, raw, d, now - 300, None));
      HasActive(Analysed(t, ms, d, now), d, HighLatency) <==> 100 * Slow(recent) > 5 * |recent|
  {
    var batches := RawOver(ms, raw, d, now - 300, None);
    ActiveIffAlarm(t, ms, d, now, HighLatency);
    WindowRaw(ms, raw, d, now);
    HighLatencyIff(batches, Flatten(batches));
    RulesMean(FiguresOf(Window(ms, d, now), Baseline(ms, d, now)));
  }

  /** The server-error alert: active after an evaluated cycle exactly when strictly more than 5% of the
      requests of the last five minutes ended in a 5xx status. */
  lemma ErrorRateAlert(t: seq<Row>, ms: seq<Metric>, d: int, now: int)
    requires IsEvaluated(ms, d, now)
    ensures HasActive(Analysed(t, ms, d, now), d, High5xxRate)
       <==> 100 * Recent(ms, d, now, (m: Metric) => m.status5xx) > 5 * Recent(ms, d, now, (m: Metric) => m.requestCount)
  {
    ActiveIffAlarm(t, ms, d, now, High5xxRate);
    RulesMean(FiguresOf(Window(ms, d, now), Baseline(ms, d, now)));
    WindowCounts(ms, d, now);
  }

  /** The injection alert: active after an evaluated cycle exactly when there were injection attempts in
      the last five minutes and strictly more than 2% of them failed. */
  lemma InjectionFailureAlert(t: seq<Row>, ms: seq<Metric>, d: int, now: int)
    requires IsEvaluated(ms, d, now)
    ensures
      var attempted := Recent(ms, d, now, (m: Metric) => m.injectAttempted);
      var failed := Recent(ms, d, now, (m: Metric) => m.injectFailed);
      HasActive(Analysed(t, ms, d, now), d, InjectionFailure) <==> attempted > 0 && 100 * failed > 2 * attempted
  {
    ActiveIffAlarm(t, ms, d, now, InjectionFailure);
    RulesMean(FiguresOf(Window(ms, d, now), Baseline(ms, d, now)));
    WindowCounts(ms, d, now);
  }

  /** The midpoint of the bin of the nearest-rank 95th percentile of sorted latencies. */
  function P95Of(sorted: seq<int>): nat {
    if sorted == [] then 0
    else
      NearestRankBounds(95.0, |sorted|);
      Midpoint(ClassifyLatency(sorted[NearestRank(95.0, |sorted|) - 1]))
  }

  lemma P95OfRaw(ms: seq<Metric>, batches: seq<seq<int>>, sorted: seq<int>)
    requires Latencies(ms) == Histograms(batches)
    requires Sorted(sorted) && multiset(sorted) == multiset(Flatten(batches))
    ensures P95(ms) == P95Of(sorted)
  {
    MergeIsClassification(batches, Flatten(batches));
    P95OfData(Flatten(batches), sorted);
  }

  lemma P95OfData(all: seq<int>, sorted: seq<int>)
    requires Sorted(sorted) && multiset(sorted) == multiset(all)
    ensures Percentile(HistogramOf(all), 95.0) == P95Of(sorted)
  {
    SameLength(all, sorted);
    if sorted == [] {
      TotalOfRaw([]);
    } else {
      PercentileRefinesSorted(all, sorted, 95.0);
    }
  }

  lemma SameLength(xs: seq<int>, ys: seq<int>)
    requires multiset(xs) == multiset(ys)
    ensures |xs| == |ys| && (ys == [] ==> xs == [])
  {
    assert |multiset(xs)| == |xs| && |multiset(ys)| == |ys|;
  }

  lemma P95Positive(sorted: seq<int>)
    ensures P95Of(sorted) > 0 <==> sorted != []
  {
  }

  /** The degradation alert on latency: active after an evaluated cycle exactly when there were requests
      in the quarter of an hour before and the recent p95 is more than twice theirs. */
  lemma LatencyDegradationAlert(t: seq<Row>, ms: seq<Metric>, d: int, now: int, raw: seq<seq<int>>,
                                recent: seq<int>, before: seq<int>)
    requires IsEvaluated(ms, d, now) && LatencyBatches(ms, raw) && Sorted(recent) && Sorted(before)
    requires multiset(recent) == multiset(Flatten(RawOver(ms, raw, d, now - 300, None)))
    requires multiset(before) == multiset(Flatten(RawOver(ms, raw, d, now - 1200, Some(now - 300))))
    ensures HasActive(Analysed(t, ms, d, now), d, LatencyDegradation)
       <==> before != [] && P95Of(recent) > 2 * P95Of(before)
  {
    ActiveIffAlarm(t, ms, d, now, LatencyDegradation);
    RulesMean(FiguresOf(Window(ms, d, now), Baseline(ms, d, now)));
    WindowRaw(ms, raw, d, now);
    BaselineRaw(ms, raw, d, now);
    P95OfRaw(Window(ms, d, now), RawOver(ms, raw, d, now - 300, None), recent);
    P95OfRaw(Baseline(ms, d, now), RawOver(ms, raw, d, now - 1200, Some(now - 300)), before);
    P95Positive(before);
  }

  /** The degradation alert on errors: active after an evaluated cycle exactly when the quarter of an
      hour before had errors and the recent share of errors is more than twice its share, compared
      without dividing. */
  lemma ErrorRateDegradationAlert(t: seq<Row>, ms: seq<Metric>, d: int, now: int)
    requires IsEvaluated(ms, d, now)
    ensures
      var errors := Recent(ms, d, now, (m: Metric) => m.status5xx);
      var requests := Recent(ms, d, now, (m: Metric) => m.requestCount);
      var errorsBefore := Before(ms, d, now, (m: Metric) => m.status5xx);
      var requestsBefore := Before(ms, d, now, (m: Metric) => m.requestCount);
      HasActive(Analysed(t, ms, d, now), d, ErrorRateDegradation)
      <==> requestsBefore > 0 && errorsBefore > 0 && errors * requestsBefore > 2 * (errorsBefore * requests)
  {
    ActiveIffAlarm(t, ms, d, now, ErrorRateDegradation);
    RulesMean(FiguresOf(Window(ms, d, now), Baseline(ms, d, now)));
    WindowCounts(ms, d, now);
    BaselineCounts(ms, d, now);
  }

  /** What each fired alert carries: a latency in milliseconds, a rate, or how many times the baseline. */
  ghost predicate Carries(a: Alert, f: Figures) {
    match a.kind
    case HighLatency => a.severity == Warning && a.value == Fraction(f.p95, 1)
    case High5xxRate =>
      && a.severity == (if 100 * f.errors.num > 15 * f.errors.den then Critical else Warning)
      && a.value == f.errors
    case InjectionFailure => a.severity == Warning && a.value == f.failures
    case LatencyDegradation => a.severity == Warning && a.value == Fraction(f.p95, f.baseP95)
    case ErrorRateDegradation =>
      && a.severity == Warning
      && a.value.num == f.errors.num * f.baseErrors.den
      && a.value.den == f.errors.den * f.baseErrors.num
  }

  lemma RulesCarry(f: Figures, a: Alert)
    requires a in Rules(f)
    ensures Carries(a, f)
    ensures a.kind in Kinds(Rules(f))
  {
  }

  /** The figures of an evaluated cycle, as counts of the table: the error rate is critical exactly above
      15%, and the rates carried are the counts' own. */
  lemma AlarmsCarry(ms: seq<Metric>, d: int, now: int, a: Alert)
    requires IsEvaluated(ms, d, now) && a in Alarms(ms, d, now)
    ensures
      var errors := Recent(ms, d, now, (m: Metric) => m.status5xx);
      var requests := Recent(ms, d, now, (m: Metric) => m.requestCount);
      var attempted := Recent(ms, d, now, (m: Metric) => m.injectAttempted);
      var failed := Recent(ms, d, now, (m: Metric) => m.injectFailed);
      && (a.severity == Critical <==> a.kind == High5xxRate && 100 * errors > 15 * requests)
      && (a.severity == Critical || a.severity == Warning)
      && (a.kind == High5xxRate ==> a.value == Fraction(errors, requests))
      && (a.kind == InjectionFailure ==> a.value == Fraction(failed, attempted))
  {
    var f := FiguresOf(Window(ms, d, now), Baseline(ms, d, now));
    RulesCarry(f, a);
    RulesMean(f);
    WindowCounts(ms, d, now);
  }

  /** A latency alert carries the nearest-rank 95th percentile of the raw latencies of the last five
      minutes, a degradation alert that percentile over the one of the quarter of an hour before. */
  lemma LatenciesCarried(ms: seq<Metric>, d: int, now: int, raw: seq<seq<int>>, recent: seq<int>, before: seq<int>,
                         a: Alert)
    requires LatencyBatches(ms, raw) && Sorted(recent) && Sorted(before) && a in Alarms(ms, d, now)
    requires multiset(recent) == multiset(Flatten(RawOver(ms, raw, d, now - 300, None)))
    requires multiset(before) == multiset(Flatten(RawOver(ms, raw, d, now - 1200, Some(now - 300))))
    ensures a.kind == HighLatency ==> a.value == Fraction(P95Of(recent), 1)
    ensures a.kind == LatencyDegradation ==> a.value == Fraction(P95Of(recent), P95Of(before))
  {
    RulesCarry(FiguresOf(Window(ms, d, now), Baseline(ms, d, now)), a);
    WindowRaw(ms, raw, d, now);
    BaselineRaw(ms, raw, d, now);
    P95OfRaw(Window(ms, d, now), RawOver(ms, raw, d, now - 300, None), recent);
    P95OfRaw(Baseline(ms, d, now), RawOver(ms, raw, d, now - 1200, Some(now - 300)), before);
  }

  /** The degradation alert on errors carries the recent share of errors over the earlier one. */
  lemma ErrorsCarried(ms: seq<Metric>, d: int, now: int, a: Alert)
    requires IsEvaluated(ms, d, now) && a in Alarms(ms, d, now) && a.kind == ErrorRateDegradation
    ensures
      var errors := Recent(ms, d, now, (m: Metric) => m.status5xx);
      var requests := Recent(ms, d, now, (m: Metric) => m.requestCount);
      var errorsBefore := Before(ms, d, now, (m: Metric) => m.status5xx);
      var requestsBefore := Before(ms, d, now, (m: Metric) => m.requestCount);
      a.value.num == errors * requestsBefore && a.value.den == requests * errorsBefore
  {
    var f := FiguresOf(Window(ms, d, now), Baseline(ms, d, now));
    RulesCarry(f, a);
    RulesMean(f);
    WindowCounts(ms, d, now);
    BaselineCounts(ms, d, now);
  }

  /** A window without requests leaves every alert as it was: nothing fires and nothing recovers. */
  lemma QuietWindowKeepsAlerts(t: seq<Row>, ms: seq<Metric>, d: int, now: int)
    requires forall m :: m in ms && m.domainId == d && m.bucket >= now - Minutes(WINDOW) ==> m.requestCount == 0
    ensures Analysed(t, ms, d, now) == t
  {
    SumOfZeros(Window(ms, d, now), (m: Metric) => m.requestCount);
  }

  lemma {:induction false} SumOfZeros(ms: seq<Metric>, field: Metric -> nat)
    requires forall m :: m in ms ==> field(m) == 0
    ensures Sum(ms, field) == 0
  {
    if ms != [] {
      assert ms == [ms[0]] + ms[1..];
      SumOfZeros(ms[1..], field);
    }
  }
}
