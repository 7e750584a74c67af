/** Traffic alerts: how one analysis cycle and the operators' actions change the alert table.
    A table is a sequence of rows in insertion order; times are seconds. */
module Alerts {
  import opened Php
  import opened Sequences

  datatype AlertType = HighLatency | High5xxRate | InjectionFailure | LatencyDegradation | ErrorRateDegradation

  datatype Severity = Critical | Warning | Info

  datatype State = Open | Suppressed | Resolved

  /** An exact non-negative fraction num/den. */
  datatype Fraction = Fraction(num: nat, den: nat)

  datatype Alert = Alert(kind: AlertType, severity: Severity, value: Fraction)

  datatype Row = Row(
    domainId: int,
    kind: AlertType,
    state: State,
    severity: Severity,
    hitCount: nat,
    latestValue: Fraction,
    firstFiredAt: int,
    lastFiredAt: int,
    suppressedUntil: Option<int>,
    resolvedAt: Option<int>)

  function Minutes(n: int): int { 60 * n }

  function CooldownMinutes(s: Severity): nat {
    match s
    case Critical => 10
    case Warning => 20
    case Info => 30
  }

  predicate IsSuppressed(r: Row, now: int) {
    r.state == Suppressed && r.suppressedUntil.Some? && r.suppressedUntil.value > now
  }

  predicate Active(r: Row) { r.state != Resolved }

  predicate IsRow(r: Row, d: int, kind: AlertType) { r.domainId == d && r.kind == kind }

  /** The first row of (d, kind). */
  function Find(t: seq<Row>, d: int, kind: AlertType): (r: Option<nat>)
    ensures r.None? ==> forall i :: 0 <= i < |t| ==> !IsRow(t[i], d, kind)
    ensures r.Some? ==> r.value < |t| && IsRow(t[r.value], d, kind)
    ensures r.Some? ==> forall i :: 0 <= i < r.value ==> !IsRow(t[i], d, kind)
  {
    if t == [] then None
    else
      var init := Find(t[..|t| - 1], d, kind);
      if init.Some? then init
      else if IsRow(t[|t| - 1], d, kind) then Some(|t| - 1)
      else None
  }

  // ---------------------------------------------------------------- one fired alert

  function NewRow(d: int, a: Alert, now: int): Row {
    Row(d, a.kind, Open, a.severity, 1, a.value, now, now, Some(now + Minutes(CooldownMinutes(a.severity))), None)
  }

  function Reopened(r: Row, a: Alert, now: int): Row {
    r.(state := Open, severity := a.severity, hitCount := 1, latestValue := a.value, firstFiredAt := now,
       lastFiredAt := now, suppressedUntil := Some(now + Minutes(CooldownMinutes(a.severity))), resolvedAt := None)
  }

  function Refreshed(r: Row, a: Alert, now: int): Row {
    r.(hitCount := r.hitCount + 1, latestValue := a.value, lastFiredAt := now, severity := a.severity)
  }

  function FiredRow(r: Row, a: Alert, now: int): Row {
    if r.state == Resolved then Reopened(r, a, now)
    else if IsSuppressed(r, now) then Refreshed(r, a, now)
    else Refreshed(r, a, now).(state := Open, suppressedUntil := Some(now + Minutes(CooldownMinutes(a.severity))))
  }

  function Fired(t: seq<Row>, d: int, a: Alert, now: int): seq<Row> {
    var p := Find(t, d, a.kind);
    if p.None? then t + [NewRow(d, a, now)] else t[p.value := FiredRow(t[p.value], a, now)]
  }

  /** A fired alert is held back exactly when its row is snoozed into the future. */
  predicate Withheld(t: seq<Row>, d: int, kind: AlertType, now: int) {
    var p := Find(t, d, kind);
    p.Some? && IsSuppressed(t[p.value], now)
  }

  function FiredAll(t: seq<Row>, d: int, alerts: seq<Alert>, now: int): seq<Row> {
    if alerts == [] then t else Fired(FiredAll(t, d, alerts[..|alerts| - 1], now), d, alerts[|alerts| - 1], now)
  }

  /** The alerts handed to dispatch, each judged against the table as the earlier alerts left it. */
  function Dispatchable(t: seq<Row>, d: int, alerts: seq<Alert>, now: int): seq<Alert> {
    if alerts == [] then []
    else
      var init, a := alerts[..|alerts| - 1], alerts[|alerts| - 1];
      Dispatchable(t, d, init, now) + if Withheld(FiredAll(t, d, init, now), d, a.kind, now) then [] else [a]
  }

  function RecoveredRow(r: Row, d: int, kinds: set<AlertType>, now: int): Row {
    if r.domainId == d && Active(r) && r.kind !in kinds then r.(state := Resolved, resolvedAt := Some(now)) else r
  }

  function Recovered(t: seq<Row>, d: int, kinds: set<AlertType>, now: int): (r: seq<Row>)
    ensures |r| == |t|
  {
    seq(|t|, i requires 0 <= i < |t| => RecoveredRow(t[i], d, kinds, now))
  }

  function Kinds(alerts: seq<Alert>): set<AlertType> { set a <- alerts :: a.kind }

  /** One evaluated analysis cycle of domain d. */
  function Cycle(t: seq<Row>, d: int, alerts: seq<Alert>, now: int): seq<Row> {
    Recovered(FiredAll(t, d, alerts, now), d, Kinds(alerts), now)
  }

  class AlertTable {
    var rows: seq<Row>

    constructor ()
      ensures rows == []
    {
      rows := [];
    }

    /** The loop body of `processAlerts`; the result says whether the alert goes to dispatch. */
    method ProcessAlert(d: int, a: Alert, now: int) returns (send: bool)
      modifies this
      ensures rows == Fired(old(rows), d, a, now)
      ensures send == !Withheld(old(rows), d, a.kind, now)
    {
      var existing := Find(rows, d, a.kind);
      if existing.None? {
        rows := rows + [NewRow(d, a, now)];
        return true;
      }
      var p := existing.value;
      if rows[p].state == Resolved {
        rows := rows[p := Reopened(rows[p], a, now)];
        return true;
      }
      rows := rows[p := Refreshed(rows[p], a, now)];
      if IsSuppressed(rows[p], now) {
        return false;
      }
      var window := Some(now + Minutes(CooldownMinutes(a.severity)));
      rows := rows[p := rows[p].(state := Open, suppressedUntil := window)];
      return true;
    }

    /** `processAlerts`; the result is what goes to dispatch. */
    method ProcessAlerts(d: int, alerts: seq<Alert>, now: int) returns (dispatchable: seq<Alert>)
      modifies this
      ensures rows == FiredAll(old(rows), d, alerts, now)
      ensures dispatchable == Dispatchable(old(rows), d, alerts, now)
    {
      dispatchable := [];
      for i := 0 to |alerts|
        invariant rows == FiredAll(old(rows), d, alerts[..i], now)
        invariant dispatchable == Dispatchable(old(rows), d, alerts[..i], now)
      {
        assert alerts[..i + 1][..i] == alerts[..i];
        var send := ProcessAlert(d, alerts[i], now);
        if send {
          dispatchable := dispatchable + [alerts[i]];
        }
      }
      assert alerts[..|alerts|] == alerts;
    }

    /** `checkRecovery` */
    method CheckRecovery(d: int, kinds: set<AlertType>, now: int)
      modifies this
      ensures rows == Recovered(old(rows), d, kinds, now)
    {
      for i := 0 to |rows|
        invariant |rows| == |old(rows)|
        invariant forall j :: 0 <= j < |rows| ==>
                    rows[j] == if j < i then RecoveredRow(old(rows)[j], d, kinds, now) else old(rows)[j]
      {
        var r := rows[i];
        if r.domainId == d && (r.state == Open || r.state == Suppressed) && r.kind !in kinds {
          rows := rows[i := r.(state := Resolved, resolvedAt := Some(now))];
        }
      }
    }

    /** The operator actions; acknowledging and noting only write the action log. */
    method Act(p: nat, action: Action, now: int)
      requires p < |rows|
      modifies this
      ensures rows == old(rows)[p := ActedRow(old(rows)[p], action, now)]
    {
      match action {
        case Snooze(minutes) =>
          rows := rows[p := rows[p].(state := Suppressed, suppressedUntil := Some(now + Minutes(minutes)))];
        case ManualResolve =>
          rows := rows[p := rows[p].(state := Resolved, resolvedAt := Some(now))];
        case Reopen =>
          rows := rows[p := rows[p].(state := Open, resolvedAt := None)];
        case Acknowledge =>
        case AddNote =>
      }
    }
  }

  datatype Action = Snooze(minutes: int) | ManualResolve | Reopen | Acknowledge | AddNote

  function ActedRow(r: Row, action: Action, now: int): Row {
    match action
    case Snooze(minutes) => r.(state := Suppressed, suppressedUntil := Some(now + Minutes(minutes)))
    case ManualResolve => r.(state := Resolved, resolvedAt := Some(now))
    case Reopen => r.(state := Open, resolvedAt := None)
    case Acknowledge => r
    case AddNote => r
  }

  // ---------------------------------------------------------------- one cycle

  ghost predicate OneRowEach(t: seq<Row>) {
    forall i, j :: 0 <= i < j < |t| ==> !(t[i].domainId == t[j].domainId && t[i].kind == t[j].kind)
  }

  ghost predicate HasActive(t: seq<Row>, d: int, kind: AlertType) {
    exists i :: 0 <= i < |t| && t[i].domainId == d && t[i].kind == kind && Active(t[i])
  }

  /** u continues t: rows keep their place and key, rows of other domains keep everything, and every
      added row belongs to d. */
  ghost predicate Continues(t: seq<Row>, u: seq<Row>, d: int) {
    && |t| <= |u|
    && (forall i :: 0 <= i < |t| ==>
          u[i].domainId == t[i].domainId && u[i].kind == t[i].kind && (t[i].domainId != d ==> u[i] == t[i]))
    && (forall i :: |t| <= i < |u| ==> u[i].domainId == d)
  }

  lemma FiredContinues(t: seq<Row>, u: seq<Row>, d: int, a: Alert, now: int)
    requires Continues(t, u, d)
    ensures
      var v := Fired(u, d, a, now);
      && Continues(t, v, d)
      && (OneRowEach(u) ==> OneRowEach(v))
      && (forall i :: 0 <= i < |u| && u[i].kind != a.kind ==> v[i] == u[i])
      && (forall i :: |u| <= i < |v| ==> v[i].kind == a.kind)
  {
  }

  lemma {:induction false} FiredAllMeans(t: seq<Row>, d: int, alerts: seq<Alert>, now: int)
    ensures
      var u := FiredAll(t, d, alerts, now);
      && Continues(t, u, d)
      && (OneRowEach(t) ==> OneRowEach(u))
      && (forall i :: 0 <= i < |t| && t[i].domainId == d && t[i].kind !in Kinds(alerts) ==> u[i] == t[i])
      && (forall i :: |t| <= i < |u| ==> u[i].kind in Kinds(alerts))
  {
    if alerts != [] {
      var init, a := alerts[..|alerts| - 1], alerts[|alerts| - 1];
      var before := FiredAll(t, d, init, now);
      var u := FiredAll(t, d, alerts, now);
      assert alerts == init + [a];
      KindsAppend(init, a);
      FiredAllMeans(t, d, init, now);
      FiredContinues(t, before, d, a, now);
      forall i | |t| <= i < |u| ensures u[i].kind in Kinds(alerts) {
        if i < |before| && u[i] != before[i] { assert u[i].kind == a.kind; }
      }
    }
  }

  /** Every type that fired has an active row. */
  lemma {:induction false} FiredAllActive(t: seq<Row>, d: int, alerts: seq<Alert>, now: int, kind: AlertType)
    requires kind in Kinds(alerts)
    ensures HasActive(FiredAll(t, d, alerts, now), d, kind)
  {
    var init, a := alerts[..|alerts| - 1], alerts[|alerts| - 1];
    assert alerts == init + [a];
    KindsAppend(init, a);
    if kind != a.kind { FiredAllActive(t, d, init, now, kind); }
    FiredKeepsActive(FiredAll(t, d, init, now), d, a, now, kind);
  }

  lemma FiredKeepsActive(t: seq<Row>, d: int, a: Alert, now: int, kind: AlertType)
    requires HasActive(t, d, kind) || kind == a.kind
    ensures HasActive(Fired(t, d, a, now), d, kind)
  {
    var u := Fired(t, d, a, now);
    var p := Find(t, d, a.kind);
    if kind == a.kind {
      assert Active(u[if p.None? then |t| else p.value]);
    } else {
      var i :| 0 <= i < |t| && t[i].domainId == d && t[i].kind == kind && Active(t[i]);
      assert u[i] == t[i];
    }
  }

  /** After every evaluated cycle the domain's active alert types are exactly the types that fired,
      there is still at most one row per domain and type, and other domains are untouched. */
  lemma ActiveAreFired(t: seq<Row>, d: int, alerts: seq<Alert>, now: int)
    ensures
      var u := Cycle(t, d, alerts, now);
      && Continues(t, u, d)
      && (OneRowEach(t) ==> OneRowEach(u))
      && (forall kind :: HasActive(u, d, kind) <==> kind in Kinds(alerts))
  {
    FiredAllMeans(t, d, alerts, now);
    var fired, u := FiredAll(t, d, alerts, now), Cycle(t, d, alerts, now);
    forall kind ensures HasActive(u, d, kind) <==> kind in Kinds(alerts) {
      if kind in Kinds(alerts) {
        FiredAllActive(t, d, alerts, now, kind);
        var i :| 0 <= i < |fired| && fired[i].domainId == d && fired[i].kind == kind && Active(fired[i]);
        assert u[i] == fired[i];
      }
    }
  }

  ghost predicate DistinctKinds(alerts: seq<Alert>) {
    forall i, j :: 0 <= i < j < |alerts| ==> alerts[i].kind != alerts[j].kind
  }

  /** Firing other types leaves a type's row where and as it was. */
  lemma {:induction false} FindUnaffected(t: seq<Row>, d: int, alerts: seq<Alert>, now: int, kind: AlertType)
    requires kind !in Kinds(alerts)
    ensures
      var u := FiredAll(t, d, alerts, now);
      && Find(u, d, kind) == Find(t, d, kind)
      && (Find(t, d, kind).Some? ==> u[Find(t, d, kind).value] == t[Find(t, d, kind).value])
  {
    FiredAllMeans(t, d, alerts, now);
    FindSame(t, FiredAll(t, d, alerts, now), d, kind);
  }

  /** A longer table that keeps the rows of (d, kind) and adds none. */
  lemma FindSame(t: seq<Row>, u: seq<Row>, d: int, kind: AlertType)
    requires |t| <= |u|
    requires forall i :: 0 <= i < |t| ==> (IsRow(u[i], d, kind) <==> IsRow(t[i], d, kind))
    requires forall i :: 0 <= i < |t| && IsRow(t[i], d, kind) ==> u[i] == t[i]
    requires forall i :: |t| <= i < |u| ==> !IsRow(u[i], d, kind)
    ensures Find(u, d, kind) == Find(t, d, kind)
    ensures Find(t, d, kind).Some? ==> u[Find(t, d, kind).value] == t[Find(t, d, kind).value]
  {
    var p, q := Find(t, d, kind), Find(u, d, kind);
    if p.Some? { assert IsRow(u[p.value], d, kind); }
    if q.Some? { assert IsRow(t[q.value], d, kind); }
  }

  /** The alerts whose row is not snoozed strictly into the future. */
  function NotSnoozed(t: seq<Row>, d: int, alerts: seq<Alert>, now: int): seq<Alert> {
    Filter(alerts, (a: Alert) => !Withheld(t, d, a.kind, now))
  }

  /** A fired alert is withheld exactly when, before the cycle, its row was snoozed strictly into the
      future; every other fired alert is dispatched, in order. The cool-down window of an open row
      plays no part. */
  lemma {:induction false} WithheldIffSnoozed(t: seq<Row>, d: int, alerts: seq<Alert>, now: int)
    requires DistinctKinds(alerts)
    ensures Dispatchable(t, d, alerts, now) == NotSnoozed(t, d, alerts, now)
  {
    if alerts != [] {
      var init, a := alerts[..|alerts| - 1], alerts[|alerts| - 1];
      WithheldIffSnoozed(t, d, init, now);
      assert Withheld(FiredAll(t, d, init, now), d, a.kind, now) <==> Withheld(t, d, a.kind, now) by {
        WithheldUnaffected(t, d, init, now, a.kind);
      }
      assert NotSnoozed(t, d, alerts, now)
          == NotSnoozed(t, d, init, now) + if Withheld(t, d, a.kind, now) then [] else [a] by {
        assert alerts == init + [a];
        NotSnoozedSnoc(t, d, init, a, now);
      }
    }
  }

  lemma WithheldUnaffected(t: seq<Row>, d: int, alerts: seq<Alert>, now: int, kind: AlertType)
    requires forall i :: 0 <= i < |alerts| ==> alerts[i].kind != kind
    ensures Withheld(FiredAll(t, d, alerts, now), d, kind, now) <==> Withheld(t, d, kind, now)
  {
    FindUnaffected(t, d, alerts, now, kind);
  }

  lemma NotSnoozedSnoc(t: seq<Row>, d: int, init: seq<Alert>, a: Alert, now: int)
    ensures NotSnoozed(t, d, init + [a], now)
         == NotSnoozed(t, d, init, now) + if Withheld(t, d, a.kind, now) then [] else [a]
  {
    FilterAppend(init, [a], (b: Alert) => !Withheld(t, d, b.kind, now));
  }

  /** The row carries the evidence of alert a, seen at `now`: while snoozed its window is still ahead,
      otherwise it is open with a cool-down window of a's severity. */
  predicate Evidence(r: Row, a: Alert, now: int) {
    && r.kind == a.kind && r.latestValue == a.value && r.severity == a.severity && r.lastFiredAt == now
    && (IsSuppressed(r, now)
        || (r.state == Open && r.suppressedUntil == Some(now + match a.severity
                                                                case Critical => 600
                                                                case Warning => 1200
                                                                case Info => 1800)))
  }

  ghost predicate HasEvidence(r: Row, alerts: seq<Alert>, now: int) {
    exists a :: a in alerts && Evidence(r, a, now)
  }

  lemma EvidenceKept(r: Row, init: seq<Alert>, a: Alert, now: int)
    requires HasEvidence(r, init, now) || Evidence(r, a, now)
    ensures HasEvidence(r, init + [a], now)
  {
    if Evidence(r, a, now) {
      assert a in init + [a];
    } else {
      var b :| b in init && Evidence(r, b, now);
      assert b in init + [a];
    }
  }

  lemma FiredEvidenceStep(t: seq<Row>, d: int, a: Alert, now: int, i: nat)
    requires OneRowEach(t) && i < |Fired(t, d, a, now)|
    requires Fired(t, d, a, now)[i].domainId == d
    ensures
      var r := Fired(t, d, a, now)[i];
      if r.kind == a.kind then Evidence(r, a, now) else i < |t| && r == t[i]
  {
  }

  lemma {:induction false} FiredEvidence(t: seq<Row>, d: int, alerts: seq<Alert>, now: int, u: seq<Row>, i: nat)
    requires OneRowEach(t) && u == FiredAll(t, d, alerts, now)
    requires i < |u| && u[i].domainId == d && u[i].kind in Kinds(alerts)
    ensures HasEvidence(u[i], alerts, now)
    decreases |alerts|
  {
    var init, a := alerts[..|alerts| - 1], alerts[|alerts| - 1];
    var before := FiredAll(t, d, init, now);
    assert OneRowEach(before) by { FiredAllMeans(t, d, init, now); }
    assert alerts == init + [a];
    FiredEvidenceStep(before, d, a, now, i);
    if u[i].kind != a.kind {
      assert u[i].kind in Kinds(init) by { KindsAppend(init, a); }
      FiredEvidence(t, d, init, now, before, i);
    }
    EvidenceKept(u[i], init, a, now);
  }

  lemma KindsAppend(init: seq<Alert>, a: Alert)
    ensures Kinds(init + [a]) == Kinds(init) + {a.kind}
  {
  }

  /** After an evaluated cycle every active row of the domain shows this cycle's evidence, snoozed
      rows included. */
  lemma ActiveRowsAreFresh(t: seq<Row>, d: int, alerts: seq<Alert>, now: int, i: nat)
    requires OneRowEach(t) && i < |Cycle(t, d, alerts, now)|
    requires Cycle(t, d, alerts, now)[i].domainId == d && Active(Cycle(t, d, alerts, now)[i])
    ensures HasEvidence(Cycle(t, d, alerts, now)[i], alerts, now)
  {
    FiredEvidence(t, d, alerts, now, FiredAll(t, d, alerts, now), i);
  }

  // ---------------------------------------------------------------- whole runs

  datatype Event =
    | Evaluated(domain: int, alerts: seq<Alert>, now: int)
    | Acted(row: nat, action: Action, now: int)

  function Apply(t: seq<Row>, e: Event): seq<Row> {
    match e
    case Evaluated(d, alerts, now) => Cycle(t, d, alerts, now)
    case Acted(p, action, now) => if p < |t| then t[p := ActedRow(t[p], action, now)] else t
  }

  /** The table after a run of events from an empty table. */
  function Run(events: seq<Event>): seq<Row> {
    if events == [] then [] else Apply(Run(events[..|events| - 1]), events[|events| - 1])
  }

  ghost predicate MonotoneClock(events: seq<Event>) {
    forall i, j :: 0 <= i < j < |events| ==> events[i].now <= events[j].now
  }

  predicate RowOk(r: Row, clock: int) {
    && r.hitCount >= 1
    && r.firstFiredAt <= r.lastFiredAt <= clock
    && (r.state == Resolved ==> r.resolvedAt.Some? && r.lastFiredAt <= r.resolvedAt.value <= clock)
  }

  ghost predicate AllOk(t: seq<Row>, clock: int) {
    forall i :: 0 <= i < |t| ==> RowOk(t[i], clock)
  }

  lemma FiredOk(t: seq<Row>, d: int, a: Alert, now: int)
    requires AllOk(t, now)
    ensures AllOk(Fired(t, d, a, now), now)
  {
  }

  lemma {:induction false} FiredAllOk(t: seq<Row>, d: int, alerts: seq<Alert>, now: int)
    requires AllOk(t, now)
    ensures AllOk(FiredAll(t, d, alerts, now), now)
  {
    if alerts != [] {
      FiredAllOk(t, d, alerts[..|alerts| - 1], now);
      FiredOk(FiredAll(t, d, alerts[..|alerts| - 1], now), d, alerts[|alerts| - 1], now);
    }
  }

  lemma CycleOk(t: seq<Row>, d: int, alerts: seq<Alert>, now: int)
    requires AllOk(t, now)
    ensures AllOk(Cycle(t, d, alerts, now), now)
  {
    FiredAllOk(t, d, alerts, now);
  }

  lemma ActedOk(t: seq<Row>, p: nat, action: Action, now: int)
    requires AllOk(t, now)
    ensures AllOk(Apply(t, Acted(p, action, now)), now)
    ensures OneRowEach(t) ==> OneRowEach(Apply(t, Acted(p, action, now)))
  {
  }

  /** Over every run of cycles and operator actions, in any order and on rows in any state, with a
      clock that does not go back: hit counts are positive, firing times are ordered, and a resolved
      row carries a resolution time no earlier than its last firing. */
  lemma {:induction false} AlertSafety(events: seq<Event>)
    requires MonotoneClock(events)
    ensures OneRowEach(Run(events))
    ensures events != [] ==> AllOk(Run(events), events[|events| - 1].now)
  {
    if events != [] {
      var init, e := events[..|events| - 1], events[|events| - 1];
      AlertSafety(init);
      var t := Run(init);
      assert AllOk(t, e.now) by {
        if init != [] { assert AllOk(t, init[|init| - 1].now); }
      }
      match e
      case Evaluated(d, alerts, now) =>
        CycleOk(t, d, alerts, now);
        ActiveAreFired(t, d, alerts, now);
      case Acted(p, action, now) =>
        ActedOk(t, p, action, now);
    }
  }

  // ---------------------------------------------------------------- what an operator's action achieves

  lemma {:induction false} OneRowAlways(events: seq<Event>)
    ensures OneRowEach(Run(events))
  {
    if events != [] {
      var init, e := events[..|events| - 1], events[|events| - 1];
      OneRowAlways(init);
      match e
      case Evaluated(d, alerts, now) =>
        ActiveAreFired(Run(init), d, alerts, now);
      case Acted(p, action, now) =>
        ActionFrame(Run(init), p, action, now);
    }
  }

  /** A run, one operator action on row p, and what comes after it. */
  function After(history: seq<Event>, p: nat, action: Action, t0: int, later: seq<Event>): seq<Event> {
    history + [Acted(p, action, t0)] + later
  }

  /** Nobody acts on row p. */
  predicate LeftAlone(later: seq<Event>, p: nat) {
    forall e :: e in later && e.Acted? ==> e.row != p
  }

  /** Every cycle of the domain fires the type. */
  predicate KeepsFiring(later: seq<Event>, d: int, kind: AlertType) {
    forall e :: e in later && e.Evaluated? && e.domain == d ==> kind in Kinds(e.alerts)
  }

  /** No cycle of the domain fires the type. */
  predicate StaysQuiet(later: seq<Event>, d: int, kind: AlertType) {
    forall e :: e in later && e.Evaluated? && e.domain == d ==> kind !in Kinds(e.alerts)
  }

  lemma AfterNone(history: seq<Event>, p: nat, action: Action, t0: int)
    ensures Run(After(history, p, action, t0, [])) == Apply(Run(history), Acted(p, action, t0))
  {
    var events := After(history, p, action, t0, []);
    assert events == history + [Acted(p, action, t0)];
    assert events[..|events| - 1] == history;
  }

  lemma AfterSnoc(history: seq<Event>, p: nat, action: Action, t0: int, later: seq<Event>, e: Event)
    ensures Run(After(history, p, action, t0, later + [e])) == Apply(Run(After(history, p, action, t0, later)), e)
  {
    var events := After(history, p, action, t0, later + [e]);
    assert events == After(history, p, action, t0, later) + [e];
    assert events[..|events| - 1] == After(history, p, action, t0, later);
  }

  /** An action on one row touches no other row, and on its own row neither the key nor the evidence. */
  lemma ActionFrame(t: seq<Row>, p: nat, action: Action, now: int)
    ensures
      var u := Apply(t, Acted(p, action, now));
      && |u| == |t|
      && (forall i :: 0 <= i < |t| && i != p ==> u[i] == t[i])
      && (p < |t| ==>
            && u[p].domainId == t[p].domainId && u[p].kind == t[p].kind
            && u[p].hitCount == t[p].hitCount && u[p].latestValue == t[p].latestValue
            && u[p].severity == t[p].severity
            && u[p].firstFiredAt == t[p].firstFiredAt && u[p].lastFiredAt == t[p].lastFiredAt
            && (action.Acknowledge? || action.AddNote? ==> u[p] == t[p]))
  {
  }

  lemma {:induction false} FiredAllSnoozed(t: seq<Row>, d: int, alerts: seq<Alert>, now: int, p: nat, until: int)
    requires OneRowEach(t) && p < |t|
    requires t[p].state == Suppressed ==> t[p].suppressedUntil == Some(until)
    ensures |FiredAll(t, d, alerts, now)| > p
    ensures
      var r := FiredAll(t, d, alerts, now)[p];
      && (r.state == Suppressed ==> t[p].state == Suppressed && r.suppressedUntil == Some(until))
      && (t[p].state == Suppressed && now < until ==> r.state == Suppressed)
  {
    if alerts != [] {
      FiredAllSnoozed(t, d, alerts[..|alerts| - 1], now, p, until);
    }
  }

  /** Where a snoozed row stands while nobody else acts on it. */
  ghost predicate Snoozing(r: Row, until: int, firing: bool, clock: int) {
    && (r.state == Suppressed ==> firing && r.suppressedUntil == Some(until))
    && (firing && clock < until ==> r.state == Suppressed)
  }

  lemma SnoozingCycle(t: seq<Row>, d: int, alerts: seq<Alert>, now: int, p: nat, until: int, firing: bool, clock: int)
    requires OneRowEach(t) && p < |t| && clock <= now && Snoozing(t[p], until, firing, clock)
    ensures |Cycle(t, d, alerts, now)| > p
    ensures
      var r := Cycle(t, d, alerts, now)[p];
      && IsRow(r, t[p].domainId, t[p].kind)
      && Snoozing(r, until, firing && (t[p].domainId == d ==> t[p].kind in Kinds(alerts)), now)
  {
    FiredAllSnoozed(t, d, alerts, now, p, until);
    FiredAllMeans(t, d, alerts, now);
  }

  lemma FiringSnoc(later: seq<Event>, e: Event, d: int, kind: AlertType)
    ensures KeepsFiring(later + [e], d, kind)
       <==> KeepsFiring(later, d, kind) && (e.Evaluated? && e.domain == d ==> kind in Kinds(e.alerts))
  {
    assert forall x :: x in later + [e] <==> x in later || x == e;
  }

  lemma SnoozedStep(t: seq<Row>, e: Event, p: nat, until: int, firing: bool, clock: int)
    requires OneRowEach(t) && p < |t| && clock <= e.now && Snoozing(t[p], until, firing, clock)
    requires e.Acted? ==> e.row != p
    ensures |Apply(t, e)| > p && IsRow(Apply(t, e)[p], t[p].domainId, t[p].kind)
    ensures
      var again := e.Evaluated? && e.domain == t[p].domainId ==> t[p].kind in Kinds(e.alerts);
      Snoozing(Apply(t, e)[p], until, firing && again, e.now)
  {
    match e
    case Evaluated(d, alerts, now) =>
      SnoozingCycle(t, d, alerts, now, p, until, firing, clock);
    case Acted(q, action, now) =>
      ActionFrame(t, q, action, now);
  }

  function Clock(t0: int, later: seq<Event>): int { if later == [] then t0 else later[|later| - 1].now }

  /** The row that was `was` stands in its place p and is snoozing. */
  ghost predicate StillSnoozing(t: seq<Row>, p: nat, was: Row, until: int, firing: bool, clock: int) {
    p < |t| && IsRow(t[p], was.domainId, was.kind) && Snoozing(t[p], until, firing, clock)
  }

  lemma SnoozedNext(t: seq<Row>, later: seq<Event>, e: Event, p: nat, was: Row, until: int, clock: int)
    requires StillSnoozing(t, p, was, until, KeepsFiring(later, was.domainId, was.kind), clock)
    requires OneRowEach(t) && clock <= e.now && (e.Acted? ==> e.row != p)
    ensures StillSnoozing(Apply(t, e), p, was, until, KeepsFiring(later + [e], was.domainId, was.kind), e.now)
  {
    FiringSnoc(later, e, was.domainId, was.kind);
    SnoozedStep(t, e, p, until, KeepsFiring(later, was.domainId, was.kind), clock);
  }

  lemma SnoozedFirst(t: seq<Row>, p: nat, minutes: int, t0: int)
    requires p < |t|
    ensures StillSnoozing(Apply(t, Acted(p, Snooze(minutes), t0)), p, t[p], t0 + 60 * minutes,
                          KeepsFiring([], t[p].domainId, t[p].kind), t0)
  {
  }

  /** The row `was`, snoozed at t0, is snoozing after what came later. */
  ghost predicate SnoozedAfter(history: seq<Event>, p: nat, minutes: int, t0: int, later: seq<Event>, was: Row) {
    StillSnoozing(Run(After(history, p, Snooze(minutes), t0, later)), p, was, t0 + 60 * minutes,
                  KeepsFiring(later, was.domainId, was.kind), Clock(t0, later))
  }

  lemma SnoozedLater(history: seq<Event>, p: nat, minutes: int, t0: int, later: seq<Event>, e: Event, was: Row)
    requires SnoozedAfter(history, p, minutes, t0, later, was) && (e.Acted? ==> e.row != p)
    requires Clock(t0, later) <= e.now
    ensures SnoozedAfter(history, p, minutes, t0, later + [e], was)
  {
    var events := After(history, p, Snooze(minutes), t0, later);
    AfterSnoc(history, p, Snooze(minutes), t0, later, e);
    OneRowAlways(events);
    SnoozedNext(Run(events), later, e, p, was, t0 + 60 * minutes, Clock(t0, later));
  }

  /** The clock does not go back after the action. */
  ghost predicate ClockRuns(t0: int, later: seq<Event>) {
    forall i :: 0 <= i < |later| ==> Clock(t0, later[..i]) <= later[i].now
  }

  lemma {:induction false} SnoozedRow(history: seq<Event>, p: nat, minutes: int, t0: int, later: seq<Event>)
    requires p < |Run(history)| && LeftAlone(later, p) && ClockRuns(t0, later)
    ensures SnoozedAfter(history, p, minutes, t0, later, Run(history)[p])
  {
    if later == [] {
      AfterNone(history, p, Snooze(minutes), t0);
      SnoozedFirst(Run(history), p, minutes, t0);
    } else {
      var n := |later| - 1;
      assert later == later[..n] + [later[n]];
      assert forall i :: 0 <= i < n ==> later[..n][..i] == later[..i];
      SnoozedRow(history, p, minutes, t0, later[..n]);
      SnoozedLater(history, p, minutes, t0, later[..n], later[n], Run(history)[p]);
    }
  }

  /** A snooze of any row of any run holds back the row's alert exactly until the snoozed minutes are
      over or a cycle in between did not fire the type: then the alert counts as recovered, and the
      rest of the snooze is lost. */
  lemma SnoozeHolds(history: seq<Event>, p: nat, minutes: int, t0: int, later: seq<Event>,
                    d: int, alerts: seq<Alert>, a: Alert, now: int)
    requires p < |Run(history)| && LeftAlone(later, p)
    requires IsRow(Run(history)[p], d, a.kind) && DistinctKinds(alerts) && a in alerts
    requires ClockRuns(t0, later + [Evaluated(d, alerts, now)])
    ensures a in Dispatchable(Run(After(history, p, Snooze(minutes), t0, later)), d, alerts, now)
       <==> now >= t0 + 60 * minutes || !KeepsFiring(later, d, a.kind)
  {
    var events := After(history, p, Snooze(minutes), t0, later);
    ClockInit(t0, later, Evaluated(d, alerts, now));
    SnoozedRow(history, p, minutes, t0, later);
    OneRowAlways(events);
    var t := Run(events);
    WithheldIffSnoozed(t, d, alerts, now);
    WithheldAt(t, d, a.kind, now, p);
    InNotSnoozed(t, d, alerts, a, now);
  }

  lemma ClockInit(t0: int, later: seq<Event>, e: Event)
    requires ClockRuns(t0, later + [e])
    ensures ClockRuns(t0, later) && Clock(t0, later) <= e.now
  {
    var all := later + [e];
    assert forall i :: 0 <= i < |later| ==> all[i] == later[i] && all[..i] == later[..i];
    assert all[|later|] == e && all[..|later|] == later;
  }

  lemma WithheldAt(t: seq<Row>, d: int, kind: AlertType, now: int, p: nat)
    requires OneRowEach(t) && p < |t| && IsRow(t[p], d, kind)
    ensures Withheld(t, d, kind, now) <==> IsSuppressed(t[p], now)
  {
  }

  lemma InNotSnoozed(t: seq<Row>, d: int, alerts: seq<Alert>, a: Alert, now: int)
    requires a in alerts
    ensures a in NotSnoozed(t, d, alerts, now) <==> !Withheld(t, d, a.kind, now)
  {
  }

  /** A row of an inactive type is left alone by cycles that do not fire the type. */
  lemma QuietCycleKeeps(t: seq<Row>, d: int, alerts: seq<Alert>, now: int, p: nat)
    requires p < |t| && !Active(t[p]) && (t[p].domainId == d ==> t[p].kind !in Kinds(alerts))
    ensures |Cycle(t, d, alerts, now)| > p && Cycle(t, d, alerts, now)[p] == t[p]
  {
    FiredAllMeans(t, d, alerts, now);
  }

  /** A row resolved by hand stays resolved, as of that moment and with nothing else changed, until its
      type fires again. */
  lemma {:induction false} ResolveHolds(history: seq<Event>, p: nat, t0: int, later: seq<Event>)
    requires p < |Run(history)| && LeftAlone(later, p)
    requires StaysQuiet(later, Run(history)[p].domainId, Run(history)[p].kind)
    ensures |Run(After(history, p, ManualResolve, t0, later))| > p
    ensures Run(After(history, p, ManualResolve, t0, later))[p]
         == Run(history)[p].(state := Resolved, resolvedAt := Some(t0))
  {
    if later == [] {
      AfterNone(history, p, ManualResolve, t0);
    } else {
      var init, e := later[..|later| - 1], later[|later| - 1];
      assert later == init + [e];
      AfterSnoc(history, p, ManualResolve, t0, init, e);
      ResolveHolds(history, p, t0, init);
      var t := Run(After(history, p, ManualResolve, t0, init));
      match e
      case Evaluated(d, alerts, now) =>
        QuietCycleKeeps(t, d, alerts, now, p);
      case Acted(q, action, now) =>
        ActionFrame(t, q, action, now);
    }
  }

  /** No cycle of the domain at all. */
  predicate NotEvaluated(later: seq<Event>, d: int) {
    forall e :: e in later && e.Evaluated? ==> e.domain != d
  }

  /** A row reopened by hand, whatever its state was, is open with no resolution time and nothing else
      changed until its domain is next evaluated. */
  lemma {:induction false} ReopenHolds(history: seq<Event>, p: nat, t0: int, later: seq<Event>)
    requires p < |Run(history)| && LeftAlone(later, p) && NotEvaluated(later, Run(history)[p].domainId)
    ensures |Run(After(history, p, Reopen, t0, later))| > p
    ensures Run(After(history, p, Reopen, t0, later))[p] == Run(history)[p].(state := Open, resolvedAt := None)
  {
    if later == [] {
      AfterNone(history, p, Reopen, t0);
    } else {
      var init, e := later[..|later| - 1], later[|later| - 1];
      assert later == init + [e];
      AfterSnoc(history, p, Reopen, t0, init, e);
      ReopenHolds(history, p, t0, init);
      var t := Run(After(history, p, Reopen, t0, init));
      match e
      case Evaluated(d, alerts, now) =>
        FiredAllMeans(t, d, alerts, now);
      case Acted(q, action, now) =>
        ActionFrame(t, q, action, now);
    }
  }

  /** What one cycle makes of a row that is not snoozed and whose type fires once: a resolved row starts
      over, an open one counts on; either way the alert is dispatched. */
  lemma FiresAgain(t: seq<Row>, d: int, alerts: seq<Alert>, a: Alert, now: int, p: nat)
    requires OneRowEach(t) && p < |t| && IsRow(t[p], d, a.kind) && t[p].state != Suppressed
    requires DistinctKinds(alerts) && a in alerts
    ensures a in Dispatchable(t, d, alerts, now)
    ensures |Cycle(t, d, alerts, now)| > p
    ensures
      var r := Cycle(t, d, alerts, now)[p];
      && r.state == Open && r.lastFiredAt == now
      && (t[p].state == Resolved ==> r.hitCount == 1 && r.firstFiredAt == now && r.resolvedAt.None?)
      && (t[p].state == Open ==> r.hitCount == t[p].hitCount + 1 && r.firstFiredAt == t[p].firstFiredAt
                                 && r.resolvedAt == t[p].resolvedAt)
  {
    WithheldIffSnoozed(t, d, alerts, now);
    WithheldAt(t, d, a.kind, now, p);
    InNotSnoozed(t, d, alerts, a, now);
    FiredAllMeans(t, d, alerts, now);
    FiredAllRow(t, d, alerts, now, p);
    FiredAllOpens(t, d, alerts, now, p);
  }

  lemma {:induction false} FiredAllOpens(t: seq<Row>, d: int, alerts: seq<Alert>, now: int, p: nat)
    requires OneRowEach(t) && p < |t| && t[p].state != Suppressed
    ensures |FiredAll(t, d, alerts, now)| > p && FiredAll(t, d, alerts, now)[p].state != Suppressed
  {
    if alerts != [] { FiredAllOpens(t, d, alerts[..|alerts| - 1], now, p); }
  }

  predicate NoSnooze(events: seq<Event>) {
    forall e :: e in events && e.Acted? ==> !e.action.Snooze?
  }

  ghost predicate NoneSuppressed(t: seq<Row>) {
    forall i :: 0 <= i < |t| ==> t[i].state != Suppressed
  }

  lemma {:induction false} NeverSuppressed(events: seq<Event>)
    requires NoSnooze(events)
    ensures NoneSuppressed(Run(events))
  {
    if events != [] {
      var init, e := events[..|events| - 1], events[|events| - 1];
      NeverSuppressed(init);
      assert e in events;
      if e.Evaluated? {
        FiredNotSuppressed(Run(init), e.domain, e.alerts, e.now);
      }
    }
  }

  lemma FiredOpens(t: seq<Row>, d: int, a: Alert, now: int)
    requires NoneSuppressed(t)
    ensures NoneSuppressed(Fired(t, d, a, now))
  {
  }

  lemma {:induction false} FiredNotSuppressed(t: seq<Row>, d: int, alerts: seq<Alert>, now: int)
    requires NoneSuppressed(t)
    ensures NoneSuppressed(FiredAll(t, d, alerts, now))
  {
    if alerts != [] {
      FiredNotSuppressed(t, d, alerts[..|alerts| - 1], now);
      FiredOpens(FiredAll(t, d, alerts[..|alerts| - 1], now), d, alerts[|alerts| - 1], now);
    }
  }

  /** There is no automatic cool-down: without a snooze, every fired alert of every evaluated cycle is
      dispatched, however recently it was dispatched before. */
  lemma NoAutomaticCooldown(events: seq<Event>, d: int, alerts: seq<Alert>, now: int)
    requires NoSnooze(events) && DistinctKinds(alerts)
    ensures Dispatchable(Run(events), d, alerts, now) == alerts
  {
    NeverSuppressed(events);
    var t := Run(events);
    WithheldIffSnoozed(t, d, alerts, now);
    FilterAll(alerts, (a: Alert) => !Withheld(t, d, a.kind, now));
  }

  /** Operators acknowledge, note, and snooze active rows; each cycle fires a type at most once. */
  ghost predicate GentleRun(events: seq<Event>) {
    events == [] ||
    var init, e := events[..|events| - 1], events[|events| - 1];
    && GentleRun(init)
    && match e
       case Evaluated(_, alerts, _) => DistinctKinds(alerts)
       case Acted(p, action, _) =>
         action.Acknowledge? || action.AddNote? || (action.Snooze? && (p < |Run(init)| ==> Active(Run(init)[p])))
  }

  /** The current unbroken streak of evaluated cycles of domain d in which the type fired. */
  function Streak(events: seq<Event>, d: int, kind: AlertType): nat {
    if events == [] then 0
    else
      var init, e := events[..|events| - 1], events[|events| - 1];
      if e.Evaluated? && e.domain == d then
        if kind in Kinds(e.alerts) then Streak(init, d, kind) + 1 else 0
      else Streak(init, d, kind)
  }

  /** A row that starts over. */
  predicate FreshRow(r: Row, now: int) {
    Active(r) && r.hitCount == 1 && r.firstFiredAt == now && r.lastFiredAt == now && r.resolvedAt.None?
  }

  /** An active row that fires once more. */
  predicate CountsOn(was: Row, r: Row, now: int) {
    && Active(r) && r.hitCount == was.hitCount + 1 && r.lastFiredAt == now
    && r.firstFiredAt == was.firstFiredAt && r.resolvedAt == was.resolvedAt
  }

  /** Firing each type once: what happens to one row. */
  lemma {:induction false} FiredAllRow(t: seq<Row>, d: int, alerts: seq<Alert>, now: int, i: nat)
    requires OneRowEach(t) && DistinctKinds(alerts)
    requires i < |FiredAll(t, d, alerts, now)|
    ensures
      var r := FiredAll(t, d, alerts, now)[i];
      if i >= |t| then r.domainId == d && r.kind in Kinds(alerts) && FreshRow(r, now) && !HasActive(t, d, r.kind)
      else if t[i].domainId != d || t[i].kind !in Kinds(alerts) then r == t[i]
      else r.domainId == d && r.kind == t[i].kind && if Active(t[i]) then CountsOn(t[i], r, now) else FreshRow(r, now)
  {
    if alerts != [] {
      var init, a := alerts[..|alerts| - 1], alerts[|alerts| - 1];
      var before := FiredAll(t, d, init, now);
      assert alerts == init + [a] && a.kind !in Kinds(init);
      KindsAppend(init, a);
      FiredAllMeans(t, d, init, now);
      FiredRowStep(before, d, a, now, i);
      if i < |before| {
        FiredAllRow(t, d, init, now, i);
      } else {
        assert forall j :: 0 <= j < |t| ==> !(before[j].domainId == d && before[j].kind == a.kind);
      }
    }
  }

  /** Firing one alert: what happens to one row. */
  lemma FiredRowStep(t: seq<Row>, d: int, a: Alert, now: int, i: nat)
    requires OneRowEach(t) && i < |Fired(t, d, a, now)|
    ensures
      var r := Fired(t, d, a, now)[i];
      if i >= |t| then
        r.domainId == d && r.kind == a.kind && FreshRow(r, now)
        && forall j :: 0 <= j < |t| ==> !(t[j].domainId == d && t[j].kind == a.kind)
      else if t[i].domainId != d || t[i].kind != a.kind then r == t[i]
      else r.domainId == d && r.kind == a.kind && if Active(t[i]) then CountsOn(t[i], r, now) else FreshRow(r, now)
  {
  }

  /** An active row's hit count is the current streak of its type, and a type is active exactly during
      a streak. */
  ghost predicate CountsStreaks(t: seq<Row>, events: seq<Event>) {
    && (forall i :: 0 <= i < |t| && Active(t[i]) ==> t[i].hitCount == Streak(events, t[i].domainId, t[i].kind))
    && (forall d, kind :: HasActive(t, d, kind) <==> Streak(events, d, kind) > 0)
  }

  /** In a gentle run an active row's hit count is the length of the current unbroken streak of
      evaluated cycles in which it fired, and a type has an active row exactly during a streak. */
  lemma {:induction false} HitCountIsStreak(events: seq<Event>)
    requires GentleRun(events)
    ensures
      OneRowEach(Run(events)) && CountsStreaks(Run(events), events)
  {
    if events != [] {
      var init, e := events[..|events| - 1], events[|events| - 1];
      HitCountIsStreak(init);
      assert events == init + [e];
      match e
      case Evaluated(d, alerts, now) =>
        StreakCycle(init, d, alerts, now);
      case Acted(p, action, now) =>
        StreakAction(init, p, action, now);
    }
  }

  lemma StreakAction(init: seq<Event>, p: nat, action: Action, now: int)
    requires OneRowEach(Run(init))
    requires action.Acknowledge? || action.AddNote? || (action.Snooze? && (p < |Run(init)| ==> Active(Run(init)[p])))
    ensures
      var t, u := Run(init), Apply(Run(init), Acted(p, action, now));
      && OneRowEach(u) && |u| == |t|
      && (forall i :: 0 <= i < |t| ==> (Active(u[i]) <==> Active(t[i])) && u[i].hitCount == t[i].hitCount
                                       && u[i].domainId == t[i].domainId && u[i].kind == t[i].kind)
      && (forall d, kind :: HasActive(u, d, kind) <==> HasActive(t, d, kind))
  {
    var t, u := Run(init), Apply(Run(init), Acted(p, action, now));
    assert forall i :: 0 <= i < |t| ==>
        (Active(u[i]) <==> Active(t[i])) && u[i].domainId == t[i].domainId && u[i].kind == t[i].kind;
  }

  /** What a cycle does to the hit count of a row that is active after it. */
  lemma CycleHitCount(t: seq<Row>, d: int, alerts: seq<Alert>, now: int, i: nat)
    requires OneRowEach(t) && DistinctKinds(alerts)
    requires i < |Cycle(t, d, alerts, now)| && Active(Cycle(t, d, alerts, now)[i])
    ensures
      var r := Cycle(t, d, alerts, now)[i];
      if r.domainId != d then i < |t| && r == t[i]
      else
        && r.kind in Kinds(alerts)
        && (if i < |t| && Active(t[i]) then t[i].domainId == d && t[i].kind == r.kind && r.hitCount == t[i].hitCount + 1
            else r.hitCount == 1 && !HasActive(t, d, r.kind))
  {
    FiredAllRow(t, d, alerts, now, i);
    if i < |t| && t[i].domainId == d && !Active(t[i]) { InactiveAlone(t, i); }
  }

  lemma InactiveAlone(t: seq<Row>, i: nat)
    requires OneRowEach(t) && i < |t| && !Active(t[i])
    ensures !HasActive(t, t[i].domainId, t[i].kind)
  {
  }

  lemma StreakCycle(init: seq<Event>, d: int, alerts: seq<Alert>, now: int)
    requires DistinctKinds(alerts) && OneRowEach(Run(init)) && CountsStreaks(Run(init), init)
    ensures OneRowEach(Cycle(Run(init), d, alerts, now))
    ensures CountsStreaks(Cycle(Run(init), d, alerts, now), init + [Evaluated(d, alerts, now)])
  {
    var t := Run(init);
    var u, events := Cycle(t, d, alerts, now), init + [Evaluated(d, alerts, now)];
    ActiveAreFired(t, d, alerts, now);
    forall i | 0 <= i < |u| && Active(u[i]) ensures u[i].hitCount == Streak(events, u[i].domainId, u[i].kind) {
      CycleHitCount(t, d, alerts, now, i);
    }
    forall e, kind ensures HasActive(u, e, kind) <==> Streak(events, e, kind) > 0 {
      if e != d { OthersActive(t, u, d, e, kind); }
    }
  }

  lemma OthersActive(t: seq<Row>, u: seq<Row>, d: int, e: int, kind: AlertType)
    requires Continues(t, u, d) && e != d
    ensures HasActive(u, e, kind) <==> HasActive(t, e, kind)
  {
    if HasActive(t, e, kind) {
      var i :| 0 <= i < |t| && t[i].domainId == e && t[i].kind == kind && Active(t[i]);
      assert u[i] == t[i];
    }
    if HasActive(u, e, kind) {
      var i :| 0 <= i < |u| && u[i].domainId == e && u[i].kind == kind && Active(u[i]);
      assert u[i] == t[i];
    }
  }

  /** When the current streak of the type began, and when the last one ended. */
  function Began(events: seq<Event>, d: int, kind: AlertType): int {
    if events == [] then 0
    else
      var init, e := events[..|events| - 1], events[|events| - 1];
      if e.Evaluated? && e.domain == d && kind in Kinds(e.alerts) && Streak(init, d, kind) == 0 then e.now
      else Began(init, d, kind)
  }

  function Ended(events: seq<Event>, d: int, kind: AlertType): Option<int> {
    if events == [] then None
    else
      var init, e := events[..|events| - 1], events[|events| - 1];
      if e.Evaluated? && e.domain == d && kind !in Kinds(e.alerts) && Streak(init, d, kind) > 0 then Some(e.now)
      else Ended(init, d, kind)
  }

  predicate TimesRow(r: Row, events: seq<Event>) {
    if Active(r) then r.firstFiredAt == Began(events, r.domainId, r.kind) && r.resolvedAt.None?
    else r.resolvedAt.Some? && r.resolvedAt == Ended(events, r.domainId, r.kind)
  }

  ghost predicate TimesStreaks(t: seq<Row>, events: seq<Event>) {
    forall i :: 0 <= i < |t| ==> TimesRow(t[i], events)
  }

  /** What a cycle does to the times of one row. */
  lemma CycleTimes(t: seq<Row>, d: int, alerts: seq<Alert>, now: int, i: nat)
    requires OneRowEach(t) && DistinctKinds(alerts) && i < |Cycle(t, d, alerts, now)|
    ensures
      var r := Cycle(t, d, alerts, now)[i];
      if r.domainId != d then i < |t| && r == t[i]
      else if r.kind in Kinds(alerts) then
        if i < |t| && Active(t[i]) then IsRow(t[i], d, r.kind) && CountsOn(t[i], r, now)
        else FreshRow(r, now) && !HasActive(t, d, r.kind)
      else i < |t| && IsRow(t[i], d, r.kind)
           && r == if Active(t[i]) then t[i].(state := Resolved, resolvedAt := Some(now)) else t[i]
  {
    FiredAllRow(t, d, alerts, now, i);
    FiredAllMeans(t, d, alerts, now);
    if i < |t| && t[i].domainId == d && !Active(t[i]) { InactiveAlone(t, i); }
  }

  lemma TimesCycle(init: seq<Event>, d: int, alerts: seq<Alert>, now: int, i: nat)
    requires DistinctKinds(alerts) && OneRowEach(Run(init))
    requires CountsStreaks(Run(init), init) && TimesStreaks(Run(init), init)
    requires i < |Cycle(Run(init), d, alerts, now)|
    ensures TimesRow(Cycle(Run(init), d, alerts, now)[i], init + [Evaluated(d, alerts, now)])
  {
    var t := Run(init);
    CycleTimes(t, d, alerts, now, i);
    var r, events := Cycle(t, d, alerts, now)[i], init + [Evaluated(d, alerts, now)];
    assert events[..|events| - 1] == init;
    if i < |t| && Active(t[i]) {
      assert HasActive(t, t[i].domainId, t[i].kind);
    } else if i < |t| {
      InactiveAlone(t, i);
    }
  }

  /** In a gentle run an active row carries the time at which its current streak began and no
      resolution time, and a resolved one the time at which its last streak ended. */
  lemma {:induction false} TimesAreStreak(events: seq<Event>)
    requires GentleRun(events)
    ensures TimesStreaks(Run(events), events)
  {
    if events != [] {
      var init, e := events[..|events| - 1], events[|events| - 1];
      TimesAreStreak(init);
      HitCountIsStreak(init);
      assert events == init + [e];
      forall i | 0 <= i < |Run(events)| ensures TimesRow(Run(events)[i], events) {
        match e
        case Evaluated(d, alerts, now) =>
          TimesCycle(init, d, alerts, now, i);
        case Acted(p, action, now) =>
          assert TimesRow(Run(init)[i], init);
          assert Run(events) == Apply(Run(init), e);
      }
    }
  }
}
