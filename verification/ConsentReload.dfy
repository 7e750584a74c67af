/** Saving consents in the browser: queueing asynchronous opt-outs and reloading the page once the
    backend save has completed and every queued opt-out is done. */
module ConsentReload {
  import opened Php

  type Service = string

  datatype ServiceGroup = ServiceGroup(id: string, services: seq<Service>)

  type Consents = seq<ServiceGroup>

  datatype Settings = Settings(reloadAfterOptOut: bool, reloadAfterOptIn: bool)

  /** The manager's fields; `missing` is None when no opt-out queue exists, `reloads` counts the
      reloads requested of the browser. */
  datatype State = State(
    consents: Consents,
    triggered: bool,
    paused: bool,
    missing: Option<seq<Service>>,
    waiting: bool,
    reloads: nat)

  predicate Consented(c: Consents, group: string, service: Service) {
    exists i :: 0 <= i < |c| && c[i].id == group && service in c[i].services
  }

  function WithdrawnOf(group: string, services: seq<Service>, e: Consents): seq<Service> {
    Filter(services, (a: Service) => !Consented(e, group, a))
  }

  /** The services consented to before and not any more, group by group. */
  function Withdrawn(t: Consents, e: Consents): seq<Service> {
    if t == [] then [] else WithdrawnOf(t[0].id, t[0].services, e) + Withdrawn(t[1..], e)
  }

  function WithoutEmpty(e: Consents): Consents { Filter(e, (g: ServiceGroup) => g.services != []) }

  // ---------------------------------------------------------------- steps

  function Reload(s: State): State { if s.paused then s else s.(reloads := s.reloads + 1) }

  function QueueOptOut(s: State, a: Service): State {
    if s.missing.None? then s.(missing := Some([a]), waiting := true) else s.(missing := Some(s.missing.value + [a]))
  }

  function QueueAll(s: State, services: seq<Service>): State
    decreases |services|
  {
    if services == [] then s else QueueOptOut(QueueAll(s, services[..|services| - 1]), services[|services| - 1])
  }

  predicate AsyncOptOutsDone(s: State) { (s.missing.None? || s.missing.value == []) && !s.waiting }

  function OptOutDone(s: State, a: Service, cfg: Settings): State {
    if s.missing.None? then s
    else
      var rest := Filter(s.missing.value, (b: Service) => b != a);
      var t := s.(missing := Some(rest));
      if |rest| == |s.missing.value| || !AsyncOptOutsDone(t) then t
      else
        var u := t.(missing := None);
        if cfg.reloadAfterOptOut then Reload(u) else u
  }

  function AfterConsentsSave(s: State, cfg: Settings): State {
    var t := s.(waiting := false);
    if cfg.reloadAfterOptOut && t.triggered then (if AsyncOptOutsDone(t) then Reload(t) else t)
    else if cfg.reloadAfterOptIn then Reload(t)
    else t
  }

  type Async = Service -> bool

  function Queued(t: Consents, e: Consents, async: Async): seq<Service> {
    Filter(Withdrawn(t, WithoutEmpty(e)), async)
  }

  /** `save` up to the moment the backend call is under way. */
  function Save(s: State, e: Consents, async: Async): State {
    var stored := s.(consents := WithoutEmpty(e));
    QueueAll(stored, Queued(s.consents, e, async)).(triggered := Withdrawn(s.consents, WithoutEmpty(e)) != [])
  }

  class ConsentManager {
    const settings: Settings
    var consents: Consents
    var optOutTriggered: bool
    var pauseReload: bool
    var missingOptOuts: Option<seq<Service>>
    var waitingToSave: bool
    var reloads: nat

    constructor (settings: Settings, consents: Consents)
      ensures Value() == State(consents, false, false, None, false, 0)
    {
      this.settings, this.consents := settings, consents;
      optOutTriggered, pauseReload, missingOptOuts, waitingToSave, reloads := false, false, None, false, 0;
    }

    function Value(): State
      reads this
    {
      State(consents, optOutTriggered, pauseReload, missingOptOuts, waitingToSave, reloads)
    }

    method Queue(a: Service)
      modifies this
      ensures Value() == QueueOptOut(old(Value()), a)
    {
      if missingOptOuts.None? {
        missingOptOuts := Some([]);
        waitingToSave := true;
      }
      assert [] + [a] == [a];
      missingOptOuts := Some(missingOptOuts.value + [a]);
    }

    method SetPauseReload(paused: bool)
      modifies this
      ensures Value() == old(Value()).(paused := paused)
    {
      pauseReload := paused;
    }

    method RequestReload()
      modifies this
      ensures Value() == Reload(old(Value()))
    {
      if !pauseReload {
        reloads := reloads + 1;
      }
    }

    /** The first loop over the withdrawn services: the asynchronous opt-outs are queued. */
    method QueueAsynchronous(withdrawn: seq<Service>, async: Async)
      modifies this
      ensures Value() == QueueAll(old(Value()), Filter(withdrawn, async))
    {
      for i := 0 to |withdrawn|
        invariant Value() == QueueAll(old(Value()), Filter(withdrawn[..i], async))
      {
        assert withdrawn[..i + 1] == withdrawn[..i] + [withdrawn[i]];
        QueueNext(old(Value()), withdrawn[..i], withdrawn[i], async);
        if async(withdrawn[i]) {
          Queue(withdrawn[i]);
        }
      }
      assert withdrawn[..|withdrawn|] == withdrawn;
    }

    /** `save`; what the triggered opt-out codes do arrives later as Done calls. */
    method SaveConsents(e: Consents, async: Async)
      modifies this
      ensures Value() == Save(old(Value()), e, async)
    {
      optOutTriggered := false;
      var withdrawn := Withdrawn(consents, WithoutEmpty(e));
      consents := WithoutEmpty(e);
      ghost var stored := Value();
      QueueAsynchronous(withdrawn, async);
      QueueAllFlag(stored, old(Value()).(consents := WithoutEmpty(e)), Filter(withdrawn, async), withdrawn != []);
      if withdrawn != [] {
        optOutTriggered := true;
      }
    }

    /** `optOutDone` */
    method Done(a: Service)
      modifies this
      ensures Value() == OptOutDone(old(Value()), a, settings)
    {
      if missingOptOuts.None? {
        return;
      }
      var count := |missingOptOuts.value|;
      missingOptOuts := Some(Filter(missingOptOuts.value, (b: Service) => b != a));
      if count == |missingOptOuts.value| {
        return;
      }
      if missingOptOuts.value == [] && !waitingToSave {
        missingOptOuts := None;
        if settings.reloadAfterOptOut {
          RequestReload();
        }
      }
    }

    /** `afterConsentsSave`, run when the backend save completes; the plugin cookie always has keys. */
    method SaveCompleted()
      modifies this
      ensures Value() == AfterConsentsSave(old(Value()), settings)
    {
      waitingToSave := false;
      if settings.reloadAfterOptOut && optOutTriggered {
        if missingOptOuts.None? || missingOptOuts.value == [] {
          RequestReload();
        }
      } else if settings.reloadAfterOptIn {
        RequestReload();
      }
    }
  }

  lemma QueueAllSnoc(s: State, services: seq<Service>, a: Service)
    ensures QueueAll(s, services + [a]) == QueueOptOut(QueueAll(s, services), a)
  {
    assert (services + [a])[..|services|] == services;
  }

  /** One more withdrawn service is queued if its opt-out is asynchronous. */
  lemma QueueNext(s: State, before: seq<Service>, a: Service, async: Async)
    ensures QueueAll(s, Filter(before + [a], async))
         == if async(a) then QueueOptOut(QueueAll(s, Filter(before, async)), a) else QueueAll(s, Filter(before, async))
  {
    FilterAppend(before, [a], async);
    if async(a) {
      QueueAllSnoc(s, Filter(before, async), a);
    } else {
      assert Filter(before, async) + [] == Filter(before, async);
    }
  }

  /** Queueing does not look at the trigger flag. */
  lemma {:induction false} QueueAllFlag(s: State, t: State, services: seq<Service>, flag: bool)
    requires s.(triggered := flag) == t.(triggered := flag)
    ensures QueueAll(s, services).(triggered := flag) == QueueAll(t, services).(triggered := flag)
    decreases |services|
  {
    if services != [] { QueueAllFlag(s, t, services[..|services| - 1], flag); }
  }

  lemma {:induction false} QueueAllMeans(s: State, services: seq<Service>)
    ensures
      var t := QueueAll(s, services);
      && t == s.(missing := t.missing, waiting := t.waiting)
      && (services == [] ==> t == s)
      && (services != [] && s.missing.None? ==> t.missing == Some(services) && t.waiting)
      && (services != [] && s.missing.Some? ==> t.missing == Some(s.missing.value + services) && t.waiting == s.waiting)
    decreases |services|
  {
    if services != [] {
      var init, last := services[..|services| - 1], services[|services| - 1];
      assert services == init + [last];
      QueueAllMeans(s, init);
      if s.missing.Some? { assert s.missing.value + init + [last] == s.missing.value + services; }
    }
  }

  // ---------------------------------------------------------------- runs after one save

  /** The backend save completes, an opt-out reports its end, or somebody pauses or resumes reloads. */
  datatype Event = Completed | Finished(service: Service) | PauseSet(paused: bool)

  function Handle(s: State, e: Event, cfg: Settings): State {
    match e
    case Completed => AfterConsentsSave(s, cfg)
    case Finished(a) => OptOutDone(s, a, cfg)
    case PauseSet(paused) => s.(paused := paused)
  }

  function Play(s: State, events: seq<Event>, cfg: Settings): State {
    if events == [] then s else Handle(Play(s, events[..|events| - 1], cfg), events[|events| - 1], cfg)
  }

  /** The backend save completes at most once. */
  ghost predicate CompletesOnce(events: seq<Event>) {
    forall i, j :: 0 <= i < j < |events| ==> !(events[i].Completed? && events[j].Completed?)
  }

  predicate AllFinished(queue: seq<Service>, events: seq<Event>) {
    forall a :: a in queue ==> Finished(a) in events
  }

  function Pending(queue: seq<Service>, events: seq<Event>): seq<Service> {
    Filter(queue, (a: Service) => Finished(a) !in events)
  }

  lemma {:induction false} PendingSnoc(queue: seq<Service>, events: seq<Event>, a: Service)
    ensures Pending(queue, events + [Finished(a)]) == Filter(Pending(queue, events), (b: Service) => b != a)
  {
    if queue != [] {
      PendingSnoc(queue[1..], events, a);
      var rest, later := Pending(queue[1..], events), Pending(queue[1..], events + [Finished(a)]);
      assert ([queue[0]] + rest)[1..] == rest && [] + rest == rest && [] + later == later;
      assert Finished(queue[0]) in events + [Finished(a)] <==> Finished(queue[0]) in events || queue[0] == a;
    }
  }

  lemma {:induction false} PendingCompleted(queue: seq<Service>, events: seq<Event>)
    ensures Pending(queue, events + [Completed]) == Pending(queue, events)
  {
    if queue != [] {
      PendingCompleted(queue[1..], events);
      assert Finished(queue[0]) in events + [Completed] <==> Finished(queue[0]) in events;
    }
  }

  lemma {:induction false} PendingPause(queue: seq<Service>, events: seq<Event>, paused: bool)
    ensures Pending(queue, events + [PauseSet(paused)]) == Pending(queue, events)
  {
    if queue != [] {
      PendingPause(queue[1..], events, paused);
      assert Finished(queue[0]) in events + [PauseSet(paused)] <==> Finished(queue[0]) in events;
    }
  }

  lemma {:induction false} PendingNone(queue: seq<Service>)
    ensures Pending(queue, []) == queue
  {
    if queue != [] { PendingNone(queue[1..]); }
  }

  lemma PendingEmpty(queue: seq<Service>, events: seq<Event>)
    ensures Pending(queue, events) == [] <==> AllFinished(queue, events)
  {
    var p := Pending(queue, events);
    assert forall a :: a in p <==> a in queue && Finished(a) !in events;
    if p != [] { assert p[0] in p; }
  }

  lemma {:induction false} FilterShrinks(xs: seq<Service>, a: Service)
    ensures |Filter(xs, (b: Service) => b != a)| == |xs| <==> a !in xs
    ensures a !in xs ==> Filter(xs, (b: Service) => b != a) == xs
  {
    if xs != [] {
      assert xs == [xs[0]] + xs[1..];
      FilterShrinks(xs[1..], a);
    }
  }

  /** The save has completed and every queued opt-out is done. */
  predicate Ready(queue: seq<Service>, events: seq<Event>) { Completed in events && AllFinished(queue, events) }

  /** Whether reloads are paused after the events. */
  predicate PausedAfter(paused: bool, events: seq<Event>) {
    if events == [] then paused
    else
      var init, e := events[..|events| - 1], events[|events| - 1];
      if e.PauseSet? then e.paused else PausedAfter(paused, init)
  }

  /** The reloads due: one if reloads are not paused at the event that makes the run ready. */
  function Due(queue: seq<Service>, events: seq<Event>, paused: bool): nat {
    if events == [] then 0
    else
      var init := events[..|events| - 1];
      var fires := Ready(queue, events) && !Ready(queue, init) && !PausedAfter(paused, init);
      Due(queue, init, paused) + if fires then 1 else 0
  }

  lemma DueSnoc(queue: seq<Service>, events: seq<Event>, e: Event, paused: bool)
    ensures Due(queue, events + [e], paused)
         == Due(queue, events, paused)
          + if Ready(queue, events + [e]) && !Ready(queue, events) && !PausedAfter(paused, events) then 1 else 0
    ensures PausedAfter(paused, events + [e]) == if e.PauseSet? then e.paused else PausedAfter(paused, events)
  {
    assert (events + [e])[..|events|] == events;
  }

  lemma ReadyStays(queue: seq<Service>, events: seq<Event>, e: Event)
    requires Ready(queue, events)
    ensures Ready(queue, events + [e])
  {
    forall a | a in queue ensures Finished(a) in events + [e] { assert Finished(a) in events; }
  }

  /** At most one reload is ever due, none before the run is ready, and without pausing exactly one as
      soon as it is. */
  lemma {:induction false} DueMeans(queue: seq<Service>, events: seq<Event>, paused: bool)
    ensures Due(queue, events, paused) <= 1
    ensures Due(queue, events, paused) == 1 ==> Ready(queue, events)
    ensures !paused && (forall e :: e in events ==> !e.PauseSet?) ==>
              !PausedAfter(paused, events) && Due(queue, events, paused) == if Ready(queue, events) then 1 else 0
  {
    if events != [] {
      var init, e := events[..|events| - 1], events[|events| - 1];
      assert events == init + [e];
      DueMeans(queue, init, paused);
      DueSnoc(queue, init, e, paused);
      if Ready(queue, init) { ReadyStays(queue, init, e); }
    }
  }

  /** What the manager holds after the events, when the save queued `queue` on an empty slate. */
  ghost predicate Expected(s: State, queue: seq<Service>, events: seq<Event>, before: nat, paused: bool) {
    var completed, left := Completed in events, Pending(queue, events);
    && s.triggered
    && s.paused == PausedAfter(paused, events)
    && s.reloads == before + Due(queue, events, paused)
    && (if queue == [] then (s.missing.None? || s.missing.value == []) && !s.waiting
        else if completed && left == [] then !s.waiting && (s.missing.None? || s.missing.value == [])
        else s.missing == Some(left) && s.waiting == !completed)
  }

  lemma ExpectedFinished(s: State, queue: seq<Service>, events: seq<Event>, before: nat, paused: bool, a: Service,
      cfg: Settings)
    requires cfg.reloadAfterOptOut && Expected(s, queue, events, before, paused)
    ensures Expected(OptOutDone(s, a, cfg), queue, events + [Finished(a)], before, paused)
  {
    PendingSnoc(queue, events, a);
    FilterShrinks(Pending(queue, events), a);
    assert Completed in events + [Finished(a)] <==> Completed in events;
    PendingEmpty(queue, events);
    PendingEmpty(queue, events + [Finished(a)]);
    DueSnoc(queue, events, Finished(a), paused);
    if s.missing.Some? { FilterShrinks(s.missing.value, a); }
  }

  lemma ExpectedCompleted(s: State, queue: seq<Service>, events: seq<Event>, before: nat, paused: bool, cfg: Settings)
    requires cfg.reloadAfterOptOut && Expected(s, queue, events, before, paused) && Completed !in events
    ensures Expected(AfterConsentsSave(s, cfg), queue, events + [Completed], before, paused)
  {
    PendingCompleted(queue, events);
    assert Completed in events + [Completed];
    PendingEmpty(queue, events + [Completed]);
    DueSnoc(queue, events, Completed, paused);
    if queue == [] { assert Pending(queue, events) == []; }
  }

  lemma ExpectedPause(s: State, queue: seq<Service>, events: seq<Event>, before: nat, paused: bool, value: bool)
    requires Expected(s, queue, events, before, paused)
    ensures Expected(s.(paused := value), queue, events + [PauseSet(value)], before, paused)
  {
    PendingPause(queue, events, value);
    assert Completed in events + [PauseSet(value)] <==> Completed in events;
    PendingEmpty(queue, events);
    PendingEmpty(queue, events + [PauseSet(value)]);
    DueSnoc(queue, events, PauseSet(value), paused);
  }

  lemma {:induction false} PlayExpected(s: State, queue: seq<Service>, events: seq<Event>, before: nat, cfg: Settings)
    requires cfg.reloadAfterOptOut && CompletesOnce(events) && Expected(s, queue, [], before, s.paused)
    ensures Expected(Play(s, events, cfg), queue, events, before, s.paused)
    decreases |events|
  {
    if events != [] {
      var init, e := events[..|events| - 1], events[|events| - 1];
      assert events == init + [e];
      PlayExpected(s, queue, init, before, cfg);
      match e
      case Finished(a) => ExpectedFinished(Play(s, init, cfg), queue, init, before, s.paused, a, cfg);
      case Completed => ExpectedCompleted(Play(s, init, cfg), queue, init, before, s.paused, cfg);
      case PauseSet(value) => ExpectedPause(Play(s, init, cfg), queue, init, before, s.paused, value);
    }
  }

  /** A save that withdraws something leaves exactly what the runs start from. */
  lemma SaveExpected(s: State, e: Consents, async: Async)
    requires !s.waiting && Withdrawn(s.consents, WithoutEmpty(e)) != []
    requires s.missing.None? || (s.missing.value == [] && Queued(s.consents, e, async) == [])
    ensures Expected(Save(s, e, async), Queued(s.consents, e, async), [], s.reloads, s.paused)
    ensures Save(s, e, async).paused == s.paused
  {
    var queue := Queued(s.consents, e, async);
    QueueAllMeans(s.(consents := WithoutEmpty(e)), queue);
    PendingNone(queue);
  }

  /** One save that withdraws at least one service, reload after opt-out on and no queue before: after
      any events in any order (pauses and done calls for unknown or finished services included) the
      reloads requested are exactly the reloads due: one, at the event by which both the save has
      completed and every queued opt-out is done, unless reloads are paused at that event. */
  lemma ReloadsExactlyOnce(s: State, e: Consents, async: Async, events: seq<Event>, cfg: Settings)
    requires cfg.reloadAfterOptOut && !s.waiting && Withdrawn(s.consents, WithoutEmpty(e)) != []
    requires s.missing.None? || (s.missing.value == [] && Queued(s.consents, e, async) == [])
    requires CompletesOnce(events)
    ensures Play(Save(s, e, async), events, cfg).reloads
         == s.reloads + Due(Queued(s.consents, e, async), events, s.paused)
  {
    SaveExpected(s, e, async);
    PlayExpected(Save(s, e, async), Queued(s.consents, e, async), events, s.reloads, cfg);
  }

  /** When a save completes after its last opt-out, the queue is left empty but present; the page lives
      on with it exactly when reloads are paused at that moment, for otherwise a reload is requested. */
  lemma CompletionLastLeavesQueue(s: State, e: Consents, async: Async, events: seq<Event>, cfg: Settings)
    requires cfg.reloadAfterOptOut && !s.waiting && s.missing.None? && Queued(s.consents, e, async) != []
    requires Completed !in events && AllFinished(Queued(s.consents, e, async), events)
    ensures
      var t := Play(Save(s, e, async), events + [Completed], cfg);
      && t.missing == Some([]) && !t.waiting && t.consents == WithoutEmpty(e)
      && t.paused == PausedAfter(s.paused, events)
      && t.reloads == s.reloads + if PausedAfter(s.paused, events) then 0 else 1
  {
    var queue, saved := Queued(s.consents, e, async), Save(s, e, async);
    QueuedWithdrawn(s.consents, e, async);
    SaveExpected(s, e, async);
    PlayExpected(saved, queue, events, s.reloads, cfg);
    assert Due(queue, events, s.paused) == 0 by { DueMeans(queue, events, s.paused); }
    CompletesLast(Play(saved, events, cfg), queue, events, s.reloads, s.paused, cfg);
    assert Play(saved, events, cfg).consents == WithoutEmpty(e) by {
      PlayKeepsConsents(saved, events, cfg);
      SaveStores(s, e, async);
    }
    assert (events + [Completed])[..|events|] == events;
  }

  lemma CompletesLast(t: State, queue: seq<Service>, events: seq<Event>, before: nat, paused: bool, cfg: Settings)
    requires cfg.reloadAfterOptOut && Expected(t, queue, events, before, paused) && Due(queue, events, paused) == 0
    requires queue != [] && Completed !in events && AllFinished(queue, events)
    ensures
      var u := AfterConsentsSave(t, cfg);
      && u.missing == Some([]) && !u.waiting && u.consents == t.consents && u.paused == PausedAfter(paused, events)
      && u.reloads == before + if PausedAfter(paused, events) then 0 else 1
  {
    PendingEmpty(queue, events);
  }

  lemma SaveStores(s: State, e: Consents, async: Async)
    ensures Save(s, e, async).consents == WithoutEmpty(e)
  {
    QueueAllMeans(s.(consents := WithoutEmpty(e)), Queued(s.consents, e, async));
  }

  lemma {:induction false} PlayKeepsConsents(s: State, events: seq<Event>, cfg: Settings)
    ensures Play(s, events, cfg).consents == s.consents
    decreases |events|
  {
    if events != [] { PlayKeepsConsents(s, events[..|events| - 1], cfg); }
  }

  lemma QueuedWithdrawn(t: Consents, e: Consents, async: Async)
    requires Queued(t, e, async) != []
    ensures Withdrawn(t, WithoutEmpty(e)) != []
  {
  }

  function Finishes(queue: seq<Service>): seq<Event> { seq(|queue|, i requires 0 <= i < |queue| => Finished(queue[i])) }

  lemma {:induction false} PlayAppend(s: State, a: seq<Event>, b: seq<Event>, cfg: Settings)
    ensures Play(s, a + b, cfg) == Play(Play(s, a, cfg), b, cfg)
    decreases |b|
  {
    if b == [] {
      assert a + b == a;
    } else {
      assert (a + b)[..|a + b| - 1] == a + b[..|b| - 1];
      PlayAppend(s, a, b[..|b| - 1], cfg);
    }
  }

  lemma PlayOne(s: State, e: Event, cfg: Settings)
    ensures Play(s, [e], cfg) == Handle(s, e, cfg)
  {
    assert [e][..0] == [];
  }

  /** With an empty queue left over from an earlier save and reloads resumed, the opt-outs of the next
      save ask for a reload before that save has completed. */
  lemma LeftoverQueueReloadsEarly(s: State, e: Consents, async: Async, cfg: Settings)
    requires cfg.reloadAfterOptOut && s.missing == Some([]) && !s.waiting
    requires Queued(s.consents, e, async) != []
    ensures
      var early := [PauseSet(false)] + Finishes(Queued(s.consents, e, async));
      Completed !in early && Play(Save(s, e, async), early, cfg).reloads == s.reloads + 1
  {
    var queue, saved := Queued(s.consents, e, async), Save(s, e, async);
    assert saved.missing == Some(queue) && !saved.waiting && saved.reloads == s.reloads by {
      QueueAllMeans(s.(consents := WithoutEmpty(e)), queue);
      assert [] + queue == queue;
    }
    PlayAppend(saved, [PauseSet(false)], Finishes(queue), cfg);
    PlayOne(saved, PauseSet(false), cfg);
    FinishAll(saved.(paused := false), queue, Finishes(queue), cfg);
    FinishesAll(queue, false);
    PendingEmpty(queue, Finishes(queue));
  }

  /** In every order of events the reloads requested are the reloads due. */
  ghost predicate ReloadsOnce(s: State, e: Consents, async: Async, cfg: Settings) {
    forall events :: CompletesOnce(events) ==>
      Play(Save(s, e, async), events, cfg).reloads == s.reloads + Due(Queued(s.consents, e, async), events, s.paused)
  }

  /** With no opt-out pending the protocol works exactly when no empty queue is left over from an
      earlier save, or nothing is queued now. */
  lemma ReloadsOnceIff(s: State, e: Consents, async: Async, cfg: Settings)
    requires cfg.reloadAfterOptOut && !s.waiting && (s.missing.None? || s.missing.value == [])
    requires Withdrawn(s.consents, WithoutEmpty(e)) != []
    ensures ReloadsOnce(s, e, async, cfg) <==> s.missing.None? || Queued(s.consents, e, async) == []
  {
    var queue := Queued(s.consents, e, async);
    if s.missing.None? || queue == [] {
      forall events | CompletesOnce(events)
        ensures Play(Save(s, e, async), events, cfg).reloads == s.reloads + Due(queue, events, s.paused)
      {
        ReloadsExactlyOnce(s, e, async, events, cfg);
      }
    } else {
      var early := [PauseSet(false)] + Finishes(queue);
      LeftoverQueueReloadsEarly(s, e, async, cfg);
      DueMeans(queue, early, s.paused);
      assert CompletesOnce(early);
    }
  }

  /** The manager as constructed. */
  function Fresh(consents: Consents): State { State(consents, false, false, None, false, 0) }

  /** Reloads are paused, one save withdraws e1 and completes after its opt-outs. */
  function AfterPausedSave(consents: Consents, e1: Consents, async: Async, cfg: Settings): State {
    var paused := Play(Fresh(consents), [PauseSet(true)], cfg);
    Play(Save(paused, e1, async), Finishes(Queued(consents, e1, async)) + [Completed], cfg)
  }

  /** From the constructor to the early reload: a save that completes while reloads are paused requests
      none and leaves its queue behind; then reloads are resumed during a second save, whose opt-outs
      request a reload although that save has not completed. */
  lemma EarlyReloadReached(consents: Consents, e1: Consents, e2: Consents, async: Async, cfg: Settings)
    requires cfg.reloadAfterOptOut
    requires Queued(consents, e1, async) != [] && Queued(WithoutEmpty(e1), e2, async) != []
    ensures
      var first := AfterPausedSave(consents, e1, async, cfg);
      var early := [PauseSet(false)] + Finishes(Queued(first.consents, e2, async));
      && first.reloads == 0 && first.paused && first.missing == Some([])
      && Completed !in early && Play(Save(first, e2, async), early, cfg).reloads == 1
  {
    var paused, queue := Play(Fresh(consents), [PauseSet(true)], cfg), Queued(consents, e1, async);
    PlayOne(Fresh(consents), PauseSet(true), cfg);
    FinishesAll(queue, true);
    CompletionLastLeavesQueue(paused, e1, async, Finishes(queue), cfg);
    LeftoverQueueReloadsEarly(AfterPausedSave(consents, e1, async, cfg), e2, async, cfg);
  }

  lemma {:induction false} FinishesAll(queue: seq<Service>, paused: bool)
    ensures AllFinished(queue, Finishes(queue)) && Completed !in Finishes(queue)
    ensures PausedAfter(paused, Finishes(queue)) == paused
  {
    forall a | a in queue ensures Finished(a) in Finishes(queue) {
      var i :| 0 <= i < |queue| && queue[i] == a;
      assert Finishes(queue)[i] == Finished(a);
    }
    if queue != [] {
      FinishesAll(queue[..|queue| - 1], paused);
      assert Finishes(queue)[..|queue| - 1] == Finishes(queue[..|queue| - 1]);
    }
  }

  /** Two services of one group. */
  function Stats(services: seq<Service>): Consents { [ServiceGroup("stats", services)] }

  lemma StatsStored()
    ensures WithoutEmpty(Stats(["b"])) == Stats(["b"])
    ensures Consented(Stats(["b"]), "stats", "b") && !Consented(Stats(["b"]), "stats", "a")
  {
    assert Stats(["b"])[0].id == "stats" && "b" in Stats(["b"])[0].services;
  }

  lemma StatsWithdrawn()
    ensures Withdrawn(Stats(["a", "b"]), Stats(["b"])) == ["a"]
    ensures Withdrawn(Stats(["b"]), []) == ["b"]
  {
    StatsStored();
    assert ["a", "b"][1..] == ["b"] && ["b"][1..] == [];
    assert WithdrawnOf("stats", ["a", "b"], Stats(["b"])) == ["a"];
    assert Stats(["a", "b"])[1..] == [] && Stats(["b"])[1..] == [];
  }

  lemma StatsQueued(async: Async)
    requires async("a") && async("b")
    ensures Queued(Stats(["a", "b"]), Stats(["b"]), async) == ["a"]
    ensures Queued(WithoutEmpty(Stats(["b"])), [], async) == ["b"]
  {
    StatsStored();
    StatsWithdrawn();
    assert WithoutEmpty([]) == [];
    assert ["a"][1..] == [] && ["b"][1..] == [];
  }

  /** Such a history exists: two services withdrawn one after the other. */
  lemma EarlyReloadExample(async: Async, cfg: Settings)
    requires cfg.reloadAfterOptOut && async("a") && async("b")
    ensures
      var first := AfterPausedSave(Stats(["a", "b"]), Stats(["b"]), async, cfg);
      first.reloads == 0 && Play(Save(first, [], async), [PauseSet(false), Finished("b")], cfg).reloads == 1
  {
    StatsQueued(async);
    EarlyReloadFrom(Stats(["a", "b"]), Stats(["b"]), [], async, cfg, "b");
  }

  lemma EarlyReloadFrom(consents: Consents, e1: Consents, e2: Consents, async: Async, cfg: Settings, service: Service)
    requires cfg.reloadAfterOptOut
    requires Queued(consents, e1, async) != [] && Queued(WithoutEmpty(e1), e2, async) == [service]
    ensures
      var first := AfterPausedSave(consents, e1, async, cfg);
      first.reloads == 0 && Play(Save(first, e2, async), [PauseSet(false), Finished(service)], cfg).reloads == 1
  {
    FirstKeeps(consents, e1, async, cfg);
    EarlyReloadReached(consents, e1, e2, async, cfg);
    assert [PauseSet(false)] + Finishes([service]) == [PauseSet(false), Finished(service)];
  }

  lemma FirstKeeps(consents: Consents, e1: Consents, async: Async, cfg: Settings)
    ensures AfterPausedSave(consents, e1, async, cfg).consents == WithoutEmpty(e1)
  {
    var paused, queue := Play(Fresh(consents), [PauseSet(true)], cfg), Queued(consents, e1, async);
    PlayOne(Fresh(consents), PauseSet(true), cfg);
    SaveStores(paused, e1, async);
    PlayKeepsConsents(Save(paused, e1, async), Finishes(queue) + [Completed], cfg);
  }

  /** Nobody waits for the save, and the events end opt-outs of `queue` only. */
  ghost predicate Finishing(t: State, queue: seq<Service>, events: seq<Event>, before: nat) {
    var left := Pending(queue, events);
    && !t.paused && !t.waiting
    && t.reloads == before + (if left == [] then 1 else 0)
    && t.missing == (if left == [] then None else Some(left))
  }

  lemma FinishOne(t: State, queue: seq<Service>, events: seq<Event>, before: nat, a: Service, cfg: Settings)
    requires cfg.reloadAfterOptOut && Finishing(t, queue, events, before)
    ensures Finishing(OptOutDone(t, a, cfg), queue, events + [Finished(a)], before)
  {
    PendingSnoc(queue, events, a);
    FilterShrinks(Pending(queue, events), a);
  }

  lemma {:induction false} FinishAll(s: State, queue: seq<Service>, events: seq<Event>, cfg: Settings)
    requires cfg.reloadAfterOptOut && !s.paused && !s.waiting && queue != []
    requires s.missing == Some(queue)
    requires forall i :: 0 <= i < |events| ==> events[i].Finished?
    ensures Finishing(Play(s, events, cfg), queue, events, s.reloads)
    decreases |events|
  {
    if events == [] {
      PendingNone(queue);
    } else {
      var init, e := events[..|events| - 1], events[|events| - 1];
      assert events == init + [e];
      FinishAll(s, queue, init, cfg);
      FinishOne(Play(s, init, cfg), queue, init, s.reloads, e.service, cfg);
    }
  }

  // ---------------------------------------------------------------- what a save withdraws and stores

  /** Given before in some group, and not given any more in that group. */
  ghost predicate WithdrawnSomewhere(t: Consents, e: Consents, a: Service) {
    exists group :: Consented(t, group, a) && !Consented(e, group, a)
  }

  lemma ConsentedCons(t: Consents, group: string, a: Service)
    requires t != []
    ensures Consented(t, group, a) <==> (t[0].id == group && a in t[0].services) || Consented(t[1..], group, a)
  {
    if i :| 0 <= i < |t[1..]| && t[1..][i].id == group && a in t[1..][i].services {
      assert t[i + 1] == t[1..][i];
    }
    if i :| 0 < i < |t| && t[i].id == group && a in t[i].services {
      assert t[1..][i - 1] == t[i];
    }
  }

  lemma {:induction false} WithdrawnMeans(t: Consents, e: Consents, a: Service)
    ensures a in Withdrawn(t, e) <==> WithdrawnSomewhere(t, e, a)
  {
    if t != [] {
      WithdrawnMeans(t[1..], e, a);
      forall group
        ensures Consented(t, group, a) <==> (t[0].id == group && a in t[0].services) || Consented(t[1..], group, a)
      {
        ConsentedCons(t, group, a);
      }
      assert a in WithdrawnOf(t[0].id, t[0].services, e) <==> a in t[0].services && !Consented(e, t[0].id, a);
      if a in WithdrawnOf(t[0].id, t[0].services, e) {
        assert Consented(t, t[0].id, a);
      }
      if group :| Consented(t[1..], group, a) && !Consented(e, group, a) {
        assert Consented(t, group, a);
      }
    }
  }

  /** What is stored is what was given, without groups that hold nothing. */
  lemma {:induction false} StoredMeans(e: Consents, group: string, a: Service)
    ensures Consented(WithoutEmpty(e), group, a) <==> Consented(e, group, a)
    ensures forall g :: g in WithoutEmpty(e) ==> g.services != []
  {
    if e != [] {
      StoredMeans(e[1..], group, a);
      ConsentedCons(e, group, a);
      var rest := WithoutEmpty(e[1..]);
      if e[0].services == [] {
        assert WithoutEmpty(e) == rest;
      } else {
        assert WithoutEmpty(e) == [e[0]] + rest;
        assert ([e[0]] + rest)[1..] == rest;
        ConsentedCons([e[0]] + rest, group, a);
      }
    }
  }

  lemma StoredWithdrawn(t: Consents, e: Consents, a: Service)
    ensures a in Withdrawn(t, WithoutEmpty(e)) <==> WithdrawnSomewhere(t, e, a)
  {
    WithdrawnMeans(t, WithoutEmpty(e), a);
    forall group ensures Consented(WithoutEmpty(e), group, a) <==> Consented(e, group, a) { StoredMeans(e, group, a); }
  }

  /** A save stores the given consents, is triggered exactly when some service was given before and is
      not any more, and queues exactly the asynchronous ones of those. */
  lemma SaveMeans(s: State, e: Consents, async: Async, group: string, a: Service)
    ensures Consented(Save(s, e, async).consents, group, a) <==> Consented(e, group, a)
    ensures Save(s, e, async).triggered <==> exists b :: WithdrawnSomewhere(s.consents, e, b)
    ensures a in Queued(s.consents, e, async) <==> async(a) && WithdrawnSomewhere(s.consents, e, a)
  {
    SaveStores(s, e, async);
    StoredMeans(e, group, a);
    var withdrawn := Withdrawn(s.consents, WithoutEmpty(e));
    forall b ensures b in withdrawn <==> WithdrawnSomewhere(s.consents, e, b) { StoredWithdrawn(s.consents, e, b); }
    if withdrawn != [] { assert withdrawn[0] in withdrawn; }
  }

  // ---------------------------------------------------------------- saves without a reload after opt-out

  /** How often the backend save completes while reloads are not paused. */
  function Completions(events: seq<Event>, paused: bool): nat {
    if events == [] then 0
    else
      var init, e := events[..|events| - 1], events[|events| - 1];
      Completions(init, paused) + if e.Completed? && !PausedAfter(paused, init) then 1 else 0
  }

  lemma {:induction false} CompletionsAtMostOnce(events: seq<Event>, paused: bool)
    requires CompletesOnce(events)
    ensures Completions(events, paused) <= 1
    ensures Completed !in events ==> Completions(events, paused) == 0
  {
    if events != [] {
      var init, e := events[..|events| - 1], events[|events| - 1];
      assert events == init + [e];
      CompletionsAtMostOnce(init, paused);
    }
  }

  /** Done calls request nothing: reloads after opt-outs are switched off, or no opt-out is under way. */
  predicate OptOutsQuiet(s: State, cfg: Settings) {
    !cfg.reloadAfterOptOut || (!s.triggered && (s.missing.None? || s.missing.value == []))
  }

  lemma QuietStep(s: State, e: Event, cfg: Settings)
    requires OptOutsQuiet(s, cfg)
    ensures
      var t := Handle(s, e, cfg);
      && OptOutsQuiet(t, cfg)
      && t.paused == (if e.PauseSet? then e.paused else s.paused)
      && t.reloads == s.reloads + if e.Completed? && cfg.reloadAfterOptIn && !s.paused then 1 else 0
  {
  }

  lemma {:induction false} QuietRun(s: State, events: seq<Event>, cfg: Settings)
    requires OptOutsQuiet(s, cfg)
    ensures
      var t := Play(s, events, cfg);
      && OptOutsQuiet(t, cfg) && t.paused == PausedAfter(s.paused, events)
      && t.reloads == s.reloads + if cfg.reloadAfterOptIn then Completions(events, s.paused) else 0
    decreases |events|
  {
    if events != [] {
      var init, e := events[..|events| - 1], events[|events| - 1];
      QuietRun(s, init, cfg);
      QuietStep(Play(s, init, cfg), e, cfg);
    }
  }

  /** A save that withdraws nothing, or any save when reloading after opt-outs is off: whatever happens
      afterwards in whatever order, the only reload is the one on completion, and that is requested
      exactly when reloading after opt-ins is on and reloads are not paused at that event. */
  lemma OptInReloads(s: State, e: Consents, async: Async, events: seq<Event>, cfg: Settings)
    requires !cfg.reloadAfterOptOut
          || ((s.missing.None? || s.missing.value == []) && forall a :: !WithdrawnSomewhere(s.consents, e, a))
    ensures Play(Save(s, e, async), events, cfg).reloads
         == s.reloads + if cfg.reloadAfterOptIn then Completions(events, s.paused) else 0
  {
    var saved, queue := Save(s, e, async), Queued(s.consents, e, async);
    QueueAllMeans(s.(consents := WithoutEmpty(e)), queue);
    if cfg.reloadAfterOptOut {
      SaveMeans(s, e, async, "", "");
    }
    QuietRun(saved, events, cfg);
  }
}
