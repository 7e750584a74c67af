/** Bumping a domain's config version by any number of interleaved workers, one host, no exceptions. */
module ConfigVersion {
  import opened Php

  datatype Stage = Start | Incremented | ReadBack | Built | LaravelWritten | RedisWritten | Done

  /** `own` is the version the worker's own increment produced, `seen` the version it read back,
      `hasConfig` whether building the proxy config yielded one. */
  datatype Worker = Worker(stage: Stage, own: nat, seen: nat, hasConfig: bool)

  datatype Message = Message(version: nat, pushed: bool)

  /** The counter, the revisions held by the Laravel cache and the proxy's Redis, and what was published. */
  datatype Store = Store(version: nat, laravel: Option<nat>, redis: Option<nat>, messages: seq<Message>)

  datatype System = System(store: Store, workers: seq<Worker>)

  function Revision(w: Worker): Option<nat> { if w.hasConfig then Some(w.seen) else None }

  /** The next step of one worker; `built` is what building the config yields if that is the step. */
  function StepWorker(s: Store, w: Worker, built: bool): (Store, Worker) {
    match w.stage
    case Start => (s.(version := s.version + 1), w.(stage := Incremented, own := s.version + 1))
    case Incremented => (s, w.(stage := ReadBack, seen := s.version))
    case ReadBack => (s, w.(stage := Built, hasConfig := built))
    case Built => (s.(laravel := Revision(w)), w.(stage := LaravelWritten))
    case LaravelWritten => (s.(redis := Revision(w)), w.(stage := RedisWritten))
    case RedisWritten => (s.(messages := s.messages + [Message(w.seen, w.hasConfig)]), w.(stage := Done))
    case Done => (s, w)
  }

  datatype Action = Action(worker: nat, built: bool)

  function Step(sys: System, a: Action): System {
    if a.worker < |sys.workers| then
      var (store, w) := StepWorker(sys.store, sys.workers[a.worker], a.built);
      System(store, sys.workers[a.worker := w])
    else sys
  }

  function Run(sys: System, actions: seq<Action>): System
    decreases |actions|
  {
    if actions == [] then sys else Step(Run(sys, actions[..|actions| - 1]), actions[|actions| - 1])
  }

  predicate Initial(sys: System) {
    && (forall i :: 0 <= i < |sys.workers| ==> sys.workers[i].stage == Start)
    && AtMost(sys.store.laravel, sys.store.version) && AtMost(sys.store.redis, sys.store.version)
    && (forall i :: 0 <= i < |sys.store.messages| ==> sys.store.messages[i].version <= sys.store.version)
  }

  predicate AtMost(revision: Option<nat>, version: nat) { revision.Some? ==> revision.value <= version }

  /** Increments done so far: the workers that are past their first step. */
  function Increments(workers: seq<Worker>): nat {
    if workers == [] then 0
    else Increments(workers[..|workers| - 1]) + if workers[|workers| - 1].stage == Start then 0 else 1
  }

  predicate HasRead(w: Worker) { w.stage != Start && w.stage != Incremented }

  predicate WorkerOk(w: Worker, first: nat, s: Store) {
    && (w.stage != Start ==> first < w.own <= s.version)
    && (HasRead(w) ==> w.own <= w.seen <= s.version)
    && (w.stage == Done ==> Message(w.seen, w.hasConfig) in s.messages)
  }

  ghost predicate VersionsApart(workers: seq<Worker>) {
    forall i, j :: 0 <= i < j < |workers| && workers[i].stage != Start && workers[j].stage != Start
      ==> workers[i].own != workers[j].own
  }

  ghost predicate NewestHasOwner(workers: seq<Worker>, version: nat) {
    exists i :: 0 <= i < |workers| && workers[i].stage != Start && workers[i].own == version
  }

  /** What every interleaving keeps, when the counter started at `first`. */
  ghost predicate Inv(sys: System, first: nat) {
    && sys.store.version == first + Increments(sys.workers)
    && AtMost(sys.store.laravel, sys.store.version) && AtMost(sys.store.redis, sys.store.version)
    && (forall i :: 0 <= i < |sys.store.messages| ==> sys.store.messages[i].version <= sys.store.version)
    && (forall i :: 0 <= i < |sys.workers| ==> WorkerOk(sys.workers[i], first, sys.store))
    && VersionsApart(sys.workers)
    && (sys.store.version > first ==> NewestHasOwner(sys.workers, sys.store.version))
  }

  lemma {:induction false} IncrementsUpdate(workers: seq<Worker>, i: nat, w: Worker)
    requires i < |workers|
    ensures Increments(workers[i := w])
         == Increments(workers) + (if w.stage == Start then 0 else 1) - (if workers[i].stage == Start then 0 else 1)
  {
    var u := workers[i := w];
    if i < |workers| - 1 {
      assert u[..|u| - 1] == workers[..|workers| - 1][i := w];
      IncrementsUpdate(workers[..|workers| - 1], i, w);
    } else {
      assert u[..|u| - 1] == workers[..|workers| - 1];
    }
  }

  lemma {:induction false} NoIncrements(workers: seq<Worker>)
    requires forall i :: 0 <= i < |workers| ==> workers[i].stage == Start
    ensures Increments(workers) == 0
  {
    if workers != [] { NoIncrements(workers[..|workers| - 1]); }
  }

  /** One worker's step keeps what holds of it and of every other worker. */
  lemma StepWorkerOk(s: Store, w: Worker, built: bool, other: Worker, first: nat)
    requires WorkerOk(w, first, s) && WorkerOk(other, first, s) && first <= s.version
    ensures
      var (t, v) := StepWorker(s, w, built);
      WorkerOk(v, first, t) && WorkerOk(other, first, t)
  {
  }

  lemma StepStore(s: Store, w: Worker, built: bool, first: nat)
    requires WorkerOk(w, first, s)
    requires AtMost(s.laravel, s.version) && AtMost(s.redis, s.version)
    requires forall i :: 0 <= i < |s.messages| ==> s.messages[i].version <= s.version
    ensures
      var (t, v) := StepWorker(s, w, built);
      && AtMost(t.laravel, t.version) && AtMost(t.redis, t.version)
      && (forall i :: 0 <= i < |t.messages| ==> t.messages[i].version <= t.version)
  {
  }

  /** Only the first step changes the counter and the worker's own version. */
  lemma StepOwn(s: Store, w: Worker, built: bool)
    ensures
      var (t, v) := StepWorker(s, w, built);
      && v.stage != Start
      && (if w.stage == Start then t.version == s.version + 1 && v.own == t.version
          else t.version == s.version && v.own == w.own)
  {
  }

  lemma StepInv(sys: System, a: Action, first: nat)
    requires Inv(sys, first)
    ensures Inv(Step(sys, a), first)
  {
    if a.worker < |sys.workers| {
      var workers, w := sys.workers, sys.workers[a.worker];
      var (t, v) := StepWorker(sys.store, w, a.built);
      assert WorkerOk(w, first, sys.store);
      StepOwn(sys.store, w, a.built);
      StepStore(sys.store, w, a.built, first);
      IncrementsUpdate(workers, a.worker, v);
      var u := workers[a.worker := v];
      forall i | 0 <= i < |u| ensures WorkerOk(u[i], first, t) {
        assert WorkerOk(workers[i], first, sys.store);
        StepWorkerOk(sys.store, w, a.built, workers[i], first);
      }
      StepApart(workers, a.worker, v, first, sys.store);
      if t.version > first { StepOwner(workers, a.worker, v, sys.store.version, t.version); }
    }
  }

  lemma StepApart(workers: seq<Worker>, k: nat, v: Worker, first: nat, s: Store)
    requires k < |workers| && VersionsApart(workers)
    requires forall i :: 0 <= i < |workers| ==> WorkerOk(workers[i], first, s)
    requires if workers[k].stage == Start then v.own == s.version + 1 else v.own == workers[k].own
    ensures VersionsApart(workers[k := v])
  {
    forall i | 0 <= i < |workers| ensures workers[i].stage != Start ==> workers[i].own <= s.version {
      assert WorkerOk(workers[i], first, s);
    }
  }

  lemma StepOwner(workers: seq<Worker>, k: nat, v: Worker, before: nat, after: nat)
    requires k < |workers| && v.stage != Start
    requires
      if workers[k].stage == Start then v.own == after
      else before == after && v.own == workers[k].own && NewestHasOwner(workers, before)
    ensures NewestHasOwner(workers[k := v], after)
  {
    var u := workers[k := v];
    if workers[k].stage == Start {
      assert u[k].own == after;
    } else {
      var i :| 0 <= i < |workers| && workers[i].stage != Start && workers[i].own == before;
      assert u[i].stage != Start && u[i].own == after;
    }
  }

  /** Over every interleaving of any number of workers: the version is the initial version plus the
      increments done, no cache and no message is ahead of it, every increment produced a version of
      its own, and each worker reads back at least the version its own increment produced. */
  lemma {:induction false} InterleavingsKeep(sys: System, actions: seq<Action>)
    requires Initial(sys)
    ensures Inv(Run(sys, actions), sys.store.version)
    decreases |actions|
  {
    if actions == [] {
      NoIncrements(sys.workers);
    } else {
      InterleavingsKeep(sys, actions[..|actions| - 1]);
      StepInv(Run(sys, actions[..|actions| - 1]), actions[|actions| - 1], sys.store.version);
    }
  }

  /** Once every worker is done, the newest version has been published, whatever the interleaving. */
  lemma NewestAnnounced(sys: System, actions: seq<Action>)
    requires Initial(sys) && sys.workers != []
    requires forall i :: 0 <= i < |Run(sys, actions).workers| ==> Run(sys, actions).workers[i].stage == Done
    ensures
      var end := Run(sys, actions).store;
      exists pushed :: Message(end.version, pushed) in end.messages
  {
    var end := Run(sys, actions);
    InterleavingsKeep(sys, actions);
    WorkersKept(sys, actions);
    AllCounted(end.workers);
    var i :| 0 <= i < |end.workers| && end.workers[i].stage != Start && end.workers[i].own == end.store.version;
    assert WorkerOk(end.workers[i], sys.store.version, end.store);
    assert Message(end.store.version, end.workers[i].hasConfig) in end.store.messages;
  }

  lemma {:induction false} WorkersKept(sys: System, actions: seq<Action>)
    ensures |Run(sys, actions).workers| == |sys.workers|
    decreases |actions|
  {
    if actions != [] { WorkersKept(sys, actions[..|actions| - 1]); }
  }

  lemma {:induction false} AllCounted(workers: seq<Worker>)
    requires forall i :: 0 <= i < |workers| ==> workers[i].stage != Start
    ensures Increments(workers) == |workers|
  {
    if workers != [] { AllCounted(workers[..|workers| - 1]); }
  }

  // ---------------------------------------------------------------- serialised bumps

  /** All six steps of a fresh worker without interruption. */
  function Bump(s: Store, built: bool): Store {
    var (s1, w1) := StepWorker(s, Worker(Start, 0, 0, false), built);
    var (s2, w2) := StepWorker(s1, w1, built);
    var (s3, w3) := StepWorker(s2, w2, built);
    var (s4, w4) := StepWorker(s3, w3, built);
    var (s5, w5) := StepWorker(s4, w4, built);
    var (s6, w6) := StepWorker(s5, w5, built);
    s6
  }

  function BumpAll(s: Store, builds: seq<bool>): Store {
    if builds == [] then s else Bump(BumpAll(s, builds[..|builds| - 1]), builds[|builds| - 1])
  }

  /** Both caches are absent or both hold the current revision. */
  predicate CachesAgree(s: Store) { s.laravel == s.redis && (s.laravel == None || s.laravel == Some(s.version)) }

  /** After any number of serialised bumps: one version per bump, one message per bump in version
      order, and both caches absent or both current, according to the last config built. */
  lemma {:induction false} SerialBumpsAgree(s: Store, builds: seq<bool>)
    requires builds != []
    ensures
      var t := BumpAll(s, builds);
      && CachesAgree(t)
      && (t.laravel.Some? <==> builds[|builds| - 1])
      && t.version == s.version + |builds|
      && t.messages == s.messages + seq(|builds|, i requires 0 <= i < |builds| => Message(s.version + 1 + i, builds[i]))
  {
    if |builds| > 1 {
      SerialBumpsAgree(s, builds[..|builds| - 1]);
    } else {
      assert builds[..0] == [];
    }
  }

  class ConfigStore {
    var version: nat
    var laravel: Option<nat>
    var redis: Option<nat>
    var messages: seq<Message>

    constructor (version: nat)
      ensures State() == Store(version, None, None, [])
    {
      this.version, laravel, redis, messages := version, None, None, [];
    }

    function State(): Store
      reads this
    {
      Store(version, laravel, redis, messages)
    }

    /** `bumpConfigVersion`; built says whether building the config yields one. */
    method BumpConfigVersion(built: bool)
      modifies this
      ensures State() == Bump(old(State()), built)
      ensures CachesAgree(State())
    {
      version := version + 1;
      var newVersion := version;
      if built {
        laravel := Some(newVersion);
        redis := Some(newVersion);
      } else {
        laravel := None;
        redis := None;
      }
      messages := messages + [Message(newVersion, built)];
    }
  }

  // ---------------------------------------------------------------- when the caches end current

  /** How many steps a schedule gives to worker w. */
  function Steps(actions: seq<Action>, w: nat): nat {
    if actions == [] then 0
    else Steps(actions[..|actions| - 1], w) + if actions[|actions| - 1].worker == w then 1 else 0
  }

  // A worker's steps are numbered: 0 increment, 1 read-back, 2 build, 3 and 4 the cache writes, 5 publish.

  /** The last of n workers to take step number `step` in a schedule. */
  function LastAt(actions: seq<Action>, n: nat, step: nat): (r: Option<nat>)
    ensures r.Some? ==> r.value < n
  {
    if actions == [] then None
    else
      var init, a := actions[..|actions| - 1], actions[|actions| - 1];
      if a.worker < n && Steps(init, a.worker) == step then Some(a.worker) else LastAt(init, n, step)
  }

  /** Whether the build step of worker w yields a config. */
  predicate BuildsConfig(actions: seq<Action>, w: nat) {
    actions != [] &&
    var init, a := actions[..|actions| - 1], actions[|actions| - 1];
    if a.worker == w && Steps(init, w) == 2 then a.built else BuildsConfig(init, w)
  }

  /** Worker w reads the version back after the last increment of any of the n workers. */
  predicate ReadsNewest(actions: seq<Action>, n: nat, w: nat) {
    actions != [] &&
    var init, a := actions[..|actions| - 1], actions[|actions| - 1];
    if a.worker == w && Steps(init, w) == 1 then true
    else if a.worker < n && Steps(init, a.worker) == 0 then false
    else ReadsNewest(init, n, w)
  }

  function StageAfter(steps: nat): Stage {
    match steps
    case 0 => Start
    case 1 => Incremented
    case 2 => ReadBack
    case 3 => Built
    case 4 => LaravelWritten
    case 5 => RedisWritten
    case _ => Done
  }

  /** What a schedule says about worker w is what the run makes of it. */
  ghost predicate Tracks(sys: System, actions: seq<Action>, w: nat)
    requires |Run(sys, actions).workers| == |sys.workers| && w < |sys.workers|
  {
    var steps, v := Steps(actions, w), Run(sys, actions).workers[w];
    && v.stage == StageAfter(steps)
    && (steps >= 2 ==> (v.seen == Run(sys, actions).store.version <==> ReadsNewest(actions, |sys.workers|, w)))
    && (steps >= 3 ==> v.hasConfig == BuildsConfig(actions, w))
  }

  /** The worker that takes a step keeps to its schedule. */
  lemma TracksOwnStep(sys: System, actions: seq<Action>, w: nat)
    requires actions != [] && w < |sys.workers| && actions[|actions| - 1].worker == w
    requires |Run(sys, actions[..|actions| - 1]).workers| == |sys.workers| && Tracks(sys, actions[..|actions| - 1], w)
    ensures |Run(sys, actions).workers| == |sys.workers| && Tracks(sys, actions, w)
  {
  }

  /** Another worker's step matters to w only if it is an increment. */
  lemma TracksOtherStep(sys: System, actions: seq<Action>, w: nat)
    requires actions != [] && w < |sys.workers|
    requires
      var init, k := actions[..|actions| - 1], actions[|actions| - 1].worker;
      && k != w && |Run(sys, init).workers| == |sys.workers|
      && Tracks(sys, init, w) && (k < |sys.workers| ==> Tracks(sys, init, k))
      && (HasRead(Run(sys, init).workers[w]) ==> Run(sys, init).workers[w].seen <= Run(sys, init).store.version)
    ensures |Run(sys, actions).workers| == |sys.workers| && Tracks(sys, actions, w)
  {
  }

  lemma {:induction false} RunTracks(sys: System, actions: seq<Action>, w: nat)
    requires Initial(sys) && w < |sys.workers|
    ensures |Run(sys, actions).workers| == |sys.workers| && Tracks(sys, actions, w)
    decreases |actions|
  {
    if actions != [] {
      var init, k := actions[..|actions| - 1], actions[|actions| - 1].worker;
      RunTracks(sys, init, w);
      if k == w {
        TracksOwnStep(sys, actions, w);
      } else {
        if k < |sys.workers| { RunTracks(sys, init, k); }
        InterleavingsKeep(sys, init);
        assert WorkerOk(Run(sys, init).workers[w], sys.store.version, Run(sys, init).store);
        TracksOtherStep(sys, actions, w);
      }
    }
  }

  /** Both caches hold what their last writers hold. */
  ghost predicate CachesTrack(sys: System, actions: seq<Action>)
    requires |Run(sys, actions).workers| == |sys.workers|
  {
    var n, end := |sys.workers|, Run(sys, actions);
    var x, y := LastAt(actions, n, 3), LastAt(actions, n, 4);
    && (x.Some? ==> Steps(actions, x.value) > 3 && end.store.laravel == Revision(end.workers[x.value]))
    && (y.Some? ==> Steps(actions, y.value) > 4 && end.store.redis == Revision(end.workers[y.value]))
  }

  /** Once built, a worker's revision no longer changes. */
  lemma RevisionFixed(s: Store, w: Worker, built: bool)
    requires w.stage in {Built, LaravelWritten, RedisWritten, Done}
    ensures Revision(StepWorker(s, w, built).1) == Revision(w)
  {
  }

  lemma CachesTrackStep(sys: System, actions: seq<Action>)
    requires actions != []
    requires
      var init, k := actions[..|actions| - 1], actions[|actions| - 1].worker;
      && |Run(sys, init).workers| == |sys.workers| && CachesTrack(sys, init)
      && (k < |sys.workers| ==> Tracks(sys, init, k))
    ensures |Run(sys, actions).workers| == |sys.workers| && CachesTrack(sys, actions)
  {
    var init, a := actions[..|actions| - 1], actions[|actions| - 1];
    if a.worker < |sys.workers| && Steps(init, a.worker) >= 3 {
      RevisionFixed(Run(sys, init).store, Run(sys, init).workers[a.worker], a.built);
    }
  }

  lemma {:induction false} RunCachesTrack(sys: System, actions: seq<Action>)
    requires Initial(sys)
    ensures |Run(sys, actions).workers| == |sys.workers| && CachesTrack(sys, actions)
    decreases |actions|
  {
    if actions != [] {
      var init, k := actions[..|actions| - 1], actions[|actions| - 1].worker;
      RunCachesTrack(sys, init);
      if k < |sys.workers| { RunTracks(sys, init, k); }
      CachesTrackStep(sys, actions);
    }
  }

  lemma {:induction false} SomebodyLast(actions: seq<Action>, n: nat, w: nat, step: nat)
    requires w < n && Steps(actions, w) > step
    ensures LastAt(actions, n, step).Some?
  {
    if Steps(actions[..|actions| - 1], w) > step { SomebodyLast(actions[..|actions| - 1], n, w, step); }
  }

  /** Both caches are left absent or current exactly when the last writers of the two caches agree on
      whether there is a config and, if there is one, both read the version back after the last
      increment. This holds at every point of every interleaving at which some worker has written both
      caches, so in particular when all workers are done; the condition is read off the schedule. */
  lemma CachesAgreeIff(sys: System, actions: seq<Action>, w: nat)
    requires Initial(sys) && w < |sys.workers| && Steps(actions, w) > 4
    ensures
      var n := |sys.workers|;
      var x, y := LastAt(actions, n, 3), LastAt(actions, n, 4);
      && x.Some? && y.Some?
      && (CachesAgree(Run(sys, actions).store)
          <==> && BuildsConfig(actions, x.value) == BuildsConfig(actions, y.value)
               && (BuildsConfig(actions, x.value) ==>
                   ReadsNewest(actions, n, x.value) && ReadsNewest(actions, n, y.value)))
  {
    SomebodyLast(actions, |sys.workers|, w, 3);
    SomebodyLast(actions, |sys.workers|, w, 4);
    RunCachesTrack(sys, actions);
    RunTracks(sys, actions, LastAt(actions, |sys.workers|, 3).value);
    RunTracks(sys, actions, LastAt(actions, |sys.workers|, 4).value);
  }

  // ---------------------------------------------------------------- what interleaving can break

  const TWO_FRESH := System(Store(0, None, None, []), [Worker(Start, 0, 0, false), Worker(Start, 0, 0, false)])

  /** The first worker increments, reads back and builds; the second runs to its end; the first
      then writes both caches and publishes. */
  function LateWriter(): seq<Action> {
    var first, second := Action(0, true), Action(1, true);
    [first, first, first] + ([second, second, second] + ([second, second, second] + [first, first, first]))
  }

  /** Without serialisation both workers can finish and leave both caches with the older revision. */
  lemma LateWriterLeavesStaleCaches()
    ensures Initial(TWO_FRESH)
    ensures Run(TWO_FRESH, LateWriter())
         == System(Store(2, Some(1), Some(1), [Message(2, true), Message(1, true)]),
                   [Worker(Done, 1, 1, true), Worker(Done, 2, 2, true)])
  {
    var first, second := Action(0, true), Action(1, true);
    var firstRuns, secondRuns := [first, first, first], [second, second, second];
    var w0, w1 := Worker(Built, 1, 1, true), Worker(Built, 2, 2, true);
    var a := System(Store(1, None, None, []), [w0, Worker(Start, 0, 0, false)]);
    var b := System(Store(2, None, None, []), [w0, w1]);
    var c := System(Store(2, Some(2), Some(2), [Message(2, true)]), [w0, w1.(stage := Done)]);
    assert Run(TWO_FRESH, firstRuns) == a by { Prepare(TWO_FRESH.store, TWO_FRESH.workers, 0); }
    assert Run(a, secondRuns) == b by { Prepare(a.store, a.workers, 1); }
    assert Run(b, secondRuns) == c by { Finish(b.store, b.workers, 1); }
    Finish(c.store, c.workers, 0);
    Chain(TWO_FRESH, firstRuns, a, secondRuns, b, secondRuns, c, firstRuns);
  }

  lemma Chain(sys: System, x: seq<Action>, a: System, y: seq<Action>, b: System, z: seq<Action>, c: System,
      w: seq<Action>)
    requires Run(sys, x) == a && Run(a, y) == b && Run(b, z) == c
    ensures Run(sys, x + (y + (z + w))) == Run(c, w)
  {
    RunAppend(sys, x, y + (z + w));
    RunAppend(a, y, z + w);
    RunAppend(b, z, w);
  }

  /** Increment, read back and build, without interruption. */
  lemma Prepare(s: Store, workers: seq<Worker>, k: nat)
    requires k < |workers| && workers[k].stage == Start
    ensures
      var a, v := Action(k, true), s.version + 1;
      Run(System(s, workers), [a, a, a]) == System(s.(version := v), workers[k := Worker(Built, v, v, true)])
  {
    var a, v := Action(k, true), s.version + 1;
    var one := Step(System(s, workers), a);
    var two := Step(one, a);
    assert one.workers == workers[k := Worker(Incremented, v, workers[k].seen, workers[k].hasConfig)];
    assert two.workers == workers[k := Worker(ReadBack, v, v, workers[k].hasConfig)];
    assert Step(two, a).workers == workers[k := Worker(Built, v, v, true)];
    ThreeSteps(System(s, workers), a);
  }

  /** Write both caches and publish, without interruption. */
  lemma Finish(s: Store, workers: seq<Worker>, k: nat)
    requires k < |workers| && workers[k].stage == Built
    ensures
      var a, w := Action(k, true), workers[k];
      Run(System(s, workers), [a, a, a])
      == System(Store(s.version, Revision(w), Revision(w), s.messages + [Message(w.seen, w.hasConfig)]),
                workers[k := w.(stage := Done)])
  {
    var a, w := Action(k, true), workers[k];
    var one := Step(System(s, workers), a);
    var two := Step(one, a);
    assert one.workers == workers[k := w.(stage := LaravelWritten)];
    assert two.workers == workers[k := w.(stage := RedisWritten)];
    assert Step(two, a).workers == workers[k := w.(stage := Done)];
    ThreeSteps(System(s, workers), a);
  }

  lemma ThreeSteps(sys: System, a: Action)
    ensures Run(sys, [a, a, a]) == Step(Step(Step(sys, a), a), a)
  {
    assert Run(sys, []) == sys;
    assert [a][..0] == [] && Run(sys, [a]) == Step(sys, a);
    assert [a, a][..1] == [a] && Run(sys, [a, a]) == Step(Step(sys, a), a);
    assert [a, a, a][..2] == [a, a];
  }

  /** Running two lists of actions one after the other is running their concatenation. */
  lemma {:induction false} RunAppend(sys: System, x: seq<Action>, y: seq<Action>)
    ensures Run(sys, x + y) == Run(Run(sys, x), y)
    decreases |y|
  {
    if y == [] {
      assert x + y == x;
    } else {
      assert (x + y)[..|x + y| - 1] == x + y[..|y| - 1];
      RunAppend(sys, x, y[..|y| - 1]);
    }
  }
}
