/** What a run of scheduled scans of one domain covers, when no discovery or edit intervenes. */
module Coverage {
  import opened Php
  import opened PageSets
  import opened Scheduler

  /** The chunks a full cycle over `sets` has to take, in order. */
  function Agenda(sets: seq<seq<Page>>, m: nat): (r: seq<seq<Page>>)
    requires m >= 1
    ensures sets != [] ==> r != []
  {
    if sets == [] then [] else Pieces(sets[0], m) + Agenda(sets[1..], m)
  }

  /** Completed scans a set of n pages needs: one per chunk, and one for an empty set. */
  function ScansFor(n: nat, m: nat): nat
    requires m >= 1
  {
    if n == 0 then 1 else CeilDiv(n, m)
  }

  function TotalScans(sets: seq<seq<Page>>, m: nat): nat
    requires m >= 1
  {
    if sets == [] then 0 else ScansFor(|sets[0]|, m) + TotalScans(sets[1..], m)
  }

  lemma {:induction false} AgendaMeasures(sets: seq<seq<Page>>, m: nat)
    requires m >= 1
    ensures |Agenda(sets, m)| == TotalScans(sets, m)
    ensures Flatten(Agenda(sets, m)) == Flatten(sets)
    ensures forall i :: 0 <= i < |Agenda(sets, m)| ==> |Agenda(sets, m)[i]| <= m
  {
    if sets != [] {
      AgendaMeasures(sets[1..], m);
      FlattenAppend(Pieces(sets[0], m), Agenda(sets[1..], m));
    }
  }

  lemma {:induction false} AgendaAppend(a: seq<seq<Page>>, b: seq<seq<Page>>, m: nat)
    requires m >= 1
    ensures Agenda(a + b, m) == Agenda(a, m) + Agenda(b, m)
  {
    if a == [] {
      assert a + b == b;
    } else {
      assert (a + b)[1..] == a[1..] + b;
      AgendaAppend(a[1..], b, m);
    }
  }

  /** Chunks are never chunked again. */
  lemma {:induction false} AgendaOfChunks(chunks: seq<seq<Page>>, m: nat)
    requires m >= 1 && forall i :: 0 <= i < |chunks| ==> |chunks[i]| <= m
    ensures Agenda(chunks, m) == chunks
  {
    if chunks != [] {
      AgendaOfChunks(chunks[1..], m);
    }
  }

  /** Splitting the set at k changes nothing in the agenda; its first chunk is the next to take. */
  lemma AgendaOfSplit(sets: seq<seq<Page>>, k: nat, m: nat)
    requires m >= 1 && k < |sets|
    ensures
      var split, agenda, at := SplitSets(sets, k, m), Agenda(sets, m), |Agenda(sets[..k], m)|;
      && Agenda(split, m) == agenda
      && at < |agenda|
      && split[k] == agenda[at]
      && (k + 1 == |split| <==> at + 1 == |agenda|)
      && |Agenda(split[..if k + 1 == |split| then 0 else k + 1], m)| == if at + 1 == |agenda| then 0 else at + 1
  {
    var pieces, rest := Pieces(sets[k], m), sets[k + 1..];
    var split := SplitSets(sets, k, m);
    assert sets == sets[..k] + ([sets[k]] + rest);
    assert split == sets[..k] + (pieces + rest);
    assert split[..k + 1] == sets[..k] + [pieces[0]];
    AgendaAppend(sets[..k], [sets[k]] + rest, m);
    AgendaAppend(sets[..k], pieces + rest, m);
    AgendaAppend(sets[..k], [pieces[0]], m);
    AgendaAppend(pieces, rest, m);
    AgendaOfChunks(pieces, m);
    AgendaOfChunks([pieces[0]], m);
    assert ([sets[k]] + rest)[1..] == rest;
  }

  /** One attempt of the scan job on the domain. */
  datatype Attempt = Completed(now: int, resultId: int) | AbortedBeforeSplit | AbortedAfterSplit

  function Attempted(db: Db, d: int, m: nat, a: Attempt): Db
    requires d in db.domains
  {
    match a
    case Completed(now, resultId) => ScanOk(db, d, m, now, resultId)
    case AbortedBeforeSplit => db
    case AbortedAfterSplit => ScanFail(db, d, m)
  }

  function RunScans(db: Db, d: int, m: nat, attempts: seq<Attempt>): (r: Db)
    requires d in db.domains
    ensures d in r.domains
    decreases |attempts|
  {
    if attempts == [] then db else RunScans(Attempted(db, d, m, attempts[0]), d, m, attempts[1..])
  }

  function Completions(attempts: seq<Attempt>): nat {
    if attempts == [] then 0 else (if attempts[0].Completed? then 1 else 0) + Completions(attempts[1..])
  }

  /** The set pages taken by the completed attempts, one entry per attempt. */
  function AllTaken(db: Db, d: int, m: nat, attempts: seq<Attempt>): seq<seq<Page>>
    requires d in db.domains
    decreases |attempts|
  {
    if attempts == [] then []
    else (if attempts[0].Completed? then [Taken(db, d, m)] else [])
         + AllTaken(Attempted(db, d, m, attempts[0]), d, m, attempts[1..])
  }

  lemma WrapAround(n: nat, x: nat)
    requires n > 0
    ensures (n + x) / n == 1 + x / n
    ensures (n + x) % n == x % n
  {
    var q, r := x / n, x % n;
    assert x == n * q + r;
    assert n + x == n * (1 + q) + r;
    DivModUnique(n + x, n, 1 + q, r);
  }

  /** s completed scans from position `start` of the agenda took the chunks that follow, going
      round, and the cycle number counts the rounds. */
  ghost predicate GoesRound(agenda: seq<seq<Page>>, start: nat, taken: seq<seq<Page>>, s: nat, before: nat,
      after: nat) {
    && |agenda| > 0
    && |taken| == s
    && (forall i :: 0 <= i < s ==> taken[i] == agenda[(start + i) % |agenda|])
    && after == before + (start + s) / |agenda|
  }

  /** Taking the chunk at `start` and then going round from the position after it. */
  lemma CompletedStep(agenda: seq<seq<Page>>, start: nat, first: seq<Page>, position: nat, middle: nat,
                      later: seq<seq<Page>>, s: nat, before: nat, after: nat)
    requires start < |agenda| && first == agenda[start]
    requires
      if start + 1 == |agenda| then position == 0 && middle == before + 1
      else position == start + 1 && middle == before
    requires GoesRound(agenda, position, later, s, middle, after)
    ensures GoesRound(agenda, start, [first] + later, s + 1, before, after)
  {
    var n := |agenda|;
    forall i | 0 <= i < s + 1 ensures ([first] + later)[i] == agenda[(start + i) % n] {
      if i == 0 {
        DivModUnique(start, n, 0, start);
      } else {
        assert ([first] + later)[i] == later[i - 1];
        if start + 1 == n {
          WrapAround(n, i - 1);
          assert start + i == n + (i - 1);
        } else {
          assert start + i == start + 1 + (i - 1);
        }
      }
    }
    if start + 1 == n { WrapAround(n, s); }
  }

  /** Where the cursor of domain d stands in the agenda of its sets. */
  function Position(db: Db, d: int, m: nat, sets: seq<seq<Page>>): nat
    requires m >= 1 && d in db.domains && db.domains[d].currentSetIndex <= |sets|
  {
    |Agenda(sets[..db.domains[d].currentSetIndex], m)|
  }

  /** `next` stands for `split`, which has the agenda of `sets`, and is `moved` chunks further on. */
  ghost predicate Moved(db: Db, next: Db, d: int, m: nat, sets: seq<seq<Page>>, split: seq<seq<Page>>, moved: nat)
    requires m >= 1 && Represents(db, d, sets)
  {
    var agenda, at := Agenda(sets, m), Position(db, d, m, sets);
    && Represents(next, d, split) && split != [] && Agenda(split, m) == agenda
    && at < |agenda|
    && (if at + moved == |agenda|
        then Position(next, d, m, split) == 0 && next.domains[d].currentCycle == db.domains[d].currentCycle + 1
        else Position(next, d, m, split) == at + moved && next.domains[d].currentCycle == db.domains[d].currentCycle)
  }

  /** Whatever state follows with the cursor one set further (wrapping with the cycle) is one chunk on. */
  lemma MovedByOne(db: Db, next: Db, d: int, m: nat, sets: seq<seq<Page>>, k: nat)
    requires Represents(db, d, sets) && sets != [] && m >= 1 && k == db.domains[d].currentSetIndex
    requires
      var split := SplitSets(sets, k, m);
      && Represents(next, d, split)
      && next.domains[d].currentCycle == db.domains[d].currentCycle + (if k + 1 == |split| then 1 else 0)
      && next.domains[d].currentSetIndex == (if k + 1 == |split| then 0 else k + 1)
    ensures Moved(db, next, d, m, sets, SplitSets(sets, k, m), 1)
    ensures SplitSets(sets, k, m)[k] == Agenda(sets, m)[Position(db, d, m, sets)]
  {
    AgendaOfSplit(sets, k, m);
  }

  /** A completed scan takes the chunk at the position and moves the position by one. */
  lemma CompletedMoves(db: Db, d: int, m: nat, now: int, resultId: int, sets: seq<seq<Page>>)
    requires Represents(db, d, sets) && sets != [] && m >= 1
    ensures Moved(db, ScanOk(db, d, m, now, resultId), d, m, sets, SplitSets(sets, db.domains[d].currentSetIndex, m), 1)
    ensures Taken(db, d, m) == Agenda(sets, m)[Position(db, d, m, sets)]
  {
    ScanOkRepresents(db, d, m, now, resultId, sets);
    MovedByOne(db, ScanOk(db, d, m, now, resultId), d, m, sets, db.domains[d].currentSetIndex);
  }

  /** A state that differs only by the split stands where it stood. */
  lemma MovedByNone(db: Db, next: Db, d: int, m: nat, sets: seq<seq<Page>>, k: nat)
    requires Represents(db, d, sets) && sets != [] && m >= 1 && k == db.domains[d].currentSetIndex
    requires Represents(next, d, SplitSets(sets, k, m)) && next.domains[d] == db.domains[d]
    ensures Moved(db, next, d, m, sets, SplitSets(sets, k, m), 0)
  {
    AgendaOfSplit(sets, k, m);
    assert SplitSets(sets, k, m)[..k] == sets[..k];
  }

  /** A scan that aborts after the split leaves agenda and position as they were. */
  lemma AbortedStays(db: Db, d: int, m: nat, sets: seq<seq<Page>>)
    requires Represents(db, d, sets) && sets != [] && m >= 1
    ensures Moved(db, ScanFail(db, d, m), d, m, sets, SplitSets(sets, db.domains[d].currentSetIndex, m), 0)
  {
    ScanFailRepresents(db, d, m, sets);
    MovedByNone(db, ScanFail(db, d, m), d, m, sets, db.domains[d].currentSetIndex);
  }

  /** Any run of completed and aborted scans, over any number of cycles: the i-th completed scan
      takes the i-th chunk of the agenda from the current position on, going round, and the cycle
      number counts the rounds. */
  lemma {:induction false} RoundRobin(db: Db, d: int, m: nat, sets: seq<seq<Page>>, attempts: seq<Attempt>)
    requires Represents(db, d, sets) && sets != [] && m >= 1
    ensures GoesRound(
              Agenda(sets, m), Position(db, d, m, sets),
              AllTaken(db, d, m, attempts), Completions(attempts),
              db.domains[d].currentCycle, RunScans(db, d, m, attempts).domains[d].currentCycle)
    decreases |attempts|, 0
  {
    var split := SplitSets(sets, db.domains[d].currentSetIndex, m);
    AbortedStays(db, d, m, sets);
    if attempts == [] {
      DivModUnique(Position(db, d, m, sets), |Agenda(sets, m)|, 0, Position(db, d, m, sets));
    } else {
      var next, rest := Attempted(db, d, m, attempts[0]), attempts[1..];
      assert [] + AllTaken(next, d, m, rest) == AllTaken(next, d, m, rest);
      match attempts[0]
      case Completed(now, resultId) =>
        CompletedMoves(db, d, m, now, resultId, sets);
        RoundRobinMoved(db, next, d, m, sets, split, Taken(db, d, m), rest);
      case AbortedBeforeSplit =>
        RoundRobin(db, d, m, sets, rest);
      case AbortedAfterSplit =>
        RoundRobinStayed(db, next, d, m, sets, split, rest);
    }
  }

  lemma {:induction false} RoundRobinMoved(db: Db, next: Db, d: int, m: nat, sets: seq<seq<Page>>,
      split: seq<seq<Page>>,
                                           taken: seq<Page>, rest: seq<Attempt>)
    requires Represents(db, d, sets) && m >= 1
    requires Moved(db, next, d, m, sets, split, 1)
    requires taken == Agenda(sets, m)[Position(db, d, m, sets)]
    ensures GoesRound(
              Agenda(sets, m), Position(db, d, m, sets),
              [taken] + AllTaken(next, d, m, rest), Completions(rest) + 1,
              db.domains[d].currentCycle, RunScans(next, d, m, rest).domains[d].currentCycle)
    decreases |rest|, 1
  {
    RoundRobin(next, d, m, split, rest);
    CompletedStep(Agenda(sets, m), Position(db, d, m, sets), taken, Position(next, d, m, split),
        next.domains[d].currentCycle,
                  AllTaken(next, d, m, rest), Completions(rest),
                  db.domains[d].currentCycle, RunScans(next, d, m, rest).domains[d].currentCycle);
  }

  lemma {:induction false} RoundRobinStayed(db: Db, next: Db, d: int, m: nat, sets: seq<seq<Page>>,
      split: seq<seq<Page>>,
                                            rest: seq<Attempt>)
    requires Represents(db, d, sets) && m >= 1
    requires Moved(db, next, d, m, sets, split, 0)
    ensures GoesRound(
              Agenda(sets, m), Position(db, d, m, sets),
              AllTaken(next, d, m, rest), Completions(rest),
              db.domains[d].currentCycle, RunScans(next, d, m, rest).domains[d].currentCycle)
    decreases |rest|, 1
  {
    RoundRobin(next, d, m, split, rest);
  }

  // ---------------------------------------------------------------- many domains, any chunk sizes

  /** The actions on domain d are scans, with chunk sizes of at least 1; other domains are free. */
  predicate OnlyScans(actions: seq<Action>, d: int) {
    forall i :: 0 <= i < |actions| && actions[i].domain == d ==> IsScan(actions[i])
  }

  predicate IsScan(a: Action) { Enabled(a) && (a.event.ScanCompleted? || a.event.ScanAborted?) }

  /** The set pages taken by the completed scans of domain d in a run over all domains. */
  function TakenIn(db: Db, d: int, actions: seq<Action>): seq<Page>
    requires d in db.domains
    decreases |actions|
  {
    if actions == [] then []
    else
      var a := actions[0];
      (if a.domain == d && a.event.ScanCompleted? then Taken(db, d, a.event.chunkSize) else [])
      + TakenIn(Apply(db, a), d, actions[1..])
  }

  function Repeated(pages: seq<Page>, n: nat): seq<Page> {
    if n == 0 then [] else pages + Repeated(pages, n - 1)
  }

  /** The pages of the sets the current cycle has not scanned yet. */
  function Left(db: Db, d: int, sets: seq<seq<Page>>): seq<Page>
    requires d in db.domains && db.domains[d].currentSetIndex <= |sets|
  {
    Flatten(sets[db.domains[d].currentSetIndex..])
  }

  lemma FlattenFrom(x: seq<seq<Page>>, y: seq<seq<Page>>, k: nat)
    requires k <= |x| && k <= |y| && x[..k] == y[..k] && Flatten(x[k..]) == Flatten(y[k..])
    ensures Flatten(x) == Flatten(y)
  {
    assert x == x[..k] + x[k..] && y == y[..k] + y[k..];
    FlattenAppend(x[..k], x[k..]);
    FlattenAppend(y[..k], y[k..]);
  }

  lemma SplitFlattens(sets: seq<seq<Page>>, k: nat, m: nat)
    requires k < |sets| && m >= 1
    ensures Flatten(SplitSets(sets, k, m)) == Flatten(sets)
  {
    SplitTakes(sets, k, m);
    assert SplitSets(sets, k, m)[..k] == sets[..k];
    FlattenFrom(SplitSets(sets, k, m), sets, k);
  }

  /** What is left from the split set on, before and after the split. */
  lemma SplitFlattensFrom(sets: seq<seq<Page>>, k: nat, m: nat)
    requires k < |sets| && m >= 1
    ensures Flatten(Pieces(sets[k], m) + sets[k + 1..]) == Flatten([sets[k]] + sets[k + 1..])
  {
    var pieces, rest := Pieces(sets[k], m), sets[k + 1..];
    FlattenAppend(pieces, rest);
    assert ([sets[k]] + rest)[1..] == rest;
  }

  lemma SplitTakes(sets: seq<seq<Page>>, k: nat, m: nat)
    requires k < |sets| && m >= 1
    ensures
      var split := SplitSets(sets, k, m);
      && Flatten(split[k..]) == Flatten(sets[k..])
      && Flatten(split[k..]) == split[k] + Flatten(split[k + 1..])
  {
    var split := SplitSets(sets, k, m);
    assert split[k..] == Pieces(sets[k], m) + sets[k + 1..] && sets[k..] == [sets[k]] + sets[k + 1..];
    SplitFlattensFrom(sets, k, m);
    assert split[k..][1..] == split[k + 1..];
  }

  /** What was taken and what is left now are what was left before; at the end of a cycle everything
      is left again. */
  ghost predicate Conserves(db: Db, next: Db, d: int, sets: seq<seq<Page>>, after: seq<seq<Page>>, taken: seq<Page>) {
    && Represents(db, d, sets) && Represents(next, d, after) && after != [] && Flatten(after) == Flatten(sets)
    && var before, now := db.domains[d].currentCycle, next.domains[d].currentCycle;
       if now == before then Left(db, d, sets) == taken + Left(next, d, after)
       else now == before + 1 && Left(db, d, sets) == taken && Left(next, d, after) == Flatten(sets)
  }

  lemma CompletedConserves(db: Db, d: int, m: nat, now: int, resultId: int, sets: seq<seq<Page>>)
    requires Represents(db, d, sets) && sets != [] && m >= 1
    ensures Conserves(db, ScanOk(db, d, m, now, resultId), d, sets, SplitSets(sets, db.domains[d].currentSetIndex, m),
                      Taken(db, d, m))
  {
    var k := db.domains[d].currentSetIndex;
    var split := SplitSets(sets, k, m);
    ScanOkRepresents(db, d, m, now, resultId, sets);
    SplitFlattens(sets, k, m);
    SplitTakes(sets, k, m);
    assert split[0..] == split;
    if k + 1 == |split| { assert split[k] + [] == split[k]; }
  }

  lemma AbortedConserves(db: Db, d: int, m: nat, sets: seq<seq<Page>>)
    requires Represents(db, d, sets) && sets != [] && m >= 1
    ensures Conserves(db, ScanFail(db, d, m), d, sets, SplitSets(sets, db.domains[d].currentSetIndex, m), [])
  {
    var k := db.domains[d].currentSetIndex;
    ScanFailRepresents(db, d, m, sets);
    SplitFlattens(sets, k, m);
    SplitTakes(sets, k, m);
    assert [] + Flatten(sets[k..]) == Flatten(sets[k..]);
  }

  /** The first action of a run: what it takes of domain d and what d stands for then. */
  lemma ActionConserves(db: Db, d: int, a: Action, sets: seq<seq<Page>>) returns (after: seq<seq<Page>>)
    requires Represents(db, d, sets) && sets != [] && (a.domain == d ==> IsScan(a))
    ensures Conserves(db, Apply(db, a), d, sets, after,
                      if a.domain == d && a.event.ScanCompleted? then Taken(db, d, a.event.chunkSize) else [])
  {
    if a.domain != d {
      after := sets;
      ApplyElsewhere(db, a, d, sets);
      assert [] + Left(db, d, sets) == Left(db, d, sets);
    } else {
      after := SplitSets(sets, db.domains[d].currentSetIndex, a.event.chunkSize);
      match a.event
      case ScanCompleted(m, resultId) => CompletedConserves(db, d, m, a.now, resultId, sets);
      case ScanAborted(m) => AbortedConserves(db, d, m, sets);
    }
  }

  /** From db to end, with what was taken in between: what was taken and what is left of the current
      cycle are what was left and the pages of all sets once for every cycle begun. */
  ghost predicate RunConserves(db: Db, end: Db, d: int, sets: seq<seq<Page>>, after: seq<seq<Page>>, taken: seq<Page>) {
    && Represents(db, d, sets) && Represents(end, d, after) && Flatten(after) == Flatten(sets)
    && end.domains[d].currentCycle >= db.domains[d].currentCycle
    && taken + Left(end, d, after)
       == Left(db, d, sets) + Repeated(Flatten(sets), end.domains[d].currentCycle - db.domains[d].currentCycle)
  }

  lemma StepThenRun(db: Db, next: Db, end: Db, d: int, sets: seq<seq<Page>>, mid: seq<seq<Page>>, after: seq<seq<Page>>,
                    first: seq<Page>, later: seq<Page>)
    requires Conserves(db, next, d, sets, mid, first) && RunConserves(next, end, d, mid, after, later)
    ensures RunConserves(db, end, d, sets, after, first + later)
  {
    Joined(first, later, Left(end, d, after), Left(db, d, sets), Left(next, d, mid), Flatten(sets),
           end.domains[d].currentCycle - next.domains[d].currentCycle);
  }

  /** Whatever other domains do in between and however the chunk size changes from scan to scan: what
      the completed scans of d have taken, followed by what is left of the current cycle, is what was
      left at the start followed by the pages of all sets once for every cycle begun since. */
  lemma {:induction false} PagesConserved(db: Db, d: int, sets: seq<seq<Page>>, actions: seq<Action>)
      returns (after: seq<seq<Page>>)
    requires Represents(db, d, sets) && sets != [] && OnlyScans(actions, d)
    ensures RunConserves(db, Run(db, actions), d, sets, after, TakenIn(db, d, actions))
    decreases |actions|
  {
    if actions == [] {
      after := sets;
      assert [] + Left(db, d, sets) == Left(db, d, sets) + [];
    } else {
      var a, next, rest := actions[0], Apply(db, actions[0]), actions[1..];
      assert a.domain == d ==> IsScan(a);
      var mid := ActionConserves(db, d, a, sets);
      after := PagesConserved(next, d, mid, rest);
      StepThenRun(db, next, Run(next, rest), d, sets, mid, after,
                  if a.domain == d && a.event.ScanCompleted? then Taken(db, d, a.event.chunkSize) else [],
                  TakenIn(next, d, rest));
    }
  }

  lemma Joined(first: seq<Page>, later: seq<Page>, end: seq<Page>, before: seq<Page>, mid: seq<Page>, all: seq<Page>,
      n: nat)
    requires later + end == mid + Repeated(all, n)
    ensures before == first + mid ==> first + later + end == before + Repeated(all, n)
    ensures before == first && mid == all ==> first + later + end == before + Repeated(all, n + 1)
  {
    assert first + later + end == first + (later + end);
    assert first + (mid + Repeated(all, n)) == first + mid + Repeated(all, n);
  }

  /** A cycle that starts fresh: it ends with completed scan number TotalScans and not before, and by
      then its scans have taken exactly the pages of the sets, in order. */
  lemma CycleCoverage(db: Db, d: int, m: nat, sets: seq<seq<Page>>, attempts: seq<Attempt>)
    requires Represents(db, d, sets) && sets != [] && m >= 1
    requires db.domains[d].currentSetIndex == 0
    ensures
      var s, total := Completions(attempts), TotalScans(sets, m);
      var cycle, after := db.domains[d].currentCycle, RunScans(db, d, m, attempts).domains[d].currentCycle;
      var taken := AllTaken(db, d, m, attempts);
      && (s < total ==> after == cycle && Flatten(taken) <= Flatten(sets))
      && (s == total ==> after == cycle + 1 && Flatten(taken) == Flatten(sets))
  {
    assert sets[..0] == [];
    RoundRobin(db, d, m, sets, attempts);
    AgendaMeasures(sets, m);
    FirstRound(Agenda(sets, m), AllTaken(db, d, m, attempts), Completions(attempts),
               db.domains[d].currentCycle, RunScans(db, d, m, attempts).domains[d].currentCycle);
  }

  lemma FirstRound(agenda: seq<seq<Page>>, taken: seq<seq<Page>>, s: nat, before: nat, after: nat)
    requires GoesRound(agenda, 0, taken, s, before, after)
    ensures s < |agenda| ==> after == before && Flatten(taken) <= Flatten(agenda)
    ensures s == |agenda| ==> after == before + 1 && taken == agenda
  {
    if s <= |agenda| {
      forall i | 0 <= i < s ensures taken[i] == agenda[i] { DivModUnique(i, |agenda|, 0, i); }
      assert taken == agenda[..s];
      assert agenda == agenda[..s] + agenda[s..];
      FlattenAppend(agenda[..s], agenda[s..]);
      if s < |agenda| { DivModUnique(s, |agenda|, 0, s); } else { DivModUnique(s, s, 1, 0); }
    }
  }
}
