/** The imperative jobs over the two tables: rebalancing, discovery and the scan job. Each is proved
    to take exactly the step its specification names. */
module PageSetStore {
  import opened Php
  import opened Sequences
  import opened PageSets
  import opened Scheduler
  import opened Coverage
  import opened Discovery

  /** One line of the scan log; None scripts stands for a page whose fetch threw. */
  datatype LogEntry = LogEntry(url: Page, scripts: Option<nat>)

  type Fetch = Page -> Option<seq<string>>

  function AllPriorityPages(dom: DomainRow): seq<Page> {
    Unique(dom.autoPriorityPages + dom.priorityPages)
  }

  /** Priority pages, then the next set as rebalanced, or the fallback pages when there is no set. */
  function PagesToScan(db: Db, d: int, m: int, baseUrl: Page, fallback: seq<Page>): seq<Page>
    requires d in db.domains
  {
    var next := NextPageSet(db.sets, d, db.domains[d].currentCycle);
    var pages := Unique(AllPriorityPages(db.domains[d]) + if next.Some? then Taken(db, d, m) else fallback);
    if pages == [] then [baseUrl] else pages
  }

  function LogOf(pages: seq<Page>, fetch: Fetch): seq<LogEntry> {
    seq(|pages|, i requires 0 <= i < |pages| =>
      LogEntry(pages[i], if fetch(pages[i]).Some? then Some(|fetch(pages[i]).value|) else None))
  }

  function Found(pages: seq<Page>, fetch: Fetch): seq<string> {
    if pages == [] then []
    else
      var last := pages[|pages| - 1];
      Found(pages[..|pages| - 1], fetch) + if fetch(last).Some? then fetch(last).value else []
  }

  /** The page loop of the scan job: a page whose fetch throws is logged and skipped. */
  method ScanPages(pages: seq<Page>, fetch: Fetch) returns (log: seq<LogEntry>, urls: seq<string>)
    ensures log == LogOf(pages, fetch)
    ensures urls == Unique(Found(pages, fetch))
  {
    log, urls := [], [];
    for i := 0 to |pages|
      invariant log == LogOf(pages[..i], fetch)
      invariant urls == Found(pages[..i], fetch)
    {
      assert pages[..i + 1][..i] == pages[..i];
      var found := fetch(pages[i]);
      if found.Some? {
        urls := urls + found.value;
      }
      log := log + [LogEntry(pages[i], if found.Some? then Some(|found.value|) else None)];
    }
    assert pages[..|pages|] == pages;
    urls := Unique(urls);
  }

  /** The script URLs after the optional deep scan of the homepage; None when it is disabled or throws. */
  function WithDeep(urls: seq<string>, deep: Option<seq<string>>): seq<string> {
    if deep.Some? then Unique(urls + deep.value) else urls
  }

  class Store {
    var domains: map<int, DomainRow>
    var sets: seq<PageSetRow>

    constructor (domains: map<int, DomainRow>, sets: seq<PageSetRow>)
      ensures State() == Db(domains, sets)
    {
      this.domains, this.sets := domains, sets;
    }

    function State(): Db
      reads this
    {
      Db(domains, sets)
    }

    /** `rebalancePageSet` on the row at position p. */
    method RebalancePageSet(p: nat, m: int) returns (extra: nat)
      requires p < |sets|
      modifies `sets
      ensures sets == Rebalanced(old(sets), p, m)
      ensures extra == |sets| - |old(sets)|
      ensures extra == if m >= 1 && |old(sets)[p].pages| > m then CeilDiv(|old(sets)[p].pages|, m) - 1 else 0
    {
      var row := sets[p];
      if m < 1 || |row.pages| <= m {
        return 0;
      }
      var chunks := Chunk(row.pages, m);
      ChunkCount(row.pages, m);
      extra := |chunks| - 1;
      sets := Shift(sets, row.domainId, row.cycleNumber, row.setIndex, extra);
      sets := sets[p := FirstPiece(row, chunks[0])];
      CreateSets(row.domainId, row.cycleNumber, row.setIndex + 1, chunks[1..]);
    }

    /** One new row for each list of pages, at the indices from `first` on. */
    method CreateSets(d: int, cycle: nat, first: nat, newSets: seq<seq<Page>>)
      modifies `sets
      ensures sets == old(sets) + ChunkRows(d, cycle, first, newSets)
    {
      for index := 0 to |newSets|
        invariant sets == old(sets) + ChunkRows(d, cycle, first, newSets[..index])
      {
        assert newSets[..index + 1] == newSets[..index] + [newSets[index]];
        ChunkRowsSnoc(d, cycle, first, newSets[..index], newSets[index]);
        sets := sets + [ChunkRow(d, cycle, first + index, newSets[index])];
      }
      assert newSets[..|newSets|] == newSets;
    }

    /** `discoverAndOrganize` for the pages a crawl found. */
    method DiscoverAndOrganize(d: int, all: seq<Page>, baseUrl: Page, pathOf: Page -> string, cfg: ScannerConfig,
        now: int)
      requires d in domains
      modifies this
      ensures
        var before := old(State());
        var auto := PriorityPages(all, baseUrl, pathOf, COMMON_PATHS);
        var priority := Unique(auto + before.domains[d].priorityPages);
        var built := BuildPageSets(all, CalculateSetSize(|all|, cfg), priority);
        && built.Some?
        && State() == Discover(before, d, built.value, auto, |all|, now)
    {
      var auto := DetectPriorityPages(all, baseUrl, pathOf, COMMON_PATHS);
      var setSize := CalculateSetSize(|all|, cfg);
      var priority := Unique(auto + domains[d].priorityPages);
      OrganizedSets(all, priority, cfg);
      var newSets := BuildPageSets(all, setSize, priority).value;
      sets := DeleteSetsOf(sets, d);
      CreateSets(d, domains[d].currentCycle, 0, newSets);
      domains := domains[d := domains[d].(autoPriorityPages := auto, discoveredPagesCount := |all|,
                                          currentSetIndex := 0, lastDiscoveryAt := Some(now))];
    }

    /** The scan job. `fetch` is the HTTP scan of one page (None when it throws), `deep` the deep scan of
        the homepage; `attempt` says whether the job runs to its end or aborts before or after the split. */
    method Handle(d: int, cfg: ScannerConfig, baseUrl: Page, fallback: seq<Page>, fetch: Fetch,
                  deep: Option<seq<string>>, attempt: Attempt)
        returns (pages: seq<Page>, log: seq<LogEntry>, urls: seq<string>)
      requires d in domains
      modifies this
      ensures State() == Attempted(old(State()), d, ScheduledSetChunkSize(cfg), attempt)
      ensures attempt.Completed? ==>
                && pages == PagesToScan(old(State()), d, ScheduledSetChunkSize(cfg), baseUrl, fallback)
                && log == LogOf(pages, fetch)
                && urls == WithDeep(Unique(Found(pages, fetch)), deep)
    {
      pages, log, urls := [], [], [];
      if attempt.AbortedBeforeSplit? {
        return;
      }
      pages := pages + AllPriorityPages(domains[d]);
      assert pages == AllPriorityPages(domains[d]);
      var next := NextPageSet(sets, d, domains[d].currentCycle);
      if next.Some? {
        var extra := RebalancePageSet(next.value, ScheduledSetChunkSize(cfg));
        RowSurvives(old(sets), next.value, ScheduledSetChunkSize(cfg));
        pages := pages + sets[next.value].pages;
      } else {
        pages := pages + fallback;
      }
      pages := Unique(pages);
      if pages == [] {
        pages := [baseUrl];
      }
      log, urls := ScanPages(pages, fetch);
      if deep.Some? {
        urls := Unique(urls + deep.value);
      }
      if attempt.Completed? {
        if next.Some? {
          MarkAndAdvance(d, next.value, attempt.now, attempt.resultId);
        }
        domains := domains[d := domains[d].(lastScanAt := Some(attempt.now))];
      }
    }

    method MarkAndAdvance(d: int, p: nat, now: int, resultId: int)
      requires d in domains && p < |sets|
      modifies this
      ensures State() == Advance(old(State()), d, p, now, resultId)
    {
      var cycle := domains[d].currentCycle;
      sets := sets[p := sets[p].(lastScannedAt := Some(now), scanResultId := Some(resultId))];
      if Remaining(sets, d, cycle) == 0 {
        domains := domains[d := domains[d].(currentCycle := cycle + 1, currentSetIndex := 0)];
        sets := Roll(sets, d, cycle);
      } else {
        domains := domains[d := domains[d].(currentSetIndex := sets[p].setIndex + 1)];
      }
    }
  }

  /** What a completed scan visits, in terms of the stored fields: every automatic and every manual
      priority page, and every page of the set it takes, or of the fallback when there is no set; each
      once and nothing else, except that the base URL stands in when there is nothing to visit. */
  lemma ScanVisits(db: Db, d: int, m: nat, baseUrl: Page, fallback: seq<Page>, sets: seq<seq<Page>>)
    requires Represents(db, d, sets) && m >= 1
    ensures
      var dom, pages := db.domains[d], PagesToScan(db, d, m, baseUrl, fallback);
      var own := if sets == [] then fallback else SplitSets(sets, dom.currentSetIndex, m)[dom.currentSetIndex];
      && pages != [] && Distinct(pages)
      && (forall u :: u in dom.autoPriorityPages || u in dom.priorityPages || u in own ==> u in pages)
      && (forall u :: u in pages ==>
            u in dom.autoPriorityPages || u in dom.priorityPages || u in own || (u == baseUrl && pages == [baseUrl]))
  {
    NextAtCursor(db, d, sets);
    if sets != [] { ScanOkRepresents(db, d, m, 0, 0, sets); }
  }

  lemma {:induction false} FoundFrom(pages: seq<Page>, fetch: Fetch, x: string)
    ensures x in Found(pages, fetch) <==> exists u :: u in pages && fetch(u).Some? && x in fetch(u).value
  {
    if pages != [] {
      assert pages == pages[..|pages| - 1] + [pages[|pages| - 1]];
      FoundFrom(pages[..|pages| - 1], fetch, x);
    }
  }

  /** What a completed scan reports: one log line per page, in order, with the number of scripts found
      or none when the fetch threw; and exactly the script URLs of the pages that answered and of the
      deep scan, each once. */
  lemma ScanReports(pages: seq<Page>, fetch: Fetch, deep: Option<seq<string>>)
    ensures
      var log, urls := LogOf(pages, fetch), WithDeep(Unique(Found(pages, fetch)), deep);
      && |log| == |pages|
      && (forall i :: 0 <= i < |log| ==>
            && log[i].url == pages[i]
            && (log[i].scripts.Some? <==> fetch(pages[i]).Some?)
            && (log[i].scripts.Some? ==> log[i].scripts.value == |fetch(pages[i]).value|))
      && Distinct(urls)
      && (forall x :: x in urls <==>
            (exists u :: u in pages && fetch(u).Some? && x in fetch(u).value) || (deep.Some? && x in deep.value))
  {
    forall x ensures x in Found(pages, fetch) <==> exists u :: u in pages && fetch(u).Some? && x in fetch(u).value {
      FoundFrom(pages, fetch, x);
    }
  }

  /** From discovery to coverage: after a discovery, once TotalScans scans have completed (whatever
      aborted in between) the cycle ends, and the set pages taken are exactly the discovered pages
      that are not priority pages, each discovered page once, in discovery order. */
  lemma DiscoveredPagesCovered(db: Db, d: int, all: seq<Page>, priority: seq<Page>, auto: seq<Page>, now: int,
                               cfg: ScannerConfig, attempts: seq<Attempt>)
    requires d in db.domains
    ensures
      var newSets := BuildPageSets(all, CalculateSetSize(|all|, cfg), priority);
      newSets.Some? &&
      var m := ScheduledSetChunkSize(cfg);
      var found := Discover(db, d, newSets.value, auto, |all|, now);
      newSets.value != [] && Completions(attempts) == TotalScans(newSets.value, m) ==>
        && RunScans(found, d, m, attempts).domains[d].currentCycle == db.domains[d].currentCycle + 1
        && Flatten(AllTaken(found, d, m, attempts)) == Rotating(all, priority)
  {
    OrganizedSets(all, priority, cfg);
    var newSets := BuildPageSets(all, CalculateSetSize(|all|, cfg), priority).value;
    var found := Discover(db, d, newSets, auto, |all|, now);
    DiscoverRepresents(db, d, newSets, auto, |all|, now);
    if newSets != [] && Completions(attempts) == TotalScans(newSets, ScheduledSetChunkSize(cfg)) {
      CycleCoverage(found, d, ScheduledSetChunkSize(cfg), newSets, attempts);
    }
  }

  // ---------------------------------------------------------------- every discovered page is visited

  /** The pages the completed scans of a run visit, one scan after the other. */
  function Visits(db: Db, d: int, m: nat, baseUrl: Page, fallback: seq<Page>, attempts: seq<Attempt>): seq<Page>
    requires d in db.domains
    decreases |attempts|
  {
    if attempts == [] then []
    else
      (if attempts[0].Completed? then PagesToScan(db, d, m, baseUrl, fallback) else [])
      + Visits(Attempted(db, d, m, attempts[0]), d, m, baseUrl, fallback, attempts[1..])
  }

  lemma AttemptedKeepsLists(db: Db, d: int, m: nat, a: Attempt)
    requires d in db.domains
    ensures Attempted(db, d, m, a).domains[d].autoPriorityPages == db.domains[d].autoPriorityPages
    ensures Attempted(db, d, m, a).domains[d].priorityPages == db.domains[d].priorityPages
  {
  }

  /** Any completed scan visits every priority page, automatic or manual. */
  lemma {:induction false} PriorityVisited(db: Db, d: int, m: nat, baseUrl: Page, fallback: seq<Page>,
                                           attempts: seq<Attempt>, u: Page)
    requires d in db.domains && Completions(attempts) > 0
    requires u in db.domains[d].autoPriorityPages || u in db.domains[d].priorityPages
    ensures u in Visits(db, d, m, baseUrl, fallback, attempts)
    decreases |attempts|
  {
    if attempts[0].Completed? {
      assert u in PagesToScan(db, d, m, baseUrl, fallback);
    } else {
      AttemptedKeepsLists(db, d, m, attempts[0]);
      PriorityVisited(Attempted(db, d, m, attempts[0]), d, m, baseUrl, fallback, attempts[1..], u);
    }
  }

  /** What a scan takes it visits. */
  lemma {:induction false} TakenVisited(db: Db, d: int, m: nat, baseUrl: Page, fallback: seq<Page>,
                                        attempts: seq<Attempt>, i: nat, u: Page)
    requires d in db.domains && i < |AllTaken(db, d, m, attempts)| && u in AllTaken(db, d, m, attempts)[i]
    ensures u in Visits(db, d, m, baseUrl, fallback, attempts)
    decreases |attempts|
  {
    var next, rest := Attempted(db, d, m, attempts[0]), attempts[1..];
    if attempts[0].Completed? {
      assert AllTaken(db, d, m, attempts) == [Taken(db, d, m)] + AllTaken(next, d, m, rest);
      if i == 0 {
        assert u in PagesToScan(db, d, m, baseUrl, fallback);
      } else {
        TakenVisited(next, d, m, baseUrl, fallback, rest, i - 1, u);
      }
    } else {
      assert AllTaken(db, d, m, attempts) == [] + AllTaken(next, d, m, rest) == AllTaken(next, d, m, rest);
      TakenVisited(next, d, m, baseUrl, fallback, rest, i, u);
    }
  }

  lemma AgendaTaken(db: Db, d: int, m: nat, sets: seq<seq<Page>>, attempts: seq<Attempt>, u: Page) returns (i: nat)
    requires Represents(db, d, sets) && sets != [] && m >= 1 && db.domains[d].currentSetIndex == 0
    requires Completions(attempts) >= TotalScans(sets, m) && u in Flatten(sets)
    ensures i < |AllTaken(db, d, m, attempts)| && u in AllTaken(db, d, m, attempts)[i]
  {
    AgendaMeasures(sets, m);
    i := FlattenFind(Agenda(sets, m), u);
    RoundRobin(db, d, m, sets, attempts);
    FirstRound(Agenda(sets, m), Position(db, d, m, sets), AllTaken(db, d, m, attempts), Completions(attempts),
               db.domains[d].currentCycle, RunScans(db, d, m, attempts).domains[d].currentCycle, i);
  }

  /** The first round takes the chunks in place. */
  lemma FirstRound(agenda: seq<seq<Page>>, start: nat, taken: seq<seq<Page>>, n: nat, before: nat, after: nat, i: nat)
    requires GoesRound(agenda, start, taken, n, before, after) && start == 0 && i < |agenda| <= n
    ensures i < |taken| && taken[i] == agenda[i]
  {
    DivModUnique(i, |agenda|, 0, i);
  }

  /** Once enough scans have completed, every page of the sets has been visited. */
  lemma SetPageVisited(db: Db, d: int, m: nat, baseUrl: Page, fallback: seq<Page>, sets: seq<seq<Page>>,
                       attempts: seq<Attempt>, u: Page)
    requires Represents(db, d, sets) && sets != [] && m >= 1 && db.domains[d].currentSetIndex == 0
    requires Completions(attempts) >= TotalScans(sets, m) && u in Flatten(sets)
    ensures u in Visits(db, d, m, baseUrl, fallback, attempts)
  {
    var i := AgendaTaken(db, d, m, sets, attempts, u);
    TakenVisited(db, d, m, baseUrl, fallback, attempts, i, u);
  }

  /** End to end: after the discovery job, once the scans that the sets require have completed (one at
      least, whatever aborted in between), every discovered page has been visited, up to trailing
      slashes: as a priority page of the crawl or of the operator, or as a page of a set. */
  lemma EveryPageVisited(db: Db, d: int, all: seq<Page>, baseUrl: Page, pathOf: Page -> string, now: int,
                         cfg: ScannerConfig, fallback: seq<Page>, attempts: seq<Attempt>, url: Page)
    requires d in db.domains && url in all
    ensures
      var auto := PriorityPages(all, baseUrl, pathOf, COMMON_PATHS);
      var priority := Unique(auto + db.domains[d].priorityPages);
      var built := BuildPageSets(all, CalculateSetSize(|all|, cfg), priority);
      built.Some? &&
      var m := ScheduledSetChunkSize(cfg);
      var found := Discover(db, d, built.value, auto, |all|, now);
      Completions(attempts) >= 1 && Completions(attempts) >= TotalScans(built.value, m) ==>
        exists v :: v in Visits(found, d, m, baseUrl, fallback, attempts) && Rtrim(v, '/') == Rtrim(url, '/')
  {
    var auto := PriorityPages(all, baseUrl, pathOf, COMMON_PATHS);
    var priority := Unique(auto + db.domains[d].priorityPages);
    OrganizedSets(all, priority, cfg);
    var newSets, m := BuildPageSets(all, CalculateSetSize(|all|, cfg), priority).value, ScheduledSetChunkSize(cfg);
    var found := Discover(db, d, newSets, auto, |all|, now);
    DiscoverRepresents(db, d, newSets, auto, |all|, now);
    if Completions(attempts) >= 1 && Completions(attempts) >= TotalScans(newSets, m) {
      if IsPriority(url, priority) {
        var p :| p in priority && Rtrim(p, '/') == Rtrim(url, '/');
        PriorityVisited(found, d, m, baseUrl, fallback, attempts, p);
      } else {
        assert url in Flatten(newSets);
        SetPageVisited(found, d, m, baseUrl, fallback, newSets, attempts, url);
      }
    }
  }
}
