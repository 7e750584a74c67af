/** Organising discovered pages: priority pages, set size and page sets. */
module Discovery {
  import opened Php
  import opened Sequences
  import opened PageSets

  /** The scanner settings as configured, before clamping. */
  datatype ScannerConfig = ScannerConfig(scheduledSetChunkSize: int, targetSetCount: int, minSetSize: int,
      maxSetSize: int)

  function Max(a: int, b: int): int { if a >= b then a else b }

  function Min(a: int, b: int): int { if a <= b then a else b }

  function ScheduledSetChunkSize(cfg: ScannerConfig): nat { Max(1, Min(50, cfg.scheduledSetChunkSize)) }

  function TargetSetCount(cfg: ScannerConfig): nat { Max(50, Min(200, cfg.targetSetCount)) }

  function MinSetSize(cfg: ScannerConfig): nat { Max(5, Min(50, cfg.minSetSize)) }

  function MaxSetSize(cfg: ScannerConfig): nat { Max(MinSetSize(cfg), Min(200, cfg.maxSetSize)) }

  function CalculateSetSize(total: nat, cfg: ScannerConfig): nat {
    if total <= MaxSetSize(cfg) then total
    else Max(MinSetSize(cfg), Min(MaxSetSize(cfg), CeilDiv(total, TargetSetCount(cfg))))
  }

  /** A page is set aside when it equals a priority page up to trailing slashes. */
  predicate IsPriority(url: Page, priority: seq<Page>) {
    exists p :: p in priority && Rtrim(p, '/') == Rtrim(url, '/')
  }

  function Rotating(all: seq<Page>, priority: seq<Page>): seq<Page> {
    Filter(all, (url: Page) => !IsPriority(url, priority))
  }

  /** None stands for the exception PHP throws when it is asked to chunk by 0. */
  function BuildPageSets(all: seq<Page>, setSize: nat, priority: seq<Page>): Option<seq<seq<Page>>> {
    var remaining := Rotating(all, priority);
    if remaining == [] then Some([])
    else if setSize == 0 then None
    else Some(Chunk(remaining, setSize))
  }

  /** What organising a discovery yields: it never throws, the sets hold exactly the rotating pages in
      discovery order, sizes stay within the limit, and the set count stays within the target
      whenever the target can hold the site. */
  lemma OrganizedSets(all: seq<Page>, priority: seq<Page>, cfg: ScannerConfig)
    ensures
      var built := BuildPageSets(all, CalculateSetSize(|all|, cfg), priority);
      && built.Some?
      && Flatten(built.value) == Rotating(all, priority)
      && (forall i :: 0 <= i < |built.value| ==> 1 <= |built.value[i]| <= MaxSetSize(cfg))
      && (|all| <= TargetSetCount(cfg) * MaxSetSize(cfg) ==> |built.value| <= TargetSetCount(cfg))
  {
    var remaining := Rotating(all, priority);
    if remaining != [] {
      ChunksWithin(remaining, |all|, cfg);
    }
  }

  lemma ChunksWithin(remaining: seq<Page>, total: nat, cfg: ScannerConfig)
    requires 1 <= |remaining| <= total && CalculateSetSize(total, cfg) >= 1
    ensures
      var chunks := Chunk(remaining, CalculateSetSize(total, cfg));
      && (forall i :: 0 <= i < |chunks| ==> 1 <= |chunks[i]| <= MaxSetSize(cfg))
      && (total <= TargetSetCount(cfg) * MaxSetSize(cfg) ==> |chunks| <= TargetSetCount(cfg))
  {
    var size := CalculateSetSize(total, cfg);
    assert size <= MaxSetSize(cfg);
    ChunkCount(remaining, size);
    if total <= TargetSetCount(cfg) * MaxSetSize(cfg) { AtMostTarget(total, |remaining|, cfg); }
  }

  lemma CeilDivAtMost(n: nat, size: nat, target: nat)
    requires size >= 1 && n <= target * size
    ensures CeilDiv(n, size) <= target
  {
    var q := CeilDiv(n, size);
    CeilDivBounds(n, size);
    assert size * target == target * size;
    if q > target {
      MulMonotone(size, target, q - 1);
    }
  }

  lemma AtMostTarget(total: nat, n: nat, cfg: ScannerConfig)
    requires 1 <= n <= total <= TargetSetCount(cfg) * MaxSetSize(cfg)
    ensures CeilDiv(n, CalculateSetSize(total, cfg)) <= TargetSetCount(cfg)
  {
    var size, target, max := CalculateSetSize(total, cfg), TargetSetCount(cfg), MaxSetSize(cfg);
    if total > max {
      var q := CeilDiv(total, target);
      assert max * target == target * max;
      CeilDivAtMost(total, target, max);
      CeilDivBounds(total, target);
      MulMonotone(target, q, size);
      CeilDivAtMost(n, size, target);
    }
  }

  /** Above the maximal set size, the size chosen is the least one within the limits that keeps the
      site within the target number of sets, if any size within the limits does. */
  lemma SetSizeLeast(total: nat, cfg: ScannerConfig)
    requires total > MaxSetSize(cfg)
    ensures
      var size := CalculateSetSize(total, cfg);
      && MinSetSize(cfg) <= size <= MaxSetSize(cfg)
      && (total <= TargetSetCount(cfg) * MaxSetSize(cfg) ==> CeilDiv(total, size) <= TargetSetCount(cfg))
      && (forall s: nat :: MinSetSize(cfg) <= s <= MaxSetSize(cfg) && CeilDiv(total, s) <= TargetSetCount(cfg) ==>
          size <= s)
  {
    var size, target := CalculateSetSize(total, cfg), TargetSetCount(cfg);
    if total <= target * MaxSetSize(cfg) { AtMostTarget(total, total, cfg); }
    forall s: nat | MinSetSize(cfg) <= s <= MaxSetSize(cfg) && CeilDiv(total, s) <= target ensures size <= s {
      CeilDivBounds(total, s);
      MulMonotone(s, CeilDiv(total, s), target);
      CeilDivAtMost(total, target, s);
    }
  }

  /** Every discovered page equals a priority page up to trailing slashes, and then stands in no set, or
      stands in exactly one set exactly once; the sets list their pages in discovery order. */
  lemma DiscoveryPartition(all: seq<Page>, priority: seq<Page>, cfg: ScannerConfig, url: Page) returns (idx: seq<nat>)
    requires Distinct(all) && url in all
    ensures
      var built := BuildPageSets(all, CalculateSetSize(|all|, cfg), priority);
      var aside := exists p :: p in priority && Rtrim(p, '/') == Rtrim(url, '/');
      && built.Some?
      && multiset(Flatten(built.value))[url] == (if aside then 0 else 1)
      && Places(Flatten(built.value), all, idx)
  {
    OrganizedSets(all, priority, cfg);
    FilterDistinct(all, (u: Page) => !IsPriority(u, priority));
    DistinctCount(Rotating(all, priority), url);
    idx := FilterPlaces(all, (u: Page) => !IsPriority(u, priority));
  }

  /** A site that fits into one set gets one set at most. */
  lemma SmallSiteOneSet(all: seq<Page>, priority: seq<Page>, cfg: ScannerConfig)
    requires |all| <= MaxSetSize(cfg)
    ensures CalculateSetSize(|all|, cfg) == |all|
    ensures
      var built := BuildPageSets(all, CalculateSetSize(|all|, cfg), priority);
      built.Some? && |built.value| <= 1
  {
  }

  /** x is what a setting v between lo and hi amounts to. */
  predicate Clamped(x: int, v: int, lo: int, hi: int) {
    lo <= x <= hi && (lo <= v <= hi ==> x == v) && (v < lo ==> x == lo) && (v > hi ==> x == hi)
  }

  /** The settings are used as configured within their bounds; a set may hold up to 200 pages, but never
      fewer than the least set size. */
  lemma SettingsClamped(cfg: ScannerConfig)
    ensures Clamped(ScheduledSetChunkSize(cfg), cfg.scheduledSetChunkSize, 1, 50)
    ensures Clamped(TargetSetCount(cfg), cfg.targetSetCount, 50, 200)
    ensures Clamped(MinSetSize(cfg), cfg.minSetSize, 5, 50)
    ensures Clamped(MaxSetSize(cfg), cfg.maxSetSize, MinSetSize(cfg), 200)
  {
  }

  // ---------------------------------------------------------------- priority pages

  const COMMON_PATHS: seq<string> := [
    "/contact", "/about", "/blog", "/privacy", "/impressum",
    "/datenschutz", "/shop", "/products", "/services",
    "/faq", "/team", "/agb", "/terms", "/support"]

  const MAX_PRIORITY := 30

  /** A path with exactly one segment; PHP takes "" and "0" for false. */
  predicate SingleSegment(path: string) {
    var p := Rtrim(path, '/');
    p != "" && p != "0" && '/' !in Ltrim(p, '/')
  }

  /** One non-empty segment between any numbers of slashes; the bare segment "0" is not one. */
  ghost predicate OneSegment(path: string, seg: string, before: nat, after: nat) {
    && path == Slashes(before) + seg + Slashes(after)
    && seg != "" && '/' !in seg
    && (before > 0 || seg != "0")
  }

  lemma OneSegmentIsSingle(path: string, seg: string, before: nat, after: nat)
    requires OneSegment(path, seg, before, after)
    ensures SingleSegment(path)
  {
    assert seg[0] in seg && seg[|seg| - 1] in seg;
    TrimBoth(seg, before, after);
    var s := Slashes(before) + seg;
    if before > 0 { assert s[0] == '/'; } else { assert s == seg; }
  }

  /** Which paths count as single-segment pages. */
  lemma SingleSegmentIff(path: string) returns (seg: string, before: nat, after: nat)
    ensures SingleSegment(path) ==> OneSegment(path, seg, before, after)
    ensures !SingleSegment(path) ==> forall x, m, n :: !OneSegment(path, x, m, n)
  {
    seg, before, after := TrimShape(path);
    if !SingleSegment(path) {
      forall x, m, n ensures !OneSegment(path, x, m, n) {
        if OneSegment(path, x, m, n) { OneSegmentIsSingle(path, x, m, n); }
      }
    }
  }

  function FirstMatch(urls: seq<Page>, normalized: string): seq<Page> {
    if urls == [] then []
    else if Rtrim(urls[0], '/') == normalized then [urls[0]]
    else FirstMatch(urls[1..], normalized)
  }

  function CommonMatches(urls: seq<Page>, home: Page, paths: seq<string>): seq<Page> {
    if paths == [] then []
    else CommonMatches(urls, home, paths[..|paths| - 1]) + FirstMatch(urls, Rtrim(home + paths[|paths| - 1], '/'))
  }

  function SinglePages(urls: seq<Page>, pathOf: Page -> string): seq<Page> {
    Filter(urls, (u: Page) => SingleSegment(pathOf(u)))
  }

  lemma SinglePagesSnoc(urls: seq<Page>, url: Page, pathOf: Page -> string)
    ensures SinglePages(urls + [url], pathOf)
         == if SingleSegment(pathOf(url)) then SinglePages(urls, pathOf) + [url] else SinglePages(urls, pathOf)
  {
    FilterSnoc(urls, url, (u: Page) => SingleSegment(pathOf(u)));
  }

  function Candidates(urls: seq<Page>, home: Page, pathOf: Page -> string, paths: seq<string>): seq<Page> {
    [home] + SinglePages(urls, pathOf) + CommonMatches(urls, home, paths)
  }

  function Capped(all: seq<Page>): seq<Page> {
    if |all| <= MAX_PRIORITY then all else all[..MAX_PRIORITY]
  }

  function PriorityPages(urls: seq<Page>, baseUrl: Page, pathOf: Page -> string, paths: seq<string>): seq<Page> {
    Capped(Unique(Candidates(urls, Rtrim(baseUrl, '/'), pathOf, paths)))
  }

  /** `detectPriorityPages`, called with COMMON_PATHS; pathOf stands for the path PHP's URL parser finds. */
  method DetectPriorityPages(urls: seq<Page>, baseUrl: Page, pathOf: Page -> string,
      paths: seq<string>) returns (r: seq<Page>)
    ensures r == PriorityPages(urls, baseUrl, pathOf, paths)
  {
    var home := Rtrim(baseUrl, '/');
    var priority := AppendSinglePages(urls, pathOf, [home]);
    priority := AppendCommonPages(urls, home, paths, priority);
    r := Capped(Unique(priority));
  }

  method AppendSinglePages(urls: seq<Page>, pathOf: Page -> string, before: seq<Page>) returns (priority: seq<Page>)
    ensures priority == before + SinglePages(urls, pathOf)
  {
    priority := before;
    for i := 0 to |urls|
      invariant priority == before + SinglePages(urls[..i], pathOf)
    {
      assert urls[..i + 1] == urls[..i] + [urls[i]];
      SinglePagesSnoc(urls[..i], urls[i], pathOf);
      if SingleSegment(pathOf(urls[i])) {
        priority := priority + [urls[i]];
      }
    }
    assert urls[..|urls|] == urls;
  }

  method AppendCommonPages(urls: seq<Page>, home: Page, paths: seq<string>,
      before: seq<Page>) returns (priority: seq<Page>)
    ensures priority == before + CommonMatches(urls, home, paths)
  {
    priority := before;
    for j := 0 to |paths|
      invariant priority == before + CommonMatches(urls, home, paths[..j])
    {
      assert paths[..j + 1][..j] == paths[..j];
      var normalized := Rtrim(home + paths[j], '/');
      var i := 0;
      while i < |urls| && Rtrim(urls[i], '/') != normalized
        invariant 0 <= i <= |urls|
        invariant FirstMatch(urls, normalized) == FirstMatch(urls[i..], normalized)
      {
        i := i + 1;
      }
      if i < |urls| {
        priority := priority + [urls[i]];
      }
    }
    assert paths[..|paths|] == paths;
  }

  lemma {:induction false} FirstMatchMeans(urls: seq<Page>, normalized: string)
    ensures
      var m := FirstMatch(urls, normalized);
      && (m == [] <==> forall u :: u in urls ==> Rtrim(u, '/') != normalized)
      && (m != [] ==> |m| == 1 && m[0] in urls && Rtrim(m[0], '/') == normalized)
  {
    if urls != [] {
      assert urls == [urls[0]] + urls[1..];
      assert urls[0] in urls;
      FirstMatchMeans(urls[1..], normalized);
    }
  }

  lemma {:induction false} CommonMatchesFound(urls: seq<Page>, home: Page, paths: seq<string>)
    ensures forall u :: u in CommonMatches(urls, home, paths) ==> u in urls
  {
    if paths != [] {
      CommonMatchesFound(urls, home, paths[..|paths| - 1]);
      FirstMatchMeans(urls, Rtrim(home + paths[|paths| - 1], '/'));
    }
  }

  lemma {:induction false} CommonPathCovered(urls: seq<Page>, home: Page, paths: seq<string>, p: string, u: Page)
      returns (v: Page)
    requires p in paths && u in urls && Rtrim(u, '/') == Rtrim(home + p, '/')
    ensures v in CommonMatches(urls, home, paths) && Rtrim(v, '/') == Rtrim(u, '/')
  {
    var init, last := paths[..|paths| - 1], paths[|paths| - 1];
    assert paths == init + [last];
    if p in init {
      v := CommonPathCovered(urls, home, init, p, u);
    } else {
      FirstMatchMeans(urls, Rtrim(home + last, '/'));
      v := FirstMatch(urls, Rtrim(home + last, '/'))[0];
    }
  }

  /** The homepage leads, nothing is listed twice, only discovered pages are listed beside it, and
      unless the list is full every single-segment page and every common page is covered. */
  lemma PriorityPagesMean(urls: seq<Page>, baseUrl: Page, pathOf: Page -> string, paths: seq<string>)
    ensures
      var r, home := PriorityPages(urls, baseUrl, pathOf, paths), Rtrim(baseUrl, '/');
      && 1 <= |r| <= 30 && r[0] == home && Distinct(r)
      && (forall u :: u in r ==> u == home || u in urls)
      && (|r| < 30 ==>
            && (forall u :: u in urls && SingleSegment(pathOf(u)) ==> u in r)
            && (forall p, u :: p in paths && u in urls && Rtrim(u, '/') == Rtrim(home + p, '/') ==>
                  exists v :: v in r && Rtrim(v, '/') == Rtrim(u, '/')))
  {
    var home := Rtrim(baseUrl, '/');
    var candidates := Candidates(urls, home, pathOf, paths);
    var r := PriorityPages(urls, baseUrl, pathOf, paths);
    CommonMatchesFound(urls, home, paths);
    CappedMeans(Unique(candidates));
    assert forall u :: u in CommonMatches(urls, home, paths) ==> u in candidates;
    if |r| < MAX_PRIORITY {
      forall p, u | p in paths && u in urls && Rtrim(u, '/') == Rtrim(home + p, '/')
        ensures exists v :: v in r && Rtrim(v, '/') == Rtrim(u, '/')
      {
        var v := CommonPathCovered(urls, home, paths, p, u);
        assert v in r;
      }
    }
  }

  lemma CappedMeans(all: seq<Page>)
    requires Distinct(all)
    ensures Distinct(Capped(all)) && |Capped(all)| <= MAX_PRIORITY
    ensures forall u :: u in Capped(all) ==> u in all
    ensures |Capped(all)| < MAX_PRIORITY ==> Capped(all) == all
  {
  }

  /** Which pages a full list leaves out: common pages are listed only when every single-segment page is,
      and a single-segment page only when every single-segment page discovered before it is. */
  lemma EarlierKept(urls: seq<Page>, baseUrl: Page, pathOf: Page -> string, paths: seq<string>, i: nat, v: Page)
    requires i < |urls| && SingleSegment(pathOf(urls[i]))
    requires v in PriorityPages(urls, baseUrl, pathOf, paths) && v != Rtrim(baseUrl, '/')
    requires v !in urls[..i] || !SingleSegment(pathOf(v))
    ensures urls[i] in PriorityPages(urls, baseUrl, pathOf, paths)
  {
    var home := Rtrim(baseUrl, '/');
    var lead := [home] + SinglePages(urls[..i + 1], pathOf);
    LeadHolds(urls, home, pathOf, i, v);
    LeadCandidates(urls, home, pathOf, paths, i);
    CappedLead(Unique(lead), Unique(Candidates(urls, home, pathOf, paths)), urls[i], v);
  }

  lemma LeadHolds(urls: seq<Page>, home: Page, pathOf: Page -> string, i: nat, v: Page)
    requires i < |urls| && SingleSegment(pathOf(urls[i]))
    requires v != home && (v !in urls[..i] || !SingleSegment(pathOf(v)))
    ensures urls[i] in [home] + SinglePages(urls[..i + 1], pathOf)
    ensures v == urls[i] || v !in [home] + SinglePages(urls[..i + 1], pathOf)
  {
    assert urls[..i + 1] == urls[..i] + [urls[i]];
    assert urls[i] in SinglePages(urls[..i + 1], pathOf);
  }

  lemma LeadCandidates(urls: seq<Page>, home: Page, pathOf: Page -> string, paths: seq<string>, i: nat)
    requires i < |urls|
    ensures Unique([home] + SinglePages(urls[..i + 1], pathOf)) <= Unique(Candidates(urls, home, pathOf, paths))
  {
    var lead, later := SinglePages(urls[..i + 1], pathOf), SinglePages(urls[i + 1..], pathOf);
    var commons := CommonMatches(urls, home, paths);
    assert urls == urls[..i + 1] + urls[i + 1..];
    FilterAppend(urls[..i + 1], urls[i + 1..], (u: Page) => SingleSegment(pathOf(u)));
    Regroup([home], lead, later, commons);
    UniquePrefix([home] + lead, later + commons);
  }

  lemma CappedLead(lead: seq<Page>, all: seq<Page>, u: Page, v: Page)
    requires lead <= all && Distinct(all) && u in lead && v in Capped(all)
    requires v == u || v !in lead
    ensures u in Capped(all)
  {
    if v != u {
      var k :| 0 <= k < |Capped(all)| && Capped(all)[k] == v;
      assert k >= |lead|;
      var m :| 0 <= m < |lead| && lead[m] == u;
      assert Capped(all)[m] == u;
    }
  }
}
