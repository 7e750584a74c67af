/** Sampling a large URL list by path pattern. */
module SmartSample {
  import opened Php
  import opened Sequences

  const MAX_PAGES := 25

  /** What `extractPathPattern` keeps of a path: nothing of the root, the only segment, or up to two
      leading segments and a star. */
  function PatternParts(path: string): (r: seq<string>)
    ensures r != [] && forall i :: 0 <= i < |r| ==> '/' !in r[i]
  {
    var trimmed := Rtrim(path, '/');
    if trimmed == "" then [""]
    else
      var segments := Split(Ltrim(trimmed, '/'), '/');
      if |segments| <= 1 then segments
      else Starred(segments[..if |segments| - 1 < 2 then |segments| - 1 else 2])
  }

  function Starred(parts: seq<string>): (r: seq<string>)
    requires forall i :: 0 <= i < |parts| ==> '/' !in parts[i]
    ensures r != [] && forall i :: 0 <= i < |r| ==> '/' !in r[i]
  {
    parts + ["*"]
  }

  /** `extractPathPattern` on the path PHP's URL parser finds. */
  function ExtractPathPattern(path: string): string { "/" + Join(PatternParts(path), '/') }

  /** Two paths share a pattern exactly when the same parts are kept of both. */
  lemma SamePatternIff(p: string, q: string)
    ensures ExtractPathPattern(p) == ExtractPathPattern(q) <==> PatternParts(p) == PatternParts(q)
  {
    SplitOfJoin(PatternParts(p), '/');
    SplitOfJoin(PatternParts(q), '/');
    if ExtractPathPattern(p) == ExtractPathPattern(q) {
      assert ExtractPathPattern(p)[1..] == Join(PatternParts(p), '/');
      assert ExtractPathPattern(q)[1..] == Join(PatternParts(q), '/');
    }
  }

  // What the pattern of every path is: every path is only slashes or segments between slashes.

  lemma {:induction false} JoinEnds(parts: seq<string>)
    requires parts != [] && parts[0] != "" && parts[|parts| - 1] != ""
    requires forall i :: 0 <= i < |parts| ==> '/' !in parts[i]
    ensures
      var s := Join(parts, '/');
      s != "" && s[0] != '/' && s[|s| - 1] != '/'
  {
    var first, last := parts[0], parts[|parts| - 1];
    assert first[0] in first && last[|last| - 1] in last;
    if |parts| > 1 { JoinEnd(parts); }
  }

  lemma {:induction false} JoinEnd(parts: seq<string>)
    requires parts != [] && parts[|parts| - 1] != ""
    ensures
      var s, last := Join(parts, '/'), parts[|parts| - 1];
      s != "" && s[|s| - 1] == last[|last| - 1]
  {
    if |parts| > 1 {
      JoinEnd(parts[1..]);
    }
  }

  /** Segments between slashes; inner segments may be empty, the outer ones not. */
  ghost predicate InSegments(path: string, segments: seq<string>, before: nat, after: nat) {
    && segments != [] && segments[0] != "" && segments[|segments| - 1] != ""
    && (forall i :: 0 <= i < |segments| ==> '/' !in segments[i])
    && path == Slashes(before) + Join(segments, '/') + Slashes(after)
  }

  lemma PathShape(path: string) returns (segments: seq<string>, before: nat, after: nat)
    ensures path == Slashes(before) || InSegments(path, segments, before, after)
  {
    var mid;
    mid, before, after := TrimShape(path);
    segments := Split(mid, '/');
    JoinOfSplit(mid, '/');
    if mid == "" {
      before := after;
    } else {
      SplitEnds(mid);
    }
  }

  lemma {:induction false} SplitEnds(s: string)
    requires s != ""
    ensures s[0] != '/' ==> Split(s, '/')[0] != ""
    ensures s[|s| - 1] != '/' ==> Split(s, '/')[|Split(s, '/')| - 1] != ""
  {
    if |s| > 1 {
      SplitEnds(s[1..]);
    } else {
      assert Split(s[1..], '/') == [""];
    }
  }

  lemma SegmentsFound(path: string, segments: seq<string>, before: nat, after: nat)
    requires InSegments(path, segments, before, after)
    ensures Rtrim(path, '/') != "" && Split(Ltrim(Rtrim(path, '/'), '/'), '/') == segments
  {
    JoinEnds(segments);
    TrimBoth(Join(segments, '/'), before, after);
    SplitOfJoin(segments, '/');
  }

  lemma PartsFound(path: string, segments: seq<string>, before: nat, after: nat)
    requires InSegments(path, segments, before, after)
    ensures PatternParts(path)
         == if |segments| == 1 then [segments[0]]
            else if |segments| == 2 then [segments[0], "*"]
            else [segments[0], segments[1], "*"]
  {
    SegmentsFound(path, segments, before, after);
    KeptParts(segments);
  }

  lemma KeptParts(segments: seq<string>)
    ensures |segments| == 1 ==> segments == [segments[0]]
    ensures |segments| == 2 ==> segments[..1] + ["*"] == [segments[0], "*"]
    ensures |segments| > 2 ==> segments[..2] + ["*"] == [segments[0], segments[1], "*"]
  {
  }

  /** The only segment, or the first segment and a star, or the first two and a star. */
  lemma PatternExact(path: string, segments: seq<string>, before: nat, after: nat)
    requires InSegments(path, segments, before, after)
    ensures ExtractPathPattern(path)
         == if |segments| == 1 then "/" + segments[0]
            else if |segments| == 2 then "/" + (segments[0] + "/" + "*")
            else "/" + (segments[0] + "/" + (segments[1] + "/" + "*"))
  {
    PartsFound(path, segments, before, after);
    if |segments| == 2 {
      JoinTwo(segments[0], "*");
    } else if |segments| > 2 {
      JoinThree(segments[0], segments[1], "*");
    }
  }

  lemma JoinTwo(a: string, b: string)
    ensures Join([a, b], '/') == a + "/" + b
  {
    assert [a, b][1..] == [b];
  }

  lemma JoinThree(a: string, b: string, c: string)
    ensures Join([a, b, c], '/') == a + "/" + (b + "/" + c)
  {
    assert [a, b, c][1..] == [b, c];
    JoinTwo(b, c);
  }

  lemma PatternOfSlashes(n: nat)
    ensures ExtractPathPattern(Slashes(n)) == "/"
  {
    assert "" + Slashes(n) == Slashes(n);
    RtrimSlashes("", n);
  }

  datatype Group = Group(pattern: string, urls: seq<string>)

  type Pattern = string -> string

  /** The position of a pattern's group, or the length when the pattern is new. */
  function Position(groups: seq<Group>, pattern: string): (p: nat)
    ensures p <= |groups|
    ensures p < |groups| ==> groups[p].pattern == pattern
    ensures p == |groups| ==> forall i :: 0 <= i < |groups| ==> groups[i].pattern != pattern
  {
    if groups == [] then 0
    else
      var p := Position(groups[..|groups| - 1], pattern);
      if p < |groups| - 1 || groups[p].pattern == pattern then p else |groups|
  }

  /** `groups[pattern][] = url`: appends to the group of that pattern, or opens it at the end. */
  function Put(groups: seq<Group>, pattern: string, url: string): seq<Group> {
    var p := Position(groups, pattern);
    if p < |groups| then groups[p := Group(pattern, groups[p].urls + [url])] else groups + [Group(pattern, [url])]
  }

  function Grouped(urls: seq<string>, pattern: Pattern): seq<Group> {
    if urls == [] then []
    else Put(Grouped(urls[..|urls| - 1], pattern), pattern(urls[|urls| - 1]), urls[|urls| - 1])
  }

  /** Places g behind every group that is at least as large. */
  function Insert(sorted: seq<Group>, g: Group): (r: seq<Group>)
    ensures multiset(r) == multiset(sorted) + multiset{g}
  {
    if sorted == [] then [g]
    else
      var init, last := sorted[..|sorted| - 1], sorted[|sorted| - 1];
      assert sorted == init + [last];
      if |last.urls| >= |g.urls| then sorted + [g] else Insert(init, g) + [last]
  }

  /** `uasort` by descending size; PHP's sort is stable. */
  function BySize(groups: seq<Group>): (r: seq<Group>)
    ensures multiset(r) == multiset(groups)
    ensures |r| == |groups|
  {
    if groups == [] then []
    else
      var init, last := groups[..|groups| - 1], groups[|groups| - 1];
      assert groups == init + [last];
      var r := Insert(BySize(init), last);
      assert |multiset(r)| == |r| && |multiset(groups)| == |groups|;
      r
  }

  function PerGroup(groupCount: nat): nat {
    var even := (MAX_PAGES - 1) / (if groupCount > 1 then groupCount else 1);
    var atLeast := if even > 1 then even else 1;
    if atLeast < 3 then atLeast else 3
  }

  function Others(g: Group, home: string): seq<string> {
    Filter(g.urls, (u: string) => Rtrim(u, '/') != home)
  }

  /** First, middle and last page of a group besides the homepage, as far as the budget goes. */
  function Picks(g: Group, home: string, perGroup: nat): seq<string> {
    var o := Others(g, home);
    if o == [] then []
    else
      [o[0]]
      + (if perGroup >= 2 && |o| > 2 then [o[|o| / 2]] else [])
      + (if perGroup >= 3 && |o| > 5 then [o[|o| - 1]] else [])
  }

  function Sampled(groups: seq<Group>, home: string, perGroup: nat, soFar: seq<string>): seq<string>
    decreases |groups|
  {
    if groups == [] || |soFar| >= MAX_PAGES then soFar
    else Sampled(groups[1..], home, perGroup, soFar + Picks(groups[0], home, perGroup))
  }

  /** The sample before the final unique and slice. */
  function Collected(urls: seq<string>, baseUrl: string, pattern: Pattern): seq<string> {
    var groups := BySize(Grouped(urls, pattern));
    var home := Rtrim(baseUrl, '/');
    Sampled(groups, home, PerGroup(|groups|), [home])
  }

  function Sample(urls: seq<string>, baseUrl: string, pattern: Pattern): seq<string> {
    if |urls| <= MAX_PAGES then urls
    else
      var all := Unique(Collected(urls, baseUrl, pattern));
      if |all| <= MAX_PAGES then all else all[..MAX_PAGES]
  }

  method GroupUrls(urls: seq<string>, pattern: Pattern) returns (groups: seq<Group>)
    ensures groups == Grouped(urls, pattern)
  {
    groups := [];
    for i := 0 to |urls|
      invariant groups == Grouped(urls[..i], pattern)
    {
      assert urls[..i + 1][..i] == urls[..i];
      groups := Put(groups, pattern(urls[i]), urls[i]);
    }
    assert urls[..|urls|] == urls;
  }

  method PickFrom(g: Group, home: string, perGroup: nat, before: seq<string>) returns (sampled: seq<string>)
    ensures sampled == before + Picks(g, home, perGroup)
  {
    sampled := before;
    var o := Others(g, home);
    if o == [] {
      return;
    }
    sampled := sampled + [o[0]];
    if perGroup >= 2 && |o| > 2 {
      sampled := sampled + [o[|o| / 2]];
    }
    if perGroup >= 3 && |o| > 5 {
      sampled := sampled + [o[|o| - 1]];
    }
  }

  /** `smartSample`; pattern stands for `extractPathPattern` on the URL's path. */
  method TakeSample(urls: seq<string>, baseUrl: string, pattern: Pattern) returns (r: seq<string>)
    ensures r == Sample(urls, baseUrl, pattern)
    ensures |urls| <= 25 ==> r == urls
  {
    if |urls| <= MAX_PAGES {
      return urls;
    }
    var groups := GroupUrls(urls, pattern);
    groups := BySize(groups);
    var home := Rtrim(baseUrl, '/');
    var sampled := [home];
    var perGroup := PerGroup(|groups|);
    var i := 0;
    while i < |groups| && |sampled| < MAX_PAGES
      invariant 0 <= i <= |groups|
      invariant Sampled(groups[i..], home, perGroup, sampled) == Collected(urls, baseUrl, pattern)
    {
      assert groups[i..][1..] == groups[i + 1..];
      sampled := PickFrom(groups[i], home, perGroup, sampled);
      i := i + 1;
    }
    var all := Unique(sampled);
    r := if |all| <= MAX_PAGES then all else all[..MAX_PAGES];
  }

  // ---------------------------------------------------------------- groups

  ghost predicate DistinctPatterns(groups: seq<Group>) {
    forall i, j :: 0 <= i < j < |groups| ==> groups[i].pattern != groups[j].pattern
  }

  function OfPattern(urls: seq<string>, pattern: Pattern, p: string): seq<string> {
    Filter(urls, (u: string) => pattern(u) == p)
  }

  lemma OfPatternSnoc(urls: seq<string>, url: string, pattern: Pattern, p: string)
    ensures OfPattern(urls + [url], pattern, p) == OfPattern(urls, pattern, p) + if pattern(url) == p then [url] else []
  {
    FilterAppend(urls, [url], (u: string) => pattern(u) == p);
  }

  /** Every group holds exactly the URLs of its pattern, in input order, and no pattern repeats. */
  ghost predicate GroupsOf(groups: seq<Group>, urls: seq<string>, pattern: Pattern) {
    && DistinctPatterns(groups)
    && (forall i :: 0 <= i < |groups| ==> groups[i].urls == OfPattern(urls, pattern, groups[i].pattern))
    && (forall u :: u in urls ==> exists i :: 0 <= i < |groups| && groups[i].pattern == pattern(u))
  }

  lemma PutMeans(groups: seq<Group>, pattern: string, url: string)
    requires DistinctPatterns(groups)
    ensures DistinctPatterns(Put(groups, pattern, url))
    ensures |groups| <= |Put(groups, pattern, url)| <= |groups| + 1
  {
  }

  lemma {:induction false} NoneOfPattern(urls: seq<string>, pattern: Pattern, p: string)
    requires forall u :: u in urls ==> pattern(u) != p
    ensures OfPattern(urls, pattern, p) == []
  {
    if urls != [] {
      assert urls == [urls[0]] + urls[1..];
      NoneOfPattern(urls[1..], pattern, p);
    }
  }

  lemma NewPattern(groups: seq<Group>, urls: seq<string>, pattern: Pattern, p: string)
    requires GroupsOf(groups, urls, pattern) && Position(groups, p) == |groups|
    ensures OfPattern(urls, pattern, p) == []
  {
    NoneOfPattern(urls, pattern, p);
  }

  lemma PutUrls(groups: seq<Group>, urls: seq<string>, pattern: Pattern, url: string, i: nat)
    requires GroupsOf(groups, urls, pattern)
    requires i < |Put(groups, pattern(url), url)|
    ensures
      var g := Put(groups, pattern(url), url)[i];
      g.urls == OfPattern(urls + [url], pattern, g.pattern)
  {
    var p := Position(groups, pattern(url));
    if i == p {
      OfPatternSnoc(urls, url, pattern, pattern(url));
      if p == |groups| { NewPattern(groups, urls, pattern, pattern(url)); }
    } else {
      assert groups[i].pattern != pattern(url);
      OfPatternSnoc(urls, url, pattern, groups[i].pattern);
    }
  }

  lemma PutCovers(groups: seq<Group>, urls: seq<string>, pattern: Pattern, url: string, u: string)
    requires GroupsOf(groups, urls, pattern) && u in urls + [url]
    ensures
      var r := Put(groups, pattern(url), url);
      exists i :: 0 <= i < |r| && r[i].pattern == pattern(u)
  {
    var r := Put(groups, pattern(url), url);
    if u in urls {
      var i :| 0 <= i < |groups| && groups[i].pattern == pattern(u);
      assert r[i].pattern == pattern(u);
    } else {
      assert r[Position(groups, pattern(url))].pattern == pattern(u);
    }
  }

  lemma {:induction false} GroupedMeans(urls: seq<string>, pattern: Pattern)
    ensures GroupsOf(Grouped(urls, pattern), urls, pattern)
  {
    if urls != [] {
      var init, last := urls[..|urls| - 1], urls[|urls| - 1];
      var before, after := Grouped(init, pattern), Grouped(urls, pattern);
      assert urls == init + [last];
      GroupedMeans(init, pattern);
      PutMeans(before, pattern(last), last);
      forall i | 0 <= i < |after| ensures after[i].urls == OfPattern(urls, pattern, after[i].pattern) {
        PutUrls(before, init, pattern, last, i);
      }
      forall u | u in urls ensures exists i :: 0 <= i < |after| && after[i].pattern == pattern(u) {
        PutCovers(before, init, pattern, last, u);
      }
    }
  }

  ghost predicate Descending(groups: seq<Group>) {
    forall i, j :: 0 <= i < j < |groups| ==> |groups[i].urls| >= |groups[j].urls|
  }

  lemma DescendingSnoc(groups: seq<Group>, last: Group)
    requires Descending(groups)
    requires forall g :: g in groups ==> |g.urls| >= |last.urls|
    ensures Descending(groups + [last])
  {
    var all := groups + [last];
    forall i, j | 0 <= i < j < |all| ensures |all[i].urls| >= |all[j].urls| {
      assert all[i] == groups[i] && groups[i] in groups;
    }
  }

  lemma DescendingEnd(sorted: seq<Group>, g: Group)
    requires Descending(sorted) && sorted != [] && g in sorted
    ensures |g.urls| >= |sorted[|sorted| - 1].urls|
  {
  }

  lemma InsertedFrom(sorted: seq<Group>, g: Group, x: Group)
    requires x in Insert(sorted, g)
    ensures x == g || x in sorted
  {
    assert x in multiset(Insert(sorted, g));
  }

  lemma {:induction false} InsertDescending(sorted: seq<Group>, g: Group)
    requires Descending(sorted)
    ensures Descending(Insert(sorted, g))
  {
    if sorted != [] {
      var init, last := sorted[..|sorted| - 1], sorted[|sorted| - 1];
      if |last.urls| >= |g.urls| {
        forall x | x in sorted ensures |x.urls| >= |g.urls| { DescendingEnd(sorted, x); }
        DescendingSnoc(sorted, g);
      } else {
        InsertDescending(init, g);
        forall x | x in Insert(init, g) ensures |x.urls| >= |last.urls| {
          InsertedFrom(init, g, x);
          if x != g { DescendingEnd(sorted, x); }
        }
        DescendingSnoc(Insert(init, g), last);
      }
    }
  }

  function OfSize(groups: seq<Group>, n: nat): seq<Group> { Filter(groups, (x: Group) => |x.urls| == n) }

  lemma OfSizeAppend(a: seq<Group>, b: seq<Group>, n: nat)
    ensures OfSize(a + b, n) == OfSize(a, n) + OfSize(b, n)
  {
    FilterAppend(a, b, (x: Group) => |x.urls| == n);
  }

  lemma {:induction false} InsertStable(sorted: seq<Group>, g: Group, n: nat)
    ensures OfSize(Insert(sorted, g), n) == OfSize(sorted, n) + OfSize([g], n)
  {
    if sorted == [] {
      assert OfSize([], n) + OfSize([g], n) == OfSize([g], n);
    } else {
      var init, last := sorted[..|sorted| - 1], sorted[|sorted| - 1];
      assert sorted == init + [last];
      OfSizeAppend(init, [last], n);
      if |last.urls| < |g.urls| {
        InsertStable(init, g, n);
        OfSizeAppend(Insert(init, g), [last], n);
        Commute(OfSize(init, n), OfSize([g], n), OfSize([last], n));
      } else {
        OfSizeAppend(sorted, [g], n);
      }
    }
  }

  /** Largest groups first; groups of one size keep the order in which their patterns appeared. */
  lemma {:induction false} BySizeMeans(groups: seq<Group>, n: nat)
    ensures Descending(BySize(groups))
    ensures OfSize(BySize(groups), n) == OfSize(groups, n)
  {
    if groups != [] {
      var init, last := groups[..|groups| - 1], groups[|groups| - 1];
      assert groups == init + [last];
      BySizeMeans(init, n);
      InsertDescending(BySize(init), last);
      InsertStable(BySize(init), last, n);
      OfSizeAppend(init, [last], n);
    }
  }

  // ---------------------------------------------------------------- the sample

  lemma PicksMean(g: Group, home: string, perGroup: nat)
    requires 1 <= perGroup <= 3
    ensures |Picks(g, home, perGroup)| <= perGroup
    ensures forall u :: u in Picks(g, home, perGroup) ==> u in g.urls && Rtrim(u, '/') != home
    ensures Others(g, home) != [] ==> Picks(g, home, perGroup) != []
    ensures Distinct(g.urls) ==> Distinct(Picks(g, home, perGroup))
  {
    var o := Others(g, home);
    if Distinct(g.urls) { OthersDistinct(g, home); }
    forall u | u in Picks(g, home, perGroup) ensures u in g.urls && Rtrim(u, '/') != home { assert u in o; }
  }

  lemma OthersDistinct(g: Group, home: string)
    requires Distinct(g.urls)
    ensures Distinct(Others(g, home))
  {
    FilterDistinct(g.urls, (u: string) => Rtrim(u, '/') != home);
  }

  /** What n groups may contribute. */
  function Budget(perGroup: nat, n: nat): nat { if n == 0 then 0 else perGroup + Budget(perGroup, n - 1) }

  lemma {:induction false} BudgetIsProduct(perGroup: nat, n: nat)
    ensures Budget(perGroup, n) == n * perGroup
  {
    if n > 0 {
      BudgetIsProduct(perGroup, n - 1);
      assert n * perGroup == perGroup + (n - 1) * perGroup;
    }
  }

  /** The budget is never exceeded: either it covers every group, or each group gives one page and
      the collecting stops at the limit. */
  lemma {:induction false} SampledBound(groups: seq<Group>, home: string, perGroup: nat, soFar: seq<string>)
    requires 1 <= perGroup <= 3
    requires |soFar| + Budget(perGroup, |groups|) <= MAX_PAGES || (perGroup == 1 && |soFar| <= MAX_PAGES)
    ensures |Sampled(groups, home, perGroup, soFar)| <= MAX_PAGES
    ensures soFar <= Sampled(groups, home, perGroup, soFar)
    decreases |groups|
  {
    if groups != [] && |soFar| < MAX_PAGES {
      PicksMean(groups[0], home, perGroup);
      SampledBound(groups[1..], home, perGroup, soFar + Picks(groups[0], home, perGroup));
    }
  }

  /** What all groups contribute when none is skipped. */
  function AllPicks(groups: seq<Group>, home: string, perGroup: nat): seq<string> {
    Flatten(PicksOf(groups, home, perGroup))
  }

  function PicksOf(groups: seq<Group>, home: string, perGroup: nat): (r: seq<seq<string>>)
    ensures |r| == |groups|
  {
    seq(|groups|, i requires 0 <= i < |groups| => Picks(groups[i], home, perGroup))
  }

  lemma AllPicksStep(groups: seq<Group>, home: string, perGroup: nat)
    requires groups != []
    ensures AllPicks(groups, home, perGroup) == Picks(groups[0], home, perGroup) + AllPicks(groups[1..], home, perGroup)
  {
    assert PicksOf(groups, home, perGroup)[1..] == PicksOf(groups[1..], home, perGroup);
  }

  /** Groups with a page besides the homepage. */
  function Contributing(groups: seq<Group>, home: string): nat {
    if groups == [] then 0 else (if Others(groups[0], home) == [] then 0 else 1) + Contributing(groups[1..], home)
  }

  lemma {:induction false} NothingToPick(groups: seq<Group>, home: string, perGroup: nat)
    requires Contributing(groups, home) == 0
    ensures AllPicks(groups, home, perGroup) == []
  {
    if groups != [] {
      AllPicksStep(groups, home, perGroup);
      NothingToPick(groups[1..], home, perGroup);
    }
  }

  /** When the budget covers every group that contributes, none is skipped. */
  lemma {:induction false} SampledAll(groups: seq<Group>, home: string, perGroup: nat, soFar: seq<string>)
    requires 1 <= perGroup <= 3 && |soFar| + Budget(perGroup, Contributing(groups, home)) <= MAX_PAGES
    ensures Sampled(groups, home, perGroup, soFar) == soFar + AllPicks(groups, home, perGroup)
    decreases |groups|, 0
  {
    if groups == [] || |soFar| >= MAX_PAGES {
      NothingToPick(groups, home, perGroup);
      assert soFar + [] == soFar;
    } else {
      PicksMean(groups[0], home, perGroup);
      AllPicksStep(groups, home, perGroup);
      SampledRest(groups, Picks(groups[0], home, perGroup), home, perGroup, soFar);
    }
  }

  lemma {:induction false} SampledRest(groups: seq<Group>, picks: seq<string>, home: string, perGroup: nat,
      soFar: seq<string>)
    requires 1 <= perGroup <= 3 && groups != []
    requires |picks| <= (if Others(groups[0], home) == [] then 0 else perGroup)
    requires |soFar| + Budget(perGroup, Contributing(groups, home)) <= MAX_PAGES
    ensures Sampled(groups[1..], home, perGroup, soFar + picks)
         == soFar + (picks + AllPicks(groups[1..], home, perGroup))
    decreases |groups| - 1, 1
  {
    SampledAll(groups[1..], home, perGroup, soFar + picks);
    Assoc(soFar, picks, AllPicks(groups[1..], home, perGroup));
  }

  lemma PickedByAll(groups: seq<Group>, home: string, perGroup: nat, i: nat, u: string)
    requires i < |groups| && u in Picks(groups[i], home, perGroup)
    ensures u in AllPicks(groups, home, perGroup)
  {
    FlattenHas(PicksOf(groups, home, perGroup), i, u);
  }

  /** Whatever is collected comes from the groups or was there before. */
  lemma {:induction false} SampledFrom(groups: seq<Group>, home: string, perGroup: nat, soFar: seq<string>, u: string)
    requires 1 <= perGroup <= 3 && u in Sampled(groups, home, perGroup, soFar)
    ensures u in soFar || exists i :: 0 <= i < |groups| && u in groups[i].urls
    decreases |groups|
  {
    if groups != [] && |soFar| < MAX_PAGES {
      PicksMean(groups[0], home, perGroup);
      SampledFrom(groups[1..], home, perGroup, soFar + Picks(groups[0], home, perGroup), u);
      if i :| 0 <= i < |groups[1..]| && u in groups[1..][i].urls { assert groups[i + 1] == groups[1..][i]; }
    }
  }

  /** Groups of distinct URLs with different patterns never contribute the same page twice. */
  lemma {:induction false} SampledDistinct(groups: seq<Group>, home: string, perGroup: nat, soFar: seq<string>,
      pattern: Pattern)
    requires 1 <= perGroup <= 3 && Distinct(soFar) && DistinctPatterns(groups)
    requires home in soFar && Rtrim(home, '/') == home
    requires forall i :: 0 <= i < |groups| ==> Distinct(groups[i].urls)
    requires forall i, u :: 0 <= i < |groups| && u in groups[i].urls ==> pattern(u) == groups[i].pattern
    requires forall i, u :: 0 <= i < |groups| && u in soFar ==> u == home || pattern(u) != groups[i].pattern
    ensures Distinct(Sampled(groups, home, perGroup, soFar))
    decreases |groups|
  {
    if groups != [] && |soFar| < MAX_PAGES {
      var picks, rest := Picks(groups[0], home, perGroup), groups[1..];
      PicksApart(groups[0], home, perGroup, soFar, pattern);
      forall i, u | 0 <= i < |rest| && u in soFar + picks ensures u == home || pattern(u) != rest[i].pattern {
        assert rest[i] == groups[i + 1] && groups[0].pattern != groups[i + 1].pattern;
      }
      SampledDistinct(rest, home, perGroup, soFar + picks, pattern);
    }
  }

  /** The picks of a group repeat nothing that was collected from other patterns. */
  lemma PicksApart(g: Group, home: string, perGroup: nat, soFar: seq<string>, pattern: Pattern)
    requires 1 <= perGroup <= 3 && Distinct(soFar) && Distinct(g.urls) && Rtrim(home, '/') == home
    requires forall u :: u in g.urls ==> pattern(u) == g.pattern
    requires forall u :: u in soFar ==> u == home || pattern(u) != g.pattern
    ensures Distinct(soFar + Picks(g, home, perGroup))
    ensures forall u :: u in Picks(g, home, perGroup) ==> pattern(u) == g.pattern
  {
    var picks := Picks(g, home, perGroup);
    PicksMean(g, home, perGroup);
    forall i, j | 0 <= i < |soFar| && 0 <= j < |picks| ensures soFar[i] != picks[j] {
      assert soFar[i] in soFar && picks[j] in picks;
    }
  }

  lemma BudgetCovers(n: nat)
    ensures 1 <= PerGroup(n) <= 3
    ensures 1 <= n <= MAX_PAGES - 1 ==> 1 + Budget(PerGroup(n), n) <= MAX_PAGES
    ensures n > MAX_PAGES - 1 ==> PerGroup(n) == 1
  {
    if 1 <= n <= MAX_PAGES - 1 {
      var even := (MAX_PAGES - 1) / n;
      assert MAX_PAGES - 1 == n * even + (MAX_PAGES - 1) % n;
      assert n * even > 0;
      MulMonotone(n, PerGroup(n), even);
      BudgetIsProduct(PerGroup(n), n);
    } else if n > MAX_PAGES - 1 {
      DivModUnique(MAX_PAGES - 1, n, 0, MAX_PAGES - 1);
    }
  }

  lemma SortedGroups(urls: seq<string>, pattern: Pattern)
    ensures GroupsOf(BySize(Grouped(urls, pattern)), urls, pattern)
    ensures urls != [] ==> BySize(Grouped(urls, pattern)) != []
  {
    var g := Grouped(urls, pattern);
    GroupedMeans(urls, pattern);
    PermutedGroups(g, BySize(g), urls, pattern);
    if urls != [] { assert urls[0] in urls; }
  }

  lemma PermutedGroups(g: seq<Group>, s: seq<Group>, urls: seq<string>, pattern: Pattern)
    requires GroupsOf(g, urls, pattern) && multiset(s) == multiset(g)
    ensures GroupsOf(s, urls, pattern)
  {
    forall i | 0 <= i < |s| ensures s[i] in g { assert s[i] in multiset(g); }
    forall i | 0 <= i < |g| ensures g[i] in s { assert g[i] in multiset(s); }
    PermutedDistinct(g, s);
    forall u | u in urls ensures exists i :: 0 <= i < |s| && s[i].pattern == pattern(u) {
      var i :| 0 <= i < |g| && g[i].pattern == pattern(u);
      assert g[i] in s;
    }
  }

  lemma {:induction false} PermutedDistinct(g: seq<Group>, s: seq<Group>)
    requires DistinctPatterns(g) && multiset(s) == multiset(g)
    ensures DistinctPatterns(s)
  {
    forall i, j | 0 <= i < j < |s| ensures s[i].pattern != s[j].pattern {
      assert s[i] in multiset(g) && s[j] in multiset(g);
      var a :| 0 <= a < |g| && g[a] == s[i];
      var b :| 0 <= b < |g| && g[b] == s[j];
      if a == b {
        TwiceInSequence(s, i, j);
        OnceInDistinct(g, a);
      }
    }
  }

  lemma OnceInDistinct(g: seq<Group>, a: nat)
    requires DistinctPatterns(g) && a < |g|
    ensures multiset(g)[g[a]] == 1
  {
    assert g == g[..a] + [g[a]] + g[a + 1..];
    assert g[a] !in g[..a] && g[a] !in g[a + 1..];
  }

  /** For every list longer than the limit: the homepage leads, no page repeats, at most MAX_PAGES
      pages, all from the list or the homepage. */
  lemma SampleShape(urls: seq<string>, baseUrl: string, pattern: Pattern)
    requires |urls| > MAX_PAGES
    ensures
      var r, home := Sample(urls, baseUrl, pattern), Rtrim(baseUrl, '/');
      && 1 <= |r| <= MAX_PAGES && r[0] == home && Distinct(r)
      && (forall u :: u in r ==> u == home || u in urls)
  {
    var r, home := Sample(urls, baseUrl, pattern), Rtrim(baseUrl, '/');
    var groups := BySize(Grouped(urls, pattern));
    var all := Collected(urls, baseUrl, pattern);
    SortedGroups(urls, pattern);
    BudgetCovers(|groups|);
    SampledBound(groups, home, PerGroup(|groups|), [home]);
    assert all[0] == home;
    forall u | u in r ensures u == home || u in urls {
      assert u in all;
      SampledFrom(groups, home, PerGroup(|groups|), [home], u);
    }
  }

  lemma GroupsDistinct(groups: seq<Group>, urls: seq<string>, pattern: Pattern)
    requires GroupsOf(groups, urls, pattern) && Distinct(urls)
    ensures forall i :: 0 <= i < |groups| ==> Distinct(groups[i].urls)
    ensures forall i, u :: 0 <= i < |groups| && u in groups[i].urls ==> pattern(u) == groups[i].pattern
  {
    forall i | 0 <= i < |groups| ensures Distinct(groups[i].urls) {
      FilterDistinct(urls, (u: string) => pattern(u) == groups[i].pattern);
    }
  }

  lemma CollectedMeans(urls: seq<string>, baseUrl: string, pattern: Pattern)
    requires urls != []
    ensures |Collected(urls, baseUrl, pattern)| <= MAX_PAGES
    ensures Distinct(urls) ==> Distinct(Collected(urls, baseUrl, pattern))
  {
    var home := Rtrim(baseUrl, '/');
    var groups := BySize(Grouped(urls, pattern));
    SortedGroups(urls, pattern);
    BudgetCovers(|groups|);
    SampledBound(groups, home, PerGroup(|groups|), [home]);
    if Distinct(urls) { CollectedDistinct(groups, urls, home, pattern, baseUrl); }
  }

  lemma CollectedDistinct(groups: seq<Group>, urls: seq<string>, home: string, pattern: Pattern, baseUrl: string)
    requires GroupsOf(groups, urls, pattern) && Distinct(urls) && home == Rtrim(baseUrl, '/')
    ensures Distinct(Sampled(groups, home, PerGroup(|groups|), [home]))
  {
    RtrimOfTrimmed(baseUrl, '/');
    BudgetCovers(|groups|);
    GroupsDistinct(groups, urls, pattern);
    SampledDistinct(groups, home, PerGroup(|groups|), [home], pattern);
  }

  /** With distinct URLs the final unique and slice drop nothing. */
  lemma NothingDropped(urls: seq<string>, baseUrl: string, pattern: Pattern)
    requires |urls| > MAX_PAGES && Distinct(urls)
    ensures Sample(urls, baseUrl, pattern) == Collected(urls, baseUrl, pattern)
  {
    CollectedMeans(urls, baseUrl, pattern);
    UniqueOfDistinct(Collected(urls, baseUrl, pattern));
  }

  /** The patterns that have a page besides the homepage. */
  function PatternsBeside(urls: seq<string>, home: string, pattern: Pattern): set<string> {
    set u | u in urls && Rtrim(u, '/') != home :: pattern(u)
  }

  ghost predicate Represents(r: seq<string>, urls: seq<string>, home: string, pattern: Pattern, p: string) {
    exists v :: v in r && v in urls && pattern(v) == p && Rtrim(v, '/') != home
  }

  /** Every pattern with a page besides the homepage is represented by such a page exactly when there
      are at most MAX_PAGES - 1 such patterns. */
  lemma PatternsCoveredIff(urls: seq<string>, baseUrl: string, pattern: Pattern)
    requires |urls| > MAX_PAGES
    ensures
      var r, home := Sample(urls, baseUrl, pattern), Rtrim(baseUrl, '/');
      var patterns := PatternsBeside(urls, home, pattern);
      (forall p :: p in patterns ==> Represents(r, urls, home, pattern, p)) <==> |patterns| <= MAX_PAGES - 1
  {
    var r, home := Sample(urls, baseUrl, pattern), Rtrim(baseUrl, '/');
    var patterns := PatternsBeside(urls, home, pattern);
    if |patterns| <= MAX_PAGES - 1 {
      forall p | p in patterns ensures Represents(r, urls, home, pattern, p) {
        var u :| u in urls && Rtrim(u, '/') != home && pattern(u) == p;
        var v := PatternCovered(urls, baseUrl, pattern, u);
      }
    } else if forall p :: p in patterns ==> Represents(r, urls, home, pattern, p) {
      SampleShape(urls, baseUrl, pattern);
      RtrimOfTrimmed(baseUrl, '/');
      RepresentedAtMost(r, urls, home, pattern);
    }
  }

  /** A list led by the homepage represents at most one pattern for each page behind it. */
  lemma RepresentedAtMost(r: seq<string>, urls: seq<string>, home: string, pattern: Pattern)
    requires r != [] && r[0] == home && Rtrim(home, '/') == home
    requires forall p :: p in PatternsBeside(urls, home, pattern) ==> Represents(r, urls, home, pattern, p)
    ensures |PatternsBeside(urls, home, pattern)| <= |r| - 1
  {
    var patterns := PatternsBeside(urls, home, pattern);
    assert r == [home] + r[1..];
    forall p | p in patterns ensures exists v :: v in r[1..] && pattern(v) == p {
      var v :| v in r && v in urls && pattern(v) == p && Rtrim(v, '/') != home;
      assert v in r[1..];
    }
    Pigeonhole(patterns, r[1..], pattern);
  }

  /** Patterns that all occur among the pages of a list are no more than the pages. */
  lemma {:induction false} Pigeonhole(patterns: set<string>, r: seq<string>, pattern: Pattern)
    requires forall p :: p in patterns ==> exists v :: v in r && pattern(v) == p
    ensures |patterns| <= |r|
  {
    if r == [] {
      assert patterns == {};
    } else {
      var rest, q := r[1..], pattern(r[0]);
      assert r == [r[0]] + rest;
      forall p | p in patterns - {q} ensures exists v :: v in rest && pattern(v) == p {
        var v :| v in r && pattern(v) == p;
        assert v in rest;
      }
      Pigeonhole(patterns - {q}, rest, pattern);
      assert patterns <= (patterns - {q}) + {q};
      if q !in patterns { assert patterns - {q} == patterns; }
    }
  }

  /** Groups that contribute are as many as the patterns with a page besides the homepage. */
  lemma ContributingPatterns(groups: seq<Group>, urls: seq<string>, home: string, pattern: Pattern)
    requires GroupsOf(groups, urls, pattern)
    ensures Contributing(groups, home) == |PatternsBeside(urls, home, pattern)|
  {
    ContributingSet(groups, home);
    var have := PatternsOf(groups, home);
    forall p ensures p in have <==> p in PatternsBeside(urls, home, pattern) {
      if p in have {
        var i :| 0 <= i < |groups| && Others(groups[i], home) != [] && groups[i].pattern == p;
        var u := Others(groups[i], home)[0];
        assert u in Others(groups[i], home) && u in OfPattern(urls, pattern, p);
      }
      if p in PatternsBeside(urls, home, pattern) {
        var u :| u in urls && Rtrim(u, '/') != home && pattern(u) == p;
        var i := GroupFor(groups, urls, pattern, u);
        assert u in Others(groups[i], home);
      }
    }
    assert have == PatternsBeside(urls, home, pattern);
  }

  function PatternsOf(groups: seq<Group>, home: string): set<string> {
    set i | 0 <= i < |groups| && Others(groups[i], home) != [] :: groups[i].pattern
  }

  lemma {:induction false} ContributingSet(groups: seq<Group>, home: string)
    requires DistinctPatterns(groups)
    ensures Contributing(groups, home) == |PatternsOf(groups, home)|
  {
    if groups != [] {
      var tail := groups[1..];
      ContributingSet(tail, home);
      var first: set<string> := if Others(groups[0], home) == [] then {} else {groups[0].pattern};
      assert PatternsOf(groups, home) == first + PatternsOf(tail, home) by { SplitFirst(groups, home, first); }
      assert first !! PatternsOf(tail, home);
    }
  }

  lemma SplitFirst(groups: seq<Group>, home: string, first: set<string>)
    requires groups != [] && first == if Others(groups[0], home) == [] then {} else {groups[0].pattern}
    ensures PatternsOf(groups, home) == first + PatternsOf(groups[1..], home)
  {
    forall p | p in PatternsOf(groups[1..], home) ensures p in PatternsOf(groups, home) {
      var i :| 0 <= i < |groups[1..]| && Others(groups[1..][i], home) != [] && groups[1..][i].pattern == p;
      assert groups[i + 1] == groups[1..][i];
    }
    forall p | p in PatternsOf(groups, home) ensures p in first + PatternsOf(groups[1..], home) {
      var i :| 0 <= i < |groups| && Others(groups[i], home) != [] && groups[i].pattern == p;
      if i > 0 { assert groups[1..][i - 1] == groups[i]; }
    }
  }

  lemma {:induction false} BudgetMonotone(perGroup: nat, m: nat, n: nat)
    requires m <= n
    ensures Budget(perGroup, m) <= Budget(perGroup, n)
  {
    if m < n { BudgetMonotone(perGroup, m, n - 1); }
  }

  /** With few enough contributing groups the budget covers them, however many groups there are. */
  lemma ContributingBudget(groups: seq<Group>, home: string)
    requires groups != [] && Contributing(groups, home) <= MAX_PAGES - 1
    ensures 1 + Budget(PerGroup(|groups|), Contributing(groups, home)) <= MAX_PAGES
  {
    BudgetCovers(|groups|);
    ContributingAtMost(groups, home);
    if |groups| <= MAX_PAGES - 1 {
      BudgetMonotone(PerGroup(|groups|), Contributing(groups, home), |groups|);
    } else {
      BudgetIsProduct(1, Contributing(groups, home));
    }
  }

  lemma {:induction false} ContributingAtMost(groups: seq<Group>, home: string)
    ensures Contributing(groups, home) <= |groups|
  {
    if groups != [] { ContributingAtMost(groups[1..], home); }
  }

  lemma PatternCovered(urls: seq<string>, baseUrl: string, pattern: Pattern, u: string) returns (v: string)
    requires |urls| > MAX_PAGES && |PatternsBeside(urls, Rtrim(baseUrl, '/'), pattern)| <= MAX_PAGES - 1
    requires u in urls && Rtrim(u, '/') != Rtrim(baseUrl, '/')
    ensures v in Sample(urls, baseUrl, pattern) && v in urls
    ensures pattern(v) == pattern(u) && Rtrim(v, '/') != Rtrim(baseUrl, '/')
  {
    var home := Rtrim(baseUrl, '/');
    var groups := BySize(Grouped(urls, pattern));
    SortedGroups(urls, pattern);
    var i := GroupFor(groups, urls, pattern, u);
    ContributingPatterns(groups, urls, home, pattern);
    ContributingBudget(groups, home);
    BudgetCovers(|groups|);
    v := FirstPick(groups[i], home, PerGroup(|groups|), u);
    SampledAll(groups, home, PerGroup(|groups|), [home]);
    PickedByAll(groups, home, PerGroup(|groups|), i, v);
    CollectedKept(urls, baseUrl, pattern, v);
  }

  /** The group a URL stands in holds only input URLs of the same pattern. */
  lemma GroupFor(groups: seq<Group>, urls: seq<string>, pattern: Pattern, u: string) returns (i: nat)
    requires GroupsOf(groups, urls, pattern) && u in urls
    ensures i < |groups| && u in groups[i].urls
    ensures forall v :: v in groups[i].urls ==> v in urls && pattern(v) == pattern(u)
  {
    i :| 0 <= i < |groups| && groups[i].pattern == pattern(u);
    assert groups[i].urls == OfPattern(urls, pattern, pattern(u));
  }

  lemma CollectedKept(urls: seq<string>, baseUrl: string, pattern: Pattern, v: string)
    requires |urls| > MAX_PAGES && v in Collected(urls, baseUrl, pattern)
    ensures v in Sample(urls, baseUrl, pattern)
  {
    CollectedMeans(urls, baseUrl, pattern);
  }

  lemma FirstPick(g: Group, home: string, perGroup: nat, u: string) returns (v: string)
    requires 1 <= perGroup <= 3 && u in g.urls && Rtrim(u, '/') != home
    ensures v in Picks(g, home, perGroup) && v in g.urls && Rtrim(v, '/') != home
  {
    PicksMean(g, home, perGroup);
    assert u in Others(g, home);
    v := Picks(g, home, perGroup)[0];
  }

  // ---------------------------------------------------------------- exactly which pages

  /** The budget of a group is the largest number from 1 to 3 for which the pages behind the homepage
      suffice, and 1 when they never do. */
  lemma BudgetLargest(n: nat, b: nat)
    requires 1 <= b <= 3
    ensures 1 <= PerGroup(n) <= 3
    ensures b <= PerGroup(n) <==> b == 1 || b * n <= 24
  {
    BudgetSteps(n);
  }

  lemma BudgetSteps(n: nat)
    ensures 1 <= PerGroup(n) <= 3
    ensures PerGroup(n) >= 2 <==> n <= 12
    ensures PerGroup(n) >= 3 <==> n <= 8
  {
    if n >= 1 {
      var even := 24 / n;
      assert 24 == n * even + 24 % n;
      if even >= 2 { MulMonotone(n, 2, even); } else { MulMonotone(n, even, 1); }
      if even >= 3 { MulMonotone(n, 3, even); } else { MulMonotone(n, even, 2); }
    }
  }

  /** The pages of a pattern besides the homepage, in input order. */
  function OtherPages(urls: seq<string>, home: string, pattern: Pattern, p: string): seq<string> {
    Filter(urls, (u: string) => pattern(u) == p && Rtrim(u, '/') != home)
  }

  /** Of a pattern's other pages the first, the middle one of at least three if n patterns leave two
      pages for each, and the last one of at least six if they leave three. */
  ghost predicate Chosen(others: seq<string>, u: string, n: nat) {
    && others != []
    && (u == others[0] || (|others| >= 3 && 2 * n <= 24 && u == others[|others| / 2])
        || (|others| >= 6 && 3 * n <= 24 && u == others[|others| - 1]))
  }

  lemma {:induction false} OthersAre(urls: seq<string>, home: string, pattern: Pattern, g: Group)
    requires g.urls == OfPattern(urls, pattern, g.pattern)
    ensures Others(g, home) == OtherPages(urls, home, pattern, g.pattern)
  {
    FilterBoth(urls, (u: string) => pattern(u) == g.pattern, (u: string) => Rtrim(u, '/') != home,
               (u: string) => pattern(u) == g.pattern && Rtrim(u, '/') != home);
  }

  lemma {:induction false} FilterBoth(xs: seq<string>, f: string -> bool, g: string -> bool, both: string -> bool)
    requires forall x :: both(x) <==> f(x) && g(x)
    ensures Filter(Filter(xs, f), g) == Filter(xs, both)
  {
    if xs != [] {
      FilterBoth(xs[1..], f, g, both);
      var rest := Filter(xs[1..], f);
      assert ([xs[0]] + rest)[1..] == rest;
      assert [] + rest == rest && [] + Filter(rest, g) == Filter(rest, g);
    }
  }

  lemma PicksChosen(g: Group, home: string, n: nat, u: string)
    ensures u in Picks(g, home, PerGroup(n)) <==> Chosen(Others(g, home), u, n)
  {
    BudgetLargest(n, 2);
    BudgetLargest(n, 3);
  }

  function Patterns(urls: seq<string>, pattern: Pattern): set<string> { set u | u in urls :: pattern(u) }

  /** There are as many groups as patterns. */
  lemma GroupCount(groups: seq<Group>, urls: seq<string>, pattern: Pattern)
    requires GroupsOf(groups, urls, pattern)
    requires forall i :: 0 <= i < |groups| ==> groups[i].urls != []
    ensures |groups| == |Patterns(urls, pattern)|
  {
    var names := PatternNames(groups);
    DistinctSetSize(names);
    forall i | 0 <= i < |groups| ensures groups[i].pattern in Patterns(urls, pattern) {
      GroupHasPattern(groups[i], urls, pattern);
    }
    forall u | u in urls ensures pattern(u) in names { PatternHasGroup(groups, urls, pattern, u); }
    assert (set p | p in names) == Patterns(urls, pattern);
  }

  lemma GroupHasPattern(g: Group, urls: seq<string>, pattern: Pattern)
    requires g.urls == OfPattern(urls, pattern, g.pattern) && g.urls != []
    ensures g.pattern in Patterns(urls, pattern)
  {
    assert g.urls[0] in OfPattern(urls, pattern, g.pattern);
  }

  lemma PatternHasGroup(groups: seq<Group>, urls: seq<string>, pattern: Pattern, u: string)
    requires GroupsOf(groups, urls, pattern) && u in urls
    ensures pattern(u) in PatternNames(groups)
  {
    var i :| 0 <= i < |groups| && groups[i].pattern == pattern(u);
    assert PatternNames(groups)[i] == pattern(u);
  }

  lemma {:induction false} GroupsFilled(urls: seq<string>, pattern: Pattern)
    ensures forall i :: 0 <= i < |Grouped(urls, pattern)| ==> Grouped(urls, pattern)[i].urls != []
  {
    if urls != [] { GroupsFilled(urls[..|urls| - 1], pattern); }
  }

  /** The groups in the order the sample visits them, and their number. */
  lemma VisitedGroups(urls: seq<string>, pattern: Pattern)
    ensures GroupsOf(BySize(Grouped(urls, pattern)), urls, pattern)
    ensures |BySize(Grouped(urls, pattern))| == |Patterns(urls, pattern)|
  {
    var g := Grouped(urls, pattern);
    SortedGroups(urls, pattern);
    GroupedMeans(urls, pattern);
    GroupsFilled(urls, pattern);
    GroupCount(g, urls, pattern);
  }

  /** When at most 24 patterns have a page besides the homepage, the sample holds exactly the homepage
      and the chosen pages of every pattern. */
  lemma FewPatterns(urls: seq<string>, baseUrl: string, pattern: Pattern, u: string)
    requires |urls| > 25 && |PatternsBeside(urls, Rtrim(baseUrl, '/'), pattern)| <= 24
    ensures
      var home, n := Rtrim(baseUrl, '/'), |Patterns(urls, pattern)|;
      u in Sample(urls, baseUrl, pattern) <==> u == home || Chosen(OtherPages(urls, home, pattern, pattern(u)), u, n)
  {
    var home, n := Rtrim(baseUrl, '/'), |Patterns(urls, pattern)|;
    var groups := BySize(Grouped(urls, pattern));
    FewCollected(urls, baseUrl, pattern);
    CollectedMeans(urls, baseUrl, pattern);
    assert u in Sample(urls, baseUrl, pattern) <==> u in Collected(urls, baseUrl, pattern);
    VisitedGroups(urls, pattern);
    InAllPicks(groups, urls, home, pattern, n, u);
  }

  lemma PickedIsChosen(groups: seq<Group>, urls: seq<string>, home: string, pattern: Pattern, n: nat, u: string)
    requires GroupsOf(groups, urls, pattern) && u in AllPicks(groups, home, PerGroup(n))
    ensures Chosen(OtherPages(urls, home, pattern, pattern(u)), u, n)
  {
    var i := FlattenFind(PicksOf(groups, home, PerGroup(n)), u);
    PicksChosen(groups[i], home, n, u);
    OthersAre(urls, home, pattern, groups[i]);
    assert u in Others(groups[i], home);
    GroupPattern(groups, urls, pattern, i, u);
  }

  lemma ChosenIsPicked(groups: seq<Group>, urls: seq<string>, home: string, pattern: Pattern, n: nat, u: string)
    requires GroupsOf(groups, urls, pattern) && Chosen(OtherPages(urls, home, pattern, pattern(u)), u, n)
    ensures u in AllPicks(groups, home, PerGroup(n))
  {
    assert u in OtherPages(urls, home, pattern, pattern(u));
    var i := GroupFor(groups, urls, pattern, u);
    GroupPattern(groups, urls, pattern, i, u);
    OthersAre(urls, home, pattern, groups[i]);
    PicksChosen(groups[i], home, n, u);
    PickedByAll(groups, home, PerGroup(n), i, u);
  }

  lemma InAllPicks(groups: seq<Group>, urls: seq<string>, home: string, pattern: Pattern, n: nat, u: string)
    requires GroupsOf(groups, urls, pattern)
    ensures u in AllPicks(groups, home, PerGroup(n)) <==> Chosen(OtherPages(urls, home, pattern, pattern(u)), u, n)
  {
    if u in AllPicks(groups, home, PerGroup(n)) { PickedIsChosen(groups, urls, home, pattern, n, u); }
    if Chosen(OtherPages(urls, home, pattern, pattern(u)), u, n) { ChosenIsPicked(groups, urls, home, pattern, n, u); }
  }

  lemma GroupPattern(groups: seq<Group>, urls: seq<string>, pattern: Pattern, i: nat, u: string)
    requires GroupsOf(groups, urls, pattern) && i < |groups| && u in groups[i].urls
    ensures groups[i].pattern == pattern(u)
  {
  }

  /** In that case the sample is collected group by group, in full. */
  lemma FewCollected(urls: seq<string>, baseUrl: string, pattern: Pattern)
    requires |urls| > 25 && |PatternsBeside(urls, Rtrim(baseUrl, '/'), pattern)| <= 24
    ensures
      var home, groups := Rtrim(baseUrl, '/'), BySize(Grouped(urls, pattern));
      Collected(urls, baseUrl, pattern) == [home] + AllPicks(groups, home, PerGroup(|groups|))
  {
    var home, groups := Rtrim(baseUrl, '/'), BySize(Grouped(urls, pattern));
    SortedGroups(urls, pattern);
    ContributingPatterns(groups, urls, home, pattern);
    ContributingBudget(groups, home);
    BudgetCovers(|groups|);
    SampledAll(groups, home, PerGroup(|groups|), [home]);
  }

  /** The groups that have a page besides the homepage. */
  function Ranked(groups: seq<Group>, home: string): seq<Group> { Filter(groups, (g: Group) => Others(g, home) != []) }

  function FirstOther(g: Group, home: string): string { if Others(g, home) == [] then "" else Others(g, home)[0] }

  /** The first other page of each of the first groups. */
  function Leaders(ranked: seq<Group>, home: string, room: nat): seq<string> {
    seq(if |ranked| <= room then |ranked| else room, k requires 0 <= k < |ranked| => FirstOther(ranked[k], home))
  }

  lemma LeadersStep(g: Group, rest: seq<Group>, home: string, room: nat)
    requires room > 0
    ensures Leaders([g] + rest, home, room) == [FirstOther(g, home)] + Leaders(rest, home, room - 1)
  {
  }

  lemma {:induction false} SampledLeaders(groups: seq<Group>, home: string, soFar: seq<string>)
    requires |soFar| <= 25
    ensures Sampled(groups, home, 1, soFar) == soFar + Leaders(Ranked(groups, home), home, 25 - |soFar|)
    decreases |groups|
  {
    if groups == [] || |soFar| >= 25 {
      assert soFar + Leaders(Ranked(groups, home), home, 25 - |soFar|) == soFar;
    } else {
      var g, rest := groups[0], Ranked(groups[1..], home);
      RankedStep(groups, home);
      OnePick(g, home);
      if Others(g, home) == [] {
        assert soFar + [] == soFar;
        SampledLeaders(groups[1..], home, soFar);
      } else {
        SampledLeaders(groups[1..], home, soFar + [FirstOther(g, home)]);
        LeadersStep(g, rest, home, 25 - |soFar|);
        Assoc(soFar, [FirstOther(g, home)], Leaders(rest, home, 24 - |soFar|));
      }
    }
  }

  lemma OnePick(g: Group, home: string)
    ensures Picks(g, home, 1) == if Others(g, home) == [] then [] else [FirstOther(g, home)]
  {
  }

  lemma RankedStep(groups: seq<Group>, home: string)
    requires groups != []
    ensures Ranked(groups, home)
         == if Others(groups[0], home) == [] then Ranked(groups[1..], home)
            else [groups[0]] + Ranked(groups[1..], home)
  {
    assert [] + Ranked(groups[1..], home) == Ranked(groups[1..], home);
  }

  lemma LeadApart(g: Group, rest: seq<Group>, tail: seq<Group>)
    requires DistinctPatterns([g] + tail) && DistinctPatterns(rest) && forall x :: x in rest ==> x in tail
    ensures DistinctPatterns([g] + rest)
  {
    var all := [g] + tail;
    forall i | 0 <= i < |rest| ensures rest[i].pattern != g.pattern {
      assert rest[i] in rest;
      var j :| 0 <= j < |tail| && tail[j] == rest[i];
      assert all[0] == g && all[j + 1] == tail[j];
    }
  }

  lemma {:induction false} RankedDistinct(groups: seq<Group>, home: string)
    requires DistinctPatterns(groups)
    ensures DistinctPatterns(Ranked(groups, home))
  {
    if groups != [] {
      assert groups == [groups[0]] + groups[1..];
      RankedDistinct(groups[1..], home);
      RankedStep(groups, home);
      LeadApart(groups[0], Ranked(groups[1..], home), groups[1..]);
    }
  }

  lemma {:induction false} ContributingRanked(groups: seq<Group>, home: string)
    ensures Contributing(groups, home) == |Ranked(groups, home)|
  {
    if groups != [] {
      ContributingRanked(groups[1..], home);
    }
  }

  /** When more than 24 patterns have a page besides the homepage, the sample is the homepage and the
      first such page of each of the first 24 of them, in the order of the groups. */
  lemma ManyPatterns(urls: seq<string>, baseUrl: string, pattern: Pattern)
    requires |urls| > 25 && |PatternsBeside(urls, Rtrim(baseUrl, '/'), pattern)| > 24
    ensures
      var r, home := Sample(urls, baseUrl, pattern), Rtrim(baseUrl, '/');
      var ranked := Ranked(BySize(Grouped(urls, pattern)), home);
      && |r| == 25 && r[0] == home && |ranked| > 24
      && forall k :: 0 <= k < 24 ==> FirstBeside(OtherPages(urls, home, pattern, ranked[k].pattern), r[k + 1])
  {
    var home, groups := Rtrim(baseUrl, '/'), BySize(Grouped(urls, pattern));
    var all, ranked := Collected(urls, baseUrl, pattern), Ranked(groups, home);
    SortedGroups(urls, pattern);
    ManyCollected(urls, baseUrl, pattern);
    RankedDistinct(groups, home);
    LeadersFirst(groups, urls, home, pattern);
    RtrimOfTrimmed(baseUrl, '/');
    LeadersDistinct(all, ranked, urls, home, pattern);
    UniqueOfDistinct(all);
  }

  /** u is the first page of the list. */
  predicate FirstBeside(others: seq<string>, u: string) { others != [] && u == others[0] }

  lemma LeadersFirst(groups: seq<Group>, urls: seq<string>, home: string, pattern: Pattern)
    requires GroupsOf(groups, urls, pattern)
    ensures
      var ranked := Ranked(groups, home);
      forall k :: 0 <= k < |ranked| && k < 24 ==>
        FirstBeside(OtherPages(urls, home, pattern, ranked[k].pattern), Leaders(ranked, home, 24)[k])
  {
    var ranked := Ranked(groups, home);
    forall k | 0 <= k < |ranked| && k < 24
      ensures FirstBeside(OtherPages(urls, home, pattern, ranked[k].pattern), Leaders(ranked, home, 24)[k])
    {
      RankedOthers(groups, ranked[k], urls, home, pattern);
    }
  }

  lemma ManyCollected(urls: seq<string>, baseUrl: string, pattern: Pattern)
    requires urls != [] && |PatternsBeside(urls, Rtrim(baseUrl, '/'), pattern)| > 24
    ensures
      var home, groups := Rtrim(baseUrl, '/'), BySize(Grouped(urls, pattern));
      var ranked := Ranked(groups, home);
      Collected(urls, baseUrl, pattern) == [home] + Leaders(ranked, home, 24) && |ranked| > 24
  {
    var home, groups := Rtrim(baseUrl, '/'), BySize(Grouped(urls, pattern));
    SortedGroups(urls, pattern);
    ContributingPatterns(groups, urls, home, pattern);
    ContributingRanked(groups, home);
    ContributingAtMost(groups, home);
    BudgetCovers(|groups|);
    SampledLeaders(groups, home, [home]);
  }

  lemma RankedOthers(groups: seq<Group>, g: Group, urls: seq<string>, home: string, pattern: Pattern)
    requires GroupsOf(groups, urls, pattern) && g in Ranked(groups, home)
    ensures FirstBeside(OtherPages(urls, home, pattern, g.pattern), FirstOther(g, home))
  {
    OthersAre(urls, home, pattern, g);
  }

  /** Pages of different patterns besides the homepage are different pages. */
  lemma LeadersDistinct(all: seq<string>, ranked: seq<Group>, urls: seq<string>, home: string, pattern: Pattern)
    requires Rtrim(home, '/') == home && DistinctPatterns(ranked) && 1 <= |all| <= |ranked| + 1 && all[0] == home
    requires forall k :: 0 <= k < |all| - 1 ==>
        FirstBeside(OtherPages(urls, home, pattern, ranked[k].pattern), all[k + 1])
    ensures Distinct(all)
  {
    forall k | 1 <= k < |all| ensures pattern(all[k]) == ranked[k - 1].pattern && Rtrim(all[k], '/') != home {
      assert FirstBeside(OtherPages(urls, home, pattern, ranked[k - 1].pattern), all[k - 1 + 1]);
      assert all[k] in OtherPages(urls, home, pattern, ranked[k - 1].pattern);
    }
    forall i, j | 0 <= i < j < |all| ensures all[i] != all[j] {
      if i > 0 { assert ranked[i - 1].pattern != ranked[j - 1].pattern; }
    }
  }

  /** The groups open in the order in which their patterns first occur in the input. */
  lemma {:induction false} GroupsInOrder(urls: seq<string>, pattern: Pattern)
    ensures PatternNames(Grouped(urls, pattern)) == Unique(NamesOf(urls, pattern))
  {
    if urls != [] {
      var init, last := urls[..|urls| - 1], urls[|urls| - 1];
      assert urls == init + [last];
      GroupsInOrder(init, pattern);
      NamesSnoc(init, last, pattern);
      NamesStep(Grouped(init, pattern), NamesOf(init, pattern), pattern(last), last);
    }
  }

  lemma NamesSnoc(urls: seq<string>, url: string, pattern: Pattern)
    ensures NamesOf(urls + [url], pattern) == NamesOf(urls, pattern) + [pattern(url)]
  {
  }

  lemma NamesStep(groups: seq<Group>, names: seq<string>, p: string, url: string)
    requires PatternNames(groups) == Unique(names)
    ensures PatternNames(Put(groups, p, url)) == Unique(names + [p])
  {
    PutNames(groups, p, url);
    UniqueSnoc(names, p);
    assert p in Unique(names) <==> p in names;
  }

  function PatternNames(groups: seq<Group>): seq<string> {
    seq(|groups|, i requires 0 <= i < |groups| => groups[i].pattern)
  }

  function NamesOf(urls: seq<string>, pattern: Pattern): seq<string> {
    seq(|urls|, i requires 0 <= i < |urls| => pattern(urls[i]))
  }

  lemma PutNames(groups: seq<Group>, p: string, url: string)
    ensures PatternNames(Put(groups, p, url))
         == PatternNames(groups) + if p in PatternNames(groups) then [] else [p]
  {
    var at := Position(groups, p);
    if at < |groups| { assert PatternNames(groups)[at] == p; }
  }
}
