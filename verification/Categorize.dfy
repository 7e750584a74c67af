/** Sorting detected script URLs into protected, suggested and unknown. */
module Categorize {
  import opened Php
  import opened Sequences

  datatype Blocker = Blocker(key: string, name: string, kind: BlockerKind, phrases: seq<string>)

  datatype BlockerKind = Script | Content

  datatype Template = Template(key: string, phrases: seq<string>)

  /** An ordered PHP map from phrases: a repeated phrase keeps its place and takes the new value. */
  datatype Entry<V> = Entry(phrase: string, value: V)

  datatype Installed = Installed(key: string, name: string, kind: BlockerKind)

  datatype ProtectedScript = ProtectedScript(url: string, host: string, blocker: Installed)

  datatype SuggestedScript = SuggestedScript(url: string, host: string, templateKey: string)

  datatype UnknownScript = UnknownScript(url: string, host: string)

  function Put<V>(m: seq<Entry<V>>, phrase: string, value: V): seq<Entry<V>> {
    if m == [] then [Entry(phrase, value)]
    else if m[0].phrase == phrase then [Entry(phrase, value)] + m[1..]
    else [m[0]] + Put(m[1..], phrase, value)
  }

  function PutAll<V>(m: seq<Entry<V>>, phrases: seq<string>, value: V): seq<Entry<V>>
    decreases |phrases|
  {
    if phrases == [] then m else Put(PutAll(m, phrases[..|phrases| - 1], value), phrases[|phrases| - 1], value)
  }

  ghost predicate DistinctPhrases<V>(m: seq<Entry<V>>) {
    forall i, j :: 0 <= i < j < |m| ==> m[i].phrase != m[j].phrase
  }

  ghost predicate HasPhrase<V>(m: seq<Entry<V>>, phrase: string) {
    exists i :: 0 <= i < |m| && m[i].phrase == phrase
  }

  /** Writing a phrase keeps every phrase in its place, gives that phrase the new value, adds it at the
      end if it is new, and changes no other phrase. */
  lemma {:induction false} PutMeans<V>(m: seq<Entry<V>>, phrase: string, value: V)
    requires DistinctPhrases(m)
    ensures |Put(m, phrase, value)| == |m| + if HasPhrase(m, phrase) then 0 else 1
    ensures forall i :: 0 <= i < |m| ==>
        Put(m, phrase, value)[i] == if m[i].phrase == phrase then Entry(phrase, value) else m[i]
    ensures !HasPhrase(m, phrase) ==> Put(m, phrase, value)[|m|] == Entry(phrase, value)
  {
    if m != [] {
      if m[0].phrase == phrase {
        assert HasPhrase(m, phrase);
      } else {
        var tail, rest := m[1..], Put(m[1..], phrase, value);
        PutMeans(tail, phrase, value);
        assert Put(m, phrase, value) == [m[0]] + rest;
        assert HasPhrase(m, phrase) <==> HasPhrase(tail, phrase) by { TailPhrase(m, phrase); }
        forall i | 0 <= i < |m|
          ensures ([m[0]] + rest)[i] == if m[i].phrase == phrase then Entry(phrase, value) else m[i]
        {
          if i > 0 { assert tail[i - 1] == m[i]; }
        }
      }
    }
  }

  lemma TailPhrase<V>(m: seq<Entry<V>>, phrase: string)
    requires m != [] && m[0].phrase != phrase
    ensures HasPhrase(m, phrase) <==> HasPhrase(m[1..], phrase)
  {
    if i :| 0 <= i < |m| && m[i].phrase == phrase { assert m[1..][i - 1].phrase == phrase; }
    if i :| 0 <= i < |m[1..]| && m[1..][i].phrase == phrase { assert m[i + 1].phrase == phrase; }
  }

  lemma PutDistinct<V>(m: seq<Entry<V>>, phrase: string, value: V)
    requires DistinctPhrases(m)
    ensures DistinctPhrases(Put(m, phrase, value))
  {
    PutMeans(m, phrase, value);
  }

  function InstalledPhrases(blockers: seq<Blocker>): seq<Entry<Installed>> {
    if blockers == [] then []
    else
      var b := blockers[|blockers| - 1];
      PutAll(InstalledPhrases(blockers[..|blockers| - 1]), b.phrases, Installed(b.key, b.name, b.kind))
  }

  function TemplatePhrases(templates: seq<Template>): seq<Entry<string>> {
    if templates == [] then []
    else
      var t := templates[|templates| - 1];
      PutAll(TemplatePhrases(templates[..|templates| - 1]), t.phrases, t.key)
  }

  lemma {:induction false} PutAllDistinct<V>(m: seq<Entry<V>>, phrases: seq<string>, value: V)
    requires DistinctPhrases(m)
    ensures DistinctPhrases(PutAll(m, phrases, value))
    decreases |phrases|
  {
    if phrases != [] {
      var init := phrases[..|phrases| - 1];
      PutAllDistinct(m, init, value);
      PutDistinct(PutAll(m, init, value), phrases[|phrases| - 1], value);
    }
  }

  /** However blockers and templates share phrases, a phrase stands in each map at most once. */
  lemma {:induction false} PhrasesDistinct(blockers: seq<Blocker>, templates: seq<Template>)
    ensures DistinctPhrases(InstalledPhrases(blockers))
    ensures DistinctPhrases(TemplatePhrases(templates))
    decreases |blockers| + |templates|
  {
    if blockers != [] {
      var init, b := blockers[..|blockers| - 1], blockers[|blockers| - 1];
      PhrasesDistinct(init, templates);
      PutAllDistinct(InstalledPhrases(init), b.phrases, Installed(b.key, b.name, b.kind));
    } else if templates != [] {
      var init, t := templates[..|templates| - 1], templates[|templates| - 1];
      PhrasesDistinct(blockers, init);
      PutAllDistinct(TemplatePhrases(init), t.phrases, t.key);
    }
  }

  type Matches = (string, string) -> bool

  /** Entry i is the first whose phrase occurs in the URL. */
  ghost predicate FirstHitAt<V>(m: seq<Entry<V>>, url: string, matches: Matches, i: nat) {
    i < |m| && matches(url, m[i].phrase) && forall j :: 0 <= j < i ==> !matches(url, m[j].phrase)
  }

  /** The value of the first phrase that occurs in the URL. */
  function FirstHit<V>(m: seq<Entry<V>>, url: string, matches: Matches): Option<V> {
    if m == [] then None
    else if matches(url, m[0].phrase) then Some(m[0].value)
    else FirstHit(m[1..], url, matches)
  }

  lemma {:induction false} FirstHitMeans<V>(m: seq<Entry<V>>, url: string, matches: Matches) returns (i: nat)
    ensures FirstHit(m, url, matches).None? ==> forall e :: e in m ==> !matches(url, e.phrase)
    ensures FirstHit(m, url, matches).Some? ==>
        FirstHitAt(m, url, matches, i) && FirstHit(m, url, matches).value == m[i].value
  {
    i := 0;
    if m != [] && !matches(url, m[0].phrase) {
      assert m == [m[0]] + m[1..];
      var k := FirstHitMeans(m[1..], url, matches);
      assert forall j :: 0 < j < |m| ==> m[j] == m[1..][j - 1];
      i := k + 1;
    }
  }

  // ---------------------------------------------------------------- classes

  datatype Class = Protected(key: string) | Suggested(templateKey: string) | Unknown(host: string)

  /** What decides a URL's class: the two phrase maps, the containment test, and the host PHP parses. */
  datatype Rules = Rules(installed: seq<Entry<Installed>>, templates: seq<Entry<string>>, matches: Matches,
      hostOf: string -> string)

  function ClassOf(r: Rules, url: string): Class {
    var hit := FirstHit(r.installed, url, r.matches);
    if hit.Some? then Protected(hit.value.key)
    else
      var template := FirstHit(r.templates, url, r.matches);
      if template.Some? then Suggested(template.value) else Unknown(r.hostOf(url))
  }

  predicate Seen(r: Rules, urls: seq<string>, c: Class) {
    exists i :: 0 <= i < |urls| && ClassOf(r, urls[i]) == c
  }

  /** The URLs that are the first of their class, for the classes that `pick` selects. */
  function Firsts(r: Rules, urls: seq<string>, pick: Class -> bool): seq<string> {
    if urls == [] then []
    else
      var init, last := urls[..|urls| - 1], urls[|urls| - 1];
      var c := ClassOf(r, last);
      if pick(c) && !Seen(r, init, c) then Firsts(r, init, pick) + [last] else Firsts(r, init, pick)
  }

  function ProtectedEntry(r: Rules, url: string): ProtectedScript
    requires ClassOf(r, url).Protected?
  {
    ProtectedScript(url, r.hostOf(url), FirstHit(r.installed, url, r.matches).value)
  }

  function SuggestedEntry(r: Rules, url: string): SuggestedScript
    requires ClassOf(r, url).Suggested?
  {
    SuggestedScript(url, r.hostOf(url), FirstHit(r.templates, url, r.matches).value)
  }

  function UnknownEntry(r: Rules, url: string): UnknownScript { UnknownScript(url, r.hostOf(url)) }

  const PICK_PROTECTED := (c: Class) => c.Protected?
  const PICK_SUGGESTED := (c: Class) => c.Suggested?
  const PICK_UNKNOWN := (c: Class) => c.Unknown?

  ghost predicate ListedProtected(r: Rules, urls: seq<string>, list: seq<ProtectedScript>) {
    var f := Firsts(r, urls, PICK_PROTECTED);
    |list| == |f| && forall i :: 0 <= i < |f| ==> ClassOf(r, f[i]).Protected? && list[i] == ProtectedEntry(r, f[i])
  }

  ghost predicate ListedSuggested(r: Rules, urls: seq<string>, list: seq<SuggestedScript>) {
    var f := Firsts(r, urls, PICK_SUGGESTED);
    |list| == |f| && forall i :: 0 <= i < |f| ==> ClassOf(r, f[i]).Suggested? && list[i] == SuggestedEntry(r, f[i])
  }

  ghost predicate ListedUnknown(r: Rules, urls: seq<string>, list: seq<UnknownScript>) {
    var f := Firsts(r, urls, PICK_UNKNOWN);
    |list| == |f| && forall i :: 0 <= i < |f| ==> ClassOf(r, f[i]).Unknown? && list[i] == UnknownEntry(r, f[i])
  }

  /** The lists hold one entry per first URL of a class, in order. */
  ghost predicate Lists(r: Rules, urls: seq<string>, protected: seq<ProtectedScript>,
      suggested: seq<SuggestedScript>, unknown: seq<UnknownScript>) {
    ListedProtected(r, urls, protected) && ListedSuggested(r, urls, suggested) && ListedUnknown(r, urls, unknown)
  }

  // ---------------------------------------------------------------- the loops

  method BuildInstalled(blockers: seq<Blocker>) returns (m: seq<Entry<Installed>>)
    ensures m == InstalledPhrases(blockers)
  {
    m := [];
    for i := 0 to |blockers|
      invariant m == InstalledPhrases(blockers[..i])
    {
      var b := blockers[i];
      assert blockers[..i + 1][..i] == blockers[..i];
      ghost var before := m;
      for j := 0 to |b.phrases|
        invariant m == PutAll(before, b.phrases[..j], Installed(b.key, b.name, b.kind))
      {
        assert b.phrases[..j + 1][..j] == b.phrases[..j];
        m := Put(m, b.phrases[j], Installed(b.key, b.name, b.kind));
      }
      assert b.phrases[..|b.phrases|] == b.phrases;
    }
    assert blockers[..|blockers|] == blockers;
  }

  method BuildTemplates(templates: seq<Template>) returns (m: seq<Entry<string>>)
    ensures m == TemplatePhrases(templates)
  {
    m := [];
    for i := 0 to |templates|
      invariant m == TemplatePhrases(templates[..i])
    {
      var t := templates[i];
      assert templates[..i + 1][..i] == templates[..i];
      ghost var before := m;
      for j := 0 to |t.phrases|
        invariant m == PutAll(before, t.phrases[..j], t.key)
      {
        assert t.phrases[..j + 1][..j] == t.phrases[..j];
        m := Put(m, t.phrases[j], t.key);
      }
      assert t.phrases[..|t.phrases|] == t.phrases;
    }
    assert templates[..|templates|] == templates;
  }

  function ProtectedMark(key: string): string { "protected_" + key }

  function UnknownMark(host: string): string { "unknown_" + host }

  lemma MarksApart(a: string, b: string)
    ensures ProtectedMark(a) != UnknownMark(b)
    ensures ProtectedMark(a) == ProtectedMark(b) <==> a == b
    ensures UnknownMark(a) == UnknownMark(b) <==> a == b
  {
    assert ProtectedMark(a)[0] == 'p' && UnknownMark(b)[0] == 'u';
    assert ProtectedMark(a)[10..] == a && ProtectedMark(b)[10..] == b;
    assert UnknownMark(a)[8..] == a && UnknownMark(b)[8..] == b;
  }

  /** The two seen-maps mark exactly the classes met so far. */
  ghost predicate Marks(r: Rules, urls: seq<string>, seen: set<string>, matched: set<string>) {
    && (forall k :: ProtectedMark(k) in seen <==> Seen(r, urls, Protected(k)))
    && (forall h :: UnknownMark(h) in seen <==> Seen(r, urls, Unknown(h)))
    && (forall k :: k in matched <==> Seen(r, urls, Suggested(k)))
  }

  lemma SeenSnoc(r: Rules, urls: seq<string>, url: string, c: Class)
    ensures Seen(r, urls + [url], c) <==> Seen(r, urls, c) || c == ClassOf(r, url)
  {
    var all := urls + [url];
    if Seen(r, urls, c) {
      var i :| 0 <= i < |urls| && ClassOf(r, urls[i]) == c;
      assert all[i] == urls[i];
    }
    assert all[|urls|] == url;
  }

  lemma MarksStep(r: Rules, urls: seq<string>, url: string, seen: set<string>, matched: set<string>)
    requires Marks(r, urls, seen, matched)
    ensures
      match ClassOf(r, url)
      case Protected(k) => Marks(r, urls + [url], seen + {ProtectedMark(k)}, matched)
      case Suggested(k) => Marks(r, urls + [url], seen, matched + {k})
      case Unknown(h) => Marks(r, urls + [url], seen + {UnknownMark(h)}, matched)
  {
    var all, c := urls + [url], ClassOf(r, url);
    var seen' := match c
      case Protected(k) => seen + {ProtectedMark(k)}
      case Suggested(_) => seen
      case Unknown(h) => seen + {UnknownMark(h)};
    forall k ensures ProtectedMark(k) in seen' <==> Seen(r, all, Protected(k)) {
      SeenSnoc(r, urls, url, Protected(k));
      if c.Protected? { MarksApart(k, c.key); }
      if c.Unknown? { MarksApart(k, c.host); }
    }
    forall h ensures UnknownMark(h) in seen' <==> Seen(r, all, Unknown(h)) {
      SeenSnoc(r, urls, url, Unknown(h));
      if c.Protected? { MarksApart(c.key, h); }
      if c.Unknown? { MarksApart(h, c.host); }
    }
    forall k ensures Seen(r, all, Suggested(k)) <==> Seen(r, urls, Suggested(k)) || c == Suggested(k) {
      SeenSnoc(r, urls, url, Suggested(k));
    }
  }

  lemma FirstsSnoc(r: Rules, urls: seq<string>, url: string, pick: Class -> bool)
    ensures Firsts(r, urls + [url], pick)
         == Firsts(r, urls, pick) + if pick(ClassOf(r, url)) && !Seen(r, urls, ClassOf(r, url)) then [url] else []
  {
    assert (urls + [url])[..|urls|] == urls;
  }

  // One more URL: the list of its class grows by its entry if the class is new; the others stay.

  lemma ProtectedStep(r: Rules, urls: seq<string>, url: string, list: seq<ProtectedScript>)
    requires ListedProtected(r, urls, list)
    ensures
      var c := ClassOf(r, url);
      ListedProtected(r, urls + [url], if c.Protected? && !Seen(r, urls, c) then list + [ProtectedEntry(r, url)]
          else list)
  {
    FirstsSnoc(r, urls, url, PICK_PROTECTED);
  }

  lemma SuggestedStep(r: Rules, urls: seq<string>, url: string, list: seq<SuggestedScript>)
    requires ListedSuggested(r, urls, list)
    ensures
      var c := ClassOf(r, url);
      ListedSuggested(r, urls + [url], if c.Suggested? && !Seen(r, urls, c) then list + [SuggestedEntry(r, url)]
          else list)
  {
    FirstsSnoc(r, urls, url, PICK_SUGGESTED);
  }

  lemma UnknownStep(r: Rules, urls: seq<string>, url: string, list: seq<UnknownScript>)
    requires ListedUnknown(r, urls, list)
    ensures
      var c := ClassOf(r, url);
      ListedUnknown(r, urls + [url], if c.Unknown? && !Seen(r, urls, c) then list + [UnknownEntry(r, url)] else list)
  {
    FirstsSnoc(r, urls, url, PICK_UNKNOWN);
  }

  datatype Progress = Progress(
    protected: seq<ProtectedScript>, suggested: seq<SuggestedScript>, unknown: seq<UnknownScript>,
    seen: set<string>, matched: set<string>)

  ghost predicate Done(r: Rules, urls: seq<string>, p: Progress) {
    Lists(r, urls, p.protected, p.suggested, p.unknown) && Marks(r, urls, p.seen, p.matched)
  }

  /** The body of the loop of `categorize`. */
  method AddUrl(r: Rules, ghost before: seq<string>, url: string, p: Progress) returns (q: Progress)
    requires Done(r, before, p)
    ensures Done(r, before + [url], q)
  {
    q := p;
    MarksStep(r, before, url, p.seen, p.matched);
    ProtectedStep(r, before, url, p.protected);
    SuggestedStep(r, before, url, p.suggested);
    UnknownStep(r, before, url, p.unknown);
    var host := r.hostOf(url);
    var hit := FirstHit(r.installed, url, r.matches);
    if hit.Some? {
      var mark := ProtectedMark(hit.value.key);
      if mark !in p.seen {
        q := q.(protected := p.protected + [ProtectedScript(url, host, hit.value)], seen := p.seen + {mark});
      }
      assert q.seen == p.seen + {mark};
      return;
    }
    var template := FirstHit(r.templates, url, r.matches);
    if template.Some? {
      if template.value !in p.matched {
        q := q.(suggested := p.suggested + [SuggestedScript(url, host, template.value)],
                matched := p.matched + {template.value});
      }
      assert q.matched == p.matched + {template.value};
      return;
    }
    var mark := UnknownMark(host);
    if mark !in p.seen {
      q := q.(unknown := p.unknown + [UnknownScript(url, host)], seen := p.seen + {mark});
    }
    assert q.seen == p.seen + {mark};
  }

  /** `categorize` on URLs with their rules already built */
  method SortUrls(r: Rules, urls: seq<string>)
      returns (protected: seq<ProtectedScript>, suggested: seq<SuggestedScript>, unknown: seq<UnknownScript>)
    ensures Lists(r, urls, protected, suggested, unknown)
  {
    var p := Progress([], [], [], {}, {});
    for i := 0 to |urls|
      invariant Done(r, urls[..i], p)
    {
      assert urls[..i + 1] == urls[..i] + [urls[i]];
      p := AddUrl(r, urls[..i], urls[i], p);
    }
    assert urls[..|urls|] == urls;
    return p.protected, p.suggested, p.unknown;
  }

  method CategorizeScripts(blockers: seq<Blocker>, templates: seq<Template>, urls: seq<string>, matches: Matches,
      hostOf: string -> string)
      returns (protected: seq<ProtectedScript>, suggested: seq<SuggestedScript>, unknown: seq<UnknownScript>)
    ensures Lists(RulesFor(blockers, templates, matches, hostOf), urls, protected, suggested, unknown)
  {
    var installed := BuildInstalled(blockers);
    var phrases := BuildTemplates(templates);
    protected, suggested, unknown := SortUrls(Rules(installed, phrases, matches, hostOf), urls);
  }

  // ---------------------------------------------------------------- what the lists say

  /** urls[k] is the first URL of its class. */
  predicate FirstOfClass(r: Rules, urls: seq<string>, k: nat)
    requires k < |urls|
  {
    forall j :: 0 <= j < k ==> ClassOf(r, urls[j]) != ClassOf(r, urls[k])
  }

  ghost predicate IsFirst(r: Rules, urls: seq<string>, u: string) {
    exists k :: 0 <= k < |urls| && urls[k] == u && FirstOfClass(r, urls, k)
  }

  lemma FirstStays(r: Rules, init: seq<string>, last: string, u: string)
    requires IsFirst(r, init, u)
    ensures IsFirst(r, init + [last], u)
  {
    var all := init + [last];
    var k :| 0 <= k < |init| && init[k] == u && FirstOfClass(r, init, k);
    assert all[k] == u && forall j :: 0 <= j < k ==> all[j] == init[j];
    assert FirstOfClass(r, all, k);
  }

  lemma LastIsFirst(r: Rules, init: seq<string>, last: string)
    requires !Seen(r, init, ClassOf(r, last))
    ensures IsFirst(r, init + [last], last)
  {
    var all := init + [last];
    forall j | 0 <= j < |init| ensures ClassOf(r, all[j]) != ClassOf(r, last) { assert all[j] == init[j]; }
    assert all[|init|] == last && FirstOfClass(r, all, |init|);
  }

  lemma {:induction false} FirstsAreFirst(r: Rules, urls: seq<string>, pick: Class -> bool)
    ensures forall u :: u in Firsts(r, urls, pick) ==> u in urls && pick(ClassOf(r, u)) && IsFirst(r, urls, u)
  {
    if urls != [] {
      var init, last := urls[..|urls| - 1], urls[|urls| - 1];
      assert urls == init + [last];
      FirstsAreFirst(r, init, pick);
      forall u | u in Firsts(r, urls, pick) ensures IsFirst(r, urls, u) {
        if u in Firsts(r, init, pick) {
          FirstStays(r, init, last, u);
        } else {
          LastIsFirst(r, init, last);
        }
      }
    }
  }

  lemma {:induction false} FirstsApart(r: Rules, urls: seq<string>, pick: Class -> bool, i: nat, j: nat)
    requires i < j < |Firsts(r, urls, pick)|
    ensures ClassOf(r, Firsts(r, urls, pick)[i]) != ClassOf(r, Firsts(r, urls, pick)[j])
  {
    var init := urls[..|urls| - 1];
    var before := Firsts(r, init, pick);
    if j < |before| {
      FirstsApart(r, init, pick, i, j);
    } else {
      FirstsAreFirst(r, init, pick);
      assert before[i] in before;
    }
  }

  lemma {:induction false} FirstsCover(r: Rules, urls: seq<string>, pick: Class -> bool, k: nat) returns (i: nat)
    requires k < |urls| && FirstOfClass(r, urls, k) && pick(ClassOf(r, urls[k]))
    ensures i < |Firsts(r, urls, pick)| && Firsts(r, urls, pick)[i] == urls[k]
  {
    var init := urls[..|urls| - 1];
    if k < |init| {
      assert FirstOfClass(r, init, k) by { assert forall j :: 0 <= j < k ==> init[j] == urls[j]; }
      i := FirstsCover(r, init, pick, k);
    } else {
      i := |Firsts(r, init, pick)|;
    }
  }

  /** A protected entry stands for the class of its URL, an input URL and the first of its class; no
      blocker key repeats. */
  lemma ProtectedMeans(r: Rules, urls: seq<string>, list: seq<ProtectedScript>, i: nat)
    requires ListedProtected(r, urls, list) && i < |list|
    ensures ClassOf(r, list[i].url) == Protected(list[i].blocker.key) && IsFirst(r, urls, list[i].url)
    ensures forall j :: i < j < |list| ==> list[j].blocker.key != list[i].blocker.key
  {
    FirstsAreFirst(r, urls, PICK_PROTECTED);
    assert Firsts(r, urls, PICK_PROTECTED)[i] in Firsts(r, urls, PICK_PROTECTED);
    forall j | i < j < |list| ensures list[j].blocker.key != list[i].blocker.key
        { FirstsApart(r, urls, PICK_PROTECTED, i, j); }
  }

  /** The same for suggestions by template key; none of their URLs contains an installed phrase. */
  lemma SuggestedMeans(r: Rules, urls: seq<string>, list: seq<SuggestedScript>, i: nat)
    requires ListedSuggested(r, urls, list) && i < |list|
    ensures ClassOf(r, list[i].url) == Suggested(list[i].templateKey) && IsFirst(r, urls, list[i].url)
    ensures forall j :: i < j < |list| ==> list[j].templateKey != list[i].templateKey
    ensures forall e :: e in r.installed ==> !r.matches(list[i].url, e.phrase)
  {
    FirstsAreFirst(r, urls, PICK_SUGGESTED);
    var _ := FirstHitMeans(r.installed, list[i].url, r.matches);
    assert Firsts(r, urls, PICK_SUGGESTED)[i] in Firsts(r, urls, PICK_SUGGESTED);
    forall j | i < j < |list| ensures list[j].templateKey != list[i].templateKey
        { FirstsApart(r, urls, PICK_SUGGESTED, i, j); }
  }

  /** The same for unknown scripts by host; none of their URLs contains an installed or a template
      phrase. */
  lemma UnknownMeans(r: Rules, urls: seq<string>, list: seq<UnknownScript>, i: nat)
    requires ListedUnknown(r, urls, list) && i < |list|
    ensures ClassOf(r, list[i].url) == Unknown(list[i].host) && IsFirst(r, urls, list[i].url)
    ensures forall j :: i < j < |list| ==> list[j].host != list[i].host
    ensures forall e :: e in r.installed ==> !r.matches(list[i].url, e.phrase)
    ensures forall e :: e in r.templates ==> !r.matches(list[i].url, e.phrase)
  {
    FirstsAreFirst(r, urls, PICK_UNKNOWN);
    var _ := FirstHitMeans(r.installed, list[i].url, r.matches);
    var _ := FirstHitMeans(r.templates, list[i].url, r.matches);
    assert Firsts(r, urls, PICK_UNKNOWN)[i] in Firsts(r, urls, PICK_UNKNOWN);
    forall j | i < j < |list| ensures list[j].host != list[i].host { FirstsApart(r, urls, PICK_UNKNOWN, i, j); }
  }

  /** The first URL of a URL's class. */
  lemma {:induction false} FirstOf(r: Rules, urls: seq<string>, k: nat) returns (j: nat)
    requires k < |urls|
    ensures j <= k && ClassOf(r, urls[j]) == ClassOf(r, urls[k]) && FirstOfClass(r, urls, j)
  {
    if FirstOfClass(r, urls, k) {
      j := k;
    } else {
      var i :| 0 <= i < k && ClassOf(r, urls[i]) == ClassOf(r, urls[k]);
      j := FirstOf(r, urls, i);
    }
  }

  ghost predicate OnlyProtected(list: seq<ProtectedScript>, key: string, i: nat) {
    && i < |list| && list[i].blocker.key == key
    && forall x :: 0 <= x < |list| && list[x].blocker.key == key ==> x == i
  }

  ghost predicate OnlySuggested(list: seq<SuggestedScript>, key: string, i: nat) {
    i < |list| && list[i].templateKey == key && forall x :: 0 <= x < |list| && list[x].templateKey == key ==> x == i
  }

  ghost predicate OnlyUnknown(list: seq<UnknownScript>, host: string, i: nat) {
    i < |list| && list[i].host == host && forall x :: 0 <= x < |list| && list[x].host == host ==> x == i
  }

  lemma ProtectedOnce(r: Rules, urls: seq<string>, list: seq<ProtectedScript>, j: nat, key: string) returns (i: nat)
    requires ListedProtected(r, urls, list)
    requires j < |urls| && FirstOfClass(r, urls, j) && ClassOf(r, urls[j]) == Protected(key)
    ensures OnlyProtected(list, key, i) && list[i].url == urls[j]
  {
    i := FirstsCover(r, urls, PICK_PROTECTED, j);
    forall x | 0 <= x < |list| && list[x].blocker.key == key ensures x == i {
      ProtectedMeans(r, urls, list, x);
      ProtectedMeans(r, urls, list, i);
    }
  }

  lemma SuggestedOnce(r: Rules, urls: seq<string>, list: seq<SuggestedScript>, j: nat, key: string) returns (i: nat)
    requires ListedSuggested(r, urls, list)
    requires j < |urls| && FirstOfClass(r, urls, j) && ClassOf(r, urls[j]) == Suggested(key)
    ensures OnlySuggested(list, key, i) && list[i].url == urls[j]
  {
    i := FirstsCover(r, urls, PICK_SUGGESTED, j);
    forall x | 0 <= x < |list| && list[x].templateKey == key ensures x == i {
      SuggestedMeans(r, urls, list, x);
      SuggestedMeans(r, urls, list, i);
    }
  }

  lemma UnknownOnce(r: Rules, urls: seq<string>, list: seq<UnknownScript>, j: nat, host: string) returns (i: nat)
    requires ListedUnknown(r, urls, list)
    requires j < |urls| && FirstOfClass(r, urls, j) && ClassOf(r, urls[j]) == Unknown(host)
    ensures OnlyUnknown(list, host, i) && list[i].url == urls[j]
  {
    i := FirstsCover(r, urls, PICK_UNKNOWN, j);
    forall x | 0 <= x < |list| && list[x].host == host ensures x == i {
      UnknownMeans(r, urls, list, x);
      UnknownMeans(r, urls, list, i);
    }
  }

  /** Every URL, repeated ones included, has exactly one entry that stands for its class: the only one
      with its blocker key, template key or host, and it carries the first input URL of that class. */
  lemma EveryUrlRepresented(r: Rules, urls: seq<string>, protected: seq<ProtectedScript>,
                            suggested: seq<SuggestedScript>, unknown: seq<UnknownScript>, k: nat)
      returns (j: nat, i: nat)
    requires Lists(r, urls, protected, suggested, unknown) && k < |urls|
    ensures j <= k && ClassOf(r, urls[j]) == ClassOf(r, urls[k]) && FirstOfClass(r, urls, j)
    ensures
      match ClassOf(r, urls[k])
      case Protected(key) => OnlyProtected(protected, key, i) && protected[i].url == urls[j]
      case Suggested(key) => OnlySuggested(suggested, key, i) && suggested[i].url == urls[j]
      case Unknown(host) => OnlyUnknown(unknown, host, i) && unknown[i].url == urls[j]
  {
    j := FirstOf(r, urls, k);
    match ClassOf(r, urls[k])
    case Protected(key) => i := ProtectedOnce(r, urls, protected, j, key);
    case Suggested(key) => i := SuggestedOnce(r, urls, suggested, j, key);
    case Unknown(host) => i := UnknownOnce(r, urls, unknown, j, host);
  }

  /** The three lists together are no longer than the input. */
  lemma {:induction false} NoLongerThanInput(r: Rules, urls: seq<string>)
    ensures |Firsts(r, urls, PICK_PROTECTED)| + |Firsts(r, urls, PICK_SUGGESTED)|
        + |Firsts(r, urls, PICK_UNKNOWN)| <= |urls|
  {
    if urls != [] {
      NoLongerThanInput(r, urls[..|urls| - 1]);
    }
  }

  // ---------------------------------------------------------------- what the two maps hold

  function PhrasesOf<V>(m: seq<Entry<V>>): seq<string> { seq(|m|, i requires 0 <= i < |m| => m[i].phrase) }

  lemma {:induction false} PutPhrases<V>(m: seq<Entry<V>>, phrase: string, value: V)
    ensures PhrasesOf(Put(m, phrase, value)) == PhrasesOf(m) + if phrase in PhrasesOf(m) then [] else [phrase]
  {
    if m != [] {
      assert PhrasesOf(m) == [m[0].phrase] + PhrasesOf(m[1..]);
      if m[0].phrase == phrase {
        assert PhrasesOf(Put(m, phrase, value)) == PhrasesOf(m);
      } else {
        PutPhrases(m[1..], phrase, value);
        assert PhrasesOf(Put(m, phrase, value)) == [m[0].phrase] + PhrasesOf(Put(m[1..], phrase, value));
      }
    }
  }

  lemma PutEntries<V>(m: seq<Entry<V>>, phrase: string, value: V, e: Entry<V>)
    requires DistinctPhrases(m)
    ensures e in Put(m, phrase, value) <==> if e.phrase == phrase then e.value == value else e in m
  {
    var u := Put(m, phrase, value);
    PutMeans(m, phrase, value);
    if e.phrase == phrase {
      assert HasPhrase(m, phrase) ==> exists i :: 0 <= i < |m| && u[i] == Entry(phrase, value);
      assert Entry(phrase, value) in u;
    } else {
      assert forall i :: 0 <= i < |m| && m[i] == e ==> u[i] == e;
    }
  }

  lemma {:induction false} PutAllPhrases<V>(m: seq<Entry<V>>, phrases: seq<string>, value: V, mentioned: seq<string>)
    requires PhrasesOf(m) == Unique(mentioned)
    ensures PhrasesOf(PutAll(m, phrases, value)) == Unique(mentioned + phrases)
    decreases |phrases|
  {
    if phrases == [] {
      assert mentioned + phrases == mentioned;
    } else {
      var init, last := phrases[..|phrases| - 1], phrases[|phrases| - 1];
      assert mentioned + phrases == mentioned + init + [last];
      PutAllPhrases(m, init, value, mentioned);
      PutMentioned(PutAll(m, init, value), last, value, mentioned + init);
    }
  }

  lemma PutMentioned<V>(m: seq<Entry<V>>, phrase: string, value: V, mentioned: seq<string>)
    requires PhrasesOf(m) == Unique(mentioned)
    ensures PhrasesOf(Put(m, phrase, value)) == Unique(mentioned + [phrase])
  {
    PutPhrases(m, phrase, value);
    UniqueSnoc(mentioned, phrase);
    assert phrase in Unique(mentioned) <==> phrase in mentioned;
  }

  lemma {:induction false} PutAllEntries<V>(m: seq<Entry<V>>, phrases: seq<string>, value: V, e: Entry<V>)
    requires DistinctPhrases(m)
    ensures e in PutAll(m, phrases, value) <==> if e.phrase in phrases then e.value == value else e in m
    decreases |phrases|
  {
    if phrases != [] {
      var init, last := phrases[..|phrases| - 1], phrases[|phrases| - 1];
      assert phrases == init + [last];
      PutAllEntries(m, init, value, e);
      PutAllDistinct(m, init, value);
      PutEntries(PutAll(m, init, value), last, value, e);
    }
  }

  function BlockerPhrases(blockers: seq<Blocker>): seq<seq<string>> {
    seq(|blockers|, i requires 0 <= i < |blockers| => blockers[i].phrases)
  }

  function PhrasesOfTemplates(templates: seq<Template>): seq<seq<string>> {
    seq(|templates|, i requires 0 <= i < |templates| => templates[i].phrases)
  }

  /** List k is the last to hold the phrase. */
  predicate LastToList(lists: seq<seq<string>>, k: nat, phrase: string) {
    k < |lists| && phrase in lists[k] && forall j :: k < j < |lists| ==> phrase !in lists[j]
  }

  lemma {:induction false} LastListed(lists: seq<seq<string>>, i: nat, phrase: string) returns (k: nat)
    requires i < |lists| && phrase in lists[i]
    ensures LastToList(lists, k, phrase)
    decreases |lists| - i
  {
    if j :| i < j < |lists| && phrase in lists[j] {
      k := LastListed(lists, j, phrase);
    } else {
      k := i;
    }
  }

  lemma LastOfSnoc(lists: seq<seq<string>>, last: seq<string>, k: nat, phrase: string)
    ensures LastToList(lists + [last], k, phrase)
       <==> if phrase in last then k == |lists| else LastToList(lists, k, phrase)
  {
    var all := lists + [last];
    assert all[|lists|] == last && forall j :: 0 <= j < |lists| ==> all[j] == lists[j];
  }

  lemma FlattenLast(lists: seq<seq<string>>, last: seq<string>)
    ensures Flatten(lists + [last]) == Flatten(lists) + last
  {
    FlattenSnoc(lists + [last]);
    assert (lists + [last])[..|lists|] == lists;
  }

  /** The installed phrases stand in the order in which the blockers first mention them. */
  lemma {:induction false} InstalledInOrder(blockers: seq<Blocker>)
    ensures PhrasesOf(InstalledPhrases(blockers)) == Unique(Flatten(BlockerPhrases(blockers)))
  {
    if blockers != [] {
      var init, b := blockers[..|blockers| - 1], blockers[|blockers| - 1];
      InstalledInOrder(init);
      PutAllPhrases(InstalledPhrases(init), b.phrases, Installed(b.key, b.name, b.kind), Flatten(BlockerPhrases(init)));
      assert BlockerPhrases(blockers) == BlockerPhrases(init) + [b.phrases];
      FlattenLast(BlockerPhrases(init), b.phrases);
    }
  }

  lemma {:induction false} TemplatesInOrder(templates: seq<Template>)
    ensures PhrasesOf(TemplatePhrases(templates)) == Unique(Flatten(PhrasesOfTemplates(templates)))
  {
    if templates != [] {
      var init, t := templates[..|templates| - 1], templates[|templates| - 1];
      TemplatesInOrder(init);
      PutAllPhrases(TemplatePhrases(init), t.phrases, t.key, Flatten(PhrasesOfTemplates(init)));
      assert PhrasesOfTemplates(templates) == PhrasesOfTemplates(init) + [t.phrases];
      FlattenLast(PhrasesOfTemplates(init), t.phrases);
    }
  }

  /** Blocker k is the last to list the entry's phrase, and the entry carries its key, name and kind. */
  predicate EntryOfBlocker(blockers: seq<Blocker>, k: nat, e: Entry<Installed>) {
    && LastToList(BlockerPhrases(blockers), k, e.phrase)
    && e.value.key == blockers[k].key && e.value.name == blockers[k].name && e.value.kind == blockers[k].kind
  }

  predicate EntryOfTemplate(templates: seq<Template>, k: nat, e: Entry<string>) {
    LastToList(PhrasesOfTemplates(templates), k, e.phrase) && e.value == templates[k].key
  }

  lemma BlockerSnoc(blockers: seq<Blocker>, b: Blocker, k: nat, e: Entry<Installed>)
    ensures EntryOfBlocker(blockers + [b], k, e)
       <==> if e.phrase in b.phrases then k == |blockers| && e.value == Installed(b.key, b.name, b.kind)
            else EntryOfBlocker(blockers, k, e)
  {
    assert BlockerPhrases(blockers + [b]) == BlockerPhrases(blockers) + [b.phrases];
    LastOfSnoc(BlockerPhrases(blockers), b.phrases, k, e.phrase);
  }

  lemma TemplateSnoc(templates: seq<Template>, t: Template, k: nat, e: Entry<string>)
    ensures EntryOfTemplate(templates + [t], k, e)
       <==> if e.phrase in t.phrases then k == |templates| && e.value == t.key else EntryOfTemplate(templates, k, e)
  {
    assert PhrasesOfTemplates(templates + [t]) == PhrasesOfTemplates(templates) + [t.phrases];
    LastOfSnoc(PhrasesOfTemplates(templates), t.phrases, k, e.phrase);
  }

  /** The installed map holds exactly the blockers' phrases, each with the key, name and kind of the last
      blocker that lists it. */
  lemma {:induction false} InstalledMeans(blockers: seq<Blocker>, e: Entry<Installed>)
    ensures e in InstalledPhrases(blockers) <==> exists k: nat :: EntryOfBlocker(blockers, k, e)
  {
    if blockers != [] {
      var init, b := blockers[..|blockers| - 1], blockers[|blockers| - 1];
      assert blockers == init + [b];
      InstalledMeans(init, e);
      PhrasesDistinct(init, []);
      PutAllEntries(InstalledPhrases(init), b.phrases, Installed(b.key, b.name, b.kind), e);
      forall k: nat
        ensures EntryOfBlocker(blockers, k, e)
           <==> if e.phrase in b.phrases then k == |init| && e.value == Installed(b.key, b.name, b.kind)
                else EntryOfBlocker(init, k, e)
      {
        BlockerSnoc(init, b, k, e);
      }
      if e.phrase in b.phrases {
        assert EntryOfBlocker(blockers, |init|, e) <==> e in InstalledPhrases(blockers);
      } else if k: nat :| EntryOfBlocker(init, k, e) {
        assert EntryOfBlocker(blockers, k, e);
      }
    }
  }

  lemma {:induction false} TemplatesMean(templates: seq<Template>, e: Entry<string>)
    ensures e in TemplatePhrases(templates) <==> exists k: nat :: EntryOfTemplate(templates, k, e)
  {
    if templates != [] {
      var init, t := templates[..|templates| - 1], templates[|templates| - 1];
      assert templates == init + [t];
      TemplatesMean(init, e);
      PhrasesDistinct([], init);
      PutAllEntries(TemplatePhrases(init), t.phrases, t.key, e);
      forall k: nat
        ensures EntryOfTemplate(templates, k, e)
           <==> if e.phrase in t.phrases then k == |init| && e.value == t.key else EntryOfTemplate(init, k, e)
      {
        TemplateSnoc(init, t, k, e);
      }
      if e.phrase in t.phrases {
        assert EntryOfTemplate(templates, |init|, e) <==> e in TemplatePhrases(templates);
      } else if k: nat :| EntryOfTemplate(init, k, e) {
        assert EntryOfTemplate(templates, k, e);
      }
    }
  }

  /** Some blocker lists a phrase that the URL contains. */
  ghost predicate Blocked(blockers: seq<Blocker>, url: string, matches: Matches) {
    exists b, phrase :: b in blockers && phrase in b.phrases && matches(url, phrase)
  }

  ghost predicate Templated(templates: seq<Template>, url: string, matches: Matches) {
    exists t, phrase :: t in templates && phrase in t.phrases && matches(url, phrase)
  }

  lemma BlockedIff(blockers: seq<Blocker>, url: string, matches: Matches)
    ensures Blocked(blockers, url, matches) <==> FirstHit(InstalledPhrases(blockers), url, matches).Some?
  {
    var m, lists := InstalledPhrases(blockers), BlockerPhrases(blockers);
    var i := FirstHitMeans(m, url, matches);
    if FirstHit(m, url, matches).Some? {
      InstalledMeans(blockers, m[i]);
      var k: nat :| EntryOfBlocker(blockers, k, m[i]);
      assert blockers[k] in blockers && lists[k] == blockers[k].phrases;
    }
    if Blocked(blockers, url, matches) {
      var b, phrase :| b in blockers && phrase in b.phrases && matches(url, phrase);
      var j :| 0 <= j < |blockers| && blockers[j] == b;
      assert lists[j] == b.phrases;
      var k := LastListed(lists, j, phrase);
      var e := Entry(phrase, Installed(blockers[k].key, blockers[k].name, blockers[k].kind));
      assert EntryOfBlocker(blockers, k, e);
      InstalledMeans(blockers, e);
    }
  }

  lemma TemplatedIff(templates: seq<Template>, url: string, matches: Matches)
    ensures Templated(templates, url, matches) <==> FirstHit(TemplatePhrases(templates), url, matches).Some?
  {
    var m, lists := TemplatePhrases(templates), PhrasesOfTemplates(templates);
    var i := FirstHitMeans(m, url, matches);
    if FirstHit(m, url, matches).Some? {
      TemplatesMean(templates, m[i]);
      var k: nat :| EntryOfTemplate(templates, k, m[i]);
      assert templates[k] in templates && lists[k] == templates[k].phrases;
    }
    if Templated(templates, url, matches) {
      var t, phrase :| t in templates && phrase in t.phrases && matches(url, phrase);
      var j :| 0 <= j < |templates| && templates[j] == t;
      assert lists[j] == t.phrases;
      var k := LastListed(lists, j, phrase);
      var e := Entry(phrase, templates[k].key);
      assert EntryOfTemplate(templates, k, e);
      TemplatesMean(templates, e);
    }
  }

  /** `phrase`, listed last by number k, is the first of all listed phrases, in the order of their first
      mention, that the URL contains. */
  ghost predicate Decides(lists: seq<seq<string>>, k: nat, phrase: string, url: string, matches: Matches) {
    && LastToList(lists, k, phrase)
    && exists i: nat :: FirstMatch(Unique(Flatten(lists)), i, phrase, url, matches)
  }

  ghost predicate FirstMatch(phrases: seq<string>, i: nat, phrase: string, url: string, matches: Matches) {
    && i < |phrases| && phrases[i] == phrase && matches(url, phrase)
    && forall j :: 0 <= j < i ==> !matches(url, phrases[j])
  }

  /** The blocker and the template that claim a URL. */
  lemma HitOfBlocker(blockers: seq<Blocker>, url: string, matches: Matches) returns (k: nat, phrase: string)
    requires FirstHit(InstalledPhrases(blockers), url, matches).Some?
    ensures Decides(BlockerPhrases(blockers), k, phrase, url, matches)
    ensures FirstHit(InstalledPhrases(blockers), url, matches).value
         == Installed(blockers[k].key, blockers[k].name, blockers[k].kind)
  {
    var m := InstalledPhrases(blockers);
    var i := FirstHitMeans(m, url, matches);
    InstalledMeans(blockers, m[i]);
    k :| EntryOfBlocker(blockers, k, m[i]);
    phrase := m[i].phrase;
    InstalledInOrder(blockers);
    assert FirstMatch(PhrasesOf(m), i, phrase, url, matches);
  }

  lemma HitOfTemplate(templates: seq<Template>, url: string, matches: Matches) returns (k: nat, phrase: string)
    requires FirstHit(TemplatePhrases(templates), url, matches).Some?
    ensures Decides(PhrasesOfTemplates(templates), k, phrase, url, matches)
    ensures FirstHit(TemplatePhrases(templates), url, matches).value == templates[k].key
  {
    var m := TemplatePhrases(templates);
    var i := FirstHitMeans(m, url, matches);
    TemplatesMean(templates, m[i]);
    k :| EntryOfTemplate(templates, k, m[i]);
    phrase := m[i].phrase;
    TemplatesInOrder(templates);
    assert FirstMatch(PhrasesOf(m), i, phrase, url, matches);
  }

  function RulesFor(blockers: seq<Blocker>, templates: seq<Template>, matches: Matches, hostOf: string -> string): Rules
  {
    Rules(InstalledPhrases(blockers), TemplatePhrases(templates), matches, hostOf)
  }

  /** About the lists of `categorize` itself: a protected URL contains a phrase of an installed blocker,
      and the entry names the one that decides; a suggested URL contains no blocker's phrase but a
      template's, and an unknown one neither. */
  lemma ProtectedByBlocker(blockers: seq<Blocker>, templates: seq<Template>, urls: seq<string>, matches: Matches,
                           hostOf: string -> string, list: seq<ProtectedScript>, i: nat)
      returns (k: nat, phrase: string)
    requires ListedProtected(RulesFor(blockers, templates, matches, hostOf), urls, list) && i < |list|
    ensures list[i].url in urls && list[i].host == hostOf(list[i].url)
    ensures Blocked(blockers, list[i].url, matches)
    ensures Decides(BlockerPhrases(blockers), k, phrase, list[i].url, matches)
    ensures list[i].blocker == Installed(blockers[k].key, blockers[k].name, blockers[k].kind)
  {
    var r := RulesFor(blockers, templates, matches, hostOf);
    FirstsAreFirst(r, urls, PICK_PROTECTED);
    var f := Firsts(r, urls, PICK_PROTECTED);
    assert f[i] in f;
    BlockedIff(blockers, list[i].url, matches);
    k, phrase := HitOfBlocker(blockers, list[i].url, matches);
  }

  lemma SuggestedByTemplate(blockers: seq<Blocker>, templates: seq<Template>, urls: seq<string>, matches: Matches,
                            hostOf: string -> string, list: seq<SuggestedScript>, i: nat)
      returns (k: nat, phrase: string)
    requires ListedSuggested(RulesFor(blockers, templates, matches, hostOf), urls, list) && i < |list|
    ensures list[i].url in urls && list[i].host == hostOf(list[i].url)
    ensures !Blocked(blockers, list[i].url, matches) && Templated(templates, list[i].url, matches)
    ensures Decides(PhrasesOfTemplates(templates), k, phrase, list[i].url, matches)
    ensures list[i].templateKey == templates[k].key
  {
    var r := RulesFor(blockers, templates, matches, hostOf);
    FirstsAreFirst(r, urls, PICK_SUGGESTED);
    var f := Firsts(r, urls, PICK_SUGGESTED);
    assert f[i] in f;
    BlockedIff(blockers, list[i].url, matches);
    TemplatedIff(templates, list[i].url, matches);
    k, phrase := HitOfTemplate(templates, list[i].url, matches);
  }

  lemma UnknownToAll(blockers: seq<Blocker>, templates: seq<Template>, urls: seq<string>, matches: Matches,
                     hostOf: string -> string, list: seq<UnknownScript>, i: nat)
    requires ListedUnknown(RulesFor(blockers, templates, matches, hostOf), urls, list) && i < |list|
    ensures list[i].url in urls && list[i].host == hostOf(list[i].url)
    ensures !Blocked(blockers, list[i].url, matches) && !Templated(templates, list[i].url, matches)
  {
    var r := RulesFor(blockers, templates, matches, hostOf);
    FirstsAreFirst(r, urls, PICK_UNKNOWN);
    var f := Firsts(r, urls, PICK_UNKNOWN);
    assert f[i] in f;
    BlockedIff(blockers, list[i].url, matches);
    TemplatedIff(templates, list[i].url, matches);
  }

  /** Which list speaks for a URL: the protected one exactly when a blocker lists a phrase it contains,
      else the suggested one exactly when a template does, else the unknown one. */
  lemma ListOfUrl(blockers: seq<Blocker>, templates: seq<Template>, urls: seq<string>, matches: Matches,
                  hostOf: string -> string, protected: seq<ProtectedScript>, suggested: seq<SuggestedScript>,
                  unknown: seq<UnknownScript>, u: nat) returns (i: nat, k: nat, phrase: string)
    requires Lists(RulesFor(blockers, templates, matches, hostOf), urls, protected, suggested, unknown) && u < |urls|
    ensures
      if Blocked(blockers, urls[u], matches) then
        && Decides(BlockerPhrases(blockers), k, phrase, urls[u], matches)
        && OnlyProtected(protected, blockers[k].key, i)
      else if Templated(templates, urls[u], matches) then
        && Decides(PhrasesOfTemplates(templates), k, phrase, urls[u], matches)
        && OnlySuggested(suggested, templates[k].key, i)
      else OnlyUnknown(unknown, hostOf(urls[u]), i)
  {
    var r := RulesFor(blockers, templates, matches, hostOf);
    var _, at := EveryUrlRepresented(r, urls, protected, suggested, unknown, u);
    i := at;
    BlockedIff(blockers, urls[u], matches);
    TemplatedIff(templates, urls[u], matches);
    if Blocked(blockers, urls[u], matches) {
      k, phrase := HitOfBlocker(blockers, urls[u], matches);
    } else if Templated(templates, urls[u], matches) {
      k, phrase := HitOfTemplate(templates, urls[u], matches);
    } else {
      k, phrase := 0, "";
    }
  }
}
