/** Fingerprinting raw URL paths into stable route patterns. */
module RouteFingerprint {
  import opened Php

  const MAX_SEGMENTS := 8

  // ---------------------------------------------------------------- one segment

  predicate Digit(c: char) { '0' <= c <= '9' }

  predicate Upper(c: char) { 'A' <= c <= 'Z' }

  predicate Lower(c: char) { 'a' <= c <= 'z' }

  predicate Hex(c: char) { Digit(c) || 'a' <= c <= 'f' || 'A' <= c <= 'F' }

  predicate TokenChar(c: char) { Digit(c) || Upper(c) || Lower(c) || c == '_' || c == '-' }

  predicate AllDigits(s: string) { forall i :: 0 <= i < |s| ==> Digit(s[i]) }

  predicate AllHex(s: string) { forall i :: 0 <= i < |s| ==> Hex(s[i]) }

  predicate AllToken(s: string) { forall i :: 0 <= i < |s| ==> TokenChar(s[i]) }

  /** What a pattern ending in `$` sees: the `$` also matches before one final newline. */
  function Body(s: string): string {
    if s != "" && s[|s| - 1] == '\n' then s[..|s| - 1] else s
  }

  predicate IsNumeric(s: string) { Body(s) != "" && AllDigits(Body(s)) }

  predicate IsHexHash(s: string) { |Body(s)| >= 16 && AllHex(Body(s)) }

  predicate IsUuid(s: string) {
    var b := Body(s);
    |b| == 36 && forall i :: 0 <= i < 36 ==> if i in {8, 13, 18, 23} then b[i] == '-' else Hex(b[i])
  }

  predicate IsToken(s: string) {
    && |Body(s)| >= 16 && AllToken(Body(s))
    && (exists i :: 0 <= i < |s| && Upper(s[i]))
    && (exists i :: 0 <= i < |s| && Lower(s[i]))
  }

  function ClassifySegment(s: string): string {
    if s == "*" then "*"
    else if IsUuid(s) then ":uuid"
    else if IsNumeric(s) then ":id"
    else if IsHexHash(s) then ":hash"
    else if IsToken(s) then ":token"
    else s
  }

  predicate Label(s: string) { s in {"*", ":uuid", ":id", ":hash", ":token"} }

  /** Classifying either keeps a segment or yields a label, and labels classify as themselves. */
  lemma ClassifyIdempotent(s: string)
    ensures ClassifySegment(s) == s || Label(ClassifySegment(s))
    ensures ClassifySegment(ClassifySegment(s)) == ClassifySegment(s)
  {
    var r := ClassifySegment(s);
    if r != s { LabelKept(r); }
  }

  lemma LabelKept(s: string)
    requires Label(s)
    ensures ClassifySegment(s) == s && s != "" && '/' !in s && '?' !in s
  {
    if s != "*" {
      assert s[0] == ':';
      assert Body(s) == s;
    }
  }

  // Exactly which segments get which label.

  /** The character classes, written out. */
  lemma CharClasses(c: char)
    ensures Digit(c) <==> c in "0123456789"
    ensures Hex(c) <==> c in "0123456789abcdefABCDEF"
    ensures Lower(c) <==> c in "abcdefghijklmnopqrstuvwxyz"
    ensures Upper(c) <==> c in "ABCDEFGHIJKLMNOPQRSTUVWXYZ"
    ensures TokenChar(c) <==> c in "0123456789_-" || Lower(c) || Upper(c)
  {
  }

  /** s is t, or t before a final newline. */
  predicate UpToNewline(s: string, t: string) { s == t || s == t + "\n" }

  lemma BodyOf(s: string, t: string)
    requires '\n' !in t
    ensures UpToNewline(s, t) <==> Body(s) == t
  {
    if s == t + "\n" {
      assert s[|s| - 1] == '\n' && s[..|s| - 1] == t;
    }
    if Body(s) == t && s != t { assert s == s[..|s| - 1] + "\n"; }
  }

  lemma BodyUpTo(s: string)
    ensures UpToNewline(s, Body(s))
  {
    if s != "" && s[|s| - 1] == '\n' { assert s == s[..|s| - 1] + "\n"; }
  }

  /** Groups of 8, 4, 4, 4 and 12 hexadecimal digits with hyphens between. */
  ghost predicate UuidText(t: string) {
    exists a, b, c, d, e :: UuidGroups(t, a, b, c, d, e)
  }

  predicate UuidGroups(t: string, a: string, b: string, c: string, d: string, e: string) {
    && t == a + "-" + b + "-" + c + "-" + d + "-" + e
    && |a| == 8 && |b| == 4 && |c| == 4 && |d| == 4 && |e| == 12
    && AllHex(a) && AllHex(b) && AllHex(c) && AllHex(d) && AllHex(e)
  }

  lemma UuidFromGroups(s: string, a: string, b: string, c: string, d: string, e: string)
    requires UuidGroups(Body(s), a, b, c, d, e)
    ensures IsUuid(s)
  {
    var t := Body(s);
    forall i | 0 <= i < 36 ensures if i in {8, 13, 18, 23} then t[i] == '-' else Hex(t[i]) {
      if i < 8 { assert t[i] == a[i]; }
      else if 8 < i < 13 { assert t[i] == b[i - 9]; }
      else if 13 < i < 18 { assert t[i] == c[i - 14]; }
      else if 18 < i < 23 { assert t[i] == d[i - 19]; }
      else if 23 < i { assert t[i] == e[i - 24]; }
    }
  }

  lemma GroupsFromUuid(s: string)
    requires IsUuid(s)
    ensures UuidText(Body(s))
  {
    var t := Body(s);
    assert t == t[..8] + "-" + t[9..13] + "-" + t[14..18] + "-" + t[19..23] + "-" + t[24..];
    assert UuidGroups(t, t[..8], t[9..13], t[14..18], t[19..23], t[24..]);
  }

  lemma UuidIff(s: string)
    ensures IsUuid(s) <==> UuidText(Body(s))
  {
    if IsUuid(s) { GroupsFromUuid(s); }
    if a, b, c, d, e :| UuidGroups(Body(s), a, b, c, d, e) { UuidFromGroups(s, a, b, c, d, e); }
  }

  predicate NumberText(t: string) { t != "" && AllDigits(t) }

  /** At least 16 hexadecimal digits, not all of them decimal. */
  predicate HashText(t: string) { |t| >= 16 && AllHex(t) && !AllDigits(t) }

  /** At least 16 letters, digits, underscores and hyphens with an upper-case and a lower-case letter
      among them, and neither of the above. */
  ghost predicate TokenText(t: string) {
    && |t| >= 16 && AllToken(t) && !AllHex(t) && !UuidText(t)
    && (exists i :: 0 <= i < |t| && Upper(t[i])) && (exists i :: 0 <= i < |t| && Lower(t[i]))
  }

  /** A text without newlines gets the label of its kind, with or without a newline behind it; every
      other segment is kept. */
  lemma ClassifyExact(s: string, t: string)
    requires '\n' !in t && UpToNewline(s, t)
    ensures ClassifySegment(s)
         == if UuidText(t) then ":uuid"
            else if NumberText(t) then ":id"
            else if HashText(t) then ":hash"
            else if TokenText(t) then ":token"
            else s
  {
    BodyOf(s, t);
    ClassifyBody(s);
  }

  /** A newline anywhere else keeps a segment as it is. */
  lemma ClassifyOther(s: string)
    requires forall t :: UpToNewline(s, t) ==> '\n' in t
    ensures ClassifySegment(s) == s
  {
    BodyUpTo(s);
    ClassifyBody(s);
    NewlineInNoText(Body(s));
  }

  lemma NewlineInNoText(t: string)
    requires '\n' in t
    ensures !UuidText(t) && !AllDigits(t) && !AllHex(t) && !AllToken(t)
  {
    var i :| 0 <= i < |t| && t[i] == '\n';
    if UuidText(t) { UuidPlain(t); }
  }

  lemma UuidPlain(t: string)
    requires UuidText(t)
    ensures '\n' !in t
  {
    var a, b, c, d, e :| UuidGroups(t, a, b, c, d, e);
  }

  /** The label depends on what stands before a final newline. */
  lemma ClassifyBody(s: string)
    ensures ClassifySegment(s)
         == if UuidText(Body(s)) then ":uuid"
            else if NumberText(Body(s)) then ":id"
            else if HashText(Body(s)) then ":hash"
            else if TokenText(Body(s)) then ":token"
            else s
  {
    UuidIff(s);
    LettersOfBody(s);
    if s == "*" { assert Body(s) == "*"; }
  }

  lemma LettersOfBody(s: string)
    ensures (exists i :: 0 <= i < |s| && Upper(s[i])) <==> (exists i :: 0 <= i < |Body(s)| && Upper(Body(s)[i]))
    ensures (exists i :: 0 <= i < |s| && Lower(s[i])) <==> (exists i :: 0 <= i < |Body(s)| && Lower(Body(s)[i]))
  {
    var t := Body(s);
    assert forall i :: 0 <= i < |t| ==> t[i] == s[i];
    assert forall i :: |t| <= i < |s| ==> s[i] == '\n';
  }

  // ---------------------------------------------------------------- a whole path

  function BeforeQuery(path: string): string { Split(path, '?')[0] }

  /** `preg_replace('#/+#', '/', s)` */
  function Collapse(s: string): string {
    if s == "" then ""
    else if s[0] == '/' && |s| > 1 && s[1] == '/' then Collapse(s[1..])
    else [s[0]] + Collapse(s[1..])
  }

  function NonEmpty(parts: seq<string>): seq<string> { Filter(parts, (p: string) => p != "") }

  function Cap(segments: seq<string>): seq<string> {
    if |segments| > MAX_SEGMENTS then segments[..MAX_SEGMENTS] + ["*"] else segments
  }

  function ClassifyAll(segments: seq<string>): (r: seq<string>)
    ensures |r| == |segments|
  {
    seq(|segments|, i requires 0 <= i < |segments| => ClassifySegment(segments[i]))
  }

  /** `normalize`; None stands for null. PHP takes "" and "0" for false. */
  function Normalize(raw: Option<string>): string {
    if raw.None? || raw.value == "" || raw.value == "0" || raw.value == "/" then "/"
    else
      var path := Rtrim(Collapse(BeforeQuery(raw.value)), '/');
      if path == "" || path == "/" then "/"
      else "/" + Join(ClassifyAll(Cap(NonEmpty(Split(path, '/')))), '/')
  }

  // ---------------------------------------------------------------- by segments

  /** The non-empty segments of a path before its query. */
  function Segments(path: string): seq<string> { NonEmpty(Split(BeforeQuery(path), '/')) }

  function Render(segments: seq<string>): string {
    if segments == [] then "/" else "/" + Join(ClassifyAll(Cap(segments)), '/')
  }

  lemma NonEmptyAppend(a: seq<string>, b: seq<string>)
    ensures NonEmpty(a + b) == NonEmpty(a) + NonEmpty(b)
  {
    FilterAppend(a, b, (p: string) => p != "");
  }

  /** Collapsing runs of slashes changes neither the first part nor the non-empty parts. */
  lemma {:induction false} CollapseKeeps(s: string)
    ensures Split(Collapse(s), '/')[0] == Split(s, '/')[0]
    ensures NonEmpty(Split(Collapse(s), '/')[1..]) == NonEmpty(Split(s, '/')[1..])
  {
    if s != "" {
      var t := s[1..];
      CollapseKeeps(t);
      var rest, short := Split(t, '/'), Split(Collapse(t), '/');
      if s[0] == '/' {
        assert ([""] + rest)[1..] == rest;
        HeadAndTail(rest);
        HeadAndTail(short);
        assert ([""] + short)[1..] == short;
        if |s| > 1 && s[1] == '/' {
          assert rest[0] == "";
        } else {
          assert ([s[0]] + Collapse(t))[1..] == Collapse(t);
        }
      } else {
        assert ([s[0]] + Collapse(t))[1..] == Collapse(t);
        assert ([[s[0]] + rest[0]] + rest[1..])[1..] == rest[1..];
        assert ([[s[0]] + short[0]] + short[1..])[1..] == short[1..];
      }
    }
  }

  lemma HeadAndTail(parts: seq<string>)
    requires parts != []
    ensures NonEmpty(parts) == NonEmpty([parts[0]]) + NonEmpty(parts[1..])
  {
    assert parts == [parts[0]] + parts[1..];
    NonEmptyAppend([parts[0]], parts[1..]);
  }

  /** Trailing slashes add only empty parts. */
  lemma {:induction false} RtrimKeeps(s: string)
    ensures NonEmpty(Split(Rtrim(s, '/'), '/')) == NonEmpty(Split(s, '/'))
  {
    if s != "" && s[|s| - 1] == '/' {
      var init := s[..|s| - 1];
      RtrimKeeps(init);
      assert s == init + ['/'] + "";
      SplitAt(init, "", '/');
      NonEmptyAppend(Split(init, '/'), [""]);
    }
  }

  /** A path without non-empty parts is nothing but slashes. */
  lemma {:induction false} NoSegments(s: string)
    ensures NonEmpty(Split(s, '/')) == [] <==> forall i :: 0 <= i < |s| ==> s[i] == '/'
  {
    if s != "" {
      var rest := Split(s[1..], '/');
      NoSegments(s[1..]);
      HeadAndTail(Split(s, '/'));
      if s[0] == '/' {
        assert ([""] + rest)[1..] == rest;
        assert forall i :: 0 <= i < |s[1..]| ==> s[1..][i] == s[i + 1];
      } else {
        assert NonEmpty([[s[0]] + rest[0]]) != [];
      }
    }
  }

  /** The pipeline is: take the segments, cap them, classify them, join them. */
  lemma NormalizeBySegments(path: string)
    ensures Normalize(Some(path)) == if path == "0" then "/" else Render(Segments(path))
  {
    var before := BeforeQuery(path);
    var collapsed := Collapse(before);
    var trimmed := Rtrim(collapsed, '/');
    CollapseKeeps(before);
    HeadAndTail(Split(collapsed, '/'));
    HeadAndTail(Split(before, '/'));
    RtrimKeeps(collapsed);
    NoSegments(trimmed);
    if path == "/" {
      SplitPlain(path, '?');
      NoSegments(path);
    }
    if trimmed != "" {
      assert trimmed[|trimmed| - 1] != '/';
    }
  }

  predicate Clean(s: string) { s != "" && '/' !in s && '?' !in s }

  ghost predicate AllClean(segments: seq<string>) { forall i :: 0 <= i < |segments| ==> Clean(segments[i]) }

  lemma {:induction false} PartsFrom(s: string, c: char, x: char)
    requires x !in s
    ensures forall i :: 0 <= i < |Split(s, c)| ==> x !in Split(s, c)[i]
  {
    if s != "" {
      assert s == [s[0]] + s[1..];
      PartsFrom(s[1..], c, x);
    }
  }

  lemma SegmentsClean(path: string)
    ensures AllClean(Segments(path))
  {
    var parts, segments := Split(BeforeQuery(path), '/'), Segments(path);
    PartsFrom(BeforeQuery(path), '/', '?');
    forall i | 0 <= i < |segments| ensures Clean(segments[i]) { assert segments[i] in parts; }
  }

  lemma ClassifiedClean(segments: seq<string>)
    requires AllClean(segments)
    ensures AllClean(ClassifyAll(segments))
  {
    forall i | 0 <= i < |segments| ensures Clean(ClassifySegment(segments[i])) {
      ClassifyIdempotent(segments[i]);
      if ClassifySegment(segments[i]) != segments[i] { LabelKept(ClassifySegment(segments[i])); }
    }
  }

  lemma {:induction false} JoinWithout(parts: seq<string>, x: char)
    requires x != '/' && forall i :: 0 <= i < |parts| ==> x !in parts[i]
    ensures x !in Join(parts, '/')
  {
    if |parts| > 1 { JoinWithout(parts[1..], x); }
  }

  lemma {:induction false} NonEmptyOfClean(parts: seq<string>)
    requires AllClean(parts)
    ensures NonEmpty(parts) == parts
  {
    if parts != [] { NonEmptyOfClean(parts[1..]); }
  }

  /** The segments of a rendered list are the capped, classified list. */
  lemma SegmentsOfRender(segments: seq<string>)
    requires AllClean(segments)
    ensures Segments(Render(segments)) == ClassifyAll(Cap(segments))
    ensures AllClean(ClassifyAll(Cap(segments)))
  {
    var out := ClassifyAll(Cap(segments));
    ClassifiedClean(Cap(segments));
    if segments == [] {
      SplitPlain("/", '?');
      NoSegments("/");
    } else {
      SegmentsOfJoin(out);
    }
  }

  lemma SegmentsOfJoin(out: seq<string>)
    requires out != [] && AllClean(out)
    ensures Segments("/" + Join(out, '/')) == out
  {
    var text := Join(out, '/');
    JoinWithout(out, '?');
    SplitPlain("/" + text, '?');
    assert "/" + text == "" + ['/'] + text;
    SplitAt("", text, '/');
    SplitOfJoin(out, '/');
    NonEmptyAppend([""], out);
    NonEmptyOfClean(out);
  }

  lemma CapClassifyIdempotent(segments: seq<string>)
    ensures ClassifyAll(Cap(ClassifyAll(Cap(segments)))) == ClassifyAll(Cap(segments))
  {
    var once := ClassifyAll(Cap(segments));
    forall i | 0 <= i < |once| ensures ClassifySegment(once[i]) == once[i] { ClassifyIdempotent(Cap(segments)[i]); }
    if |once| > MAX_SEGMENTS {
      assert once[MAX_SEGMENTS] == "*";
      assert Cap(once) == once;
    }
    assert ClassifyAll(once) == once;
  }

  /** Normalising a normalised path changes nothing, for every path, null included. */
  lemma NormalizeIdempotent(raw: Option<string>)
    ensures Normalize(Some(Normalize(raw))) == Normalize(raw)
  {
    if raw.Some? {
      var segments := Segments(raw.value);
      var once := Normalize(raw);
      NormalizeBySegments(raw.value);
      NormalizeBySegments(once);
      SegmentsClean(raw.value);
      SegmentsOfRender(segments);
      SegmentsOfRender([]);
      CapClassifyIdempotent(segments);
    }
  }

  /** A normalised path is "/" or "/" followed by 1 to 9 clean segments joined by slashes. */
  lemma NormalizedShape(path: string)
    ensures
      var r := Normalize(Some(path));
      && '?' !in r
      && |Segments(r)| <= MAX_SEGMENTS + 1 && AllClean(Segments(r))
      && r == (if Segments(r) == [] then "/" else "/" + Join(Segments(r), '/'))
  {
    NormalizeBySegments(path);
    SegmentsClean(path);
    SegmentsOfRender(Segments(path));
    SegmentsOfRender([]);
    JoinWithout(ClassifyAll(Cap(Segments(path))), '?');
  }

  /** What a normalised path holds: the classified segments in order if there are at most eight, else
      the first eight of them and a star. */
  lemma NormalizedExact(path: string)
    requires path != "0"
    ensures
      var given, out := Segments(path), Segments(Normalize(Some(path)));
      && |out| == (if |given| <= 8 then |given| else 9)
      && (forall i :: 0 <= i < |given| && i < 8 ==> out[i] == ClassifySegment(given[i]))
      && (|given| > 8 ==> out[8] == "*")
  {
    NormalizeBySegments(path);
    SegmentsClean(path);
    SegmentsOfRender(Segments(path));
    LabelKept("*");
  }

  // ---------------------------------------------------------------- what normalising ignores

  lemma BeforeQueryAppend(a: string, b: string)
    ensures BeforeQuery(a + ['?'] + b) == BeforeQuery(a)
  {
    SplitAt(a, b, '?');
  }

  /** Adding a query changes nothing, except after the bare path "0". */
  lemma QueryIgnored(path: string, query: string)
    ensures Normalize(Some(path + ['?'] + query)) == Normalize(Some(path)) <==> path != "0"
  {
    var p := path + ['?'] + query;
    assert p[|path|] == '?';
    assert p != "0";
    NormalizeBySegments(path);
    NormalizeBySegments(p);
    BeforeQueryAppend(path, query);
    if path == "0" { ZeroSegment(); }
  }

  lemma ZeroSegment()
    ensures Segments("0") == ["0"] && Render(["0"]) == "/:id"
  {
    SplitPlain("0", '?');
    SplitPlain("0", '/');
    assert Body("0") == "0";
    assert ClassifyAll(["0"]) == [":id"];
  }

  /** A path split at a slash that stands before any query. */
  lemma SegmentsAt(a: string, b: string)
    requires '?' !in a
    ensures Segments(a + ['/'] + b) == NonEmpty(Split(a, '/')) + Segments(b)
  {
    BeforeQueryPrefix(a + ['/'], b);
    assert a + ['/'] + b == (a + ['/']) + b;
    var before := BeforeQuery(b);
    assert (a + ['/']) + before == a + ['/'] + before;
    SplitAt(a, before, '/');
    NonEmptyAppend(Split(a, '/'), Split(before, '/'));
  }

  lemma {:induction false} BeforeQueryPrefix(a: string, b: string)
    requires '?' !in a
    ensures BeforeQuery(a + b) == a + BeforeQuery(b)
  {
    if a == "" {
      assert a + b == b;
    } else {
      assert a == [a[0]] + a[1..];
      assert (a + b)[1..] == a[1..] + b;
      BeforeQueryPrefix(a[1..], b);
    }
  }

  lemma EmptySegment()
    ensures Segments("") == [] && NonEmpty(Split("", '/')) == []
  {
    NoSegments("");
  }

  lemma TrailingSlashSegments(path: string)
    requires '?' !in path
    ensures Segments(path + ['/']) == Segments(path)
  {
    assert path + ['/'] + "" == path + ['/'];
    SegmentsAt(path, "");
    EmptySegment();
    SplitPlain(path, '?');
  }

  /** A trailing slash changes nothing, except after the bare path "0". */
  lemma TrailingSlashIgnored(path: string)
    requires '?' !in path
    ensures Normalize(Some(path + ['/'])) == Normalize(Some(path)) <==> path != "0"
  {
    TrailingSlashSegments(path);
    assert (path + ['/'])[|path|] == '/';
    SameUnlessZero(path, path + ['/']);
  }

  /** Two paths with the same segments normalise alike unless exactly one of them is "0". */
  lemma SameUnlessZero(path: string, other: string)
    requires Segments(other) == Segments(path) && other != "0"
    ensures Normalize(Some(other)) == Normalize(Some(path)) <==> path != "0"
  {
    NormalizeBySegments(path);
    NormalizeBySegments(other);
    if path == "0" { ZeroSegment(); }
  }

  lemma RepeatedSlashSegments(a: string, b: string)
    requires '?' !in a
    ensures Segments(a + ['/'] + (['/'] + b)) == Segments(a + ['/'] + b)
  {
    SegmentsAt(a, ['/'] + b);
    SegmentsAt(a, b);
    LeadingSlash(b);
  }

  /** Repeating a slash changes nothing. */
  lemma RepeatedSlashIgnored(a: string, b: string)
    requires '?' !in a
    ensures Normalize(Some(a + ['/'] + (['/'] + b))) == Normalize(Some(a + ['/'] + b))
  {
    RepeatedSlashSegments(a, b);
    assert (a + ['/'] + (['/'] + b))[|a|] == '/' && (a + ['/'] + b)[|a|] == '/';
    SameUnlessZero(a + ['/'] + b, a + ['/'] + (['/'] + b));
  }

  lemma NumberClean(s: string)
    requires NumberText(s)
    ensures Clean(s) && ClassifySegment(s) == ":id"
  {
    assert forall i :: 0 <= i < |s| ==> s[i] != '/' && s[i] != '?' && s[i] != '-';
    assert Body(s) == s;
    if |s| == 36 { assert s[8] != '-'; }
  }

  /** Where one segment ends: the path ends, or a slash or a query follows. */
  predicate Boundary(rest: string) { rest == "" || rest[0] == '/' || rest[0] == '?' }

  lemma FirstSegment(n: string, rest: string)
    requires Clean(n) && Boundary(rest)
    ensures Segments(n + rest) == [n] + Segments(rest)
  {
    if rest == "" {
      assert n + rest == n;
      SegmentsOfOne(n);
      EmptySegment();
    } else if rest[0] == '/' {
      SlashAfter(n, rest[1..]);
      assert ['/'] + rest[1..] == rest && n + ['/'] + rest[1..] == n + rest;
    } else {
      QueryAfter(n, rest[1..]);
      assert ['?'] + rest[1..] == rest && n + ['?'] + rest[1..] == n + rest;
    }
  }

  lemma SegmentsOfOne(n: string)
    requires Clean(n)
    ensures NonEmpty(Split(n, '/')) == [n] && Segments(n) == [n] && BeforeQuery(n) == n
  {
    SplitPlain(n, '/');
    SplitPlain(n, '?');
    NonEmptyOfClean([n]);
  }

  lemma SlashAfter(n: string, b: string)
    requires Clean(n)
    ensures Segments(n + ['/'] + b) == [n] + Segments(['/'] + b)
  {
    SegmentsOfOne(n);
    SegmentsAt(n, b);
    LeadingSlash(b);
  }

  lemma LeadingSlash(b: string)
    ensures Segments(['/'] + b) == Segments(b)
  {
    assert "" + ['/'] + b == ['/'] + b;
    SegmentsAt("", b);
    EmptySegment();
    assert [] + Segments(b) == Segments(b);
  }

  lemma QueryAfter(n: string, b: string)
    requires Clean(n)
    ensures Segments(n + ['?'] + b) == [n] + Segments(['?'] + b)
  {
    assert "" + ['?'] + b == ['?'] + b;
    SegmentsOfOne(n);
    BeforeQueryAppend(n, b);
    BeforeQueryAppend("", b);
    EmptySegment();
  }

  /** The segments of what stands before a segment: nothing, or text that ends with a slash. */
  function PrefixSegments(prefix: string): seq<string> {
    if prefix == "" then [] else NonEmpty(Split(prefix[..|prefix| - 1], '/'))
  }

  predicate IsPrefix(prefix: string) { '?' !in prefix && (prefix == "" || prefix[|prefix| - 1] == '/') }

  lemma SegmentsAround(prefix: string, n: string, rest: string)
    requires IsPrefix(prefix) && Clean(n) && Boundary(rest)
    ensures Segments(prefix + (n + rest)) == PrefixSegments(prefix) + ([n] + Segments(rest))
  {
    FirstSegment(n, rest);
    if prefix == "" {
      assert prefix + (n + rest) == n + rest;
    } else {
      var a := prefix[..|prefix| - 1];
      assert prefix == a + ['/'];
      SegmentsAt(a, n + rest);
    }
  }

  /** Replacing one digit-only segment by another changes nothing, wherever it stands in the path,
      unless exactly one of the two paths is the bare "0". */
  lemma NumbersInterchangeable(prefix: string, m: string, n: string, rest: string)
    requires IsPrefix(prefix) && NumberText(m) && NumberText(n) && Boundary(rest)
    ensures Normalize(Some(prefix + (m + rest))) == Normalize(Some(prefix + (n + rest)))
       <==> (prefix + (m + rest) == "0" <==> prefix + (n + rest) == "0")
  {
    NumberRender(prefix, m, rest);
    NumberRender(prefix, n, rest);
    RenderOfNumber(PrefixSegments(prefix), Segments(rest));
  }

  /** A path with a digit-only segment renders as if that segment were the label. */
  lemma NumberRender(prefix: string, n: string, rest: string)
    requires IsPrefix(prefix) && NumberText(n) && Boundary(rest)
    ensures Normalize(Some(prefix + (n + rest)))
         == if prefix + (n + rest) == "0" then "/" else Render(PrefixSegments(prefix) + ([":id"] + Segments(rest)))
  {
    NumberClean(n);
    SegmentsAround(prefix, n, rest);
    NormalizeBySegments(prefix + (n + rest));
    LabelKept(":id");
    SameRender(PrefixSegments(prefix), n, ":id", Segments(rest));
  }

  lemma RenderOfNumber(a: seq<string>, b: seq<string>)
    ensures Render(a + ([":id"] + b)) != "/"
  {
    var segments := a + ([":id"] + b);
    var out := ClassifyAll(Cap(segments));
    LabelKept(":id");
    LabelKept("*");
    var i := if |a| < MAX_SEGMENTS then |a| else MAX_SEGMENTS;
    assert out[i] != "";
    JoinNonEmpty(out, i);
  }

  lemma {:induction false} JoinNonEmpty(parts: seq<string>, i: nat)
    requires i < |parts| && parts[i] != ""
    ensures Join(parts, '/') != ""
  {
    if |parts| > 1 && i > 0 { JoinNonEmpty(parts[1..], i - 1); }
  }

  /** Segments that classify alike render alike. */
  lemma SameRender(a: seq<string>, m: string, n: string, b: seq<string>)
    requires ClassifySegment(m) == ClassifySegment(n)
    ensures Render(a + ([m] + b)) == Render(a + ([n] + b))
  {
    var x, y := a + ([m] + b), a + ([n] + b);
    forall i | 0 <= i < |x| ensures ClassifySegment(x[i]) == ClassifySegment(y[i]) {
      if i != |a| { assert x[i] == y[i]; }
    }
    assert ClassifyAll(Cap(x)) == ClassifyAll(Cap(y));
  }
}
