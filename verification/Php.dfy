/** The PHP array and string functions the modelled code is written with: unique, chunk, filter,
    trimming, splitting and joining, and the arithmetic they rest on.
    Strings are sequences of characters and ordered PHP lists are sequences; what a function does with
    keys is left out where no caller looks at them. */
module Php {

  datatype Option<+T> = None | Some(value: T)

  ghost predicate Distinct<T>(xs: seq<T>) {
    forall i, j :: 0 <= i < j < |xs| ==> xs[i] != xs[j]
  }

  /** `array_values(array_unique(xs))`: keeps the first occurrence of each value. */
  function Unique<T(==, !new)>(xs: seq<T>): (r: seq<T>)
    ensures Distinct(r)
    ensures forall x :: x in r <==> x in xs
    ensures |r| <= |xs|
    ensures xs != [] ==> r != [] && r[0] == xs[0]
  {
    if xs == [] then []
    else
      var init, last := xs[..|xs| - 1], xs[|xs| - 1];
      assert xs == init + [last];
      var r := Unique(init);
      if last in init then r else r + [last]
  }

  /** Nothing is dropped from a list without duplicates. */
  lemma {:induction false} UniqueOfDistinct<T(!new)>(xs: seq<T>)
    requires Distinct(xs)
    ensures Unique(xs) == xs
  {
    if xs != [] {
      var init, last := xs[..|xs| - 1], xs[|xs| - 1];
      assert xs == init + [last];
      UniqueOfDistinct(init);
    }
  }

  /** What comes first stays first: the unique values of a list lead those of any extension of it. */
  lemma {:induction false} UniquePrefix<T(!new)>(a: seq<T>, b: seq<T>)
    ensures Unique(a) <= Unique(a + b)
  {
    if b == [] {
      assert a + b == a;
    } else {
      var all := a + b;
      assert all[..|all| - 1] == a + b[..|b| - 1];
      UniquePrefix(a, b[..|b| - 1]);
    }
  }

  function Flatten<T>(xss: seq<seq<T>>): seq<T> {
    if xss == [] then [] else xss[0] + Flatten(xss[1..])
  }

  lemma {:induction false} FlattenAppend<T>(a: seq<seq<T>>, b: seq<seq<T>>)
    ensures Flatten(a + b) == Flatten(a) + Flatten(b)
  {
    if a == [] {
      assert a + b == b;
    } else {
      assert (a + b)[1..] == a[1..] + b;
      FlattenAppend(a[1..], b);
    }
  }

  /** `(int) ceil(n / m)` */
  function CeilDiv(n: nat, m: nat): nat
    requires m >= 1
  {
    if n == 0 then 0 else if n <= m then 1 else 1 + CeilDiv(n - m, m)
  }

  /** The rounded-up quotient: the least number of m's that reach n. */
  lemma {:induction false} CeilDivBounds(n: nat, m: nat)
    requires m >= 1
    ensures m * CeilDiv(n, m) >= n
    ensures n > 0 ==> m * (CeilDiv(n, m) - 1) < n
  {
    if n > m {
      var q := CeilDiv(n - m, m);
      CeilDivBounds(n - m, m);
      assert m * (1 + q) == m + m * q && m * q == m + m * (q - 1);
    }
  }

  /** `array_chunk(xs, m)`. PHP throws on a size below 1, so callers must supply m >= 1. */
  function Chunk<T>(xs: seq<T>, m: nat): (r: seq<seq<T>>)
    requires m >= 1
    ensures Flatten(r) == xs
    ensures forall i :: 0 <= i < |r| ==> 1 <= |r[i]| <= m
    ensures xs != [] ==> r != []
  {
    if xs == [] then []
    else if |xs| <= m then
      assert Flatten([xs]) == xs;
      [xs]
    else
      var rest := Chunk(xs[m..], m);
      assert ([xs[..m]] + rest)[1..] == rest;
      [xs[..m]] + rest
  }

  /** There are as many chunks as the size requires, and all but the last are full. */
  lemma {:induction false} ChunkCount<T>(xs: seq<T>, m: nat)
    requires m >= 1
    ensures |Chunk(xs, m)| == CeilDiv(|xs|, m)
    ensures forall i :: 0 <= i < |Chunk(xs, m)| - 1 ==> |Chunk(xs, m)[i]| == m
    decreases |xs|
  {
    if |xs| > m {
      ChunkCount(xs[m..], m);
    }
  }

  lemma MulMonotone(m: nat, a: int, b: int)
    requires a <= b
    ensures m * a <= m * b
  {
    assert m * b - m * a == m * (b - a);
  }

  lemma DivModUnique(x: int, n: nat, q: int, r: nat)
    requires r < n && x == n * q + r
    ensures x / n == q && x % n == r
  {
    var q' := x / n;
    assert x == n * q' + x % n;
    assert n * (q' + 1) == n * q' + n && n * (q + 1) == n * q + n;
    if q' < q { MulMonotone(n, q' + 1, q); }
    if q < q' { MulMonotone(n, q + 1, q'); }
  }

  /** `rtrim(s, c)` for one character. */
  function Rtrim(s: string, c: char): (r: string)
    ensures r <= s
    ensures r == "" || r[|r| - 1] != c
    ensures forall i :: |r| <= i < |s| ==> s[i] == c
  {
    if s != "" && s[|s| - 1] == c then Rtrim(s[..|s| - 1], c) else s
  }

  lemma RtrimOfTrimmed(s: string, c: char)
    ensures Rtrim(Rtrim(s, c), c) == Rtrim(s, c)
  {
  }

  /** `ltrim(s, c)` for one character. */
  function Ltrim(s: string, c: char): (r: string)
    ensures |r| <= |s| && s[|s| - |r|..] == r
    ensures r == "" || r[0] != c
    ensures forall i :: 0 <= i < |s| - |r| ==> s[i] == c
  {
    if s != "" && s[0] == c then Ltrim(s[1..], c) else s
  }

  function Slashes(n: nat): (r: string)
    ensures |r| == n && forall i :: 0 <= i < n ==> r[i] == '/'
  {
    seq(n, _ => '/')
  }

  lemma {:induction false} RtrimSlashes(s: string, n: nat)
    requires s == "" || s[|s| - 1] != '/'
    ensures Rtrim(s + Slashes(n), '/') == s
    decreases n
  {
    if n == 0 {
      assert s + Slashes(0) == s;
    } else {
      assert (s + Slashes(n))[..|s| + n - 1] == s + Slashes(n - 1);
      RtrimSlashes(s, n - 1);
    }
  }

  lemma {:induction false} LtrimSlashes(s: string, n: nat)
    requires s == "" || s[0] != '/'
    ensures Ltrim(Slashes(n) + s, '/') == s
    decreases n
  {
    if n == 0 {
      assert Slashes(0) + s == s;
    } else {
      assert (Slashes(n) + s)[1..] == Slashes(n - 1) + s;
      LtrimSlashes(s, n - 1);
    }
  }

  lemma RtrimShape(s: string)
    ensures s == Rtrim(s, '/') + Slashes(|s| - |Rtrim(s, '/')|)
  {
    var n := |Rtrim(s, '/')|;
    assert s == s[..n] + s[n..];
    assert s[n..] == Slashes(|s| - n);
  }

  lemma LtrimShape(s: string)
    ensures s == Slashes(|s| - |Ltrim(s, '/')|) + Ltrim(s, '/')
  {
    var n := |s| - |Ltrim(s, '/')|;
    assert s == s[..n] + s[n..];
    assert s[..n] == Slashes(n);
  }

  lemma LastOfSum(a: string, b: string)
    requires b != ""
    ensures (a + b)[|a + b| - 1] == b[|b| - 1]
  {
  }

  lemma NothingLeft(p: string)
    requires Ltrim(p, '/') == "" && (p == "" || p[|p| - 1] != '/')
    ensures p == ""
  {
  }

  /** Every string is something that neither begins nor ends with a slash, between slashes. */
  lemma TrimShape(s: string) returns (mid: string, before: nat, after: nat)
    ensures s == Slashes(before) + mid + Slashes(after)
    ensures mid == "" || (mid[0] != '/' && mid[|mid| - 1] != '/')
    ensures mid == Ltrim(Rtrim(s, '/'), '/')
    ensures mid == "" ==> s == Slashes(after)
  {
    ghost var p := Rtrim(s, '/');
    mid, before := TrimStart(p);
    after := |s| - |p|;
    RtrimShape(s);
    TrimmedEnd(p, mid, before, after);
  }

  lemma TrimStart(p: string) returns (mid: string, before: nat)
    requires p == "" || p[|p| - 1] != '/'
    ensures mid == Ltrim(p, '/') && p == Slashes(before) + mid && (mid == "" || mid[0] != '/')
    ensures mid == "" ==> p == ""
  {
    mid := Ltrim(p, '/');
    before := |p| - |mid|;
    LtrimShape(p);
    if mid == "" { NothingLeft(p); }
  }

  lemma TrimmedEnd(p: string, mid: string, before: nat, after: nat)
    requires p == Slashes(before) + mid && (p == "" || p[|p| - 1] != '/') && (mid == "" ==> p == "")
    ensures mid == "" || mid[|mid| - 1] != '/'
    ensures mid == "" ==> p + Slashes(after) == Slashes(after)
  {
    if mid != "" { LastOfSum(Slashes(before), mid); }
  }

  lemma TrimBoth(mid: string, before: nat, after: nat)
    requires mid != "" && mid[0] != '/' && mid[|mid| - 1] != '/'
    ensures Rtrim(Slashes(before) + mid + Slashes(after), '/') == Slashes(before) + mid
    ensures Ltrim(Slashes(before) + mid, '/') == mid
  {
    LastOfSum(Slashes(before), mid);
    TrimParts(Slashes(before) + mid, mid, before, after);
  }

  lemma TrimParts(p: string, mid: string, before: nat, after: nat)
    requires p != "" && p[|p| - 1] != '/' && mid != "" && mid[0] != '/'
    ensures Rtrim(p + Slashes(after), '/') == p
    ensures Ltrim(Slashes(before) + mid, '/') == mid
  {
    RtrimSlashes(p, after);
    LtrimSlashes(mid, before);
  }

  function Filter<T(!new)>(xs: seq<T>, keep: T -> bool): (r: seq<T>)
    ensures forall x :: x in r <==> x in xs && keep(x)
    ensures |r| <= |xs|
  {
    if xs == [] then []
    else
      assert xs == [xs[0]] + xs[1..];
      (if keep(xs[0]) then [xs[0]] else []) + Filter(xs[1..], keep)
  }

  lemma {:induction false} FilterAppend<T(!new)>(a: seq<T>, b: seq<T>, keep: T -> bool)
    ensures Filter(a + b, keep) == Filter(a, keep) + Filter(b, keep)
  {
    if a == [] {
      assert a + b == b;
    } else {
      assert (a + b)[1..] == a[1..] + b;
      FilterAppend(a[1..], b, keep);
    }
  }

  lemma {:induction false} FilterTwice<T(!new)>(xs: seq<T>, keep: T -> bool)
    ensures Filter(Filter(xs, keep), keep) == Filter(xs, keep)
  {
    if xs != [] {
      var rest := Filter(xs[1..], keep);
      FilterTwice(xs[1..], keep);
      assert ([xs[0]] + rest)[1..] == rest;
      assert [] + rest == rest;
    }
  }

  /** Filtering keeps a list free of duplicates. */
  lemma {:induction false} FilterDistinct<T(!new)>(xs: seq<T>, keep: T -> bool)
    requires Distinct(xs)
    ensures Distinct(Filter(xs, keep))
  {
    if xs != [] {
      FilterDistinct(xs[1..], keep);
      assert xs[0] !in xs[1..];
    }
  }

  // ---------------------------------------------------------------- explode and implode

  /** `explode(c, s)` for a one-character separator. */
  function Split(s: string, c: char): (r: seq<string>)
    ensures r != []
    ensures forall i :: 0 <= i < |r| ==> c !in r[i]
  {
    if s == "" then [""]
    else
      var rest := Split(s[1..], c);
      if s[0] == c then [""] + rest else [[s[0]] + rest[0]] + rest[1..]
  }

  /** `implode(c, parts)` */
  function Join(parts: seq<string>, c: char): string {
    if parts == [] then "" else if |parts| == 1 then parts[0] else parts[0] + [c] + Join(parts[1..], c)
  }

  lemma {:induction false} SplitPlain(s: string, c: char)
    requires c !in s
    ensures Split(s, c) == [s]
  {
    if s != "" {
      assert s == [s[0]] + s[1..];
      SplitPlain(s[1..], c);
    }
  }

  /** Splitting at a separator: the parts before it and the parts after it. */
  lemma {:induction false} SplitAt(a: string, b: string, c: char)
    ensures Split(a + [c] + b, c) == Split(a, c) + Split(b, c)
  {
    var s := a + [c] + b;
    if a == "" {
      assert s[1..] == b;
    } else {
      assert s[1..] == a[1..] + [c] + b;
      SplitAt(a[1..], b, c);
    }
  }

  /** Splitting undoes joining for parts that do not contain the separator. */
  lemma {:induction false} SplitOfJoin(parts: seq<string>, c: char)
    requires parts != []
    requires forall i :: 0 <= i < |parts| ==> c !in parts[i]
    ensures Split(Join(parts, c), c) == parts
  {
    SplitPlain(parts[0], c);
    if |parts| > 1 {
      SplitAt(parts[0], Join(parts[1..], c), c);
      SplitOfJoin(parts[1..], c);
    }
  }

  /** Joining puts back together what was split. */
  lemma {:induction false} JoinOfSplit(s: string, c: char)
    ensures Join(Split(s, c), c) == s
  {
    if s != "" {
      var rest := Split(s[1..], c);
      JoinOfSplit(s[1..], c);
      if s[0] == c {
        assert ([""] + rest)[1..] == rest;
      } else {
        var all := [[s[0]] + rest[0]] + rest[1..];
        assert all[1..] == rest[1..];
        if |rest| > 1 { assert Join(all, c) == [s[0]] + (rest[0] + [c] + Join(rest[1..], c)); }
      }
      assert s == [s[0]] + s[1..];
    }
  }
}
