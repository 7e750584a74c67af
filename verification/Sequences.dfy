/** Facts about sequences that several proofs use: concatenations with empty parts, cancelling,
    reassociating, updating and filtering. They say nothing about the program itself and hold for
    sequences of any type. */
module Sequences {
  import opened Php

  lemma OneEmpty<T>(x: seq<T>, y: seq<T>)
    ensures y == [] ==> x + y == x
    ensures x == [] ==> x + y == y
  {
  }

  /** A concatenation of four with its empty parts left out. */
  lemma DropEmpty<T>(x: seq<T>, mid: seq<T>, y: seq<T>, z: seq<T>)
    ensures z == [] ==> x + mid + y + z == x + mid + y
    ensures mid == [] ==> x + mid + y + z == x + y + z
    ensures mid == [] && z == [] ==> x + mid + y + z == x + y
  {
  }

  lemma Cancel<T>(left: seq<T>, x: seq<T>, y: seq<T>, right: seq<T>)
    requires |x| == |y|
    ensures left + x + right == left + y + right <==> x == y
  {
    if left + x + right == left + y + right {
      assert x == (left + x + right)[|left|..|left| + |x|];
      assert y == (left + y + right)[|left|..|left| + |y|];
    }
  }

  lemma Rearranged<T>(above: seq<T>, before: seq<T>, pages: seq<T>, m: nat, sharing: seq<T>, after: seq<T>)
    requires m <= |pages|
    ensures above + (before + pages[..m] + sharing) + pages[m..] + after == above + (before + pages + sharing + after)
      <==> sharing + pages[m..] == pages[m..] + sharing
  {
    var left := above + before + pages[..m];
    assert above + (before + pages[..m] + sharing) + pages[m..] + after == left + (sharing + pages[m..]) + after;
    assert pages == pages[..m] + pages[m..];
    assert above + (before + pages + sharing + after) == left + (pages[m..] + sharing) + after;
    Cancel(left, sharing + pages[m..], pages[m..] + sharing, after);
  }

  lemma Commute<T>(a: seq<T>, x: seq<T>, y: seq<T>)
    requires x == [] || y == []
    ensures a + x + y == a + y + x
  {
  }

  lemma Assoc<T>(a: seq<T>, b: seq<T>, c: seq<T>)
    ensures a + b + c == a + (b + c)
  {
  }

  lemma TwiceInSequence<T>(s: seq<T>, i: nat, j: nat)
    requires i < j < |s| && s[i] == s[j]
    ensures multiset(s)[s[i]] >= 2
  {
    assert s == s[..i] + [s[i]] + s[i + 1..j] + [s[j]] + s[j + 1..];
  }

  lemma SnocEqual<T>(a: seq<T>, x: T, b: seq<T>, y: T)
    requires |a| == |b|
    ensures a + [x] == b + [y] <==> a == b && x == y
  {
    if a + [x] == b + [y] {
      assert a == (a + [x])[..|a|] && b == (b + [y])[..|a|];
      assert x == (a + [x])[|a|] && y == (b + [y])[|a|];
    }
  }

  lemma MultisetWithout<T>(ys: seq<T>, k: nat)
    requires k < |ys|
    ensures multiset(ys[..k] + ys[k + 1..]) == multiset(ys) - multiset{ys[k]}
  {
    assert ys == ys[..k] + ([ys[k]] + ys[k + 1..]);
  }

  lemma {:induction false} FlattenSnoc<T>(xss: seq<seq<T>>)
    requires xss != []
    ensures Flatten(xss) == Flatten(xss[..|xss| - 1]) + xss[|xss| - 1]
  {
    assert xss == xss[..|xss| - 1] + [xss[|xss| - 1]];
    FlattenAppend(xss[..|xss| - 1], [xss[|xss| - 1]]);
  }

  lemma UpdateLeft<T>(a: seq<T>, b: seq<T>, p: nat, v: T)
    requires p < |a|
    ensures (a + b)[p := v] == a[p := v] + b
  {
  }

  lemma {:induction false} FilterAll<T(!new)>(xs: seq<T>, keep: T -> bool)
    requires forall x :: x in xs ==> keep(x)
    ensures Filter(xs, keep) == xs
  {
    if xs != [] {
      assert xs == [xs[0]] + xs[1..];
      FilterAll(xs[1..], keep);
    }
  }

  lemma {:induction false} DistinctCount<T(!new)>(xs: seq<T>, x: T)
    requires Distinct(xs)
    ensures multiset(xs)[x] == if x in xs then 1 else 0
  {
    if xs != [] {
      assert xs == [xs[0]] + xs[1..];
      DistinctCount(xs[1..], x);
      assert xs[0] !in xs[1..];
    }
  }

  lemma {:induction false} FlattenHas<T>(xss: seq<seq<T>>, i: nat, x: T)
    requires i < |xss| && x in xss[i]
    ensures x in Flatten(xss)
  {
    if i > 0 { FlattenHas(xss[1..], i - 1, x); }
  }

  lemma FilterSnoc<T(!new)>(xs: seq<T>, x: T, keep: T -> bool)
    ensures Filter(xs + [x], keep) == if keep(x) then Filter(xs, keep) + [x] else Filter(xs, keep)
  {
    FilterAppend(xs, [x], keep);
    assert Filter(xs, keep) + [] == Filter(xs, keep);
  }

  lemma {:induction false} FlattenFind<T>(xss: seq<seq<T>>, x: T) returns (i: nat)
    requires x in Flatten(xss)
    ensures i < |xss| && x in xss[i]
  {
    if x in xss[0] {
      i := 0;
    } else {
      var k := FlattenFind(xss[1..], x);
      i := k + 1;
    }
  }

  /** r can be read off xs from left to right: idx gives the place of each entry, strictly increasing. */
  ghost predicate Places<T>(r: seq<T>, xs: seq<T>, idx: seq<nat>) {
    && |idx| == |r|
    && (forall i :: 0 <= i < |r| ==> idx[i] < |xs| && r[i] == xs[idx[i]])
    && (forall i, j :: 0 <= i < j < |r| ==> idx[i] < idx[j])
  }

  lemma PlacesSnoc<T>(r: seq<T>, xs: seq<T>, idx: seq<nat>, x: T)
    requires Places(r, xs, idx)
    ensures Places(r, xs + [x], idx)
    ensures Places(r + [x], xs + [x], idx + [|xs|])
  {
  }

  /** Filtering keeps the order. */
  lemma {:induction false} FilterPlaces<T(!new)>(xs: seq<T>, keep: T -> bool) returns (idx: seq<nat>)
    ensures Places(Filter(xs, keep), xs, idx)
  {
    if xs == [] {
      idx := [];
    } else {
      var init, last := xs[..|xs| - 1], xs[|xs| - 1];
      assert xs == init + [last];
      idx := FilterPlaces(init, keep);
      FilterSnoc(init, last, keep);
      PlacesSnoc(Filter(init, keep), init, idx, last);
      if keep(last) { idx := idx + [|init|]; }
    }
  }

  lemma Regroup<T>(a: seq<T>, b: seq<T>, c: seq<T>, d: seq<T>)
    ensures a + (b + c) + d == a + b + (c + d)
  {
  }

  lemma {:induction false} DistinctSetSize<T>(xs: seq<T>)
    requires Distinct(xs)
    ensures |set x | x in xs| == |xs|
  {
    if xs != [] {
      var init, last := xs[..|xs| - 1], xs[|xs| - 1];
      assert xs == init + [last] && last !in init;
      DistinctSetSize(init);
      assert (set x | x in xs) == (set x | x in init) + {last};
    }
  }

  lemma UniqueSnoc<T(!new)>(xs: seq<T>, x: T)
    ensures Unique(xs + [x]) == Unique(xs) + if x in xs then [] else [x]
  {
    assert (xs + [x])[..|xs|] == xs;
  }
}
