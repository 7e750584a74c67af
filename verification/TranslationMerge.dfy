/** Merging saved translations over the default tree. A PHP array is its list of entries in order;
    no key occurs twice. JSON encoding and decoding is the identity on trees. */
module TranslationMerge {
  import opened Php
  import opened Sequences

  datatype Node = Null | Text(text: string) | Other(value: int) | Array(entries: seq<Entry>)

  datatype Entry = Entry(key: string, value: Node)

  function Lookup(a: seq<Entry>, key: string): Option<Node> {
    if a == [] then None else if a[0].key == key then Some(a[0].value) else Lookup(a[1..], key)
  }

  ghost predicate DistinctKeys(a: seq<Entry>) {
    forall i, j :: 0 <= i < j < |a| ==> a[i].key != a[j].key
  }

  /** Keys are distinct at every level. */
  ghost predicate Proper(n: Node) {
    n.Array? ==> DistinctKeys(n.entries) && forall e :: e in n.entries ==> Proper(e.value)
  }

  ghost predicate ProperArray(a: seq<Entry>) { DistinctKeys(a) && forall e :: e in a ==> Proper(e.value) }

  /** The value at a key that the defaults know: the default `d` overlaid with the saved value `v`. */
  function Overlay(d: Node, v: Node): Node
    decreases d, 1
  {
    if d.Array? && v.Array? then
      if v.entries == [] then d else Array(Merge(d.entries, v.entries))
    else if d.Array? then d
    else if v != Null && v != Text("") then v
    else d
  }

  /** The default entries in their order, each overlaid with the saved value of its key. */
  function Overlaid(d: seq<Entry>, x: seq<Entry>): (r: seq<Entry>)
    ensures |r| == |d|
    ensures forall i :: 0 <= i < |d| ==> r[i].key == d[i].key
    decreases d, 0
  {
    if d == [] then []
    else
      var saved := Lookup(x, d[0].key);
      [Entry(d[0].key, if saved.Some? then Overlay(d[0].value, saved.value) else d[0].value)] + Overlaid(d[1..], x)
  }

  /** The saved entries whose keys the defaults do not know. */
  function Extras(d: seq<Entry>, x: seq<Entry>): seq<Entry> {
    Filter(x, (e: Entry) => Lookup(d, e.key).None?)
  }

  /** `deepMergeWithDefaults` */
  function Merge(d: seq<Entry>, x: seq<Entry>): seq<Entry>
    decreases d, 2
  {
    Overlaid(d, x) + Extras(d, x)
  }

  // ---------------------------------------------------------------- lookups

  lemma {:induction false} LookupAt(a: seq<Entry>, i: nat)
    requires DistinctKeys(a) && i < |a|
    ensures Lookup(a, a[i].key) == Some(a[i].value)
  {
    if i > 0 {
      assert a[0].key != a[i].key;
      LookupAt(a[1..], i - 1);
    }
  }

  lemma {:induction false} LookupNone(a: seq<Entry>, key: string)
    ensures Lookup(a, key).None? <==> forall i :: 0 <= i < |a| ==> a[i].key != key
  {
    if a != [] {
      LookupNone(a[1..], key);
      assert forall i :: 0 <= i < |a[1..]| ==> a[1..][i] == a[i + 1];
      assert forall i :: 1 <= i < |a| ==> a[i] == a[1..][i - 1];
    }
  }

  lemma {:induction false} LookupAppend(a: seq<Entry>, b: seq<Entry>, key: string)
    ensures Lookup(a + b, key) == if Lookup(a, key).Some? then Lookup(a, key) else Lookup(b, key)
  {
    if a == [] {
      assert a + b == b;
    } else {
      assert (a + b)[1..] == a[1..] + b;
      LookupAppend(a[1..], b, key);
    }
  }

  /** The i-th merged value: the default overlaid with what is saved at its key, if anything. */
  function OverlaidValue(d: seq<Entry>, x: seq<Entry>, i: nat): Node
    requires i < |d|
  {
    var saved := Lookup(x, d[i].key);
    if saved.Some? then Overlay(d[i].value, saved.value) else d[i].value
  }

  lemma {:induction false} OverlaidAt(d: seq<Entry>, x: seq<Entry>, i: nat)
    requires i < |d|
    ensures Overlaid(d, x)[i] == Entry(d[i].key, OverlaidValue(d, x, i))
  {
    if i > 0 { OverlaidAt(d[1..], x, i - 1); }
  }

  lemma OverlaidByValues(d: seq<Entry>, x: seq<Entry>, r: seq<Entry>)
    requires |r| == |d|
    requires forall i :: 0 <= i < |d| ==> r[i] == Entry(d[i].key, OverlaidValue(d, x, i))
    ensures Overlaid(d, x) == r
  {
    forall i | 0 <= i < |d| ensures Overlaid(d, x)[i] == r[i] { OverlaidAt(d, x, i); }
  }

  // ---------------------------------------------------------------- the loop

  /** The position of a key, or the length when it is absent. */
  function Position(a: seq<Entry>, key: string): (p: nat)
    ensures p <= |a|
    ensures p < |a| ==> a[p].key == key
    ensures forall i :: 0 <= i < p ==> a[i].key != key
  {
    if a == [] then 0 else if a[0].key == key then 0 else 1 + Position(a[1..], key)
  }

  lemma ValueSnoc(d: seq<Entry>, x: seq<Entry>, e: Entry, i: nat)
    requires DistinctKeys(d) && Lookup(x, e.key).None? && i < |d|
    ensures OverlaidValue(d, x + [e], i)
         == if i == Position(d, e.key) then Overlay(d[i].value, e.value) else OverlaidValue(d, x, i)
  {
    LookupAppend(x, [e], d[i].key);
    var p := Position(d, e.key);
    assert i < p || p < i || i == p;
  }

  lemma OverlaidSnoc(d: seq<Entry>, x: seq<Entry>, e: Entry)
    requires DistinctKeys(d) && Lookup(x, e.key).None?
    ensures
      var p := Position(d, e.key);
      Overlaid(d, x + [e])
      == if p < |d| then Overlaid(d, x)[p := Entry(e.key, Overlay(d[p].value, e.value))] else Overlaid(d, x)
  {
    var p := Position(d, e.key);
    var r := if p < |d| then Overlaid(d, x)[p := Entry(e.key, Overlay(d[p].value, e.value))] else Overlaid(d, x);
    forall i | 0 <= i < |d| ensures r[i] == Entry(d[i].key, OverlaidValue(d, x + [e], i)) {
      OverlaidAt(d, x, i);
      ValueSnoc(d, x, e, i);
    }
    OverlaidByValues(d, x + [e], r);
  }

  /** Merging one more saved entry changes one place: the entry of its key, or the end. */
  lemma MergeSnoc(d: seq<Entry>, x: seq<Entry>, e: Entry)
    requires DistinctKeys(d) && Lookup(x, e.key).None?
    ensures
      var p := Position(d, e.key);
      Merge(d, x + [e]) ==
        if p < |d| then Merge(d, x)[p := Entry(e.key, Overlay(d[p].value, e.value))] else Merge(d, x) + [e]
  {
    var p := Position(d, e.key);
    OverlaidSnoc(d, x, e);
    ExtrasSnoc(d, x, e);
    if p < |d| {
      UpdateLeft(Overlaid(d, x), Extras(d, x), p, Entry(e.key, Overlay(d[p].value, e.value)));
    } else {
      Assoc(Overlaid(d, x), Extras(d, x), [e]);
    }
  }

  lemma ExtrasSnoc(d: seq<Entry>, x: seq<Entry>, e: Entry)
    ensures Extras(d, x + [e]) == if Position(d, e.key) < |d| then Extras(d, x) else Extras(d, x) + [e]
  {
    LookupNone(d, e.key);
    FilterAppend(x, [e], (f: Entry) => Lookup(d, f.key).None?);
    assert Extras(d, x) + [] == Extras(d, x);
  }

  /** Where the loop finds a key it has not met yet: as in the defaults, with the default value. */
  lemma PositionInMerge(d: seq<Entry>, x: seq<Entry>, key: string)
    requires DistinctKeys(d) && Lookup(x, key).None?
    ensures
      var p, q, m := Position(d, key), Position(Merge(d, x), key), Merge(d, x);
      if p < |d| then q == p && m[p] == d[p] else q == |m|
  {
    var p, m := Position(d, key), Merge(d, x);
    LookupNone(x, key);
    assert forall i :: 0 <= i < |d| ==> m[i].key == d[i].key;
    forall i | |d| <= i < |m| ensures m[i].key != key {
      assert m[i] in Extras(d, x);
      assert m[i] in x;
    }
    if p < |d| { OverlaidAt(d, x, p); }
  }

  /** The value the loop leaves at a key both sides know. */
  method OverlayValue(d: Node, v: Node) returns (r: Node)
    requires Proper(d) && Proper(v)
    ensures r == Overlay(d, v)
    decreases d, 1
  {
    r := d;
    if d.Array? && v.Array? {
      if v.entries != [] {
        var merged := DeepMerge(d.entries, v.entries);
        r := Array(merged);
      }
    } else if !d.Array? && v != Null && v != Text("") {
      r := v;
    }
  }

  /** `deepMergeWithDefaults` */
  method DeepMerge(d: seq<Entry>, x: seq<Entry>) returns (result: seq<Entry>)
    requires ProperArray(d) && ProperArray(x)
    ensures result == Merge(d, x)
    decreases d, 2
  {
    result := d;
    NothingSaved(d);
    for i := 0 to |x|
      invariant result == Merge(d, x[..i])
    {
      var e := x[i];
      assert e in x;
      assert x[..i + 1] == x[..i] + [e];
      LookupNone(x[..i], e.key);
      MergeSnoc(d, x[..i], e);
      PositionInMerge(d, x[..i], e.key);
      var p := Position(result, e.key);
      if p == |result| {
        result := result + [e];
      } else {
        assert result[p] == d[p] && d[p] in d;
        var value := OverlayValue(result[p].value, e.value);
        result := result[p := Entry(e.key, value)];
      }
    }
    assert x[..|x|] == x;
  }

  lemma {:induction false} NothingSaved(d: seq<Entry>)
    ensures Merge(d, []) == d
  {
    forall i | 0 <= i < |d| ensures Overlaid(d, [])[i] == d[i] { OverlaidAt(d, [], i); }
  }

  // ---------------------------------------------------------------- idempotence

  /** Overlaying a default with itself, or with an overlay of it, changes nothing. */
  lemma {:induction false} OverlayStable(d: Node, v: Node)
    requires Proper(d)
    ensures Overlay(d, d) == d
    ensures Overlay(d, Overlay(d, v)) == Overlay(d, v)
    decreases d, 2
  {
    if d.Array? {
      MergeStable(d.entries, if v.Array? then v.entries else []);
      if v.Array? && v.entries != [] {
        MergeNonEmpty(d.entries, v.entries);
      }
    }
  }

  lemma MergeNonEmpty(d: seq<Entry>, x: seq<Entry>)
    requires x != []
    ensures Merge(d, x) != []
  {
    if d == [] { assert x[0] in Extras(d, x); }
  }

  lemma {:induction false} StableAt(d: seq<Entry>, x: seq<Entry>, i: nat)
    requires ProperArray(d) && i < |d|
    ensures OverlaidValue(d, d, i) == d[i].value
    ensures OverlaidValue(d, Merge(d, x), i) == OverlaidValue(d, x, i)
    decreases d, 0
  {
    assert d[i] in d;
    LookupAt(d, i);
    LookupInMerge(d, x, i);
    var saved := Lookup(x, d[i].key);
    OverlayStable(d[i].value, if saved.Some? then saved.value else d[i].value);
  }

  /** Merging again changes nothing, and the defaults merged with themselves are the defaults. */
  lemma {:induction false} MergeStable(d: seq<Entry>, x: seq<Entry>)
    requires ProperArray(d)
    ensures Merge(d, d) == d
    ensures Merge(d, Merge(d, x)) == Merge(d, x)
    decreases d, 1
  {
    forall i | 0 <= i < |d|
      ensures OverlaidValue(d, d, i) == d[i].value
      ensures OverlaidValue(d, Merge(d, x), i) == OverlaidValue(d, x, i)
    {
      StableAt(d, x, i);
    }
    OverlaidByValues(d, d, d);
    forall i | 0 <= i < |d| ensures Overlaid(d, x)[i] == Entry(d[i].key, OverlaidValue(d, x, i))
        { OverlaidAt(d, x, i); }
    OverlaidByValues(d, Merge(d, x), Overlaid(d, x));
    ExtrasStable(d, x);
  }

  lemma ExtrasStable(d: seq<Entry>, x: seq<Entry>)
    ensures Extras(d, d) == []
    ensures Extras(d, Merge(d, x)) == Extras(d, x)
  {
    forall e | e in Overlaid(d, x) ensures exists i :: 0 <= i < |d| && d[i].key == e.key {
      var i :| 0 <= i < |d| && Overlaid(d, x)[i] == e;
      assert d[i].key == e.key;
    }
    forall e | e in d ensures exists i :: 0 <= i < |d| && d[i].key == e.key {
      var i :| 0 <= i < |d| && d[i] == e;
      assert d[i].key == e.key;
    }
    KnownHaveNoExtras(d, d);
    KnownHaveNoExtras(d, Overlaid(d, x));
    FilterAppend(Overlaid(d, x), Extras(d, x), (e: Entry) => Lookup(d, e.key).None?);
    ExtrasOfExtras(d, x);
  }

  lemma LookupInMerge(d: seq<Entry>, x: seq<Entry>, i: nat)
    requires DistinctKeys(d) && i < |d|
    ensures Lookup(Merge(d, x), d[i].key) == Some(OverlaidValue(d, x, i))
  {
    var o := Overlaid(d, x);
    LookupAppend(o, Extras(d, x), d[i].key);
    LookupAt(o, i);
    OverlaidAt(d, x, i);
  }

  lemma {:induction false} KnownHaveNoExtras(d: seq<Entry>, y: seq<Entry>)
    requires forall e :: e in y ==> exists i :: 0 <= i < |d| && d[i].key == e.key
    ensures Extras(d, y) == []
  {
    if y != [] {
      assert y == [y[0]] + y[1..];
      assert y[0] in y;
      LookupNone(d, y[0].key);
      KnownHaveNoExtras(d, y[1..]);
    }
  }

  lemma ExtrasOfExtras(d: seq<Entry>, x: seq<Entry>)
    ensures Extras(d, Extras(d, x)) == Extras(d, x)
  {
    FilterTwice(x, (e: Entry) => Lookup(d, e.key).None?);
  }

  // ---------------------------------------------------------------- paths

  /** The node a path of keys leads to. */
  function At(n: Node, path: seq<string>): Option<Node>
    decreases |path|
  {
    if path == [] then Some(n)
    else if !n.Array? then None
    else
      var next := Lookup(n.entries, path[0]);
      if next.None? then None else At(next.value, path[1..])
  }

  lemma LookupKnown(d: seq<Entry>, key: string)
    requires Lookup(d, key).Some?
    ensures Position(d, key) < |d|
  {
    LookupNone(d, key);
  }

  /** The merged value at a key: the default alone, the overlay, or the saved value alone. */
  lemma LookupMerged(d: seq<Entry>, x: seq<Entry>, key: string)
    requires DistinctKeys(d)
    ensures
      var dv, xv, r := Lookup(d, key), Lookup(x, key), Lookup(Merge(d, x), key);
      if dv.None? then r == xv
      else r == Some(if xv.Some? then Overlay(dv.value, xv.value) else dv.value)
  {
    if Lookup(d, key).Some? {
      LookupKnown(d, key);
      var p := Position(d, key);
      LookupAt(d, p);
      LookupInMerge(d, x, p);
    } else {
      LookupNone(d, key);
      LookupNone(Overlaid(d, x), key);
      LookupAppend(Overlaid(d, x), Extras(d, x), key);
      LookupExtras(d, x, key);
    }
  }

  lemma {:induction false} LookupExtras(d: seq<Entry>, x: seq<Entry>, key: string)
    requires Lookup(d, key).None?
    ensures Lookup(Extras(d, x), key) == Lookup(x, key)
  {
    if x != [] {
      LookupExtras(d, x[1..], key);
      LookupAppend(if Lookup(d, x[0].key).None? then [x[0]] else [], Extras(d, x[1..]), key);
    }
  }

  lemma {:induction false} LookupProper(d: seq<Entry>, key: string)
    requires forall e :: e in d ==> Proper(e.value)
    ensures Lookup(d, key).Some? ==> Proper(Lookup(d, key).value)
  {
    if d != [] {
      assert d[0] in d;
      LookupProper(d[1..], key);
    }
  }

  /** Every path of the defaults still leads somewhere after the merge, and where the default is an
      array (texts per language) the result is an array too. */
  lemma {:induction false} DefaultPathsSurvive(d: Node, v: Node, path: seq<string>)
    requires Proper(d) && At(d, path).Some?
    ensures At(Overlay(d, v), path).Some?
    ensures At(d, path).value.Array? ==> At(Overlay(d, v), path).value.Array?
    decreases |path|
  {
    if path != [] && v.Array? && v.entries != [] {
      var key := path[0];
      LookupMerged(d.entries, v.entries, key);
      LookupProper(d.entries, key);
      var saved := Lookup(v.entries, key);
      if saved.Some? {
        DefaultPathsSurvive(Lookup(d.entries, key).value, saved.value, path[1..]);
      }
    }
  }

  /** A saved entry at a key the defaults do not know survives unchanged, at any depth, with
      everything below it. */
  lemma {:induction false} UnknownKeysSurvive(d: Node, v: Node, path: seq<string>)
    requires Proper(d) && path != []
    requires At(d, path[..|path| - 1]).Some? && At(d, path[..|path| - 1]).value.Array? && At(d, path).None?
    requires At(v, path).Some?
    ensures At(Overlay(d, v), path) == At(v, path)
    decreases |path|
  {
    var key := path[0];
    LookupMerged(d.entries, v.entries, key);
    LookupProper(d.entries, key);
    if |path| > 1 {
      var init := path[..|path| - 1];
      assert init[0] == key && init[1..] == path[1..][..|path[1..]| - 1];
      UnknownKeysSurvive(Lookup(d.entries, key).value, Lookup(v.entries, key).value, path[1..]);
    }
  }

  /** At every path to a scalar default, at any depth, the saved value wins if there is one and it is
      neither null nor the empty string; otherwise the default stands. */
  lemma {:induction false} ScalarsOverlaid(d: Node, v: Node, path: seq<string>)
    requires Proper(d) && At(d, path).Some? && !At(d, path).value.Array?
    ensures At(Overlay(d, v), path)
         == if At(v, path).Some? && At(v, path).value != Null && At(v, path).value != Text("")
            then At(v, path) else At(d, path)
    decreases |path|
  {
    if path != [] && v.Array? && v.entries != [] {
      var key := path[0];
      LookupMerged(d.entries, v.entries, key);
      LookupProper(d.entries, key);
      var saved := Lookup(v.entries, key);
      if saved.Some? {
        ScalarsOverlaid(Lookup(d.entries, key).value, saved.value, path[1..]);
      }
    }
  }

  // ---------------------------------------------------------------- the accessor

  /** Reading `translations`: what is stored, decoded, or the defaults when that is no array. */
  function Read(defaults: seq<Entry>, stored: Node): seq<Entry> {
    if stored.Array? then Merge(defaults, stored.entries) else defaults
  }

  /** Reading translations, writing them back and reading again yields the same translations. */
  lemma ReadAfterWrite(defaults: seq<Entry>, stored: Node)
    requires ProperArray(defaults)
    ensures Read(defaults, Array(Read(defaults, stored))) == Read(defaults, stored)
  {
    MergeStable(defaults, if stored.Array? then stored.entries else []);
  }

  /** At every path of the defaults the merge is the overlay of what both sides have there. */
  lemma {:induction false} OverlayAt(d: Node, v: Node, path: seq<string>)
    requires Proper(d) && At(d, path).Some?
    ensures At(Overlay(d, v), path)
         == if At(v, path).Some? then Some(Overlay(At(d, path).value, At(v, path).value)) else At(d, path)
    decreases |path|
  {
    if path != [] && v.Array? && v.entries != [] {
      var key := path[0];
      LookupMerged(d.entries, v.entries, key);
      LookupProper(d.entries, key);
      var saved := Lookup(v.entries, key);
      if saved.Some? {
        OverlayAt(Lookup(d.entries, key).value, saved.value, path[1..]);
      }
    }
  }

  lemma ReadIsOverlay(defaults: seq<Entry>, stored: Node)
    ensures Array(Read(defaults, stored)) == Overlay(Array(defaults), stored)
  {
    NothingSaved(defaults);
  }

  /** What reading shows at a path whose default is no array: the saved value if there is one other than
      null and the empty string, else the default. */
  lemma ReadScalar(defaults: seq<Entry>, stored: Node, path: seq<string>)
    requires ProperArray(defaults) && At(Array(defaults), path).Some? && !At(Array(defaults), path).value.Array?
    ensures At(Array(Read(defaults, stored)), path)
         == if At(stored, path) in {None, Some(Null), Some(Text(""))} then At(Array(defaults), path)
            else At(stored, path)
  {
    ReadIsOverlay(defaults, stored);
    ScalarsOverlaid(Array(defaults), stored, path);
  }

  /** What it shows at a path whose default is an array: the default as it is when nothing, no array or an
      empty array is saved there, else the two arrays merged. */
  lemma ReadArray(defaults: seq<Entry>, stored: Node, path: seq<string>)
    requires ProperArray(defaults) && At(Array(defaults), path).Some? && At(Array(defaults), path).value.Array?
    ensures
      var saved, standard := At(stored, path), At(Array(defaults), path).value;
      At(Array(Read(defaults, stored)), path)
      == Some(if saved.None? || !saved.value.Array? || saved.value == Array([]) then standard
              else Array(Merge(standard.entries, saved.value.entries)))
  {
    ReadIsOverlay(defaults, stored);
    OverlayAt(Array(defaults), stored, path);
  }

  /** And at a key that the defaults do not know, in an array that they do: what is saved. */
  lemma ReadUnknown(defaults: seq<Entry>, stored: Node, path: seq<string>)
    requires ProperArray(defaults) && path != []
    requires At(Array(defaults), path[..|path| - 1]).Some? && At(Array(defaults), path[..|path| - 1]).value.Array?
    requires At(Array(defaults), path).None? && At(stored, path).Some?
    ensures At(Array(Read(defaults, stored)), path) == At(stored, path)
  {
    ReadIsOverlay(defaults, stored);
    UnknownKeysSurvive(Array(defaults), stored, path);
  }
}
