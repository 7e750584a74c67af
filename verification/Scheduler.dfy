/** The set rotation: discovery, scheduled scans, failed scans and edits as steps on the two
    tables they touch, the invariant every run keeps, and what a run of scans covers. */
module Scheduler {
  import opened Php
  import opened PageSets

  datatype DomainRow = DomainRow(
    currentCycle: nat,
    currentSetIndex: nat,
    autoPriorityPages: seq<Page>,
    priorityPages: seq<Page>,
    discoveredPagesCount: nat,
    lastScanAt: Option<int>,
    lastDiscoveryAt: Option<int>)

  datatype Db = Db(domains: map<int, DomainRow>, sets: seq<PageSetRow>)

  // ---------------------------------------------------------------- steps

  function DeleteSetsOf(t: seq<PageSetRow>, d: int): seq<PageSetRow> {
    Filter(t, (r: PageSetRow) => r.domainId != d)
  }

  /** `discoverAndOrganize` once the pages have been organised into newSets. */
  function Discover(db: Db, d: int, newSets: seq<seq<Page>>, auto: seq<Page>, total: nat, now: int): Db
    requires d in db.domains
  {
    var dom := db.domains[d];
    Db(db.domains[d := dom.(autoPriorityPages := auto, discoveredPagesCount := total,
                            currentSetIndex := 0, lastDiscoveryAt := Some(now))],
       DeleteSetsOf(db.sets, d) + ChunkRows(d, dom.currentCycle, 0, newSets))
  }

  /** The effect of a scan that aborts after the split and before the set is marked. */
  function ScanFail(db: Db, d: int, m: int): Db
    requires d in db.domains
  {
    var next := NextPageSet(db.sets, d, db.domains[d].currentCycle);
    if next.None? then db else db.(sets := Rebalanced(db.sets, next.value, m))
  }

  function MarkScanned(t: seq<PageSetRow>, p: nat, now: int, resultId: int): seq<PageSetRow>
    requires p < |t|
  {
    t[p := t[p].(lastScannedAt := Some(now), scanResultId := Some(resultId))]
  }

  function RollRow(r: PageSetRow, d: int, c: nat): PageSetRow {
    if Of(r, d, c) then r.(cycleNumber := c + 1, lastScannedAt := None, scanResultId := None) else r
  }

  function Roll(t: seq<PageSetRow>, d: int, c: nat): (r: seq<PageSetRow>)
    ensures |r| == |t|
  {
    seq(|t|, i requires 0 <= i < |t| => RollRow(t[i], d, c))
  }

  /** Marking the set at p, then either rolling the domain into its next cycle or moving the cursor. */
  function Advance(db: Db, d: int, p: nat, now: int, resultId: int): Db
    requires d in db.domains && p < |db.sets|
  {
    var dom := db.domains[d];
    var marked := MarkScanned(db.sets, p, now, resultId);
    if Remaining(marked, d, dom.currentCycle) == 0 then
      Db(db.domains[d := dom.(currentCycle := dom.currentCycle + 1, currentSetIndex := 0)],
         Roll(marked, d, dom.currentCycle))
    else
      Db(db.domains[d := dom.(currentSetIndex := marked[p].setIndex + 1)], marked)
  }

  function Touch(db: Db, d: int, now: int): Db
    requires d in db.domains
  {
    db.(domains := db.domains[d := db.domains[d].(lastScanAt := Some(now))])
  }

  /** The effect of a scan that completes. */
  function ScanOk(db: Db, d: int, m: int, now: int, resultId: int): Db
    requires d in db.domains
  {
    var next := NextPageSet(db.sets, d, db.domains[d].currentCycle);
    if next.None? then Touch(db, d, now)
    else Touch(Advance(ScanFail(db, d, m), d, next.value, now, resultId), d, now)
  }

  /** The set pages a completed scan takes. */
  function Taken(db: Db, d: int, m: int): seq<Page>
    requires d in db.domains
  {
    var next := NextPageSet(db.sets, d, db.domains[d].currentCycle);
    if next.None? then [] else Rebalanced(db.sets, next.value, m)[next.value].pages
  }

  predicate IsSet(r: PageSetRow, d: int, c: nat, index: nat) { Of(r, d, c) && r.setIndex == index }

  /** The position of the first row of (d, c) at an index, or the length when there is none. */
  function SetPosition(t: seq<PageSetRow>, d: int, c: nat, index: nat): (p: nat)
    ensures p <= |t|
    ensures p < |t| ==> IsSet(t[p], d, c, index)
    ensures forall q :: 0 <= q < p ==> !IsSet(t[q], d, c, index)
  {
    if t == [] then 0
    else
      var p := SetPosition(t[..|t| - 1], d, c, index);
      if p < |t| - 1 || IsSet(t[p], d, c, index) then p else |t|
  }

  function EditedRow(r: PageSetRow, pages: seq<Page>): PageSetRow { r.(pages := pages, pageCount := |pages|) }

  /** An operator's edit of one set of the current cycle. */
  function EditSet(t: seq<PageSetRow>, d: int, c: nat, index: nat, pages: seq<Page>): (r: seq<PageSetRow>)
    ensures |r| == |t|
  {
    var p := SetPosition(t, d, c, index);
    if p < |t| then t[p := EditedRow(t[p], pages)] else t
  }

  datatype Event =
    | Discovered(newSets: seq<seq<Page>>, auto: seq<Page>, total: nat)
    | ScanCompleted(chunkSize: nat, resultId: int)
    | ScanAborted(chunkSize: nat)
    | SetEdited(index: nat, pages: seq<Page>)

  function Step(db: Db, d: int, e: Event, now: int): Db
    requires d in db.domains
  {
    match e
    case Discovered(newSets, auto, total) => Discover(db, d, newSets, auto, total, now)
    case ScanCompleted(m, resultId) => ScanOk(db, d, m, now, resultId)
    case ScanAborted(m) => ScanFail(db, d, m)
    case SetEdited(index, pages) => db.(sets := EditSet(db.sets, d, db.domains[d].currentCycle, index, pages))
  }

  // ---------------------------------------------------------------- what a table stands for

  predicate At(t: seq<PageSetRow>, p: int, d: int, i: int) {
    0 <= p < |t| && t[p].domainId == d && t[p].setIndex == i
  }

  ghost predicate Indexed(t: seq<PageSetRow>, d: int, i: int) {
    exists p :: At(t, p, d, i)
  }

  predicate RowFits(r: PageSetRow, c: nat, k: nat, sets: seq<seq<Page>>) {
    && r.cycleNumber == c
    && r.setIndex < |sets|
    && r.pages == sets[r.setIndex]
    && r.pageCount == |r.pages|
    && (r.lastScannedAt.Some? <==> r.setIndex < k)
    && (r.scanResultId.Some? <==> r.setIndex < k)
  }

  ghost predicate DistinctIndices(t: seq<PageSetRow>, d: int) {
    forall p, q :: 0 <= p < q < |t| && t[p].domainId == d && t[q].domainId == d ==> t[p].setIndex != t[q].setIndex
  }

  /** The rows of domain d, read by index, are exactly `sets`: one row for each index 0..n-1, all in
      cycle c, the first k scanned and no other. */
  ghost predicate Lists(t: seq<PageSetRow>, d: int, c: nat, k: nat, sets: seq<seq<Page>>) {
    && (forall p :: 0 <= p < |t| && t[p].domainId == d ==> RowFits(t[p], c, k, sets))
    && DistinctIndices(t, d)
    && (forall i :: 0 <= i < |sets| ==> Indexed(t, d, i))
  }

  /** The stored cycle and cursor of domain d agree with its rows, and a set is left to scan. */
  ghost predicate Represents(db: Db, d: int, sets: seq<seq<Page>>) {
    && d in db.domains
    && Lists(db.sets, d, db.domains[d].currentCycle, db.domains[d].currentSetIndex, sets)
    && (if sets == [] then db.domains[d].currentSetIndex == 0 else db.domains[d].currentSetIndex < |sets|)
  }

  /** The sets after the set at k has been rebalanced. */
  function SplitSets(sets: seq<seq<Page>>, k: nat, m: nat): (r: seq<seq<Page>>)
    requires k < |sets| && m >= 1
    ensures |r| >= |sets|
  {
    sets[..k] + Pieces(sets[k], m) + sets[k + 1..]
  }

  // ---------------------------------------------------------------- each step keeps the invariant

  /** The query returns the row the cursor points at; it finds nothing only on an empty table. */
  lemma NextAtCursor(db: Db, d: int, sets: seq<seq<Page>>)
    requires Represents(db, d, sets)
    ensures
      var dom := db.domains[d];
      var next := NextPageSet(db.sets, d, dom.currentCycle);
      && (next.Some? <==> sets != [])
      && (next.Some? ==> At(db.sets, next.value, d, dom.currentSetIndex))
  {
    var dom := db.domains[d];
    var next := NextPageSet(db.sets, d, dom.currentCycle);
    if sets != [] {
      assert Indexed(db.sets, d, dom.currentSetIndex);
      var q :| At(db.sets, q, d, dom.currentSetIndex);
    }
  }

  lemma SplitDistinct(t: seq<PageSetRow>, d: int, c: nat, k: nat, sets: seq<seq<Page>>, p: nat,
      chunks: seq<seq<Page>>, q: nat, r: nat)
    requires Lists(t, d, c, k, sets) && k < |sets| && At(t, p, d, k)
    requires chunks != [] && q < r < |t| + |chunks| - 1
    requires SplitRowAt(t, p, chunks, q).domainId == d && SplitRowAt(t, p, chunks, r).domainId == d
    ensures SplitRowAt(t, p, chunks, q).setIndex != SplitRowAt(t, p, chunks, r).setIndex
  {
    assert RowFits(t[p], c, k, sets);
    if q < |t| { assert RowFits(t[q], c, k, sets); }
    if r < |t| { assert RowFits(t[r], c, k, sets); }
  }

  lemma SplitIndexed(t: seq<PageSetRow>, d: int, c: nat, k: nat, sets: seq<seq<Page>>, p: nat,
      chunks: seq<seq<Page>>, i: nat)
    requires Lists(t, d, c, k, sets) && k < |sets| && At(t, p, d, k)
    requires chunks != [] && i < |sets| + |chunks| - 1
    ensures Indexed(SplitRow(t, p, chunks), d, i)
  {
    var u := SplitRow(t, p, chunks);
    assert RowFits(t[p], c, k, sets);
    if i == k {
      SplitRows(t, p, chunks, p);
      assert At(u, p, d, i);
    } else if k < i < k + |chunks| {
      SplitRows(t, p, chunks, |t| + (i - k - 1));
      assert At(u, |t| + (i - k - 1), d, i);
    } else {
      var from := if i < k then i else i - (|chunks| - 1);
      assert Indexed(t, d, from);
      var q :| At(t, q, d, from);
      assert RowFits(t[q], c, k, sets);
      SplitRows(t, p, chunks, q);
      assert At(u, q, d, i);
    }
  }

  lemma ListsSplit(t: seq<PageSetRow>, d: int, c: nat, k: nat, sets: seq<seq<Page>>, p: nat, chunks: seq<seq<Page>>)
    requires Lists(t, d, c, k, sets) && k < |sets| && At(t, p, d, k)
    requires chunks != []
    ensures Lists(SplitRow(t, p, chunks), d, c, k, sets[..k] + chunks + sets[k + 1..])
  {
    var u := SplitRow(t, p, chunks);
    var after := sets[..k] + chunks + sets[k + 1..];
    forall q | 0 <= q < |u| ensures u[q] == SplitRowAt(t, p, chunks, q) { SplitRows(t, p, chunks, q); }
    forall q | 0 <= q < |u| && u[q].domainId == d ensures RowFits(u[q], c, k, after) {
    }
    forall q, r | 0 <= q < r < |u| && u[q].domainId == d && u[r].domainId == d ensures u[q].setIndex != u[r].setIndex {
      SplitDistinct(t, d, c, k, sets, p, chunks, q, r);
    }
    forall i | 0 <= i < |after| ensures Indexed(u, d, i) { SplitIndexed(t, d, c, k, sets, p, chunks, i); }
  }

  /** An aborted scan: the sets may be split, the cursor and the cycle stay. */
  lemma ScanFailRepresents(db: Db, d: int, m: nat, sets: seq<seq<Page>>)
    requires Represents(db, d, sets) && m >= 1
    ensures
      var k := db.domains[d].currentSetIndex;
      Represents(ScanFail(db, d, m), d, if sets == [] then [] else SplitSets(sets, k, m))
  {
    NextAtCursor(db, d, sets);
    if sets != [] {
      var dom := db.domains[d];
      var k := dom.currentSetIndex;
      var p := NextPageSet(db.sets, d, dom.currentCycle).value;
      if |db.sets[p].pages| <= m {
        assert SplitSets(sets, k, m) == sets;
      } else {
        ListsSplit(db.sets, d, dom.currentCycle, k, sets, p, Chunk(sets[k], m));
      }
    }
  }

  lemma AdvanceRepresents(db: Db, d: int, p: nat, now: int, resultId: int, sets: seq<seq<Page>>)
    requires Represents(db, d, sets) && sets != []
    requires At(db.sets, p, d, db.domains[d].currentSetIndex)
    ensures
      var before, after := db.domains[d], Advance(db, d, p, now, resultId).domains[d];
      var k := before.currentSetIndex;
      && Represents(Advance(db, d, p, now, resultId), d, sets)
      && after.currentCycle == before.currentCycle + (if k + 1 == |sets| then 1 else 0)
      && after.currentSetIndex == (if k + 1 == |sets| then 0 else k + 1)
  {
    var dom := db.domains[d];
    var c, k := dom.currentCycle, dom.currentSetIndex;
    var t := db.sets;
    var marked := MarkScanned(t, p, now, resultId);
    forall i | 0 <= i < |sets| ensures Indexed(marked, d, i) {
      assert Indexed(t, d, i);
      var q :| At(t, q, d, i);
      assert At(marked, q, d, i);
    }
    assert Lists(marked, d, c, k + 1, sets);
    if k + 1 < |sets| {
      assert Indexed(marked, d, k + 1);
      var q :| At(marked, q, d, k + 1);
      assert Of(marked[q], d, c) && marked[q].lastScannedAt.None?;
    } else {
      var rolled := Roll(marked, d, c);
      forall i | 0 <= i < |sets| ensures Indexed(rolled, d, i) {
        assert Indexed(marked, d, i);
        var q :| At(marked, q, d, i);
        assert At(rolled, q, d, i);
      }
      assert Lists(rolled, d, c + 1, 0, sets);
    }
  }

  /** A completed scan: what it takes, and where the cursor and the cycle go. */
  lemma ScanOkRepresents(db: Db, d: int, m: nat, now: int, resultId: int, sets: seq<seq<Page>>)
    requires Represents(db, d, sets) && m >= 1 && sets != []
    ensures
      var before, after := db.domains[d], ScanOk(db, d, m, now, resultId).domains[d];
      var k := before.currentSetIndex;
      var split := SplitSets(sets, k, m);
      && Represents(ScanOk(db, d, m, now, resultId), d, split)
      && Taken(db, d, m) == split[k]
      && after.currentCycle == before.currentCycle + (if k + 1 == |split| then 1 else 0)
      && after.currentSetIndex == (if k + 1 == |split| then 0 else k + 1)
  {
    NextAtCursor(db, d, sets);
    ScanFailRepresents(db, d, m, sets);
    var k := db.domains[d].currentSetIndex;
    var p := NextPageSet(db.sets, d, db.domains[d].currentCycle).value;
    var failed := ScanFail(db, d, m);
    assert At(failed.sets, p, d, k);
    AdvanceRepresents(failed, d, p, now, resultId, SplitSets(sets, k, m));
  }

  /** What a completed scan records: the time on the domain and, unless the cycle ends with it, the
      time and the result on the set it took. */
  lemma ScanRecords(db: Db, d: int, m: nat, now: int, resultId: int, sets: seq<seq<Page>>)
    requires Represents(db, d, sets) && m >= 1
    ensures
      var k, after := db.domains[d].currentSetIndex, ScanOk(db, d, m, now, resultId);
      && after.domains[d].lastScanAt == Some(now)
      && (after.domains[d].currentSetIndex == k + 1 ==>
            exists p :: At(after.sets, p, d, k) && after.sets[p].lastScannedAt == Some(now)
                        && after.sets[p].scanResultId == Some(resultId))
  {
    NextAtCursor(db, d, sets);
    if sets != [] {
      var k, after := db.domains[d].currentSetIndex, ScanOk(db, d, m, now, resultId);
      var p := NextPageSet(db.sets, d, db.domains[d].currentCycle).value;
      RowSurvives(db.sets, p, m);
      ScanOkRepresents(db, d, m, now, resultId, sets);
      if after.domains[d].currentSetIndex == k + 1 { assert At(after.sets, p, d, k); }
    }
  }

  lemma DiscoverRepresents(db: Db, d: int, newSets: seq<seq<Page>>, auto: seq<Page>, total: nat, now: int)
    requires d in db.domains
    ensures Represents(Discover(db, d, newSets, auto, total, now), d, newSets)
    ensures
      var before, after := db.domains[d], Discover(db, d, newSets, auto, total, now).domains[d];
      && after.currentCycle == before.currentCycle && after.currentSetIndex == 0
      && after.autoPriorityPages == auto && after.priorityPages == before.priorityPages
      && after.discoveredPagesCount == total && after.lastDiscoveryAt == Some(now)
  {
    var kept := DeleteSetsOf(db.sets, d);
    assert forall p :: 0 <= p < |kept| ==> kept[p] in kept;
    var u := Discover(db, d, newSets, auto, total, now).sets;
    forall i | 0 <= i < |newSets| ensures Indexed(u, d, i) {
      assert At(u, |kept| + i, d, i);
    }
  }

  /** An edit rewrites the pages of at most one row, one at that index, and rewrites it for certain when
      no other row stands there. */
  lemma EditSetRows(t: seq<PageSetRow>, d: int, c: nat, index: nat, pages: seq<Page>, p: nat)
    requires p < |t|
    ensures
      var r := EditSet(t, d, c, index, pages)[p];
      && (r == t[p] || (IsSet(t[p], d, c, index) && r == EditedRow(t[p], pages)))
      && (IsSet(t[p], d, c, index) && (forall q :: 0 <= q < |t| && q != p ==> !IsSet(t[q], d, c, index)) ==>
            r == EditedRow(t[p], pages))
  {
    var k := SetPosition(t, d, c, index);
    assert k == p || k == |t| || IsSet(t[k], d, c, index);
  }

  lemma EditRepresents(db: Db, d: int, index: nat, pages: seq<Page>, sets: seq<seq<Page>>)
    requires Represents(db, d, sets)
    ensures
      var u := db.(sets := EditSet(db.sets, d, db.domains[d].currentCycle, index, pages));
      Represents(u, d, if index < |sets| then sets[index := pages] else sets)
  {
    var c := db.domains[d].currentCycle;
    var t, u := db.sets, EditSet(db.sets, d, c, index, pages);
    var after := if index < |sets| then sets[index := pages] else sets;
    forall i | 0 <= i < |after| ensures Indexed(u, d, i) {
      assert Indexed(t, d, i);
      var q :| At(t, q, d, i);
      assert At(u, q, d, i);
    }
  }

  // ---------------------------------------------------------------- domains do not interfere

  function RowsOf(t: seq<PageSetRow>, d: int): seq<PageSetRow> {
    Filter(t, (r: PageSetRow) => r.domainId == d)
  }

  ghost predicate NoneAt(t: seq<PageSetRow>, d: int, i: nat) {
    forall r :: r in t && r.domainId == d ==> r.setIndex != i
  }

  lemma HeadDistinct(h: PageSetRow, tail: seq<PageSetRow>, d: int)
    ensures DistinctIndices([h] + tail, d)
      <==> DistinctIndices(tail, d) && (h.domainId == d ==> NoneAt(tail, d, h.setIndex))
  {
    var t := [h] + tail;
    assert forall q :: 0 <= q < |tail| ==> t[q + 1] == tail[q];
    if DistinctIndices(t, d) {
      forall p, q | 0 <= p < q < |tail| && tail[p].domainId == d && tail[q].domainId == d
        ensures tail[p].setIndex != tail[q].setIndex
      {
        assert t[p + 1].setIndex != t[q + 1].setIndex;
      }
      forall r | r in tail && r.domainId == d && h.domainId == d ensures r.setIndex != h.setIndex {
        var q :| 0 <= q < |tail| && tail[q] == r;
        assert t[0].setIndex != t[q + 1].setIndex;
      }
    }
    if DistinctIndices(tail, d) && (h.domainId == d ==> NoneAt(tail, d, h.setIndex)) {
      forall p, q | 0 <= p < q < |t| && t[p].domainId == d && t[q].domainId == d
          ensures t[p].setIndex != t[q].setIndex {
        assert tail[q - 1] in tail;
        if p > 0 { assert tail[p - 1].setIndex != tail[q - 1].setIndex; }
      }
    }
  }

  lemma {:induction false} FilterKeepsDistinct(t: seq<PageSetRow>, d: int, keep: PageSetRow -> bool)
    requires DistinctIndices(t, d)
    ensures DistinctIndices(Filter(t, keep), d)
  {
    if t != [] {
      var rest := Filter(t[1..], keep);
      assert t == [t[0]] + t[1..];
      HeadDistinct(t[0], t[1..], d);
      FilterKeepsDistinct(t[1..], d, keep);
      HeadDistinct(t[0], rest, d);
    }
  }

  lemma {:induction false} FilterReflectsDistinct(t: seq<PageSetRow>, d: int, keep: PageSetRow -> bool)
    requires DistinctIndices(Filter(t, keep), d)
    requires forall r :: r in t && r.domainId == d ==> keep(r)
    ensures DistinctIndices(t, d)
  {
    if t != [] {
      var rest := Filter(t[1..], keep);
      assert t == [t[0]] + t[1..];
      if keep(t[0]) {
        assert Filter(t, keep) == [t[0]] + rest;
        HeadDistinct(t[0], rest, d);
      } else {
        assert Filter(t, keep) == rest;
      }
      FilterReflectsDistinct(t[1..], d, keep);
      forall r | r in t[1..] && r.domainId == d && t[0].domainId == d ensures r.setIndex != t[0].setIndex {
        assert r in rest;
      }
      HeadDistinct(t[0], t[1..], d);
    }
  }

  lemma IndexedOwnRows(t: seq<PageSetRow>, d: int, i: int)
    ensures Indexed(t, d, i) <==> Indexed(RowsOf(t, d), d, i)
  {
    var own := RowsOf(t, d);
    if Indexed(t, d, i) {
      var p :| At(t, p, d, i);
      assert t[p] in own;
      var q :| 0 <= q < |own| && own[q] == t[p];
      assert At(own, q, d, i);
    }
    if Indexed(own, d, i) {
      var p :| At(own, p, d, i);
      assert own[p] in own;
      var q :| 0 <= q < |t| && t[q] == own[p];
      assert At(t, q, d, i);
    }
  }

  /** What a table stands for in domain d is a matter of d's own rows alone. */
  lemma ListsOwnRows(t: seq<PageSetRow>, d: int, c: nat, k: nat, sets: seq<seq<Page>>)
    requires Lists(t, d, c, k, sets)
    ensures Lists(RowsOf(t, d), d, c, k, sets)
  {
    var own := RowsOf(t, d);
    FilterKeepsDistinct(t, d, (r: PageSetRow) => r.domainId == d);
    forall p | 0 <= p < |own| ensures own[p] in t { assert own[p] in own; }
    forall i ensures Indexed(t, d, i) <==> Indexed(own, d, i) { IndexedOwnRows(t, d, i); }
  }

  lemma ListsFromOwnRows(t: seq<PageSetRow>, d: int, c: nat, k: nat, sets: seq<seq<Page>>)
    requires Lists(RowsOf(t, d), d, c, k, sets)
    ensures Lists(t, d, c, k, sets)
  {
    var own := RowsOf(t, d);
    FilterReflectsDistinct(t, d, (r: PageSetRow) => r.domainId == d);
    forall p | 0 <= p < |t| && t[p].domainId == d ensures RowFits(t[p], c, k, sets) {
      assert t[p] in own;
      var q :| 0 <= q < |own| && own[q] == t[p];
    }
    forall i ensures Indexed(t, d, i) <==> Indexed(own, d, i) { IndexedOwnRows(t, d, i); }
  }

  lemma {:induction false} RowsOfPointwise(t: seq<PageSetRow>, u: seq<PageSetRow>, d: int)
    requires |t| == |u|
    requires forall i :: 0 <= i < |t| && (t[i].domainId == d || u[i].domainId == d) ==> u[i] == t[i]
    ensures RowsOf(t, d) == RowsOf(u, d)
  {
    if t != [] {
      RowsOfPointwise(t[1..], u[1..], d);
    }
  }

  lemma {:induction false} RowsOfDeleted(t: seq<PageSetRow>, e: int, d: int)
    requires e != d
    ensures RowsOf(DeleteSetsOf(t, e), d) == RowsOf(t, d)
  {
    if t != [] {
      RowsOfDeleted(t[1..], e, d);
      var head := if t[0].domainId != e then [t[0]] else [];
      FilterAppend(head, DeleteSetsOf(t[1..], e), (r: PageSetRow) => r.domainId == d);
    }
  }

  lemma {:induction false} RowsOfNone(t: seq<PageSetRow>, d: int)
    requires forall i :: 0 <= i < |t| ==> t[i].domainId != d
    ensures RowsOf(t, d) == []
  {
    if t != [] {
      RowsOfNone(t[1..], d);
    }
  }

  lemma RowsOfAppended(t: seq<PageSetRow>, u: seq<PageSetRow>, added: seq<PageSetRow>, d: int)
    requires |t| == |u|
    requires forall i :: 0 <= i < |t| && (t[i].domainId == d || u[i].domainId == d) ==> u[i] == t[i]
    requires forall i :: 0 <= i < |added| ==> added[i].domainId != d
    ensures RowsOf(u + added, d) == RowsOf(t, d)
  {
    RowsOfPointwise(t, u, d);
    RowsOfNone(added, d);
    FilterAppend(u, added, (r: PageSetRow) => r.domainId == d);
  }

  lemma RebalancedOthers(t: seq<PageSetRow>, p: nat, m: int, d: int)
    requires p < |t| && t[p].domainId != d
    ensures RowsOf(Rebalanced(t, p, m), d) == RowsOf(t, d)
  {
    if m >= 1 && |t[p].pages| > m {
      var chunks := Chunk(t[p].pages, m);
      var u := SplitRow(t, p, chunks);
      assert u == u[..|t|] + u[|t|..];
      forall q | 0 <= q < |u| ensures u[q] == SplitRowAt(t, p, chunks, q) { SplitRows(t, p, chunks, q); }
      RowsOfAppended(t, u[..|t|], u[|t|..], d);
    }
  }

  lemma RowSurvives(t: seq<PageSetRow>, p: nat, m: int)
    requires p < |t|
    ensures |Rebalanced(t, p, m)| >= |t| && Rebalanced(t, p, m)[p].domainId == t[p].domainId
    ensures Rebalanced(t, p, m)[p].setIndex == t[p].setIndex
  {
  }

  lemma AdvanceOthers(db: Db, e: int, p: nat, now: int, resultId: int, d: int)
    requires e in db.domains && d != e && p < |db.sets| && db.sets[p].domainId == e
    ensures RowsOf(Advance(db, e, p, now, resultId).sets, d) == RowsOf(db.sets, d)
  {
    RowsOfPointwise(db.sets, Advance(db, e, p, now, resultId).sets, d);
  }

  lemma DiscoverOthers(t: seq<PageSetRow>, e: int, c: nat, newSets: seq<seq<Page>>, d: int)
    requires d != e
    ensures RowsOf(DeleteSetsOf(t, e) + ChunkRows(e, c, 0, newSets), d) == RowsOf(t, d)
  {
    var kept := DeleteSetsOf(t, e);
    RowsOfDeleted(t, e, d);
    RowsOfAppended(kept, kept, ChunkRows(e, c, 0, newSets), d);
  }

  lemma ScanFailOthers(db: Db, e: int, m: int, d: int)
    requires e in db.domains && d != e
    ensures RowsOf(ScanFail(db, e, m).sets, d) == RowsOf(db.sets, d)
  {
    var next := NextPageSet(db.sets, e, db.domains[e].currentCycle);
    if next.Some? { RebalancedOthers(db.sets, next.value, m, d); }
  }

  lemma ScanOkOthers(db: Db, e: int, m: int, now: int, resultId: int, d: int)
    requires e in db.domains && d != e
    ensures RowsOf(ScanOk(db, e, m, now, resultId).sets, d) == RowsOf(db.sets, d)
  {
    var next := NextPageSet(db.sets, e, db.domains[e].currentCycle);
    ScanFailOthers(db, e, m, d);
    if next.Some? {
      RowSurvives(db.sets, next.value, m);
      AdvanceOthers(ScanFail(db, e, m), e, next.value, now, resultId, d);
    }
  }

  lemma EditOthers(t: seq<PageSetRow>, e: int, c: nat, index: nat, pages: seq<Page>, d: int)
    requires d != e
    ensures RowsOf(EditSet(t, e, c, index, pages), d) == RowsOf(t, d)
  {
    RowsOfPointwise(t, EditSet(t, e, c, index, pages), d);
  }

  /** A step of one domain leaves the row and the sets of every other domain exactly as they were. */
  lemma StepFrame(db: Db, e: int, event: Event, now: int, d: int)
    requires e in db.domains && d != e
    ensures
      var after := Step(db, e, event, now);
      && after.domains - {e} == db.domains - {e}
      && after.domains.Keys == db.domains.Keys
      && RowsOf(after.sets, d) == RowsOf(db.sets, d)
  {
    var c := db.domains[e].currentCycle;
    match event
    case Discovered(newSets, auto, total) => DiscoverOthers(db.sets, e, c, newSets, d);
    case ScanCompleted(m, resultId) => ScanOkOthers(db, e, m, now, resultId, d);
    case ScanAborted(m) => ScanFailOthers(db, e, m, d);
    case SetEdited(index, pages) => EditOthers(db.sets, e, c, index, pages, d);
  }

  // ---------------------------------------------------------------- reachable states

  ghost predicate Consistent(db: Db, d: int) {
    exists sets :: Represents(db, d, sets)
  }

  datatype Action = Action(domain: int, event: Event, now: int)

  /** The configured chunk size never drops below 1. */
  predicate Enabled(a: Action) {
    match a.event
    case ScanCompleted(m, _) => m >= 1
    case ScanAborted(m) => m >= 1
    case _ => true
  }

  function Apply(db: Db, a: Action): Db {
    if a.domain in db.domains then Step(db, a.domain, a.event, a.now) else db
  }

  function Run(db: Db, actions: seq<Action>): Db
    decreases |actions|
  {
    if actions == [] then db else Run(Apply(db, actions[0]), actions[1..])
  }

  lemma StepConsistent(db: Db, d: int, event: Event, now: int)
    requires Consistent(db, d) && Enabled(Action(d, event, now))
    ensures Consistent(Step(db, d, event, now), d)
  {
    var sets :| Represents(db, d, sets);
    var after := Step(db, d, event, now);
    match event
    case Discovered(newSets, auto, total) =>
      DiscoverRepresents(db, d, newSets, auto, total, now);
    case ScanCompleted(m, resultId) =>
      NextAtCursor(db, d, sets);
      if sets != [] {
        ScanOkRepresents(db, d, m, now, resultId, sets);
      } else {
        assert Represents(after, d, sets);
      }
    case ScanAborted(m) =>
      ScanFailRepresents(db, d, m, sets);
    case SetEdited(index, pages) =>
      EditRepresents(db, d, index, pages, sets);
  }

  lemma ApplyConsistent(db: Db, a: Action, d: int)
    requires Consistent(db, d) && Enabled(a)
    ensures Consistent(Apply(db, a), d)
  {
    if a.domain == d {
      StepConsistent(db, d, a.event, a.now);
    } else {
      var sets :| Represents(db, d, sets);
      ApplyElsewhere(db, a, d, sets);
    }
  }

  /** An action on another domain leaves what domain d stands for. */
  lemma ApplyElsewhere(db: Db, a: Action, d: int, sets: seq<seq<Page>>)
    requires Represents(db, d, sets) && a.domain != d
    ensures Represents(Apply(db, a), d, sets) && Apply(db, a).domains[d] == db.domains[d]
  {
    if a.domain in db.domains {
      var after, dom := Apply(db, a), db.domains[d];
      StepFrame(db, a.domain, a.event, a.now, d);
      assert d in db.domains - {a.domain};
      ListsOwnRows(db.sets, d, dom.currentCycle, dom.currentSetIndex, sets);
      ListsFromOwnRows(after.sets, d, dom.currentCycle, dom.currentSetIndex, sets);
    }
  }

  /** Whatever order discoveries, completed scans, aborted scans and edits of any domains come in,
      every domain stays consistent. */
  lemma {:induction false} RunConsistent(db: Db, actions: seq<Action>, d: int)
    requires Consistent(db, d)
    requires forall i :: 0 <= i < |actions| ==> Enabled(actions[i])
    ensures Consistent(Run(db, actions), d)
    decreases |actions|
  {
    if actions != [] {
      ApplyConsistent(db, actions[0], d);
      RunConsistent(Apply(db, actions[0]), actions[1..], d);
    }
  }

  /** A domain before its first discovery. */
  lemma FreshDomainConsistent(db: Db, d: int)
    requires d in db.domains && db.domains[d].currentSetIndex == 0
    requires forall p :: 0 <= p < |db.sets| ==> db.sets[p].domainId != d
    ensures Consistent(db, d)
  {
    assert Represents(db, d, []);
  }

  function Scanned(t: seq<PageSetRow>, d: int): seq<PageSetRow> {
    Filter(t, (r: PageSetRow) => r.domainId == d && r.lastScannedAt.Some?)
  }

  /** Rows with distinct indices that are exactly the indices below n are n rows. */
  lemma {:induction false} CountListed(t: seq<PageSetRow>, d: int, n: nat)
    requires forall p :: 0 <= p < |t| ==> t[p].domainId == d && t[p].setIndex < n
    requires DistinctIndices(t, d)
    requires forall i :: 0 <= i < n ==> Indexed(t, d, i)
    ensures |t| == n
  {
    assert |t| > 0 ==> t[0].setIndex < n;
    if n > 0 {
      assert Indexed(t, d, n - 1);
      var p :| At(t, p, d, n - 1);
      var u := t[..p] + t[p + 1..];
      forall i | 0 <= i < n - 1 ensures Indexed(u, d, i) {
        assert Indexed(t, d, i);
        var q :| At(t, q, d, i);
        assert At(u, if q < p then q else q - 1, d, i);
      }
      CountListed(u, d, n - 1);
    }
  }

  lemma ScannedIndexed(t: seq<PageSetRow>, d: int, i: int)
    requires Indexed(t, d, i)
    requires forall p :: At(t, p, d, i) ==> t[p].lastScannedAt.Some?
    ensures Indexed(Scanned(t, d), d, i)
  {
    var p :| At(t, p, d, i);
    var scanned := Scanned(t, d);
    assert t[p] in scanned;
    var q :| 0 <= q < |scanned| && scanned[q] == t[p];
    assert At(scanned, q, d, i);
  }

  lemma ScannedCount(t: seq<PageSetRow>, d: int, c: nat, k: nat, sets: seq<seq<Page>>)
    requires Lists(t, d, c, k, sets) && k <= |sets|
    ensures |Scanned(t, d)| == k
  {
    var scanned := Scanned(t, d);
    FilterKeepsDistinct(t, d, (r: PageSetRow) => r.domainId == d && r.lastScannedAt.Some?);
    forall p | 0 <= p < |scanned| ensures scanned[p].domainId == d && scanned[p].setIndex < k {
      assert scanned[p] in scanned;
    }
    forall i | 0 <= i < k ensures Indexed(scanned, d, i) {
      assert Indexed(t, d, i);
      ScannedIndexed(t, d, i);
    }
    CountListed(scanned, d, k);
  }

  /** What consistency says, row by row: every set of the domain is in its current cycle, the
      indices are exactly 0..n-1, the scanned sets are an index prefix that is not everything, and
      the stored cursor is both the number of scanned sets and the index of the next set. */
  lemma ConsistentMeans(db: Db, d: int)
    requires Consistent(db, d)
    ensures
      var dom := db.domains[d];
      var own := RowsOf(db.sets, d);
      var next := NextPageSet(db.sets, d, dom.currentCycle);
      && (forall p :: 0 <= p < |own| ==>
            && own[p].cycleNumber == dom.currentCycle
            && own[p].setIndex < |own|
            && (own[p].lastScannedAt.Some? <==> own[p].setIndex < dom.currentSetIndex))
      && DistinctIndices(own, d)
      && (forall i :: 0 <= i < |own| ==> Indexed(own, d, i))
      && (own != [] ==> dom.currentSetIndex < |own|)
      && |Scanned(db.sets, d)| == dom.currentSetIndex
      && (next.Some? <==> own != [])
      && (next.Some? ==> At(db.sets, next.value, d, dom.currentSetIndex))
  {
    var sets :| Represents(db, d, sets);
    var dom := db.domains[d];
    NextAtCursor(db, d, sets);
    OwnRowsListed(db.sets, d, dom.currentCycle, dom.currentSetIndex, sets);
    ScannedCount(db.sets, d, dom.currentCycle, dom.currentSetIndex, sets);
  }

  lemma OwnRowsListed(t: seq<PageSetRow>, d: int, c: nat, k: nat, sets: seq<seq<Page>>)
    requires Lists(t, d, c, k, sets)
    ensures Lists(RowsOf(t, d), d, c, k, sets)
    ensures |RowsOf(t, d)| == |sets|
    ensures forall p :: 0 <= p < |RowsOf(t, d)| ==> RowsOf(t, d)[p].domainId == d
  {
    var own := RowsOf(t, d);
    ListsOwnRows(t, d, c, k, sets);
    forall p | 0 <= p < |own| ensures own[p].domainId == d { assert own[p] in own; }
    CountListed(own, d, |sets|);
  }
}
