/** The `domain_page_sets` table: rebalancing an oversized set and picking the next set.
    A table is a sequence of rows in insertion order; a row is named by its position. */
module PageSets {
  import opened Php
  import opened Sequences

  type Page = string

  datatype PageSetRow = PageSetRow(
    domainId: int,
    setIndex: nat,
    pages: seq<Page>,
    pageCount: nat,
    lastScannedAt: Option<int>,
    scanResultId: Option<int>,
    cycleNumber: nat)

  predicate Of(r: PageSetRow, d: int, c: nat) {
    r.domainId == d && r.cycleNumber == c
  }

  // ---------------------------------------------------------------- queries

  /** The first row in `set_index` order among the unscanned rows of domain d in cycle c. */
  function NextPageSet(t: seq<PageSetRow>, d: int, c: nat): (r: Option<nat>)
    ensures r.None? ==> forall q :: 0 <= q < |t| && Of(t[q], d, c) ==> t[q].lastScannedAt.Some?
    ensures r.Some? ==> r.value < |t| && Of(t[r.value], d, c) && t[r.value].lastScannedAt.None?
    ensures r.Some? ==> forall q :: 0 <= q < |t| && Of(t[q], d, c) && t[q].lastScannedAt.None? ==>
                          t[r.value].setIndex <= t[q].setIndex
    ensures r.Some? ==> forall q :: 0 <= q < r.value && Of(t[q], d, c) && t[q].lastScannedAt.None? ==>
                          t[r.value].setIndex < t[q].setIndex
  {
    if t == [] then None
    else
      var last := |t| - 1;
      var best := NextPageSet(t[..last], d, c);
      if Of(t[last], d, c) && t[last].lastScannedAt.None?
         && (best.None? || t[last].setIndex < t[best.value].setIndex)
      then Some(last) else best
  }

  /** `count()` of the unscanned rows of domain d in cycle c. */
  function Remaining(t: seq<PageSetRow>, d: int, c: nat): (n: nat)
    ensures n == 0 <==> forall q :: 0 <= q < |t| && Of(t[q], d, c) ==> t[q].lastScannedAt.Some?
  {
    if t == [] then 0
    else
      var last := |t| - 1;
      assert t == t[..last] + [t[last]];
      Remaining(t[..last], d, c) + if Of(t[last], d, c) && t[last].lastScannedAt.None? then 1 else 0
  }

  // ---------------------------------------------------------------- rebalancing

  function ShiftRow(r: PageSetRow, d: int, c: nat, after: nat, gap: nat): PageSetRow {
    if Of(r, d, c) && r.setIndex > after then r.(setIndex := r.setIndex + gap) else r
  }

  function Shift(t: seq<PageSetRow>, d: int, c: nat, after: nat, gap: nat): (r: seq<PageSetRow>)
    ensures |r| == |t|
  {
    seq(|t|, i requires 0 <= i < |t| => ShiftRow(t[i], d, c, after, gap))
  }

  function ChunkRow(d: int, c: nat, index: nat, pages: seq<Page>): PageSetRow {
    PageSetRow(d, index, pages, |pages|, None, None, c)
  }

  function ChunkRows(d: int, c: nat, first: nat, chunks: seq<seq<Page>>): (r: seq<PageSetRow>)
    ensures |r| == |chunks|
  {
    seq(|chunks|, i requires 0 <= i < |chunks| => ChunkRow(d, c, first + i, chunks[i]))
  }

  lemma ChunkRowsSnoc(d: int, c: nat, first: nat, chunks: seq<seq<Page>>, chunk: seq<Page>)
    ensures ChunkRows(d, c, first, chunks + [chunk])
         == ChunkRows(d, c, first, chunks) + [ChunkRow(d, c, first + |chunks|, chunk)]
  {
  }

  /** The row at p as the split leaves it. */
  function FirstPiece(row: PageSetRow, chunk: seq<Page>): PageSetRow {
    row.(pages := chunk, pageCount := |chunk|, lastScannedAt := None, scanResultId := None)
  }

  /** The row at p keeps the first chunk; the other chunks become new rows after it. */
  function SplitRow(t: seq<PageSetRow>, p: nat, chunks: seq<seq<Page>>): (r: seq<PageSetRow>)
    requires p < |t| && chunks != []
    ensures |r| == |t| + |chunks| - 1
  {
    var row := t[p];
    Shift(t, row.domainId, row.cycleNumber, row.setIndex, |chunks| - 1)[p := FirstPiece(row, chunks[0])]
    + ChunkRows(row.domainId, row.cycleNumber, row.setIndex + 1, chunks[1..])
  }

  /** The table `rebalancePageSet` leaves for the row at position p and limit m. */
  function Rebalanced(t: seq<PageSetRow>, p: nat, m: int): (r: seq<PageSetRow>)
    requires p < |t|
  {
    if m < 1 || |t[p].pages| <= m then t else SplitRow(t, p, Chunk(t[p].pages, m))
  }

  /** A split row by row: the split row keeps its place with the first m pages, unscanned; later rows of
      its domain and cycle move up; the new rows at the end take the indices after it, unscanned. */
  lemma SplitRowByRow(t: seq<PageSetRow>, p: nat, m: nat, i: nat)
    requires p < |t| && 1 <= m < |t[p].pages| && i < |Rebalanced(t, p, m)|
    ensures
      var u, row := Rebalanced(t, p, m), t[p];
      if i == p then
        u[i] == row.(pages := row.pages[..m], pageCount := m, lastScannedAt := None, scanResultId := None)
      else if i < |t| then
        u[i] == (if Of(t[i], row.domainId, row.cycleNumber) && t[i].setIndex > row.setIndex
                 then t[i].(setIndex := t[i].setIndex + (|u| - |t|)) else t[i])
      else
        && Of(u[i], row.domainId, row.cycleNumber) && u[i].setIndex == row.setIndex + 1 + (i - |t|)
        && u[i].pageCount == |u[i].pages| && u[i].lastScannedAt.None? && u[i].scanResultId.None?
  {
  }

  /** The sets a set of pages becomes once it has been rebalanced. */
  function Pieces(pages: seq<Page>, m: nat): (r: seq<seq<Page>>)
    requires m >= 1
    ensures Flatten(r) == pages
    ensures r != []
    ensures forall i :: 0 <= i < |r| ==> |r[i]| <= m
    ensures |r| == if |pages| <= m then 1 else CeilDiv(|pages|, m)
  {
    if |pages| <= m then
      assert Flatten([pages]) == pages;
      [pages]
    else
      ChunkCount(pages, m);
      Chunk(pages, m)
  }

  // ---------------------------------------------------------------- conservation on any table

  /** Pages of the rows of (d, c) at index i, in table order. */
  function PagesAt(t: seq<PageSetRow>, d: int, c: nat, i: nat): seq<Page> {
    if t == [] then []
    else (if Of(t[0], d, c) && t[0].setIndex == i then t[0].pages else []) + PagesAt(t[1..], d, c, i)
  }

  /** Pages of the rows of (d, c) with lo <= index < hi, ordered by index. */
  function PagesBetween(t: seq<PageSetRow>, d: int, c: nat, lo: nat, hi: nat): seq<Page>
    requires lo <= hi
    decreases hi - lo
  {
    if lo == hi then [] else PagesAt(t, d, c, lo) + PagesBetween(t, d, c, lo + 1, hi)
  }

  /** Rows that belong to another domain or another cycle. */
  function Outside(t: seq<PageSetRow>, d: int, c: nat): seq<PageSetRow> {
    Filter(t, (r: PageSetRow) => !Of(r, d, c))
  }

  lemma {:induction false} PagesAtAppend(a: seq<PageSetRow>, b: seq<PageSetRow>, d: int, c: nat, i: nat)
    ensures PagesAt(a + b, d, c, i) == PagesAt(a, d, c, i) + PagesAt(b, d, c, i)
  {
    if a == [] {
      assert a + b == b;
    } else {
      assert (a + b)[1..] == a[1..] + b;
      PagesAtAppend(a[1..], b, d, c, i);
    }
  }

  /** Rows above the shift line move up by `gap`; the rest stay, and the room made is empty. */
  lemma {:induction false} PagesAtShift(t: seq<PageSetRow>, d: int, c: nat, after: nat, gap: nat, i: nat)
    ensures PagesAt(Shift(t, d, c, after, gap), d, c, i)
         == if i <= after then PagesAt(t, d, c, i)
            else if i <= after + gap then []
            else PagesAt(t, d, c, i - gap)
  {
    if t != [] {
      PagesAtShift(t[1..], d, c, after, gap, i);
      assert Shift(t, d, c, after, gap)[1..] == Shift(t[1..], d, c, after, gap);
    }
  }

  lemma {:induction false} PagesAtChunkRows(d: int, c: nat, first: nat, chunks: seq<seq<Page>>, i: nat)
    ensures PagesAt(ChunkRows(d, c, first, chunks), d, c, i)
         == if first <= i < first + |chunks| then chunks[i - first] else []
    decreases |chunks|
  {
    if chunks != [] {
      PagesAtChunkRows(d, c, first + 1, chunks[1..], i);
      assert ChunkRows(d, c, first, chunks)[1..] == ChunkRows(d, c, first + 1, chunks[1..]);
    }
  }

  /** Splitting out one row: what stands before and after it at the same index. */
  lemma PagesAtSplit(t: seq<PageSetRow>, p: nat, d: int, c: nat, i: nat)
    requires p < |t|
    ensures PagesAt(t, d, c, i)
         == PagesAt(t[..p], d, c, i)
          + (if Of(t[p], d, c) && t[p].setIndex == i then t[p].pages else [])
          + PagesAt(t[p + 1..], d, c, i)
  {
    assert t == t[..p] + t[p..] && t[p..][1..] == t[p + 1..];
    PagesAtAppend(t[..p], t[p..], d, c, i);
  }

  /** A split table: the shifted rows around the row at p, its first chunk, and the other chunks. */
  lemma SplitRowParts(t: seq<PageSetRow>, p: nat, chunks: seq<seq<Page>>)
    requires p < |t| && chunks != []
    ensures
      var d, c, k, gap := t[p].domainId, t[p].cycleNumber, t[p].setIndex, |chunks| - 1;
      SplitRow(t, p, chunks)
      == Shift(t[..p], d, c, k, gap)
       + ([FirstPiece(t[p], chunks[0])] + (Shift(t[p + 1..], d, c, k, gap) + ChunkRows(d, c, k + 1, chunks[1..])))
  {
  }

  /** What stands at each index after the row at p is split. */
  lemma PagesAtSplitRow(t: seq<PageSetRow>, p: nat, chunks: seq<seq<Page>>, i: nat)
    requires p < |t| && chunks != []
    ensures
      var d, c, k := t[p].domainId, t[p].cycleNumber, t[p].setIndex;
      PagesAt(SplitRow(t, p, chunks), d, c, i)
      == if i < k then PagesAt(t, d, c, i)
         else if i == k then PagesAt(t[..p], d, c, k) + chunks[0] + PagesAt(t[p + 1..], d, c, k)
         else if i < k + |chunks| then chunks[i - k]
         else PagesAt(t, d, c, i - (|chunks| - 1))
  {
    if i == t[p].setIndex {
      AtSplitIndex(t, p, chunks);
    } else if t[p].setIndex < i < t[p].setIndex + |chunks| {
      AtNewIndex(t, p, chunks, i);
    } else {
      AtKeptIndex(t, p, chunks, i);
    }
  }

  lemma AtSplitIndex(t: seq<PageSetRow>, p: nat, chunks: seq<seq<Page>>)
    requires p < |t| && chunks != []
    ensures
      var d, c, k := t[p].domainId, t[p].cycleNumber, t[p].setIndex;
      PagesAt(SplitRow(t, p, chunks), d, c, k) == PagesAt(t[..p], d, c, k) + chunks[0] + PagesAt(t[p + 1..], d, c, k)
  {
    var d, c, k, gap := t[p].domainId, t[p].cycleNumber, t[p].setIndex, |chunks| - 1;
    SplitRowParts(t, p, chunks);
    PartsAt(Shift(t[..p], d, c, k, gap), FirstPiece(t[p], chunks[0]), Shift(t[p + 1..], d, c, k, gap), d, c, k,
        chunks, k);
    OwnRowsStay(t, p, d, c, k, gap);
  }

  lemma AtNewIndex(t: seq<PageSetRow>, p: nat, chunks: seq<seq<Page>>, i: nat)
    requires p < |t| && chunks != [] && t[p].setIndex < i < t[p].setIndex + |chunks|
    ensures PagesAt(SplitRow(t, p, chunks), t[p].domainId, t[p].cycleNumber, i) == chunks[i - t[p].setIndex]
  {
    var d, c, k, gap := t[p].domainId, t[p].cycleNumber, t[p].setIndex, |chunks| - 1;
    var before, behind := Shift(t[..p], d, c, k, gap), Shift(t[p + 1..], d, c, k, gap);
    SplitRowParts(t, p, chunks);
    PartsAt(before, FirstPiece(t[p], chunks[0]), behind, d, c, k, chunks, i);
    assert PagesAt(before, d, c, i) + PagesAt(behind, d, c, i) == [] by { OtherRowsMove(t, p, d, c, k, gap, i); }
    OneEmpty([], chunks[i - k]);
  }

  lemma AtKeptIndex(t: seq<PageSetRow>, p: nat, chunks: seq<seq<Page>>, i: nat)
    requires p < |t| && chunks != [] && !(t[p].setIndex <= i < t[p].setIndex + |chunks|)
    ensures PagesAt(SplitRow(t, p, chunks), t[p].domainId, t[p].cycleNumber, i)
         == PagesAt(t, t[p].domainId, t[p].cycleNumber, if i < t[p].setIndex then i else i - (|chunks| - 1))
  {
    OtherRowsMove(t, p, t[p].domainId, t[p].cycleNumber, t[p].setIndex, |chunks| - 1, i);
    KeptIndexParts(t, p, chunks, i);
  }

  lemma KeptIndexParts(t: seq<PageSetRow>, p: nat, chunks: seq<seq<Page>>, i: nat)
    requires p < |t| && chunks != [] && !(t[p].setIndex <= i < t[p].setIndex + |chunks|)
    ensures
      var d, c, k, gap := t[p].domainId, t[p].cycleNumber, t[p].setIndex, |chunks| - 1;
      PagesAt(SplitRow(t, p, chunks), d, c, i)
      == PagesAt(Shift(t[..p], d, c, k, gap), d, c, i) + PagesAt(Shift(t[p + 1..], d, c, k, gap), d, c, i)
  {
    var d, c, k, gap := t[p].domainId, t[p].cycleNumber, t[p].setIndex, |chunks| - 1;
    SplitRowParts(t, p, chunks);
    PartsKept(Shift(t[..p], d, c, k, gap), FirstPiece(t[p], chunks[0]), Shift(t[p + 1..], d, c, k, gap), d, c, k,
              chunks, i);
  }

  lemma PartsKept(before: seq<PageSetRow>, piece: PageSetRow, behind: seq<PageSetRow>, d: int, c: nat, k: nat,
                  chunks: seq<seq<Page>>, i: nat)
    requires chunks != [] && Of(piece, d, c) && piece.setIndex == k && piece.pages == chunks[0]
    requires !(k <= i < k + |chunks|)
    ensures PagesAt(before + ([piece] + (behind + ChunkRows(d, c, k + 1, chunks[1..]))), d, c, i)
         == PagesAt(before, d, c, i) + PagesAt(behind, d, c, i)
  {
    PartsAt(before, piece, behind, d, c, k, chunks, i);
  }

  /** The chunk a split puts into a new row at index i, if any. */
  function NewChunk(chunks: seq<seq<Page>>, k: nat, i: nat): seq<Page> {
    if k < i < k + |chunks| then chunks[i - k] else []
  }

  /** What stands at each index of a table made of the rows before a piece, the piece, the rows behind
      it, and new rows for the other chunks. */
  lemma PartsAt(before: seq<PageSetRow>, piece: PageSetRow, behind: seq<PageSetRow>, d: int, c: nat, k: nat,
                chunks: seq<seq<Page>>, i: nat)
    requires chunks != [] && Of(piece, d, c) && piece.setIndex == k && piece.pages == chunks[0]
    ensures PagesAt(before + ([piece] + (behind + ChunkRows(d, c, k + 1, chunks[1..]))), d, c, i)
         == if i == k then PagesAt(before, d, c, k) + chunks[0] + PagesAt(behind, d, c, k)
            else if k < i < k + |chunks| then PagesAt(before, d, c, i) + PagesAt(behind, d, c, i) + chunks[i - k]
            else PagesAt(before, d, c, i) + PagesAt(behind, d, c, i)
  {
    PagesAtParts(before, piece, behind, ChunkRows(d, c, k + 1, chunks[1..]), d, c, i);
    PagesAtChunkRows(d, c, k + 1, chunks[1..], i);
    var mid := if i == k then chunks[0] else [];
    DropEmpty(PagesAt(before, d, c, i), mid, PagesAt(behind, d, c, i), NewChunk(chunks, k, i));
  }

  lemma OwnRowsStay(t: seq<PageSetRow>, p: nat, d: int, c: nat, k: nat, gap: nat)
    requires p < |t|
    ensures PagesAt(Shift(t[..p], d, c, k, gap), d, c, k) == PagesAt(t[..p], d, c, k)
    ensures PagesAt(Shift(t[p + 1..], d, c, k, gap), d, c, k) == PagesAt(t[p + 1..], d, c, k)
  {
    PagesAtShift(t[..p], d, c, k, gap, k);
    PagesAtShift(t[p + 1..], d, c, k, gap, k);
  }

  /** The rows around the row at p, shifted, at an index other than its own. */
  lemma OtherRowsMove(t: seq<PageSetRow>, p: nat, d: int, c: nat, k: nat, gap: nat, i: nat)
    requires p < |t| && t[p].setIndex == k && i != k
    ensures PagesAt(Shift(t[..p], d, c, k, gap), d, c, i) + PagesAt(Shift(t[p + 1..], d, c, k, gap), d, c, i)
         == if i < k then PagesAt(t, d, c, i) else if i <= k + gap then [] else PagesAt(t, d, c, i - gap)
  {
    PagesAtShift(t[..p], d, c, k, gap, i);
    PagesAtShift(t[p + 1..], d, c, k, gap, i);
    if i < k {
      PagesAtWithout(t, p, d, c, i);
    } else if i > k + gap {
      PagesAtWithout(t, p, d, c, i - gap);
    }
  }

  lemma PagesAtWithout(t: seq<PageSetRow>, p: nat, d: int, c: nat, i: nat)
    requires p < |t| && t[p].setIndex != i
    ensures PagesAt(t, d, c, i) == PagesAt(t[..p], d, c, i) + PagesAt(t[p + 1..], d, c, i)
  {
    PagesAtSplit(t, p, d, c, i);
    OneEmpty(PagesAt(t[..p], d, c, i), []);
  }

  lemma PagesAtParts(pre: seq<PageSetRow>, row: PageSetRow, post: seq<PageSetRow>, added: seq<PageSetRow>, d: int,
      c: nat, i: nat)
    ensures PagesAt(pre + ([row] + (post + added)), d, c, i)
         == PagesAt(pre, d, c, i) + (if Of(row, d, c) && row.setIndex == i then row.pages else [])
          + PagesAt(post, d, c, i) + PagesAt(added, d, c, i)
  {
    PagesAtAppend(pre, [row] + (post + added), d, c, i);
    assert ([row] + (post + added))[1..] == post + added;
    PagesAtAppend(post, added, d, c, i);
  }

  lemma {:induction false} PagesBetweenSplit(t: seq<PageSetRow>, d: int, c: nat, lo: nat, mid: nat, hi: nat)
    requires lo <= mid <= hi
    ensures PagesBetween(t, d, c, lo, hi) == PagesBetween(t, d, c, lo, mid) + PagesBetween(t, d, c, mid, hi)
    decreases mid - lo
  {
    if lo < mid {
      PagesBetweenSplit(t, d, c, lo + 1, mid, hi);
    }
  }

  /** t and u hold the same pages index by index from lo to hi, u at indices `gap` higher. */
  ghost predicate Agree(t: seq<PageSetRow>, u: seq<PageSetRow>, d: int, c: nat, lo: nat, hi: nat, gap: nat) {
    forall i :: lo <= i < hi ==> PagesAt(t, d, c, i) == PagesAt(u, d, c, i + gap)
  }

  /** From lo on, u holds one chunk at each index. */
  ghost predicate HoldsChunks(u: seq<PageSetRow>, d: int, c: nat, lo: nat, chunks: seq<seq<Page>>) {
    forall i :: 0 <= i < |chunks| ==> PagesAt(u, d, c, lo + i) == chunks[i]
  }

  lemma {:induction false} PagesBetweenEqual(t: seq<PageSetRow>, u: seq<PageSetRow>, d: int, c: nat, lo: nat,
      hi: nat, gap: nat)
    requires lo <= hi && Agree(t, u, d, c, lo, hi, gap)
    ensures PagesBetween(t, d, c, lo, hi) == PagesBetween(u, d, c, lo + gap, hi + gap)
    decreases hi - lo
  {
    if lo < hi {
      PagesBetweenEqual(t, u, d, c, lo + 1, hi, gap);
    }
  }

  /** A stretch holding exactly one chunk per index reads as those chunks in order. */
  lemma {:induction false} PagesBetweenChunks(u: seq<PageSetRow>, d: int, c: nat, lo: nat, chunks: seq<seq<Page>>)
    requires HoldsChunks(u, d, c, lo, chunks)
    ensures PagesBetween(u, d, c, lo, lo + |chunks|) == Flatten(chunks)
    decreases |chunks|
  {
    if chunks != [] {
      assert PagesAt(u, d, c, lo + 0) == chunks[0];
      forall i | 0 <= i < |chunks[1..]| ensures PagesAt(u, d, c, lo + 1 + i) == chunks[1..][i] {
        assert PagesAt(u, d, c, lo + (i + 1)) == chunks[i + 1];
      }
      PagesBetweenChunks(u, d, c, lo + 1, chunks[1..]);
    }
  }

  lemma Concatenate(u: seq<PageSetRow>, d: int, c: nat, k: nat, mid: nat, hi: nat)
    requires k < mid <= hi
    ensures PagesBetween(u, d, c, 0, hi)
         == PagesBetween(u, d, c, 0, k) + PagesAt(u, d, c, k) + PagesBetween(u, d, c, k + 1, mid)
             + PagesBetween(u, d, c, mid, hi)
  {
    PagesBetweenSplit(u, d, c, 0, k, hi);
    PagesBetweenSplit(u, d, c, k + 1, mid, hi);
  }

  lemma Reassemble(t: seq<PageSetRow>, u: seq<PageSetRow>, d: int, c: nat, k: nat, n: nat, hi: nat,
                   mid: seq<Page>, rest: seq<Page>)
    requires k < hi && n >= 1
    requires PagesBetween(u, d, c, 0, k) == PagesBetween(t, d, c, 0, k) && PagesAt(u, d, c, k) == mid
    requires PagesBetween(u, d, c, k + 1, k + n) == rest
    requires PagesBetween(u, d, c, k + n, hi + (n - 1)) == PagesBetween(t, d, c, k + 1, hi)
    ensures PagesBetween(u, d, c, 0, hi + (n - 1))
         == PagesBetween(t, d, c, 0, k) + mid + rest + PagesBetween(t, d, c, k + 1, hi)
  {
    Concatenate(u, d, c, k, k + n, hi + (n - 1));
  }

  lemma BelowAgrees(t: seq<PageSetRow>, p: nat, chunks: seq<seq<Page>>)
    requires p < |t| && chunks != []
    ensures Agree(t, SplitRow(t, p, chunks), t[p].domainId, t[p].cycleNumber, 0, t[p].setIndex, 0)
  {
    var d, c, k, u := t[p].domainId, t[p].cycleNumber, t[p].setIndex, SplitRow(t, p, chunks);
    forall i | 0 <= i < k ensures PagesAt(t, d, c, i) == PagesAt(u, d, c, i + 0) { PagesAtSplitRow(t, p, chunks, i); }
  }

  lemma NewRowsHold(t: seq<PageSetRow>, p: nat, chunks: seq<seq<Page>>)
    requires p < |t| && chunks != []
    ensures HoldsChunks(SplitRow(t, p, chunks), t[p].domainId, t[p].cycleNumber, t[p].setIndex + 1, chunks[1..])
  {
    var d, c, k, u := t[p].domainId, t[p].cycleNumber, t[p].setIndex, SplitRow(t, p, chunks);
    var rest := chunks[1..];
    forall i | 0 <= i < |rest| ensures PagesAt(u, d, c, k + 1 + i) == rest[i]
        { PagesAtSplitRow(t, p, chunks, k + 1 + i); }
  }

  lemma AboveAgrees(t: seq<PageSetRow>, p: nat, chunks: seq<seq<Page>>, hi: nat)
    requires p < |t| && chunks != []
    ensures Agree(t, SplitRow(t, p, chunks), t[p].domainId, t[p].cycleNumber, t[p].setIndex + 1, hi, |chunks| - 1)
  {
    var d, c, k, gap := t[p].domainId, t[p].cycleNumber, t[p].setIndex, |chunks| - 1;
    forall i | k + 1 <= i < hi ensures PagesAt(t, d, c, i) == PagesAt(SplitRow(t, p, chunks), d, c, i + gap) {
      var j := i + gap;
      assert j - gap == i;
      PagesAtSplitRow(t, p, chunks, j);
    }
  }

  /** Below the split index a split changes nothing. */
  lemma SplitBelow(t: seq<PageSetRow>, p: nat, chunks: seq<seq<Page>>, u: seq<PageSetRow>, k: nat)
    requires p < |t| && chunks != [] && u == SplitRow(t, p, chunks) && k == t[p].setIndex
    ensures PagesBetween(u, t[p].domainId, t[p].cycleNumber, 0, k)
        == PagesBetween(t, t[p].domainId, t[p].cycleNumber, 0, k)
  {
    BelowAgrees(t, p, chunks);
    PagesBetweenEqual(t, u, t[p].domainId, t[p].cycleNumber, 0, k, 0);
  }

  /** Directly above it stand the other chunks. */
  lemma SplitHolds(t: seq<PageSetRow>, p: nat, chunks: seq<seq<Page>>, u: seq<PageSetRow>, k: nat)
    requires p < |t| && chunks != [] && u == SplitRow(t, p, chunks) && k == t[p].setIndex
    ensures PagesBetween(u, t[p].domainId, t[p].cycleNumber, k + 1, k + |chunks|) == Flatten(chunks[1..])
  {
    NewRowsHold(t, p, chunks);
    PagesBetweenChunks(u, t[p].domainId, t[p].cycleNumber, k + 1, chunks[1..]);
  }

  /** What stood above the split index has moved up to make room. */
  lemma SplitAbove(t: seq<PageSetRow>, p: nat, chunks: seq<seq<Page>>, u: seq<PageSetRow>, d: int, c: nat, k: nat,
                   hi: nat)
    requires p < |t| && chunks != [] && u == SplitRow(t, p, chunks)
    requires d == t[p].domainId && c == t[p].cycleNumber && k == t[p].setIndex < hi
    ensures PagesBetween(u, d, c, k + |chunks|, hi + (|chunks| - 1)) == PagesBetween(t, d, c, k + 1, hi)
  {
    AboveAgrees(t, p, chunks, hi);
    AgreeBetween(t, u, d, c, k, hi, |chunks| - 1);
  }

  lemma AgreeBetween(t: seq<PageSetRow>, u: seq<PageSetRow>, d: int, c: nat, k: nat, hi: nat, gap: nat)
    requires k < hi && Agree(t, u, d, c, k + 1, hi, gap)
    ensures PagesBetween(u, d, c, k + (gap + 1), hi + gap) == PagesBetween(t, d, c, k + 1, hi)
  {
    PagesBetweenEqual(t, u, d, c, k + 1, hi, gap);
  }

  /** The index-ordered page list around a split. Everything before and after the split index is
      untouched; at the index itself the chunks after the first land behind the rows that share
      the index and stand later in the table. */
  lemma SplitOrder(t: seq<PageSetRow>, p: nat, chunks: seq<seq<Page>>, hi: nat)
    requires p < |t| && chunks != []
    requires t[p].setIndex < hi
    ensures
      var d, c, k := t[p].domainId, t[p].cycleNumber, t[p].setIndex;
      PagesBetween(SplitRow(t, p, chunks), d, c, 0, hi + (|chunks| - 1))
      == PagesBetween(t, d, c, 0, k)
       + (PagesAt(t[..p], d, c, k) + chunks[0] + PagesAt(t[p + 1..], d, c, k))
       + Flatten(chunks[1..])
       + PagesBetween(t, d, c, k + 1, hi)
  {
    var d, c, k := t[p].domainId, t[p].cycleNumber, t[p].setIndex;
    var u := SplitRow(t, p, chunks);
    SplitBelow(t, p, chunks, u, k);
    AtSplitIndex(t, p, chunks);
    SplitHolds(t, p, chunks, u, k);
    SplitAbove(t, p, chunks, u, d, c, k, hi);
    var mid := PagesAt(t[..p], d, c, k) + chunks[0] + PagesAt(t[p + 1..], d, c, k);
    Reassemble(t, u, d, c, k, |chunks|, hi, mid, Flatten(chunks[1..]));
  }

  /** Rebalancing conserves the index-ordered pages exactly when the pages of the later rows that
      share the split index (none, in every reachable table) commute with the pages pushed out. */
  lemma RebalanceConserves(t: seq<PageSetRow>, p: nat, m: int, hi: nat)
    requires p < |t|
    requires t[p].setIndex < hi
    ensures
      var d, c, k := t[p].domainId, t[p].cycleNumber, t[p].setIndex;
      var u := Rebalanced(t, p, m);
      var extra := |u| - |t|;
      var sharing := PagesAt(t[p + 1..], d, c, k);
      && extra == (if m >= 1 && |t[p].pages| > m then CeilDiv(|t[p].pages|, m) - 1 else 0)
      && (PagesBetween(u, d, c, 0, hi + extra) == PagesBetween(t, d, c, 0, hi)
          <==> (m >= 1 && |t[p].pages| > m ==> sharing + t[p].pages[m..] == t[p].pages[m..] + sharing))
  {
    if m >= 1 && |t[p].pages| > m {
      RebalanceConservesSplit(t, p, m, hi);
    } else {
      assert Rebalanced(t, p, m) == t;
    }
  }

  lemma RebalanceConservesSplit(t: seq<PageSetRow>, p: nat, m: nat, hi: nat)
    requires p < |t| && t[p].setIndex < hi && m >= 1 && |t[p].pages| > m
    ensures
      var d, c, k := t[p].domainId, t[p].cycleNumber, t[p].setIndex;
      var extra := |Rebalanced(t, p, m)| - |t|;
      var sharing := PagesAt(t[p + 1..], d, c, k);
      && extra == CeilDiv(|t[p].pages|, m) - 1
      && (PagesBetween(Rebalanced(t, p, m), d, c, 0, hi + extra) == PagesBetween(t, d, c, 0, hi)
          <==> sharing + t[p].pages[m..] == t[p].pages[m..] + sharing)
  {
    var u, chunks := Rebalanced(t, p, m), Chunk(t[p].pages, m);
    assert |chunks| == CeilDiv(|t[p].pages|, m) by { ChunkCount(t[p].pages, m); }
    ConservesSplit(t, p, m, chunks, hi, u, |u| - |t|);
  }

  lemma ConservesSplit(t: seq<PageSetRow>, p: nat, m: nat, chunks: seq<seq<Page>>, hi: nat, u: seq<PageSetRow>,
      extra: nat)
    requires p < |t| && m <= |t[p].pages| && t[p].setIndex < hi
    requires chunks != [] && chunks[0] == t[p].pages[..m] && Flatten(chunks) == t[p].pages
    requires u == SplitRow(t, p, chunks) && extra == |chunks| - 1
    ensures
      var d, c, k := t[p].domainId, t[p].cycleNumber, t[p].setIndex;
      var sharing := PagesAt(t[p + 1..], d, c, k);
      PagesBetween(u, d, c, 0, hi + extra) == PagesBetween(t, d, c, 0, hi)
      <==> sharing + t[p].pages[m..] == t[p].pages[m..] + sharing
  {
    SplitConserves(t, p, m, chunks, hi);
  }

  lemma SplitConserves(t: seq<PageSetRow>, p: nat, m: nat, chunks: seq<seq<Page>>, hi: nat)
    requires p < |t| && m <= |t[p].pages| && t[p].setIndex < hi
    requires chunks != [] && chunks[0] == t[p].pages[..m] && Flatten(chunks) == t[p].pages
    ensures
      var d, c, k := t[p].domainId, t[p].cycleNumber, t[p].setIndex;
      var sharing := PagesAt(t[p + 1..], d, c, k);
      PagesBetween(SplitRow(t, p, chunks), d, c, 0, hi + (|chunks| - 1)) == PagesBetween(t, d, c, 0, hi)
      <==> sharing + t[p].pages[m..] == t[p].pages[m..] + sharing
  {
    var d, c, k := t[p].domainId, t[p].cycleNumber, t[p].setIndex;
    SplitOrder(t, p, chunks, hi);
    AroundRow(t, p, hi);
    Rearranged(PagesBetween(t, d, c, 0, k), PagesAt(t[..p], d, c, k), t[p].pages, m, PagesAt(t[p + 1..], d, c, k),
               PagesBetween(t, d, c, k + 1, hi));
  }

  /** The index-ordered pages around one row. */
  lemma AroundRow(t: seq<PageSetRow>, p: nat, hi: nat)
    requires p < |t| && t[p].setIndex < hi
    ensures
      var d, c, k := t[p].domainId, t[p].cycleNumber, t[p].setIndex;
      PagesBetween(t, d, c, 0, hi)
      == PagesBetween(t, d, c, 0, k)
       + (PagesAt(t[..p], d, c, k) + t[p].pages + PagesAt(t[p + 1..], d, c, k) + PagesBetween(t, d, c, k + 1, hi))
  {
    var d, c, k := t[p].domainId, t[p].cycleNumber, t[p].setIndex;
    PagesBetweenSplit(t, d, c, 0, k, hi);
    PagesAtSplit(t, p, d, c, k);
  }

  /** Two rows at one index: a split moves the pushed-out page behind the other row's page. */
  lemma SharedIndexReorders()
    ensures
      var t := [ChunkRow(7, 1, 0, ["/a", "/b"]), ChunkRow(7, 1, 0, ["/c"])];
      PagesBetween(Rebalanced(t, 0, 1), 7, 1, 0, 2) != PagesBetween(t, 7, 1, 0, 1)
  {
    var t := [ChunkRow(7, 1, 0, ["/a", "/b"]), ChunkRow(7, 1, 0, ["/c"])];
    RebalanceConserves(t, 0, 1, 1);
    assert t[0].pages[1..] == ["/b"];
    assert t[1..] == [ChunkRow(7, 1, 0, ["/c"])];
    assert PagesAt(t[1..], 7, 1, 0) == ["/c"];
    assert (["/c"] + ["/b"])[0] != (["/b"] + ["/c"])[0];
  }

  // ---------------------------------------------------------------- indices on any table

  /** The row at position q of a table after the split of its row at p. */
  function SplitRowAt(t: seq<PageSetRow>, p: nat, chunks: seq<seq<Page>>, q: nat): PageSetRow
    requires p < |t| && chunks != [] && q < |t| + |chunks| - 1
  {
    var d, c, k := t[p].domainId, t[p].cycleNumber, t[p].setIndex;
    if q == p then FirstPiece(t[p], chunks[0])
    else if q < |t| then ShiftRow(t[q], d, c, k, |chunks| - 1)
    else ChunkRow(d, c, k + 1 + (q - |t|), chunks[1 + (q - |t|)])
  }

  lemma SplitRows(t: seq<PageSetRow>, p: nat, chunks: seq<seq<Page>>, q: nat)
    requires p < |t| && chunks != [] && q < |t| + |chunks| - 1
    ensures SplitRow(t, p, chunks)[q] == SplitRowAt(t, p, chunks, q)
  {
  }

  predicate AtIndex(t: seq<PageSetRow>, q: int, d: int, c: nat, i: int) {
    0 <= q < |t| && Of(t[q], d, c) && t[q].setIndex == i
  }

  ghost predicate HasIndex(t: seq<PageSetRow>, d: int, c: nat, i: int) {
    exists q :: AtIndex(t, q, d, c, i)
  }

  /** No two rows of (d, c) share an index. */
  ghost predicate IndicesDistinct(t: seq<PageSetRow>, d: int, c: nat) {
    forall q, r :: 0 <= q < r < |t| && Of(t[q], d, c) && Of(t[r], d, c) ==> t[q].setIndex != t[r].setIndex
  }

  /** The indices of the rows of (d, c) are exactly 0..n-1. */
  ghost predicate IndicesExactly(t: seq<PageSetRow>, d: int, c: nat, n: nat) {
    forall i :: HasIndex(t, d, c, i) <==> 0 <= i < n
  }

  /** Rebalancing any row of any table keeps the indices of its domain and cycle distinct and
      contiguous, and it never repairs indices that are not. */
  lemma RebalanceKeepsIndices(t: seq<PageSetRow>, p: nat, m: int, n: nat)
    requires p < |t|
    ensures
      var d, c := t[p].domainId, t[p].cycleNumber;
      var u := Rebalanced(t, p, m);
      && (IndicesDistinct(u, d, c) <==> IndicesDistinct(t, d, c))
      && (IndicesExactly(u, d, c, n + (|u| - |t|)) <==> IndicesExactly(t, d, c, n))
  {
    if m >= 1 && |t[p].pages| > m {
      var chunks := Chunk(t[p].pages, m);
      SplitKeepsDistinct(t, p, chunks);
      SplitKeepsExactly(t, p, chunks, n);
    }
  }

  lemma SplitKeepsDistinct(t: seq<PageSetRow>, p: nat, chunks: seq<seq<Page>>)
    requires p < |t| && chunks != []
    ensures IndicesDistinct(SplitRow(t, p, chunks), t[p].domainId, t[p].cycleNumber)
       <==> IndicesDistinct(t, t[p].domainId, t[p].cycleNumber)
  {
    var d, c, u := t[p].domainId, t[p].cycleNumber, SplitRow(t, p, chunks);
    if IndicesDistinct(t, d, c) {
      forall q, r | 0 <= q < r < |u| && Of(u[q], d, c) && Of(u[r], d, c) ensures u[q].setIndex != u[r].setIndex {
        SplitRows(t, p, chunks, q);
        SplitRows(t, p, chunks, r);
      }
    }
    if IndicesDistinct(u, d, c) {
      forall q, r | 0 <= q < r < |t| && Of(t[q], d, c) && Of(t[r], d, c) ensures t[q].setIndex != t[r].setIndex {
        SplitRows(t, p, chunks, q);
        SplitRows(t, p, chunks, r);
      }
    }
  }

  lemma SplitHasKept(t: seq<PageSetRow>, p: nat, chunks: seq<seq<Page>>, i: nat)
    requires p < |t| && chunks != []
    requires HasIndex(t, t[p].domainId, t[p].cycleNumber, i)
    ensures HasIndex(SplitRow(t, p, chunks), t[p].domainId, t[p].cycleNumber,
                     if i <= t[p].setIndex then i else i + (|chunks| - 1))
  {
    var d, c := t[p].domainId, t[p].cycleNumber;
    var q :| AtIndex(t, q, d, c, i);
    SplitRows(t, p, chunks, q);
    assert AtIndex(SplitRow(t, p, chunks), q, d, c, if i <= t[p].setIndex then i else i + (|chunks| - 1));
  }

  lemma SplitHasNew(t: seq<PageSetRow>, p: nat, chunks: seq<seq<Page>>, i: nat)
    requires p < |t| && chunks != [] && t[p].setIndex < i < t[p].setIndex + |chunks|
    ensures HasIndex(SplitRow(t, p, chunks), t[p].domainId, t[p].cycleNumber, i)
  {
    var q := |t| + (i - t[p].setIndex - 1);
    SplitRows(t, p, chunks, q);
    assert AtIndex(SplitRow(t, p, chunks), q, t[p].domainId, t[p].cycleNumber, i);
  }

  lemma SplitHasOnly(t: seq<PageSetRow>, p: nat, chunks: seq<seq<Page>>, i: int)
    requires p < |t| && chunks != []
    requires HasIndex(SplitRow(t, p, chunks), t[p].domainId, t[p].cycleNumber, i)
    ensures
      var d, c, k := t[p].domainId, t[p].cycleNumber, t[p].setIndex;
      if i <= k then HasIndex(t, d, c, i) else i < k + |chunks| || HasIndex(t, d, c, i - (|chunks| - 1))
  {
    var d, c, k := t[p].domainId, t[p].cycleNumber, t[p].setIndex;
    var q :| AtIndex(SplitRow(t, p, chunks), q, d, c, i);
    SplitRows(t, p, chunks, q);
    if q < |t| { assert AtIndex(t, q, d, c, if i <= k then i else i - (|chunks| - 1)); }
  }

  /** Which indices are taken after a split. */
  lemma SplitIndices(t: seq<PageSetRow>, p: nat, chunks: seq<seq<Page>>, i: int)
    requires p < |t| && chunks != []
    ensures
      var d, c, k := t[p].domainId, t[p].cycleNumber, t[p].setIndex;
      HasIndex(SplitRow(t, p, chunks), d, c, i)
      <==> if i <= k then HasIndex(t, d, c, i) else i < k + |chunks| || HasIndex(t, d, c, i - (|chunks| - 1))
  {
    var d, c, k := t[p].domainId, t[p].cycleNumber, t[p].setIndex;
    if HasIndex(SplitRow(t, p, chunks), d, c, i) {
      SplitHasOnly(t, p, chunks, i);
    } else if i <= k {
      if HasIndex(t, d, c, i) { SplitHasKept(t, p, chunks, i); }
    } else if i < k + |chunks| {
      SplitHasNew(t, p, chunks, i);
    } else {
      if HasIndex(t, d, c, i - (|chunks| - 1)) { SplitHasKept(t, p, chunks, i - (|chunks| - 1)); }
    }
  }

  lemma SplitKeepsExactly(t: seq<PageSetRow>, p: nat, chunks: seq<seq<Page>>, n: nat)
    requires p < |t| && chunks != []
    ensures IndicesExactly(SplitRow(t, p, chunks), t[p].domainId, t[p].cycleNumber, n + (|chunks| - 1))
       <==> IndicesExactly(t, t[p].domainId, t[p].cycleNumber, n)
  {
    var d, c, k, gap, u := t[p].domainId, t[p].cycleNumber, t[p].setIndex, |chunks| - 1, SplitRow(t, p, chunks);
    assert AtIndex(t, p, d, c, k) && HasIndex(t, d, c, k);
    if IndicesExactly(t, d, c, n) {
      forall i ensures HasIndex(u, d, c, i) <==> 0 <= i < n + gap {
        SplitIndices(t, p, chunks, i);
        assert HasIndex(t, d, c, i - gap) <==> 0 <= i - gap < n;
      }
    }
    if IndicesExactly(u, d, c, n + gap) {
      SplitIndices(t, p, chunks, k + gap);
      assert HasIndex(t, d, c, k) && HasIndex(u, d, c, k + gap);
      forall i ensures HasIndex(t, d, c, i) <==> 0 <= i < n {
        var j := if i <= k then i else i + gap;
        SplitIndices(t, p, chunks, j);
        assert HasIndex(u, d, c, j) <==> 0 <= j < n + gap;
        assert i > k ==> j - gap == i;
      }
    }
  }

  /** No row of another domain or another cycle changes, moves or disappears. */
  lemma RebalanceFrame(t: seq<PageSetRow>, p: nat, m: int)
    requires p < |t|
    ensures Outside(Rebalanced(t, p, m), t[p].domainId, t[p].cycleNumber)
         == Outside(t, t[p].domainId, t[p].cycleNumber)
  {
    if m >= 1 && |t[p].pages| > m {
      SplitFrame(t, p, Chunk(t[p].pages, m));
    }
  }

  lemma SplitFrame(t: seq<PageSetRow>, p: nat, chunks: seq<seq<Page>>)
    requires p < |t| && chunks != []
    ensures Outside(SplitRow(t, p, chunks), t[p].domainId, t[p].cycleNumber)
         == Outside(t, t[p].domainId, t[p].cycleNumber)
  {
    var d, c, k := t[p].domainId, t[p].cycleNumber, t[p].setIndex;
    var u := SplitRow(t, p, chunks);
    var added := ChunkRows(d, c, k + 1, chunks[1..]);
    assert u == u[..|t|] + added;
    FilterAppend(u[..|t|], added, (r: PageSetRow) => !Of(r, d, c));
    OutsidePointwise(t, u[..|t|], d, c);
    NoneOutside(added, d, c);
  }

  lemma NoneOutside(t: seq<PageSetRow>, d: int, c: nat)
    requires forall i :: 0 <= i < |t| ==> Of(t[i], d, c)
    ensures Outside(t, d, c) == []
  {
    if t != [] {
      NoneOutside(t[1..], d, c);
    }
  }

  /** Tables whose rows agree outside (d, c) position by position agree outside (d, c). */
  lemma {:induction false} OutsidePointwise(t: seq<PageSetRow>, u: seq<PageSetRow>, d: int, c: nat)
    requires |t| == |u|
    requires forall i :: 0 <= i < |t| ==> (Of(t[i], d, c) <==> Of(u[i], d, c)) && (!Of(t[i], d, c) ==> u[i] == t[i])
    ensures Outside(t, d, c) == Outside(u, d, c)
  {
    if t != [] {
      OutsidePointwise(t[1..], u[1..], d, c);
    }
  }
}
