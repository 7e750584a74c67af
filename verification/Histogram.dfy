/** Latency histograms: classification, merging, and percentiles read from bins. */
module Histogram {
  import opened Php
  import opened Sequences

  /** Bins 0..7 are 0_50, 50_100, 100_200, 200_500, 500_1000, 1000_2000, 2000_5000 and 5000_inf (ms). */
  type Bin = b: int | 0 <= b < 8 witness 0

  /** A stored histogram; a bin may be missing and then counts 0. */
  type Bins = map<Bin, nat>

  function Count(h: Bins, b: Bin): nat { if b in h then h[b] else 0 }

  function Midpoint(b: Bin): nat {
    match b
    case 0 => 25
    case 1 => 75
    case 2 => 150
    case 3 => 350
    case 4 => 750
    case 5 => 1500
    case 6 => 3500
    case _ => 7500
  }

  function ClassifyLatency(ms: int): Bin {
    if ms < 50 then 0
    else if ms < 100 then 1
    else if ms < 200 then 2
    else if ms < 500 then 3
    else if ms < 1000 then 4
    else if ms < 2000 then 5
    else if ms < 5000 then 6
    else 7
  }

  function EmptyHistogram(): Bins {
    map[0 := 0, 1 := 0, 2 := 0, 3 := 0, 4 := 0, 5 := 0, 6 := 0, 7 := 0]
  }

  function Merge(a: Bins, b: Bins): Bins { map k: Bin | 0 <= k < 8 :: Count(a, k) + Count(b, k) }

  /** Requests in the bins up to and including b; no bin comes before bin 0. */
  function Through(h: Bins, b: int): nat
    requires -1 <= b < 8
  {
    if b == -1 then 0 else Through(h, b - 1) + Count(h, b)
  }

  function Total(h: Bins): nat { Through(h, 7) }

  function Share(f: real, n: nat): real { f * (n as real) }

  function Threshold(h: Bins, pct: real): real { Share(pct / 100.0, Total(h)) }

  predicate Reaches(h: Bins, b: Bin, threshold: real) { Through(h, b) as real >= threshold }

  /** The first bin from b on whose cumulative count reaches the threshold, the last bin if none does. */
  function BinFrom(h: Bins, threshold: real, b: Bin): Bin
    decreases 8 - b
  {
    if b == 7 || Reaches(h, b, threshold) then b else BinFrom(h, threshold, b + 1)
  }

  function PercentileBin(h: Bins, pct: real): Bin { BinFrom(h, Threshold(h, pct), 0) }

  /** The percentile of a histogram with a count of `other` under keys that are no bins. */
  function PercentileWith(h: Bins, other: nat, pct: real): nat {
    if Total(h) + other == 0 then 0 else Midpoint(BinFrom(h, Share(pct / 100.0, Total(h) + other), 0))
  }

  /** The percentile of a histogram without such keys, as merging leaves it. */
  function Percentile(h: Bins, pct: real): nat { PercentileWith(h, 0, pct) }

  /** `mergeHistograms` */
  method MergeHistograms(a: Bins, b: Bins) returns (result: Bins)
    ensures result == Merge(a, b)
  {
    result := EmptyHistogram();
    for bin := 0 to 8
      invariant result == map k: Bin | 0 <= k < 8 :: if k < bin then Count(a, k) + Count(b, k) else 0
    {
      result := result[bin := Count(a, bin) + Count(b, bin)];
    }
  }

  /** `percentileFromHistogram`; `array_sum` counts every key, the loop only the bins. */
  method PercentileFromHistogram(h: Bins, other: nat, pct: real) returns (ms: nat)
    ensures ms == PercentileWith(h, other, pct)
  {
    var total := Total(h) + other;
    if total == 0 {
      return 0;
    }
    var threshold := Share(pct / 100.0, total);
    var cumulative := 0;
    for bin := 0 to 8
      invariant cumulative == Through(h, bin - 1)
      invariant BinFrom(h, threshold, 0) == if bin < 8 then BinFrom(h, threshold, bin) else 7
    {
      cumulative := cumulative + Count(h, bin);
      if cumulative as real >= threshold {
        return Midpoint(bin);
      }
    }
    return Midpoint(7);
  }

  /** Merging adds bin by bin, and a bin that is missing on a side adds nothing. */
  lemma MergeExact(a: Bins, b: Bins, k: Bin)
    ensures k in Merge(a, b)
    ensures Merge(a, b)[k] == (if k in a then a[k] else 0) + (if k in b then b[k] else 0)
  {
  }

  // ---------------------------------------------------------------- histograms of raw data

  /** Entries of xs that fall in bin b. */
  function InBin(xs: seq<int>, b: Bin): nat {
    if xs == [] then 0 else (if ClassifyLatency(xs[0]) == b then 1 else 0) + InBin(xs[1..], b)
  }

  function HistogramOf(xs: seq<int>): Bins { map b: Bin | 0 <= b < 8 :: InBin(xs, b) }

  function MergeAll(hs: seq<Bins>): Bins {
    if hs == [] then EmptyHistogram() else Merge(MergeAll(hs[..|hs| - 1]), hs[|hs| - 1])
  }

  /** Merging the histograms of a window's rows, starting from the empty one. */
  method MergeWindow(hs: seq<Bins>) returns (merged: Bins)
    ensures merged == MergeAll(hs)
  {
    merged := EmptyHistogram();
    for i := 0 to |hs|
      invariant merged == MergeAll(hs[..i])
    {
      assert hs[..i + 1][..i] == hs[..i];
      merged := MergeHistograms(merged, hs[i]);
    }
    assert hs[..|hs|] == hs;
  }

  lemma {:induction false} InBinAppend(xs: seq<int>, ys: seq<int>, b: Bin)
    ensures InBin(xs + ys, b) == InBin(xs, b) + InBin(ys, b)
  {
    if xs == [] {
      assert xs + ys == ys;
    } else {
      assert (xs + ys)[1..] == xs[1..] + ys;
      InBinAppend(xs[1..], ys, b);
    }
  }

  lemma InBinRemove(ys: seq<int>, k: nat, b: Bin)
    requires k < |ys|
    ensures InBin(ys, b) == InBin(ys[..k] + ys[k + 1..], b) + if ClassifyLatency(ys[k]) == b then 1 else 0
  {
    var tail := [ys[k]] + ys[k + 1..];
    assert ys == ys[..k] + tail && tail[1..] == ys[k + 1..];
    InBinAppend(ys[..k], tail, b);
    InBinAppend(ys[..k], ys[k + 1..], b);
  }

  /** Removing the first element of one of two permutations from the other. */
  lemma RemoveOne(xs: seq<int>, ys: seq<int>) returns (k: nat)
    requires xs != [] && multiset(xs) == multiset(ys)
    ensures k < |ys| && ys[k] == xs[0]
    ensures multiset(xs[1..]) == multiset(ys[..k] + ys[k + 1..])
  {
    assert xs[0] in multiset(ys);
    k :| 0 <= k < |ys| && ys[k] == xs[0];
    assert xs[..0] + xs[1..] == xs[1..];
    MultisetWithout(xs, 0);
    MultisetWithout(ys, k);
  }

  /** Order does not matter: the histogram is a function of the multiset of latencies. */
  lemma {:induction false} HistogramOfMultiset(xs: seq<int>, ys: seq<int>, b: Bin)
    requires multiset(xs) == multiset(ys)
    ensures InBin(xs, b) == InBin(ys, b)
  {
    if xs == [] {
      assert |multiset(ys)| == |ys|;
    } else {
      var k := RemoveOne(xs, ys);
      HistogramOfMultiset(xs[1..], ys[..k] + ys[k + 1..], b);
      InBinRemove(ys, k, b);
    }
  }

  function Histograms(batches: seq<seq<int>>): seq<Bins> {
    seq(|batches|, i requires 0 <= i < |batches| => HistogramOf(batches[i]))
  }

  lemma {:induction false} MergeBatches(batches: seq<seq<int>>, b: Bin)
    ensures b in MergeAll(Histograms(batches))
    ensures MergeAll(Histograms(batches))[b] == InBin(Flatten(batches), b)
  {
    if batches != [] {
      var init, last := batches[..|batches| - 1], batches[|batches| - 1];
      MergeBatches(init, b);
      assert Histograms(batches)[..|batches| - 1] == Histograms(init);
      FlattenSnoc(batches);
      InBinAppend(Flatten(init), last, b);
    }
  }

  /** However the requests are split into rows and in whatever order the rows are merged, the result
      is the histogram of all the requests. */
  lemma MergeIsClassification(batches: seq<seq<int>>, all: seq<int>)
    requires multiset(Flatten(batches)) == multiset(all)
    ensures MergeAll(Histograms(batches)) == HistogramOf(all)
  {
    var merged := MergeAll(Histograms(batches));
    forall b: Bin ensures b in merged && merged[b] == InBin(all, b) {
      MergeBatches(batches, b);
      HistogramOfMultiset(Flatten(batches), all, b);
    }
  }

  // ---------------------------------------------------------------- percentiles of raw data

  ghost predicate Sorted(ys: seq<int>) { forall i, j :: 0 <= i < j < |ys| ==> ys[i] <= ys[j] }

  /** Entries of xs that fall in a bin below b. */
  function BelowBin(xs: seq<int>, b: nat): nat {
    if xs == [] then 0 else (if ClassifyLatency(xs[0]) < b then 1 else 0) + BelowBin(xs[1..], b)
  }

  lemma {:induction false} BelowBinStep(xs: seq<int>, b: nat)
    requires b < 8
    ensures BelowBin(xs, b + 1) == BelowBin(xs, b) + InBin(xs, b)
    ensures BelowBin(xs, 0) == 0
    ensures BelowBin(xs, 8) == |xs|
  {
    if xs != [] { BelowBinStep(xs[1..], b); }
  }

  lemma {:induction false} ThroughOfRaw(xs: seq<int>, b: int)
    requires -1 <= b < 8
    ensures Through(HistogramOf(xs), b) == BelowBin(xs, b + 1)
  {
    if b >= 0 {
      ThroughOfRaw(xs, b - 1);
      BelowBinStep(xs, b);
    } else {
      BelowBinStep(xs, 0);
    }
  }

  lemma TotalOfRaw(xs: seq<int>)
    ensures Total(HistogramOf(xs)) == |xs|
  {
    ThroughOfRaw(xs, 7);
    BelowBinStep(xs, 0);
  }

  lemma {:induction false} NoneBelow(ys: seq<int>, b: nat)
    requires Sorted(ys) && ys != [] && ClassifyLatency(ys[0]) >= b
    ensures BelowBin(ys, b) == 0
  {
    if |ys| > 1 {
      NoneBelow(ys[1..], b);
    }
  }

  /** In sorted data the entries below a bin are a prefix. */
  lemma {:induction false} SortedPrefix(ys: seq<int>, b: nat, k: nat)
    requires Sorted(ys) && k < |ys|
    ensures ClassifyLatency(ys[k]) < b <==> k < BelowBin(ys, b)
  {
    if ClassifyLatency(ys[0]) >= b {
      NoneBelow(ys, b);
    } else if k > 0 {
      SortedPrefix(ys[1..], b, k - 1);
    }
  }

  /** BinFrom finds the first bin that reaches the threshold. */
  lemma {:induction false} BinFromMeans(h: Bins, threshold: real, b: Bin)
    ensures
      var r := BinFrom(h, threshold, b);
      && b <= r
      && (r == 7 || Reaches(h, r, threshold))
      && (forall c: Bin :: b <= c < r ==> !Reaches(h, c, threshold))
    decreases 8 - b
  {
    if b < 7 && !Reaches(h, b, threshold) {
      BinFromMeans(h, threshold, b + 1);
    }
  }

  /** The nearest rank of a percentile among n values: the least rank that covers pct percent. */
  function NearestRank(pct: real, n: nat): int { -((-(pct / 100.0 * (n as real))).Floor) }

  lemma NearestRankBounds(pct: real, n: nat)
    requires 0.0 < pct <= 100.0 && n > 0
    ensures 1 <= NearestRank(pct, n) <= n
  {
    var f := pct / 100.0;
    assert 0.0 < f <= 1.0;
    var t := f * (n as real);
    assert t > 0.0;
    assert n as real - t == (1.0 - f) * (n as real);
    assert (1.0 - f) * (n as real) >= 0.0;
  }

  lemma ReachesOfSorted(ys: seq<int>, c: Bin, t: real, rank: nat)
    requires Sorted(ys) && 1 <= rank <= |ys|
    requires rank == -((-t).Floor)
    ensures Reaches(HistogramOf(ys), c, t) <==> ClassifyLatency(ys[rank - 1]) <= c
  {
    ThroughOfRaw(ys, c);
    SortedPrefix(ys, c + 1, rank - 1);
  }

  /** Reading a percentile off the histogram of sorted data gives the bin of its nearest-rank value. */
  lemma PercentileBinOfSorted(ys: seq<int>, pct: real)
    requires ys != [] && Sorted(ys)
    requires 0.0 < pct <= 100.0
    ensures 1 <= NearestRank(pct, |ys|) <= |ys|
    ensures PercentileBin(HistogramOf(ys), pct) == ClassifyLatency(ys[NearestRank(pct, |ys|) - 1])
  {
    var rank, h := NearestRank(pct, |ys|), HistogramOf(ys);
    NearestRankBounds(pct, |ys|);
    TotalOfRaw(ys);
    var threshold := Threshold(h, pct);
    var target := ClassifyLatency(ys[rank - 1]);
    forall c: Bin ensures Reaches(h, c, threshold) <==> target <= c {
      ReachesOfSorted(ys, c, threshold, rank);
    }
    BinFromMeans(h, threshold, 0);
    assert Reaches(h, target, threshold);
  }

  /** Reading a percentile off the histogram gives the midpoint of the bin that holds the
      nearest-rank percentile of the sorted data. */
  lemma PercentileRefinesSorted(xs: seq<int>, sorted: seq<int>, pct: real)
    requires xs != [] && multiset(xs) == multiset(sorted) && Sorted(sorted)
    requires 0.0 < pct <= 100.0
    ensures |sorted| == |xs| && 1 <= NearestRank(pct, |xs|) <= |xs|
    ensures Percentile(HistogramOf(xs), pct) == Midpoint(ClassifyLatency(sorted[NearestRank(pct, |xs|) - 1]))
  {
    assert |multiset(xs)| == |xs| && |multiset(sorted)| == |sorted|;
    assert HistogramOf(xs) == HistogramOf(sorted) by {
      forall b: Bin ensures InBin(xs, b) == InBin(sorted, b) { HistogramOfMultiset(xs, sorted, b); }
    }
    TotalOfRaw(xs);
    PercentileBinOfSorted(sorted, pct);
  }

  lemma ReachesMonotone(h: Bins, t: real, i: Bin, j: Bin)
    requires i <= j && Reaches(h, i, t)
    ensures Reaches(h, j, t)
  {
    ThroughMonotone(h, i, j);
  }

  lemma ReachesMerge(a: Bins, b: Bins, ta: real, tb: real, c: Bin)
    ensures Reaches(a, c, ta) && Reaches(b, c, tb) ==> Reaches(Merge(a, b), c, ta + tb)
    ensures !Reaches(a, c, ta) && !Reaches(b, c, tb) ==> !Reaches(Merge(a, b), c, ta + tb)
  {
    ThroughMerge(a, b, c);
  }

  /** The bin of a merge lies between the bins of its two parts; thresholds and counts both add up. */
  lemma BinFromMerge(a: Bins, b: Bins, ta: real, tb: real, i: Bin, j: Bin, k: Bin)
    requires i == BinFrom(a, ta, 0) && j == BinFrom(b, tb, 0) && k == BinFrom(Merge(a, b), ta + tb, 0)
    ensures i <= k <= j || j <= k <= i
  {
    BinFromFirst(a, ta);
    BinFromFirst(b, tb);
    BinFromFirst(Merge(a, b), ta + tb);
    if i <= j { FirstReached(a, b, ta, tb, i, j, k); } else { FirstReachedSwapped(a, b, ta, tb, i, j, k); }
  }

  lemma BinFromFirst(h: Bins, t: real)
    ensures IsFirst(h, t, BinFrom(h, t, 0))
  {
    BinFromMeans(h, t, 0);
  }

  /** Bin k is the first at which the cumulative count of h reaches t, or the last if none does. */
  ghost predicate IsFirst(h: Bins, t: real, k: Bin) {
    (k == 7 || Reaches(h, k, t)) && forall c: Bin :: 0 <= c < k ==> !Reaches(h, c, t)
  }

  lemma FirstReached(a: Bins, b: Bins, ta: real, tb: real, i: Bin, j: Bin, k: Bin)
    requires IsFirst(a, ta, i) && IsFirst(b, tb, j) && IsFirst(Merge(a, b), ta + tb, k)
    requires i <= j
    ensures i <= k <= j
  {
    if j < k {
      ReachesMonotone(a, ta, i, j);
      ReachesMerge(a, b, ta, tb, j);
    }
    if k < i {
      ReachesMerge(a, b, ta, tb, k);
    }
  }

  lemma FirstReachedSwapped(a: Bins, b: Bins, ta: real, tb: real, i: Bin, j: Bin, k: Bin)
    requires IsFirst(a, ta, i) && IsFirst(b, tb, j) && IsFirst(Merge(a, b), ta + tb, k)
    requires j <= i
    ensures j <= k <= i
  {
    if i < k {
      ReachesMonotone(b, tb, j, i);
      ReachesMerge(a, b, ta, tb, i);
    }
    if k < j {
      ReachesMerge(a, b, ta, tb, k);
    }
  }

  lemma Distributes(f: real, x: nat, y: nat)
    ensures Share(f, x + y) == Share(f, x) + Share(f, y)
  {
    assert (x + y) as real == x as real + y as real;
  }

  /** Where one bin ends and the next begins. */
  const EDGES := [50, 100, 200, 500, 1000, 2000, 5000]

  /** A bin holds the latencies from its lower edge, included, to its upper edge, excluded; the first has
      no lower edge and the last no upper one. */
  lemma BinIff(ms: int, b: Bin)
    ensures ClassifyLatency(ms) == b <==> (b > 0 ==> EDGES[b - 1] <= ms) && (b < 7 ==> ms < EDGES[b])
  {
  }

  /** A bin is read as the middle between its edges, from 0 for the first; the last one as 7500 ms. */
  lemma MidpointExact(b: Bin)
    ensures b < 7 ==> 2 * Midpoint(b) == (if b == 0 then 0 else EDGES[b - 1]) + EDGES[b]
    ensures b == 7 ==> Midpoint(b) == 7500
  {
  }

  /** A midpoint lies in its own bin, and larger latencies never fall in lower bins. */
  lemma BinsOrdered(b: Bin, x: int, y: int)
    requires x <= y
    ensures ClassifyLatency(Midpoint(b)) == b
    ensures ClassifyLatency(x) <= ClassifyLatency(y)
  {
  }

  /** A higher percentile is never read lower: p50 <= p95 <= p99 on every histogram. */
  lemma PercentileMonotone(h: Bins, p: real, q: real)
    requires p <= q
    ensures Percentile(h, p) <= Percentile(h, q)
  {
    ShareMonotone(p / 100.0, q / 100.0, Total(h));
    BinFromFirst(h, Threshold(h, p));
    BinFromFirst(h, Threshold(h, q));
    FirstMonotone(h, Threshold(h, p), Threshold(h, q), PercentileBin(h, p), PercentileBin(h, q));
  }

  /** Counts under unknown keys never lower a percentile. */
  lemma OtherKeysRaise(h: Bins, less: nat, more: nat, pct: real)
    requires less <= more && pct >= 0.0
    ensures PercentileWith(h, less, pct) <= PercentileWith(h, more, pct)
  {
    if Total(h) + less > 0 {
      var t, u := Share(pct / 100.0, Total(h) + less), Share(pct / 100.0, Total(h) + more);
      ShareGrows(pct / 100.0, Total(h) + less, Total(h) + more);
      BinFromFirst(h, t);
      BinFromFirst(h, u);
      FirstMonotone(h, t, u, BinFrom(h, t, 0), BinFrom(h, u, 0));
    }
  }

  lemma ShareGrows(f: real, m: nat, n: nat)
    requires f >= 0.0 && m <= n
    ensures Share(f, m) <= Share(f, n)
  {
    assert n as real - m as real >= 0.0;
    assert Share(f, n) - Share(f, m) == f * (n as real - m as real);
  }

  lemma ShareMonotone(f: real, g: real, n: nat)
    requires f <= g
    ensures Share(f, n) <= Share(g, n)
  {
    assert Share(g, n) - Share(f, n) == (g - f) * (n as real);
  }

  lemma FirstMonotone(h: Bins, t: real, u: real, i: Bin, j: Bin)
    requires t <= u && IsFirst(h, t, i) && IsFirst(h, u, j)
    ensures i <= j
  {
    if j < 7 { assert Reaches(h, j, t); }
  }

  /** The percentile of a merge lies between the percentiles of its two parts. */
  lemma MergeBetween(a: Bins, b: Bins, pct: real)
    requires Total(a) > 0 && Total(b) > 0
    ensures
      var pa, pb, pm := Percentile(a, pct), Percentile(b, pct), Percentile(Merge(a, b), pct);
      pa <= pm <= pb || pb <= pm <= pa
  {
    var m := Merge(a, b);
    ThresholdMerge(a, b, pct);
    var i, j, k := PercentileBin(a, pct), PercentileBin(b, pct), PercentileBin(m, pct);
    BinFromMerge(a, b, Threshold(a, pct), Threshold(b, pct), i, j, k);
  }

  lemma ThresholdMerge(a: Bins, b: Bins, pct: real)
    ensures Total(Merge(a, b)) == Total(a) + Total(b)
    ensures Threshold(Merge(a, b), pct) == Threshold(a, pct) + Threshold(b, pct)
  {
    ThroughMerge(a, b, 7);
    Distributes(pct / 100.0, Total(a), Total(b));
  }

  lemma {:induction false} ThroughMerge(a: Bins, b: Bins, k: int)
    requires -1 <= k < 8
    ensures Through(Merge(a, b), k) == Through(a, k) + Through(b, k)
  {
    if k >= 0 { ThroughMerge(a, b, k - 1); }
  }

  lemma {:induction false} ThroughMonotone(h: Bins, i: int, j: int)
    requires -1 <= i <= j < 8
    ensures Through(h, i) <= Through(h, j)
  {
    if i < j { ThroughMonotone(h, i, j - 1); }
  }

  /** Requests that took at least 2000 ms. */
  function Slow(xs: seq<int>): nat {
    if xs == [] then 0 else (if xs[0] >= 2000 then 1 else 0) + Slow(xs[1..])
  }

  lemma {:induction false} SlowIsAboveBin5(xs: seq<int>)
    ensures Slow(xs) + BelowBin(xs, 6) == |xs|
  {
    if xs != [] { SlowIsAboveBin5(xs[1..]); }
  }

  /** A p95 above 3000 ms is one whose bin starts at 2000 ms. */
  lemma P95Above(h: Bins)
    ensures Percentile(h, 95.0) > 3000 <==> Total(h) > 0 && !Reaches(h, 5, Threshold(h, 95.0))
  {
    var t, bin := Threshold(h, 95.0), PercentileBin(h, 95.0);
    BinFromMeans(h, t, 0);
    if bin <= 5 { ThroughMonotone(h, bin, 5); }
  }

  lemma FivePercent(below: nat, slow: nat)
    ensures below as real >= Share(95.0 / 100.0, below + slow) <==> 100 * slow <= 5 * (below + slow)
  {
  }

  /** The p95 of a window exceeds 3000 ms exactly when strictly more than 5% of its requests took at
      least 2000 ms, however the requests are spread over metric rows. */
  lemma HighLatencyIff(batches: seq<seq<int>>, all: seq<int>)
    requires multiset(Flatten(batches)) == multiset(all)
    ensures Percentile(MergeAll(Histograms(batches)), 95.0) > 3000
       <==> 100 * Slow(all) > 5 * |all|
  {
    MergeIsClassification(batches, all);
    P95Above(HistogramOf(all));
    TotalOfRaw(all);
    ThroughOfRaw(all, 5);
    SlowIsAboveBin5(all);
    FivePercent(BelowBin(all, 6), Slow(all));
  }
}
