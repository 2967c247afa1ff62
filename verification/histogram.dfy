/** `np.histogram(vec, bins=edges)` for an explicit edge sequence, and the
    per-point binner `_histogram_counts` built on it.

    numpy computes a histogram with explicit edges by counting, for each
    edge, how many samples lie strictly below it (`searchsorted` with side
    'left'), except for the last edge, where it counts the samples at or
    below it (side 'right'); the histogram is the sequence of differences of
    those cumulative counts. `NumpyHistogram` is that computation, and its
    contract is the documented per-bin meaning: bin `i` holds the samples with
    `edges[i] <= x < edges[i+1]`, the last bin being closed on both ends. */
module Histogram {
  import opened Counting

  /** The values counted by bin `i`: half-open, except the last bin. */
  function BinBand(edges: seq<real>, i: nat): Band
    requires i + 1 < |edges|
  {
    if i + 2 == |edges| then Closed(edges[i], edges[i + 1])
    else HalfOpen(edges[i], edges[i + 1])
  }

  /** numpy's cumulative counts: samples below each edge, and at or below the
      last one. */
  function Cumulative(v: seq<int>, edges: seq<real>): (c: seq<nat>)
    ensures |c| == |edges|
  {
    seq(|edges|, j requires 0 <= j < |edges| =>
      if j + 1 < |edges| then Count(v, Below(edges[j])) else Count(v, AtMost(edges[j])))
  }

  /** `np.diff`: differences of neighbouring entries. */
  function Diffs(c: seq<int>): (d: seq<int>)
    ensures |d| == if |c| == 0 then 0 else |c| - 1
  {
    if |c| == 0 then [] else seq(|c| - 1, i requires 0 <= i < |c| - 1 => c[i + 1] - c[i])
  }

  /** The number of bins numpy returns for `edges`. */
  function BinCount(edges: seq<real>): nat {
    if |edges| == 0 then 0 else |edges| - 1
  }

  /** `np.histogram(v, bins=edges)[0]`. */
  function NumpyHistogram(v: seq<int>, edges: seq<real>): (hist: seq<int>)
    requires NonDecreasing(edges)
    ensures |hist| == BinCount(edges)
    ensures forall i :: 0 <= i < |hist| ==> hist[i] == Count(v, BinBand(edges, i))
  {
    CumulativeDiffsAreBins(v, edges);
    Diffs(Cumulative(v, edges))
  }

  /** Each difference of numpy's cumulative counts is the count of one bin. */
  lemma CumulativeDiffsAreBins(v: seq<int>, edges: seq<real>)
    requires NonDecreasing(edges)
    ensures forall i :: 0 <= i < BinCount(edges) ==>
      Diffs(Cumulative(v, edges))[i] == Count(v, BinBand(edges, i))
  {
    var c := Cumulative(v, edges);
    forall i | 0 <= i < BinCount(edges)
      ensures Diffs(c)[i] == Count(v, BinBand(edges, i))
    {
      var lo, hi := edges[i], edges[i + 1];
      assert lo <= hi;
      if i + 2 == |edges| {
        CountSplit(v, AtMost(hi), Below(lo), Closed(lo, hi));
      } else {
        CountSplit(v, Below(hi), Below(lo), HalfOpen(lo, hi));
      }
    }
  }

  /** Differences telescope: they add up to last minus first. */
  lemma {:induction false} SumDiffs(c: seq<int>)
    requires |c| > 0
    ensures Sum(Diffs(c)) == c[|c| - 1] - c[0]
  {
    if |c| > 1 {
      var c' := c[..|c| - 1];
      SumDiffs(c');
      assert Diffs(c)[..|c| - 2] == Diffs(c');
    }
  }

  /** A histogram holds exactly the samples inside `[edges[0], edges[-1]]`;
      samples outside that range are dropped, so it never holds more samples
      than the vector has. */
  lemma HistogramTotal(v: seq<int>, edges: seq<real>)
    requires NonDecreasing(edges)
    requires |edges| >= 2
    ensures Sum(NumpyHistogram(v, edges)) == Count(v, Closed(edges[0], edges[|edges| - 1]))
    ensures Sum(NumpyHistogram(v, edges)) <= |v|
  {
    var lo, hi := edges[0], edges[|edges| - 1];
    assert lo <= hi;
    HistogramTelescopes(v, edges);
    BelowThenClosed(v, lo, hi);
  }

  /** The bins add up to the last cumulative count minus the first. */
  lemma HistogramTelescopes(v: seq<int>, edges: seq<real>)
    requires NonDecreasing(edges)
    requires |edges| >= 2
    ensures Sum(NumpyHistogram(v, edges)) == Count(v, AtMost(edges[|edges| - 1])) - Count(v, Below(edges[0]))
  {
    var c := Cumulative(v, edges);
    assert NumpyHistogram(v, edges) == Diffs(c);
    SumDiffs(c);
  }

  /** A histogram never holds more samples than it was given, whatever the
      number of edges. */
  lemma HistogramBounded(v: seq<int>, edges: seq<real>)
    requires NonDecreasing(edges)
    ensures Sum(NumpyHistogram(v, edges)) <= |v|
  {
    if |edges| >= 2 {
      HistogramTotal(v, edges);
    } else {
      assert NumpyHistogram(v, edges) == [];
    }
  }

  /** `_histogram_counts`: one histogram per scan point, in scan order, each
      over the whole (untruncated) vector of that point. */
  method HistogramCounts(counts: seq<seq<int>>, edges: seq<real>) returns (hists: seq<seq<int>>)
    requires NonDecreasing(edges)
    ensures |hists| == |counts|
    ensures forall i :: 0 <= i < |counts| ==>
      hists[i] == NumpyHistogram(counts[i], edges) && |hists[i]| == BinCount(edges)
    ensures forall i :: 0 <= i < |counts| ==> Sum(hists[i]) <= |counts[i]|
  {
    hists := [];
    var i := 0;
    while i < |counts|
      invariant 0 <= i <= |counts|
      invariant |hists| == i
      invariant forall j :: 0 <= j < i ==> hists[j] == NumpyHistogram(counts[j], edges)
      invariant forall j :: 0 <= j < i ==> Sum(hists[j]) <= |counts[j]|
    {
      var hist := NumpyHistogram(counts[i], edges);
      HistogramBounded(counts[i], edges);
      hists := hists + [hist];
      i := i + 1;
    }
  }

  /** The integer edges `0, 1, ..., n - 1` increase. */
  lemma RangeEdgesIncrease(n: int)
    ensures NonDecreasing(RealRange(n))
  {
  }

  /** With the integer default edges `0, 1, ..., n - 1` there are `n - 1`
      bins; bin `i` holds exactly the samples equal to `i`, except the last
      bin, which holds the samples equal to `n - 2` or `n - 1`. */
  lemma RangeBins(v: seq<int>, n: int, i: nat)
    requires i + 1 < n
    ensures NonDecreasing(RealRange(n))
    ensures |NumpyHistogram(v, RealRange(n))| == n - 1
    ensures NumpyHistogram(v, RealRange(n))[i] ==
      if i + 2 == n then Count(v, Closed(i as real, (i + 1) as real))
      else Count(v, Closed(i as real, i as real))
  {
    var edges := RealRange(n);
    assert edges[i] == i as real && edges[i + 1] == (i + 1) as real;
    assert NumpyHistogram(v, edges)[i] == Count(v, BinBand(edges, i));
    if i + 2 < n {
      UnitBinIsPoint(v, i);
    }
  }

  /** On integer samples the bin `[i, i + 1)` holds exactly the value `i`. */
  lemma UnitBinIsPoint(v: seq<int>, i: int)
    ensures Count(v, HalfOpen(i as real, (i + 1) as real)) == Count(v, Closed(i as real, i as real))
  {
    var bin, point := HalfOpen(i as real, (i + 1) as real), Closed(i as real, i as real);
    forall x: int ensures InBand(bin, x) <==> InBand(point, x) {
      if x < i { assert x as real < i as real; }
      else if x > i { assert x as real >= (i + 1) as real; }
    }
    CountSame(v, bin, point);
  }

  /** Edges `[0, 2, 4, 6]` on samples `[0, 1, 2, 3, 5]` give `[2, 2, 1]`:
      5 falls in the closed last bin `[4, 6]`. */
  lemma HistogramExample()
    ensures NumpyHistogram([0, 1, 2, 3, 5], [0.0, 2.0, 4.0, 6.0]) == [2, 2, 1]
  {
    var hist := NumpyHistogram([0, 1, 2, 3, 5], [0.0, 2.0, 4.0, 6.0]);
    assert hist[0] == Count([0, 1, 2, 3, 5], HalfOpen(0.0, 2.0));
  }
}
