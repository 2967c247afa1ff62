/** The single-threshold statistics of `plot_xy_hist_counts.py`:
    `_threshold_counts` (bright fraction of every scan point) and the
    per-row mean helper `_compute_ys`. */
module SingleIonStats {
  import opened Counting
  import TwoIonStats

  /** `sum([x >= threshold for x in vec]) / len(vec)`: the fraction of the
      whole vector at or above the threshold, so that it times the length is
      the bright count. It is 1 exactly when every sample is bright and 0
      exactly when none is. */
  function BrightFraction(v: seq<int>, threshold: real): (p: real)
    requires |v| > 0
    ensures p * |v| as real == Count(v, AtLeast(threshold)) as real
    ensures TwoIonStats.InUnit(p)
    ensures p == 1.0 <==> forall k :: 0 <= k < |v| ==> threshold <= v[k] as real
    ensures p == 0.0 <==> forall k :: 0 <= k < |v| ==> v[k] as real < threshold
  {
    var c := Count(v, AtLeast(threshold));
    BrightCount(v, threshold);
    UnitFraction(c, |v|);
    c as real / |v| as real
  }

  /** The bright count is the whole vector exactly when every sample is at or
      above the threshold, and zero exactly when every sample is below it. */
  lemma BrightCount(v: seq<int>, threshold: real)
    ensures Count(v, AtLeast(threshold)) == |v| <==> forall k :: 0 <= k < |v| ==> threshold <= v[k] as real
    ensures Count(v, AtLeast(threshold)) == 0 <==> forall k :: 0 <= k < |v| ==> v[k] as real < threshold
  {
    var bright := AtLeast(threshold);
    CountAll(v, bright);
    CountNone(v, bright);
    assert (forall k :: 0 <= k < |v| ==> InBand(bright, v[k])) <==>
      (forall k :: 0 <= k < |v| ==> threshold <= v[k] as real);
    assert (forall k :: 0 <= k < |v| ==> !InBand(bright, v[k])) <==>
      (forall k :: 0 <= k < |v| ==> v[k] as real < threshold);
  }

  /** `c / n` with `c <= n` lies in `[0, 1]`, is 1 only for `c == n` and 0
      only for `c == 0`. */
  lemma UnitFraction(c: nat, n: nat)
    requires 0 < n && c <= n
    ensures (c as real / n as real) * n as real == c as real
    ensures 0.0 <= c as real / n as real <= 1.0
    ensures c as real / n as real == 1.0 <==> c == n
    ensures c as real / n as real == 0.0 <==> c == 0
  {
    var r := n as real;
    DivCancel(c as real, r);
    DivBetween(c as real, 0.0, 1.0, r);
  }

  /** Every scan point has at least one sample (the source divides by the
      vector length). */
  predicate NonEmptyRows(counts: seq<seq<int>>) {
    forall i :: 0 <= i < |counts| ==> |counts[i]| > 0
  }

  /** `_threshold_counts(counts, threshold)`: one probability per scan point,
      in scan order, each in `[0, 1]`. */
  method ThresholdCounts(counts: seq<seq<int>>, threshold: real) returns (y: seq<real>)
    requires NonEmptyRows(counts)
    ensures |y| == |counts|
    ensures forall i :: 0 <= i < |counts| ==> y[i] == BrightFraction(counts[i], threshold)
    ensures forall i :: 0 <= i < |counts| ==> TwoIonStats.InUnit(y[i])
  {
    y := [];
    var i := 0;
    while i < |counts|
      invariant 0 <= i <= |counts|
      invariant |y| == i
      invariant forall j :: 0 <= j < i ==> y[j] == BrightFraction(counts[j], threshold)
    {
      y := y + [BrightFraction(counts[i], threshold)];
      i := i + 1;
    }
  }

  /** The single-threshold fraction is the two-ion "both bright" class with
      the threshold as the high cut and the vector's own length as the shot
      count, whatever the low cut. */
  lemma BrightFractionIsUpperClass(v: seq<int>, threshold: real, low: real)
    requires |v| > 0
    ensures BrightFraction(v, threshold) == TwoIonStats.Classify(v, |v|, low, threshold).p11
  {
    assert Take(v, |v|) == v;
  }

  /** `[[0, 0, 5, 5], [5, 5, 5, 0]]` with threshold 3 gives `[0.5, 0.75]`. */
  lemma BrightFractionExample()
    ensures BrightFraction([0, 0, 5, 5], 3.0) == 0.5
    ensures BrightFraction([5, 5, 5, 0], 3.0) == 0.75
  {
  }

  function MinOf(s: seq<int>): int
    requires |s| > 0
  {
    if |s| == 1 then s[0]
    else var m := MinOf(s[..|s| - 1]); if s[|s| - 1] < m then s[|s| - 1] else m
  }

  function MaxOf(s: seq<int>): int
    requires |s| > 0
  {
    if |s| == 1 then s[0]
    else var m := MaxOf(s[..|s| - 1]); if s[|s| - 1] > m then s[|s| - 1] else m
  }

  /** Every entry lies between the smallest and the largest. */
  lemma {:induction false} ExtremesBound(s: seq<int>)
    requires |s| > 0
    ensures forall k :: 0 <= k < |s| ==> MinOf(s) <= s[k] <= MaxOf(s)
  {
    if |s| > 1 {
      ExtremesBound(s[..|s| - 1]);
    }
  }

  /** A sum of entries in `[lo, hi]` lies in `[|s| * lo, |s| * hi]`. */
  lemma {:induction false} SumBounds(s: seq<int>, lo: int, hi: int)
    requires forall k :: 0 <= k < |s| ==> lo <= s[k] <= hi
    ensures |s| * lo <= Sum(s) <= |s| * hi
  {
    if |s| > 0 {
      var s' := s[..|s| - 1];
      SumBounds(s', lo, hi);
      assert |s| * lo == |s'| * lo + lo;
      assert |s| * hi == |s'| * hi + hi;
    }
  }

  /** The arithmetic mean of a non-empty row. */
  function Mean(s: seq<int>): (m: real)
    requires |s| > 0
    ensures m * |s| as real == Sum(s) as real
    ensures MinOf(s) as real <= m <= MaxOf(s) as real
  {
    var n, sum := |s| as real, Sum(s) as real;
    ExtremesBound(s);
    SumBounds(s, MinOf(s), MaxOf(s));
    CastProduct(|s|, MinOf(s));
    CastProduct(|s|, MaxOf(s));
    DivCancel(sum, n);
    DivBetween(sum, MinOf(s) as real, MaxOf(s) as real, n);
    sum / n
  }

  /** `_compute_ys(histogram_bins, histograms_counts)`: one value per row, the
      row's arithmetic mean. `histogram_bins` only sizes an unused array of
      bin centres; `np.empty` raises for the negative size an empty edge list
      would give. */
  function ComputeYs(histogramBins: seq<real>, rows: seq<seq<int>>): (ys: seq<real>)
    requires |histogramBins| >= 1
    requires NonEmptyRows(rows)
    ensures |ys| == |rows|
    ensures forall n :: 0 <= n < |rows| ==> ys[n] * |rows[n]| as real == Sum(rows[n]) as real
    ensures forall n :: 0 <= n < |rows| ==> MinOf(rows[n]) as real <= ys[n] <= MaxOf(rows[n]) as real
  {
    seq(|rows|, n requires 0 <= n < |rows| => Mean(rows[n]))
  }
}
