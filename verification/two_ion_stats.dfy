/** The two-ion threshold statistics of `plot_xy_hist_2ions.py`
    (`_threshold_counts`).

    Each scan point carries a vector of photon counts and a number of shots
    `N`. Only the first `N` samples are classified, into three classes:
    both ions bright (`high <= x`, "11"), exactly one bright
    (`low < x < high`, "10 or 01") and both dark (`x <= low`, "00"). Each
    class count is divided by `N`, and asymmetric error bars are derived from
    a 68% binomial confidence interval. */
module TwoIonStats {
  import opened Counting

  /** The confidence level passed to `binom.interval`. */
  const Confidence: real := 0.68

  /** `scipy.stats.binom.interval(confidence, n, p)`: the interval ends, as
      counts out of `n`. It is a foreign statistical routine and is left
      uninterpreted: every statement below holds for any such function. */
  type Interval = (real, nat, real) -> (real, real)

  /** A probability with its asymmetric error bars. */
  datatype Estimate = Estimate(p: real, upperErr: real, lowerErr: real)

  /** The three class probabilities of one scan point. */
  datatype Classes = Classes(p11: real, p10_01: real, p00: real)

  /** The three estimates of one scan point. */
  datatype PointStats = PointStats(e11: Estimate, e10_01: Estimate, e00: Estimate)

  /** The nine lists `_threshold_counts` returns, in its return order. */
  datatype Series = Series(
    y11: seq<real>, y11UpperErr: seq<real>, y11LowerErr: seq<real>,
    y00: seq<real>, y00UpperErr: seq<real>, y00LowerErr: seq<real>,
    y10_01: seq<real>, y10_01UpperErr: seq<real>, y10_01LowerErr: seq<real>)

  predicate InUnit(p: real) {
    0.0 <= p <= 1.0
  }

  /** `count / n` as a probability. */
  function Fraction(count: nat, n: nat): (p: real)
    requires n > 0
    requires count <= n
    ensures InUnit(p)
    ensures p * n as real == count as real
  {
    count as real / n as real
  }

  /** The class probabilities of one scan point with `n` shots. */
  function Classify(v: seq<int>, n: nat, low: real, high: real): (c: Classes)
    requires n > 0
    ensures c.p11 == Count(Take(v, n), AtLeast(high)) as real / n as real
    ensures c.p10_01 == Count(Take(v, n), Between(low, high)) as real / n as real
    ensures c.p00 == Count(Take(v, n), AtMost(low)) as real / n as real
    ensures InUnit(c.p11) && InUnit(c.p10_01) && InUnit(c.p00)
    ensures low < high ==>
      c.p11 + c.p10_01 + c.p00 == Min(n, |v|) as real / n as real
    ensures low < high && n <= |v| ==> c.p11 + c.p10_01 + c.p00 == 1.0
    ensures high <= low ==> c.p10_01 == 0.0
    ensures high <= low ==> c.p11 + c.p00 >= Min(n, |v|) as real / n as real
  {
    var w := Take(v, n);
    var c11, c10_01, c00 := Count(w, AtLeast(high)), Count(w, Between(low, high)), Count(w, AtMost(low));
    ClassCounts(w, low, high);
    ClassFractions(c11, c10_01, c00, |w|, n);
    Classes(Fraction(c11, n), Fraction(c10_01, n), Fraction(c00, n))
  }

  /** The class-count facts, divided by the shot count. */
  lemma ClassFractions(c11: nat, c10_01: nat, c00: nat, len: nat, n: nat)
    requires 0 < n && len <= n && c11 <= n && c10_01 <= n && c00 <= n
    ensures c11 + c10_01 + c00 == len ==>
      Fraction(c11, n) + Fraction(c10_01, n) + Fraction(c00, n) == len as real / n as real
    ensures len == n ==> len as real / n as real == 1.0
    ensures c10_01 == 0 ==> Fraction(c10_01, n) == 0.0
    ensures c11 + c00 >= len ==> Fraction(c11, n) + Fraction(c00, n) >= len as real / n as real
  {
    var r11, r10_01, r00, r, len' := c11 as real, c10_01 as real, c00 as real, n as real, len as real;
    DivAdd(r11, r10_01, r);
    DivAdd(r11 + r10_01, r00, r);
    DivAdd(r11, r00, r);
    if len == n {
      DivSelf(r);
    }
    if c11 + c00 >= len {
      DivMonotone(len', r11 + r00, r);
    }
  }

  /** The class counts of a vector: a partition when `low < high`, an
      overlapping cover with an empty middle class otherwise. */
  lemma ClassCounts(w: seq<int>, low: real, high: real)
    ensures low < high ==>
      Count(w, AtLeast(high)) + Count(w, Between(low, high)) + Count(w, AtMost(low)) == |w|
    ensures high <= low ==> Count(w, Between(low, high)) == 0
    ensures high <= low ==> Count(w, AtLeast(high)) + Count(w, AtMost(low)) >= |w|
  {
    if low < high {
      ThreeClassPartition(w, low, high);
    } else {
      CountNone(w, Between(low, high));
      OuterClassesCover(w, low, high);
    }
  }

  /** Error bars from the interval `(lo, hi) = binom.interval(0.68, n, p)`:
      `p - lower` and `p + upper` are the interval ends scaled to
      probabilities, and both bars are non-negative whenever the interval
      brackets the observed count `p * n`. */
  function WithErrors(p: real, n: nat, interval: Interval): (e: Estimate)
    requires n > 0
    ensures e.p == p
    ensures e.p - e.lowerErr == interval(Confidence, n, p).0 / n as real
    ensures e.p + e.upperErr == interval(Confidence, n, p).1 / n as real
    ensures interval(Confidence, n, p).0 <= p * n as real ==> 0.0 <= e.lowerErr
    ensures p * n as real <= interval(Confidence, n, p).1 ==> 0.0 <= e.upperErr
  {
    var ci := interval(Confidence, n, p);
    ScaledBelow(ci.0, p, n);
    ScaledBelow(p, ci.1 / n as real, n);
    Estimate(p, ci.1 / n as real - p, p - ci.0 / n as real)
  }

  lemma ScaledBelow(a: real, b: real, n: nat)
    requires n > 0
    ensures a <= b * n as real ==> a / n as real <= b
    ensures a / n as real <= b ==> a <= b * n as real
  {
    var r := n as real;
    assert (a / r) * r == a;
  }

  /** All three estimates of one scan point: one loop iteration of
      `_threshold_counts`. */
  function Stats(v: seq<int>, n: nat, low: real, high: real, interval: Interval): (s: PointStats)
    requires n > 0
    ensures s.e11.p == Classify(v, n, low, high).p11
    ensures s.e10_01.p == Classify(v, n, low, high).p10_01
    ensures s.e00.p == Classify(v, n, low, high).p00
    ensures s.e11.p - s.e11.lowerErr == interval(Confidence, n, s.e11.p).0 / n as real
    ensures s.e11.p + s.e11.upperErr == interval(Confidence, n, s.e11.p).1 / n as real
    ensures s.e10_01.p - s.e10_01.lowerErr == interval(Confidence, n, s.e10_01.p).0 / n as real
    ensures s.e10_01.p + s.e10_01.upperErr == interval(Confidence, n, s.e10_01.p).1 / n as real
    ensures s.e00.p - s.e00.lowerErr == interval(Confidence, n, s.e00.p).0 / n as real
    ensures s.e00.p + s.e00.upperErr == interval(Confidence, n, s.e00.p).1 / n as real
  {
    var c := Classify(v, n, low, high);
    PointStats(WithErrors(c.p11, n, interval), WithErrors(c.p10_01, n, interval), WithErrors(c.p00, n, interval))
  }

  /** All nine lists have `len` entries. */
  predicate Shaped(s: Series, len: nat) {
    && |s.y11| == len && |s.y11UpperErr| == len && |s.y11LowerErr| == len
    && |s.y00| == len && |s.y00UpperErr| == len && |s.y00LowerErr| == len
    && |s.y10_01| == len && |s.y10_01UpperErr| == len && |s.y10_01LowerErr| == len
  }

  /** Entry `i` of the nine lists, read back as one point's estimates. */
  function At(s: Series, i: nat): PointStats
    requires i < |s.y11| && Shaped(s, |s.y11|)
  {
    PointStats(
      Estimate(s.y11[i], s.y11UpperErr[i], s.y11LowerErr[i]),
      Estimate(s.y10_01[i], s.y10_01UpperErr[i], s.y10_01LowerErr[i]),
      Estimate(s.y00[i], s.y00UpperErr[i], s.y00LowerErr[i]))
  }

  /** Appends one point's estimates to each of the nine lists. */
  function Append(s: Series, e: PointStats): Series {
    Series(
      s.y11 + [e.e11.p], s.y11UpperErr + [e.e11.upperErr], s.y11LowerErr + [e.e11.lowerErr],
      s.y00 + [e.e00.p], s.y00UpperErr + [e.e00.upperErr], s.y00LowerErr + [e.e00.lowerErr],
      s.y10_01 + [e.e10_01.p], s.y10_01UpperErr + [e.e10_01.upperErr], s.y10_01LowerErr + [e.e10_01.lowerErr])
  }

  /** The shot count of every point the loop reaches is positive (the source
      divides by it). */
  predicate PositiveShots(counts: seq<seq<int>>, nVec: seq<int>) {
    forall i :: 0 <= i < |counts| && i < |nVec| ==> nVec[i] > 0
  }

  /** `_threshold_counts(counts, thresholdLow, thresholdHigh, n_vec)`: it walks
      `zip(counts, n_vec)`, so the nine lists have one entry per scan point up
      to the shorter of the two, in scan order; entry `i` holds the estimates
      of point `i` from its first `n_vec[i]` samples. */
  method ThresholdCounts(counts: seq<seq<int>>, low: real, high: real, nVec: seq<int>, interval: Interval)
    returns (s: Series)
    requires PositiveShots(counts, nVec)
    ensures Shaped(s, Min(|counts|, |nVec|))
    ensures forall i :: 0 <= i < |s.y11| ==> At(s, i) == Stats(counts[i], nVec[i], low, high, interval)
    ensures forall i :: 0 <= i < |s.y11| ==> InUnit(s.y11[i]) && InUnit(s.y10_01[i]) && InUnit(s.y00[i])
    ensures forall i :: 0 <= i < |s.y11| && low < high ==>
      s.y11[i] + s.y10_01[i] + s.y00[i] == Min(nVec[i], |counts[i]|) as real / nVec[i] as real
    ensures high <= low ==> forall i :: 0 <= i < |s.y10_01| ==> s.y10_01[i] == 0.0
  {
    var len := Min(|counts|, |nVec|);
    s := Series([], [], [], [], [], [], [], [], []);
    var i := 0;
    while i < len
      invariant 0 <= i <= len
      invariant Shaped(s, i)
      invariant forall j :: 0 <= j < i ==> At(s, j) == Stats(counts[j], nVec[j], low, high, interval)
    {
      var e := Stats(counts[i], nVec[i], low, high, interval);
      AppendAt(s, i, e);
      s := Append(s, e);
      i := i + 1;
    }
    forall i | 0 <= i < |s.y11|
      ensures InUnit(s.y11[i]) && InUnit(s.y10_01[i]) && InUnit(s.y00[i])
      ensures low < high ==>
        s.y11[i] + s.y10_01[i] + s.y00[i] == Min(nVec[i], |counts[i]|) as real / nVec[i] as real
      ensures high <= low ==> s.y10_01[i] == 0.0
    {
      var c := Classify(counts[i], nVec[i], low, high);
      assert At(s, i).e11.p == s.y11[i] == c.p11;
      assert At(s, i).e10_01.p == s.y10_01[i] == c.p10_01;
      assert At(s, i).e00.p == s.y00[i] == c.p00;
    }
  }

  /** Appending keeps the earlier entries and adds `e` as entry `i`. */
  lemma AppendAt(s: Series, i: nat, e: PointStats)
    requires Shaped(s, i)
    ensures Shaped(Append(s, e), i + 1)
    ensures At(Append(s, e), i) == e
    ensures forall j :: 0 <= j < i ==> At(Append(s, e), j) == At(s, j)
  {
  }

  /** Only the first `N` samples of a point matter: anything recorded after
      them leaves its probabilities unchanged. */
  lemma TruncationIgnoresTail(v: seq<int>, extra: seq<int>, n: nat, low: real, high: real)
    requires 0 < n <= |v|
    ensures Classify(v + extra, n, low, high) == Classify(v, n, low, high)
  {
    assert Take(v + extra, n) == Take(v, n);
  }

  /** Shots `[2, 4]` on two four-sample vectors: the first point is classified
      from its first two samples only. */
  lemma TruncationExample()
    ensures Classify([0, 0, 5, 5], 2, 1.0, 3.0) == Classes(0.0, 0.0, 1.0)
    ensures Classify([5, 2, 2, 0], 4, 1.0, 3.0) == Classes(0.25, 0.5, 0.25)
  {
    assert Take([0, 0, 5, 5], 2) == [0, 0];
    assert Take([5, 2, 2, 0], 4) == [5, 2, 2, 0];
  }
}
