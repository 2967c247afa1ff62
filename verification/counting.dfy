/** Counting photon-count samples that fall into a band of values.

    Every classification in the applets is a Python expression of the shape
    `sum([cond(x) for x in vec])`: the number of samples of a vector that pass
    one comparison. `Count` is that expression; `Band` names the comparison. */
module Counting {

  /** The comparisons the applets apply to a sample. Samples are integers
      (photon counts); cut values are reals, as thresholds and bin edges are
      datasets that may hold floats. */
  datatype Band =
    | AtLeast(t: real)              // t <= x
    | AtMost(t: real)               // x <= t
    | Below(t: real)                // x < t
    | Between(lo: real, hi: real)   // lo < x < hi
    | HalfOpen(lo: real, hi: real)  // lo <= x < hi
    | Closed(lo: real, hi: real)    // lo <= x <= hi

  predicate InBand(b: Band, x: int) {
    var r := x as real;
    match b
    case AtLeast(t) => t <= r
    case AtMost(t) => r <= t
    case Below(t) => r < t
    case Between(lo, hi) => lo < r < hi
    case HalfOpen(lo, hi) => lo <= r < hi
    case Closed(lo, hi) => lo <= r <= hi
  }

  /** A series in non-decreasing order: numpy's requirement on bin edges and
      the order in which `plot_xy.py` draws its abscissas. */
  predicate NonDecreasing(s: seq<real>) {
    forall i, j :: 0 <= i <= j < |s| ==> s[i] <= s[j]
  }

  /** Number of samples of `v` inside band `b`. */
  function Count(v: seq<int>, b: Band): (c: nat)
    ensures c <= |v|
  {
    if |v| == 0 then 0
    else (if InBand(b, v[0]) then 1 else 0) + Count(v[1..], b)
  }

  /** Every sample is counted exactly when every sample lies in the band. */
  lemma {:induction false} CountAll(v: seq<int>, b: Band)
    ensures Count(v, b) == |v| <==> forall k :: 0 <= k < |v| ==> InBand(b, v[k])
  {
    if |v| > 0 {
      CountAll(v[1..], b);
      assert forall k :: 1 <= k < |v| ==> v[k] == v[1..][k - 1];
    }
  }

  /** No sample is counted exactly when no sample lies in the band. */
  lemma {:induction false} CountNone(v: seq<int>, b: Band)
    ensures Count(v, b) == 0 <==> forall k :: 0 <= k < |v| ==> !InBand(b, v[k])
  {
    if |v| > 0 {
      CountNone(v[1..], b);
      assert forall k :: 1 <= k < |v| ==> v[k] == v[1..][k - 1];
    }
  }

  /** A band that is the disjoint union of two others counts their sum. */
  lemma {:induction false} CountSplit(v: seq<int>, whole: Band, a: Band, b: Band)
    requires forall x :: InBand(whole, x) <==> InBand(a, x) || InBand(b, x)
    requires forall x :: !(InBand(a, x) && InBand(b, x))
    ensures Count(v, whole) == Count(v, a) + Count(v, b)
  {
    if |v| > 0 {
      CountSplit(v[1..], whole, a, b);
    }
  }

  /** Two bands that accept the same samples count the same. */
  lemma {:induction false} CountSame(v: seq<int>, a: Band, b: Band)
    requires forall x :: InBand(a, x) <==> InBand(b, x)
    ensures Count(v, a) == Count(v, b)
  {
    if |v| > 0 {
      CountSame(v[1..], a, b);
    }
  }

  /** With `low < high` the three two-ion classes `x <= low`,
      `low < x < high` and `high <= x` partition every vector. */
  lemma {:induction false} ThreeClassPartition(v: seq<int>, low: real, high: real)
    requires low < high
    ensures Count(v, AtMost(low)) + Count(v, Between(low, high)) + Count(v, AtLeast(high)) == |v|
  {
    if |v| > 0 {
      ThreeClassPartition(v[1..], low, high);
    }
  }

  /** With `high <= low` the outer classes overlap, so together they count
      every sample at least once. */
  lemma {:induction false} OuterClassesCover(v: seq<int>, low: real, high: real)
    requires high <= low
    ensures Count(v, AtMost(low)) + Count(v, AtLeast(high)) >= |v|
  {
    if |v| > 0 {
      OuterClassesCover(v[1..], low, high);
    }
  }

  /** The samples at or below `hi` are those below `lo` and those in
      `[lo, hi]`. */
  lemma BelowThenClosed(v: seq<int>, lo: real, hi: real)
    requires lo <= hi
    ensures Count(v, AtMost(hi)) == Count(v, Below(lo)) + Count(v, Closed(lo, hi))
  {
    var atMost, below, inside := AtMost(hi), Below(lo), Closed(lo, hi);
    CountSplit(v, atMost, below, inside);
  }

  /** Division by a positive real distributes over addition. */
  lemma DivAdd(a: real, b: real, n: real)
    requires n > 0.0
    ensures a / n + b / n == (a + b) / n
  {
    assert (a / n) * n == a && (b / n) * n == b && ((a + b) / n) * n == a + b;
  }

  lemma DivSelf(n: real)
    requires n > 0.0
    ensures n / n == 1.0
  {
  }

  /** Division by a positive real keeps order. */
  lemma DivMonotone(a: real, b: real, n: real)
    requires n > 0.0
    requires a <= b
    ensures a / n <= b / n
  {
    assert (a / n) * n == a && (b / n) * n == b;
  }

  /** Dividing by `n` and multiplying back gives the value. */
  lemma DivCancel(a: real, n: real)
    requires n > 0.0
    ensures (a / n) * n == a
  {
  }

  /** Integer products cast to reals. */
  lemma CastProduct(a: int, b: int)
    ensures (a * b) as real == a as real * b as real
  {
  }

  /** A value between `n * lo` and `n * hi` divided by `n` lies in `[lo, hi]`. */
  lemma DivBetween(a: real, lo: real, hi: real, n: real)
    requires n > 0.0
    requires n * lo <= a <= n * hi
    ensures lo <= a / n <= hi
  {
    assert (n * lo) / n == lo && (n * hi) / n == hi;
    DivMonotone(n * lo, a, n);
    DivMonotone(a, n * hi, n);
  }

  /** Python's `vec[0:n]` for a non-negative `n`: the first `n` samples, or
      the whole vector when it is shorter. */
  function Take(v: seq<int>, n: nat): (w: seq<int>)
    ensures |w| == Min(n, |v|)
    ensures w == v[..|w|]
  {
    if n <= |v| then v[..n] else v
  }

  function Min(a: int, b: int): int {
    if a <= b then a else b
  }

  /** Python's `sum` over a sequence of integers. */
  function Sum(s: seq<int>): int {
    if |s| == 0 then 0 else Sum(s[..|s| - 1]) + s[|s| - 1]
  }

  /** `[i for i in range(n)]` as reals: empty when `n <= 0`. */
  function RealRange(n: int): (r: seq<real>)
    ensures |r| == if n <= 0 then 0 else n
    ensures forall k :: 0 <= k < |r| ==> r[k] == k as real
  {
    if n <= 0 then [] else seq(n, k requires 0 <= k < n => k as real)
  }

  /** `[0, 1, ..., n - 1]`, Python's `range(n)` as a list. */
  function Indices(n: nat): (r: seq<nat>)
    ensures |r| == n
    ensures forall k :: 0 <= k < n ==> r[k] == k
  {
    seq(n, k requires 0 <= k < n => k)
  }
}
