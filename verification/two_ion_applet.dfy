/** `XYHistPlot2Ions` of `plot_xy_hist_2ions.py`: which dataset updates are
    drawn (`data_changed`) and what a drawn update shows (`_set_full_data`).

    An update needs the counts, the shots per point and both thresholds; the
    abscissas default to the point numbers; counts, abscissas and shots must
    have one entry per scan point. A drawn update holds the nine probability
    series, one histogram per point over the edges `0 .. max_hist - 1`, and
    selects the last point. */
module TwoIonApplet {
  import opened Options
  import opened Counting
  import opened Histogram
  import opened TwoIonStats
  import opened Selection

  /** The datasets of one update. */
  datatype Inputs = Inputs(
    counts: Option<seq<seq<int>>>,
    nVec: Option<seq<int>>,
    x: Lookup<seq<real>>,
    thresholdLow: Option<real>,
    thresholdHigh: Option<real>)

  /** Why an update was dropped. */
  datatype Drop = MissingDataset | LengthMismatch

  /** An accepted update, as passed to `_set_full_data`. */
  datatype Update = Update(x: seq<real>, counts: seq<seq<int>>, low: real, high: real, nVec: seq<int>)

  /** What a drawn update holds: the abscissas, the nine series (of which
      p11 and p10/01 are drawn with their error bars), the thresholds, and
      the selection widget with its points. */
  datatype Plot = Plot(x: seq<real>, series: Series, low: real, high: real, viewer: Viewer)

  /** No dataset lookup raises `KeyError`. */
  predicate AllPresent(inp: Inputs) {
    inp.counts.Some? && inp.nVec.Some? && !inp.x.Absent? && inp.thresholdLow.Some? && inp.thresholdHigh.Some?
  }

  function Abscissas(inp: Inputs): seq<real>
    requires inp.counts.Some? && !inp.x.Absent?
  {
    if inp.x.Present? then inp.x.value else RealRange(|inp.counts.value|)
  }

  /** The datasets are present and have one entry per scan point. */
  predicate Consistent(inp: Inputs) {
    && AllPresent(inp)
    && |Abscissas(inp)| == |inp.counts.value|
    && |inp.nVec.value| == |inp.counts.value|
  }

  /** The checks of `data_changed`: a missing dataset drops the update, then a
      length mismatch does; otherwise the datasets go to `_set_full_data`,
      with the point numbers as abscissas when no `x` is configured. */
  function Validate(inp: Inputs): (r: Result<Update, Drop>)
    ensures r.Success? <==> Consistent(inp)
    ensures r == Failure(MissingDataset) <==> !AllPresent(inp)
    ensures r.Success? ==> |r.value.x| == |r.value.counts| == |r.value.nVec|
    ensures r.Success? && inp.x.NotConfigured? ==>
      forall k :: 0 <= k < |r.value.x| ==> r.value.x[k] == k as real
    ensures r.Success? ==>
      r.value == Update(Abscissas(inp), inp.counts.value, inp.thresholdLow.value, inp.thresholdHigh.value, inp.nVec.value)
  {
    if !AllPresent(inp) then Failure(MissingDataset)
    else
      var counts, nVec, x := inp.counts.value, inp.nVec.value, Abscissas(inp);
      if |counts| != |x| || |counts| != |nVec| then Failure(LengthMismatch)
      else Success(Update(x, counts, inp.thresholdLow.value, inp.thresholdHigh.value, nVec))
  }

  /** What `_set_full_data` needs to run through: a last point to select, and
      a positive shot count to divide by at every point. */
  predicate Drawable(u: Update) {
    |u.counts| > 0 && |u.x| == |u.counts| == |u.nVec| && PositiveShots(u.counts, u.nVec)
  }

  /** `_set_full_data(x, counts, thresholdLow, thresholdHigh, n_vec)` with
      `self.bins = range(max_hist)`: the statistics of every point, one
      histogram per point from its whole vector, and the last point selected
      with its histogram and samples in the detail panes. */
  method SetFullData(u: Update, maxHist: int, interval: Interval) returns (p: Plot)
    requires Drawable(u)
    ensures p.x == u.x && p.low == u.low && p.high == u.high
    ensures Shaped(p.series, |u.counts|)
    ensures forall i :: 0 <= i < |u.counts| ==> At(p.series, i) == Stats(u.counts[i], u.nVec[i], u.low, u.high, interval)
    ensures Valid(p.viewer) && |p.viewer.points| == |u.counts|
    ensures p.viewer.bins == RealRange(maxHist)
    ensures forall i :: 0 <= i < |u.counts| ==>
      p.viewer.points[i].samples == u.counts[i] &&
      p.viewer.points[i].hist == NumpyHistogram(u.counts[i], RealRange(maxHist)) &&
      |p.viewer.points[i].hist| == BinCount(RealRange(maxHist)) &&
      Sum(p.viewer.points[i].hist) <= |u.counts[i]|
    ensures p.viewer.selected == Some(|u.counts| - 1)
    ensures var last := u.counts[|u.counts| - 1];
      DetailOf(p.viewer) == Detail(RealRange(maxHist), NumpyHistogram(last, RealRange(maxHist)), Indices(|last|), last)
  {
    var series := ThresholdCounts(u.counts, u.low, u.high, u.nVec, interval);
    var bins := RealRange(maxHist);
    RangeEdgesIncrease(maxHist);
    var hists := HistogramCounts(u.counts, bins);
    var viewer := LoadSnapshot(|u.x|, u.counts, hists, bins);
    p := Plot(u.x, series, u.low, u.high, viewer);
  }

  /** `data_changed`: a dropped update keeps whatever was drawn; an accepted
      one replaces it wholesale and selects its last point. */
  method DataChanged(shown: Option<Plot>, inp: Inputs, maxHist: int, interval: Interval) returns (r: Option<Plot>)
    requires Validate(inp).Success? ==> Drawable(Validate(inp).value)
    ensures !Consistent(inp) ==> r == shown
    ensures Consistent(inp) ==> r.Some? && r.value.x == Abscissas(inp)
    ensures Consistent(inp) ==> Valid(r.value.viewer) && r.value.viewer.selected == Some(|inp.counts.value| - 1)
    ensures Consistent(inp) ==> Shaped(r.value.series, |inp.counts.value|)
    ensures Consistent(inp) ==> r.value.low == inp.thresholdLow.value && r.value.high == inp.thresholdHigh.value
    ensures Consistent(inp) ==> forall i :: 0 <= i < |inp.counts.value| ==>
      At(r.value.series, i) == Stats(inp.counts.value[i], inp.nVec.value[i], inp.thresholdLow.value, inp.thresholdHigh.value, interval)
    ensures Consistent(inp) ==> |r.value.viewer.points| == |inp.counts.value| && r.value.viewer.bins == RealRange(maxHist)
    ensures Consistent(inp) ==> forall i :: 0 <= i < |inp.counts.value| ==>
      r.value.viewer.points[i].samples == inp.counts.value[i] &&
      r.value.viewer.points[i].hist == NumpyHistogram(inp.counts.value[i], RealRange(maxHist))
  {
    var checked := Validate(inp);
    if checked.Failure? {
      r := shown;
    } else {
      var u := checked.value;
      assert Drawable(u);
      var p := SetFullData(u, maxHist, interval);
      assert Consistent(inp) && u.counts == inp.counts.value && u.x == Abscissas(inp);
      r := Some(p);
    }
  }

  /** `keyPressEvent` on a drawn plot moves only the selection. */
  function OnKey(p: Plot, k: Key): (r: Plot)
    requires Valid(p.viewer)
    ensures Valid(r.viewer)
    ensures r.x == p.x && r.series == p.series && r.low == p.low && r.high == p.high
    ensures r.viewer == KeyPress(p.viewer, k)
    ensures r.viewer.points == p.viewer.points && r.viewer.bins == p.viewer.bins
  {
    p.(viewer := KeyPress(p.viewer, k))
  }
}
