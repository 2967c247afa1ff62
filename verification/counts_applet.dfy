/** `XYHistPlot` of `plot_xy_hist_counts.py`: which dataset updates are drawn
    (`data_changed`), which bin edges and threshold they use, and what a
    drawn update shows (`_set_full_data`).

    An update needs the counts; the abscissas default to the point numbers,
    the bin edges to `0 .. 299`, and the threshold is the integer given on
    the command line or else the `singleIon.threshold` dataset. There is no
    length check: scatter points are paired with counts and histograms only
    up to the shorter length. */
module CountsApplet {
  import opened Options
  import opened Counting
  import opened Histogram
  import opened SingleIonStats
  import opened Selection

  /** The number of default bin edges, `range(300)`. */
  const DefaultEdgeCount: int := 300

  /** The datasets of one update. `thresholdArg` is the command-line
      threshold already converted by `int(...)`; `singleIonThreshold` is the
      `"singleIon.threshold"` dataset. */
  datatype Inputs = Inputs(
    counts: Option<seq<seq<int>>>,
    x: Lookup<seq<real>>,
    histogramBins: Lookup<seq<real>>,
    thresholdArg: Option<int>,
    singleIonThreshold: Option<real>)

  /** An accepted update, as passed to `_set_full_data`. */
  datatype Update = Update(x: seq<real>, counts: seq<seq<int>>, bins: seq<real>, threshold: real)

  /** What a drawn update shows: the bright fraction of every point, the
      threshold line, and the selection widget with its points. */
  datatype Plot = Plot(x: seq<real>, y: seq<real>, threshold: real, viewer: Viewer)

  /** No dataset lookup raises `KeyError`. */
  predicate AllPresent(inp: Inputs) {
    && inp.counts.Some?
    && !inp.x.Absent?
    && !inp.histogramBins.Absent?
    && (inp.thresholdArg.Some? || inp.singleIonThreshold.Some?)
  }

  /** The bin edges: the named dataset, or `range(300)` when none is named. */
  function Edges(inp: Inputs): (edges: seq<real>)
    requires !inp.histogramBins.Absent?
    ensures inp.histogramBins.NotConfigured? ==>
      |edges| == DefaultEdgeCount && BinCount(edges) == DefaultEdgeCount - 1 &&
      forall k :: 0 <= k < |edges| ==> edges[k] == k as real
  {
    if inp.histogramBins.Present? then inp.histogramBins.value else RealRange(DefaultEdgeCount)
  }

  /** The threshold: the command-line value when given (the dataset is then
      not consulted), else the `singleIon.threshold` dataset. */
  function Threshold(inp: Inputs): real
    requires inp.thresholdArg.Some? || inp.singleIonThreshold.Some?
  {
    if inp.thresholdArg.Some? then inp.thresholdArg.value as real else inp.singleIonThreshold.value
  }

  /** The lookups of `data_changed`; any missing dataset drops the update. */
  function Validate(inp: Inputs): (r: Option<Update>)
    ensures r.Some? <==> AllPresent(inp)
    ensures r.Some? ==> r.value.counts == inp.counts.value
    ensures r.Some? && inp.x.NotConfigured? ==>
      |r.value.x| == |r.value.counts| && forall k :: 0 <= k < |r.value.x| ==> r.value.x[k] == k as real
    ensures r.Some? && inp.x.Present? ==> r.value.x == inp.x.value
    ensures r.Some? && inp.histogramBins.NotConfigured? ==> r.value.bins == RealRange(DefaultEdgeCount)
    ensures r.Some? && inp.histogramBins.Present? ==> r.value.bins == inp.histogramBins.value
    ensures r.Some? && inp.thresholdArg.Some? ==> r.value.threshold == inp.thresholdArg.value as real
    ensures r.Some? && inp.thresholdArg.None? ==> r.value.threshold == inp.singleIonThreshold.value
  {
    if !AllPresent(inp) then None
    else
      var counts := inp.counts.value;
      var x := if inp.x.Present? then inp.x.value else RealRange(|counts|);
      Some(Update(x, counts, Edges(inp), Threshold(inp)))
  }

  /** What `_set_full_data` needs to run through: a last scatter point that
      carries a histogram to select, samples to divide by at every point, and
      edges numpy accepts. */
  predicate Drawable(u: Update) {
    0 < |u.x| <= |u.counts| && NonEmptyRows(u.counts) && NonDecreasing(u.bins)
  }

  /** `_set_full_data(x, counts, histogram_bins, threshold)`: the bright
      fraction of every point, one histogram per point, the first `len(x)`
      points paired with their samples and histograms, and the last one
      selected. */
  method SetFullData(u: Update) returns (p: Plot)
    requires Drawable(u)
    ensures p.x == u.x && p.threshold == u.threshold
    ensures |p.y| == |u.counts|
    ensures forall i :: 0 <= i < |u.counts| ==> p.y[i] == BrightFraction(u.counts[i], u.threshold)
    ensures Valid(p.viewer) && |p.viewer.points| == |u.x|
    ensures p.viewer.bins == u.bins
    ensures forall i :: 0 <= i < |u.x| ==>
      p.viewer.points[i].samples == u.counts[i] &&
      p.viewer.points[i].hist == NumpyHistogram(u.counts[i], u.bins)
    ensures p.viewer.selected == Some(|u.x| - 1)
    ensures var last := u.counts[|u.x| - 1];
      DetailOf(p.viewer) == Detail(u.bins, NumpyHistogram(last, u.bins), Indices(|last|), last)
  {
    var y := ThresholdCounts(u.counts, u.threshold);
    var hists := HistogramCounts(u.counts, u.bins);
    var viewer := LoadSnapshot(|u.x|, u.counts, hists, u.bins);
    p := Plot(u.x, y, u.threshold, viewer);
  }

  /** `data_changed`: a dropped update keeps whatever was drawn; an accepted
      one replaces it wholesale and selects its last point. */
  method DataChanged(shown: Option<Plot>, inp: Inputs) returns (r: Option<Plot>)
    requires Validate(inp).Some? ==> Drawable(Validate(inp).value)
    ensures !AllPresent(inp) ==> r == shown
    ensures AllPresent(inp) ==> r.Some? && Valid(r.value.viewer)
    ensures AllPresent(inp) ==>
      r.value.threshold == Threshold(inp) && r.value.viewer.bins == Edges(inp)
    ensures AllPresent(inp) ==> |r.value.y| == |inp.counts.value|
    ensures AllPresent(inp) ==> forall i :: 0 <= i < |inp.counts.value| ==>
      r.value.y[i] == BrightFraction(inp.counts.value[i], Threshold(inp))
    ensures AllPresent(inp) ==> var x := Validate(inp).value.x;
      && r.value.x == x
      && |r.value.viewer.points| == |x|
      && r.value.viewer.selected == Some(|x| - 1)
      && forall i :: 0 <= i < |x| ==>
           r.value.viewer.points[i].samples == inp.counts.value[i] &&
           r.value.viewer.points[i].hist == NumpyHistogram(inp.counts.value[i], Edges(inp))
  {
    match Validate(inp)
    case None => r := shown;
    case Some(u) =>
      var p := SetFullData(u);
      r := Some(p);
  }
}
