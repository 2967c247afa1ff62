# artiqApplets: threshold statistics, histograms and point selection

This project is a Dafny model of the data path behind three ARTIQ plotting
applets from `artiqApplets`:

- `plot_xy_hist_2ions.py` (`XYHistPlot2Ions`) classifies the photon counts of a
  two-ion scan point by two thresholds. The classes are "both bright" (11),
  "one bright" (10/01) and "both dark" (00). It computes all three class
  probabilities, each with error bars from a 68% binomial confidence interval.
  It draws p11 and p10/01 with their error bars; p00 and its error bars are
  computed but not drawn.
- `plot_xy_hist_counts.py` (`XYHistPlot`) plots, for a one-ion scan point, the
  fraction of samples at or above a single threshold.
- Both histogram applets also bin every point's samples with `numpy.histogram`.
  They keep a selected point that the user moves by clicking a point or with
  the Left and Right arrow keys. The selected point's histogram and raw samples
  are shown in two detail panes.
- `plot_xy.py` (`XYPlot`) checks that `y`, `x` and the optional error array
  agree in length. It then draws the points in order of increasing `x`.

Modules, one per file:

| module | file | what it holds |
|---|---|---|
| `Options` | `options.dfy` | `Option`, `Result` and `Lookup`. `Lookup` distinguishes a dataset name that is not configured from a configured one that is missing. |
| `Counting` | `counting.dfy` | Threshold bands, counting samples in a band and the partition lemmas. Also Python slicing (`Take`) and small real-division facts. |
| `Histogram` | `histogram.dfy` | `numpy.histogram` as numpy computes it: a cumulative `searchsorted` followed by a difference. Proved equal to per-bin counting. |
| `TwoIonStats` | `two_ion_stats.dfy` | `_threshold_counts` of the two-ion applet. |
| `SingleIonStats` | `single_ion_stats.dfy` | `_threshold_counts` and `_compute_ys` of the one-ion applet. |
| `Selection` | `selection.dfy` | The selected-point state machine: load, click, arrow keys and the detail panes. |
| `Sorting` | `argsort.dfy` | `np.argsort` and reordering by it. |
| `XYApplet` | `xy_applet.dfy` | `XYPlot.data_changed`. |
| `TwoIonApplet` | `two_ion_applet.dfy` | `data_changed` and `_set_full_data` of `XYHistPlot2Ions`. |
| `CountsApplet` | `counts_applet.dfy` | `data_changed` and `_set_full_data` of `XYHistPlot`. |

How values are represented:

- Photon counts are integers.
- Thresholds, bin edges and abscissas are reals.
- `scipy.stats.binom.interval` is an uninterpreted function parameter
  (`TwoIonStats.Interval`). Every statement about the error bars therefore
  holds for any interval routine.
- When the source would raise inside a drawing routine, the input that makes
  it raise is excluded by a precondition. This covers a zero shot count,
  indexing the last point of an empty scan, and numpy rejecting decreasing
  bin edges. A zero shot count raises `ZeroDivisionError` when it is a Python
  number, and yields nan when it is a numpy integer; it is excluded either
  way.
- The dataset guards that make `data_changed` return early are modelled as
  results, not as preconditions.

## Model

| member | source | states |
|---|---|---|
| Counting.Count | artiqApplets/plot_xy_hist_2ions.py:24-26 | The number of samples in a threshold band never exceeds the number of samples. |
| Counting.CountAll | artiqApplets/plot_xy_hist_counts.py:23 | The count equals the length exactly when every sample lies in the band. |
| Counting.CountNone | artiqApplets/plot_xy_hist_counts.py:23 | The count is zero exactly when no sample lies in the band. |
| Counting.ThreeClassPartition | artiqApplets/plot_xy_hist_2ions.py:24-26 | With `low < high`, the classes `x >= high`, `low < x < high` and `x <= low` split the samples: their counts add up to the number of samples. |
| Counting.OuterClassesCover | artiqApplets/plot_xy_hist_2ions.py:24-26 | With `high <= low`, the classes `x >= high` and `x <= low` overlap and together cover at least every sample. |
| Counting.Take | artiqApplets/plot_xy_hist_2ions.py:23 | `countVec[0:N]` is the prefix of length `min(N, len)`. |
| TwoIonStats.Classify | artiqApplets/plot_xy_hist_2ions.py:23-26 | Each class probability is the number of samples of its class (`x >= high`, `low < x < high`, `x <= low`) among the first `N` samples, divided by `N`. Each lies in [0, 1]. With `low < high` the three add up to `min(N, len)/N`, which is exactly 1 when the vector holds at least `N` samples. With `high <= low` the middle class is 0 and the outer two add up to at least `min(N, len)/N`. |
| TwoIonStats.TruncationIgnoresTail | artiqApplets/plot_xy_hist_2ions.py:23 | Samples beyond the first `N` do not affect the class probabilities. |
| TwoIonStats.TruncationExample | artiqApplets/plot_xy_hist_2ions.py:23-26 | Example: with `N = 2`, only the first two of four samples are classified. |
| TwoIonStats.WithErrors | artiqApplets/plot_xy_hist_2ions.py:30-38 | The lower error bar ends at `interval.lo / N` and the upper at `interval.hi / N`. Each bar is non-negative whenever the interval brackets the observed count `p * N`. |
| TwoIonStats.Stats | artiqApplets/plot_xy_hist_2ions.py:22-38 | The three estimates of a point carry the class probabilities of `Classify`. For each estimate, `p - lower` and `p + upper` are the two ends of `binom.interval(0.68, N, p)` divided by `N`. |
| TwoIonStats.ThresholdCounts | artiqApplets/plot_xy_hist_2ions.py:12-39 | The nine returned lists each have one entry per pair of `zip(counts, n_vec)`, and entry `i` holds the statistics of point `i`. Every probability lies in [0, 1]. With `low < high` the three probabilities of a point add up to `min(N, len)/N`. With `high <= low` the 10/01 series is all zero. |
| Histogram.NumpyHistogram | artiqApplets/plot_xy_hist_2ions.py:44 | numpy's cumulative-count histogram has one bin per pair of adjacent edges. Bin `i` counts the samples `x` with `edges[i] <= x < edges[i+1]`, and the last bin also counts samples equal to the last edge. |
| Histogram.CumulativeDiffsAreBins | artiqApplets/plot_xy_hist_counts.py:30 | The differences of numpy's `searchsorted` counts are the per-bin counts. |
| Histogram.HistogramTotal | artiqApplets/plot_xy_hist_counts.py:30 | The bins add up to the number of samples between the first and last edge, inclusive. That is at most the number of samples. |
| Histogram.HistogramCounts | artiqApplets/plot_xy_hist_counts.py:27-32 | `_histogram_counts` returns one histogram per scan point. Each is the numpy histogram of that point's samples and sums to at most its number of samples. The two applets share this code (also artiqApplets/plot_xy_hist_2ions.py:41-46). |
| Histogram.RangeBins | artiqApplets/plot_xy_hist_2ions.py:56 | Over the default edges `0 .. max_hist-1` there are `max_hist - 1` bins. Bin `i` counts the samples equal to `i`, except the last bin, which counts those equal to `max_hist-2` or `max_hist-1`. |
| Histogram.UnitBinIsPoint | artiqApplets/plot_xy_hist_2ions.py:56 | For integer samples, the bin `[i, i+1)` holds exactly the samples equal to `i`. |
| Histogram.HistogramExample | artiqApplets/plot_xy_hist_counts.py:30 | Example: `[0,1,2,3,5]` over edges `[0,2,4,6]` gives `[2,2,1]`. |
| SingleIonStats.BrightFraction | artiqApplets/plot_xy_hist_counts.py:23 | The fraction times the vector length is the number of samples at or above the threshold. It lies in [0, 1]. It is 1 exactly when every sample is at or above the threshold, and 0 exactly when every sample is below it. |
| SingleIonStats.BrightFractionIsUpperClass | artiqApplets/plot_xy_hist_counts.py:23 | The one-ion fraction equals the two-ion "11" probability for the same threshold with `N = len`. |
| SingleIonStats.BrightFractionExample | artiqApplets/plot_xy_hist_counts.py:20-25 | Examples: 0.5 and 0.75. |
| SingleIonStats.ThresholdCounts | artiqApplets/plot_xy_hist_counts.py:20-25 | The result has one fraction per scan point: the bright fraction of that point's samples, in [0, 1]. |
| SingleIonStats.Mean | artiqApplets/plot_xy_hist_counts.py:17 | `sum(counts)/len(counts)` times the length gives back the sum. It lies between the smallest and the largest sample. |
| SingleIonStats.ComputeYs | artiqApplets/plot_xy_hist_counts.py:11-18 | The result has one mean per row. Each mean times the row length is the row sum, and each mean lies between the row's extremes. |
| Selection.LoadSnapshot | artiqApplets/plot_xy_hist_2ions.py:101-119 | The first `n` scatter points receive their samples and histograms. The last of them is selected, and the detail panes show its histogram and samples. |
| Selection.Click | artiqApplets/plot_xy_hist_counts.py:109 | Clicking point `i` selects `i` and changes nothing else. |
| Selection.Load | artiqApplets/plot_xy_hist_2ions.py:86-119 | After a snapshot is drawn, the last point is selected and the widget invariant holds. |
| Selection.KeyPress | artiqApplets/plot_xy_hist_2ions.py:137-150 | A key press keeps the widget invariant and the points. It never creates or clears a selection. |
| Selection.ArrowSteps | artiqApplets/plot_xy_hist_counts.py:115-128 | Left moves one point down and Right one point up. Either is a no-op at its boundary. Other keys do nothing. |
| Selection.KeysNeedSelection | artiqApplets/plot_xy_hist_2ions.py:138-139 | Without a selection every key is ignored. |
| Selection.ArrowsInverse | artiqApplets/plot_xy_hist_2ions.py:140-147 | Away from the first point, Right undoes Left. Away from the last point, Left undoes Right. |
| Selection.DetailFollowsSelection | artiqApplets/plot_xy_hist_2ions.py:101-135 | After a load and any sequence of clicks and key presses, the selection is some point `i` of the snapshot. The detail panes then show the histogram and samples paired with point `i`, the histogram against the snapshot's bin edges and the samples against `0 .. len-1`. |
| Selection.RunKeepsSelectionInRange | artiqApplets/plot_xy_hist_2ions.py:121-150 | After a load, any sequence of clicks and key presses keeps the selection on a point of the snapshot and leaves the snapshot unchanged. |
| Selection.LeftRepeated | artiqApplets/plot_xy_hist_2ions.py:140-143 | Pressing Left `m` times from index `i` reaches `max(i - m, 0)`. |
| Selection.NavigationExample | artiqApplets/plot_xy_hist_counts.py:115-128 | Example: from index 2 of five points, Right twice reaches 4 and a further Right changes nothing. |
| Sorting.Insert | artiqApplets/plot_xy.py:41 | Inserting a position into a sorted list of positions keeps the list sorted and adds exactly that position. |
| Sorting.ArgSort | artiqApplets/plot_xy.py:41 | `np.argsort(x)` is a permutation of `0 .. len-1` that lists the values of `x` in non-decreasing order. |
| Sorting.ReorderAt | artiqApplets/plot_xy.py:50 | Entry `k` of `s[idx]` is `s[idx[k]]`. |
| Sorting.PermutedReorder | artiqApplets/plot_xy.py:50 | Reordering by any permutation of the positions keeps every entry, with its multiplicity. |
| Sorting.ReorderIsPermutation | artiqApplets/plot_xy.py:50 | `y[xi]` holds the same entries as `y`, with the same multiplicities. |
| XYApplet.Update | artiqApplets/plot_xy.py:16-60 | Without `--xscale`, the update is drawn exactly when `y` is present, `x` (or its default) has the length of `y`, and a non-empty error array has that length too. A missing `y` and a length mismatch are reported as such. The drawn `x` is sorted, and the multiset of `(x, y)` pairs is unchanged. Error bars are drawn, at the unsorted points, exactly when a non-empty error array is given. The fit line is drawn exactly when a fit of matching length is given, and every fit value stays with its own `(x, y)` point. |
| XYApplet.PairsFollowX | artiqApplets/plot_xy.py:41-50 | Reordering `x` and `y` by the argsort of `x` sorts `x` and keeps every `(x, y)` pair. |
| XYApplet.TriplesFollowX | artiqApplets/plot_xy.py:59-60 | Reordering the fit by the same permutation keeps every `(x, y, fit)` triple. |
| XYApplet.DefaultAbscissas | artiqApplets/plot_xy.py:26-28 | A missing `x` behaves exactly like `x = arange(len(y))`. |
| XYApplet.EmptyErrorsIgnored | artiqApplets/plot_xy.py:35-37 | An empty error array behaves exactly like none. |
| XYApplet.DataChanged | artiqApplets/plot_xy.py:23-39 | A rejected update leaves the plot as it was. An accepted one replaces it with the frame of `Update`: the points sorted by `x`, with every `(x, y)` pair kept. |
| TwoIonApplet.Validate | artiqApplets/plot_xy_hist_2ions.py:153-170 | An update is accepted exactly when every dataset is present and `counts`, `x` and `n_vec` have equal lengths. It fails with `MissingDataset` exactly when a lookup raises `KeyError`. The abscissas default to the point numbers. |
| TwoIonApplet.SetFullData | artiqApplets/plot_xy_hist_2ions.py:78-119 | The nine series of `_threshold_counts` are computed, entry `i` holding the statistics of point `i`; y11 and y10_01 are the ones drawn, with their error bars. Every point receives its samples and its histogram over the edges `0 .. max_hist-1`. The last point is selected, and the detail panes show its histogram and samples. |
| TwoIonApplet.DataChanged | artiqApplets/plot_xy_hist_2ions.py:153-172 | A rejected update keeps the previous plot. An accepted one is drawn with the dataset thresholds. Entry `i` of the nine series holds the statistics of point `i`. Point `i` carries its samples and its histogram over `0 .. max_hist-1`, and the last point is selected. |
| TwoIonApplet.OnKey | artiqApplets/plot_xy_hist_2ions.py:137-150 | A key press on a drawn plot acts on the selection exactly as `Selection.KeyPress`. The abscissas, series, thresholds, points and bin edges stay as they were. |
| CountsApplet.Edges | artiqApplets/plot_xy_hist_counts.py:138-141 | Without a configured bin dataset, the edges are `0 .. 299`, giving 299 bins. |
| CountsApplet.Validate | artiqApplets/plot_xy_hist_counts.py:131-147 | An update is accepted exactly when no lookup raises `KeyError`. The command-line threshold takes precedence over the `singleIon.threshold` dataset. `x` defaults to the point numbers and the bins default to `0 .. 299`. No length is checked. |
| CountsApplet.SetFullData | artiqApplets/plot_xy_hist_counts.py:61-95 | Drawing gives one bright fraction per scan point. The first `len(x)` points receive their samples and histograms. The last scatter point is selected, and the detail panes show its histogram and samples. |
| CountsApplet.DataChanged | artiqApplets/plot_xy_hist_counts.py:131-148 | A rejected update keeps the previous plot. An accepted one is drawn with the chosen threshold and edges. Entry `i` of `y` is the bright fraction of point `i`. The first `len(x)` points carry their samples and histograms, and the last of them is selected. |

## Left out

- Widget and plotting plumbing is not modelled: Qt widgets, pens, colours, axis ranges, grid lines, the threshold lines, the arrow and indicator items and titles. The scatter points are modelled only as far as the selection needs them: index, samples and histogram.
- `scipy.stats.binom.interval` is left uninterpreted. No property of the interval itself, such as `lo <= p*N <= hi`, is assumed, so the non-negativity of the error bars is stated conditionally.
- Floating-point rounding is not modelled; reals are exact.
- The shot count `N` is an integer here. The source also accepts a float `N` through `int(N)` and divides by the float.
- A shot count of zero or below is excluded by a precondition (`PositiveShots`). With zero, `countVec[0:0]` is empty and the class count is the int 0. Dividing it by a Python-number zero raises `ZeroDivisionError`. Dividing it by a numpy integer zero yields nan with a warning, and the point is drawn as nan. The model excludes `N = 0` either way. With a negative `N`, Python slicing would count from the end, a case the applet never intends.
- An empty sample row in the one-ion applet is excluded by a precondition (`NonEmptyRows`). The source divides by its length.
- `_compute_ys` computes `bin_centers` and discards them. Only its result is modelled. Its use of `np.empty(len(histogram_bins)-1)` needs at least one edge, which is a precondition. `_compute_ys` is not called anywhere in the applet.
- Decreasing bin edges, which numpy rejects, are excluded by the `NonDecreasing` precondition.
- XYApplet.Update: describes `plot_xy.py` without `--xscale`. With `--xscale`, `x /= xscale` (lines 43-44) divides the array in place. With an integer `x`, including the default `np.arange(len(y))`, numpy cannot store the float result in the integer array and raises `TypeError`. The update is then never drawn. With a float `x` the division only scales the axis, which the model does not represent. The axis labels and the `no_symbol`/`lines` options are not modelled either.
- A scalar (0-d) dataset in `plot_xy.py` is not modelled. `get_array_or_none` always returns a numpy array, and a numpy array always has `__len__`. A 0-d `y`, `x` or `error` reaches `len()` at line 28, 32 or 35-38, which raises `TypeError` and ends `data_changed` before anything is drawn. A 0-d `fit` reaches `len()` only at line 59, so it raises after the points and error bars are drawn. The model has one-dimensional arrays only.
- Sorting.ArgSort: numpy's default sort is not stable. The model fixes the stable order, and its contract claims only what any argsort guarantees: a permutation that sorts.
- CountsApplet.SetFullData and CountsApplet.DataChanged: both require `0 < len(x) <= len(counts)`; `DataChanged` inherits it through `Drawable`. The excluded cases are crash paths. With `len(x) == 0`, `points()[-1]` at artiqApplets/plot_xy_hist_counts.py:95 fails. With more scatter points than count rows, the last point never received `histogram_index` in the `zip` loop at lines 82-87, so `_point_clicked` raises `AttributeError` at line 109. Within the precondition the model pairs the first `len(x)` points, as the `zip` loop does.
- The startup code (`main`, argument parsing) is not modelled. Converting the command-line threshold with `int(...)` is modelled as an already-parsed integer.
- `plot_fluo.py` and `plot_correlated.py` are not part of this model.

Notes on the code's behaviour (the model follows the code):

- `numpy.histogram` accepts non-decreasing edges. Equal adjacent edges give an empty bin, except that the last bin is closed.
- With `low < high` the two-ion class probabilities add up to `min(N, len)/N`, which is 1 exactly when the vector holds at least `N` samples. With `high <= low` the outer classes overlap: the middle class is 0, and the sum is at least `min(N, len)/N` and can exceed 1.
- The one-ion applet performs no length check between `x` and `counts`.
- A point with zero shots is not guarded in the code. The division raises for a Python-number zero and gives nan for a numpy zero. The model requires a positive shot count at every point and does not invent a policy for zero shots.
- A vector left empty by truncation, with a positive `N`, is not an error in the code. All three class probabilities are then 0, and `Classify` gives exactly that.
