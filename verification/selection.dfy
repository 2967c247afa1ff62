/** The point-selection state shared by `plot_xy_hist_2ions.py` and
    `plot_xy_hist_counts.py`.

    After a snapshot is drawn, every scatter point carries its position
    (`histogram_index`), its raw samples and its histogram. Clicking a point,
    or moving with the Left/Right arrow keys, selects a point; the detail
    panes then show the selected point's histogram over the bin edges and its
    samples against their trial numbers. */
module Selection {
  import opened Options
  import opened Counting

  /** What a scatter point carries after `_set_full_data`. */
  datatype Point = Point(index: nat, samples: seq<int>, hist: seq<int>)

  datatype Key = LeftArrow | RightArrow | OtherKey

  /** The widget state: the points of the current snapshot, the bin edges of
      the histogram pane and `selected_index`. */
  datatype Viewer = Viewer(points: seq<Point>, bins: seq<real>, selected: Option<nat>)

  /** The data handed to the two detail panes. */
  datatype Detail = Detail(histX: seq<real>, histY: seq<int>, samplesX: seq<nat>, samplesY: seq<int>)

  /** Every point knows its own position. */
  predicate WellIndexed(points: seq<Point>) {
    forall i :: 0 <= i < |points| ==> points[i].index == i
  }

  /** The invariant of the widget: points are well indexed and the selection,
      when there is one, names one of them. */
  predicate Valid(v: Viewer) {
    WellIndexed(v.points) && (v.selected.Some? ==> v.selected.value < |v.points|)
  }

  /** The `enumerate(zip(points, counts, hists))` loop: the `n` scatter points
      are paired with samples and histograms up to the shortest of the three. */
  function AttachPoints(n: nat, counts: seq<seq<int>>, hists: seq<seq<int>>): (ps: seq<Point>)
    ensures |ps| == Min(n, Min(|counts|, |hists|))
    ensures WellIndexed(ps)
    ensures forall i :: 0 <= i < |ps| ==> ps[i].samples == counts[i] && ps[i].hist == hists[i]
  {
    seq(Min(n, Min(|counts|, |hists|)), i requires 0 <= i < Min(n, Min(|counts|, |hists|)) =>
      Point(i, counts[i], hists[i]))
  }

  /** `_point_clicked` on point `i`: `selected_index` becomes that point's
      `histogram_index`. */
  function Click(v: Viewer, i: nat): (r: Viewer)
    requires i < |v.points|
    ensures r.points == v.points && r.bins == v.bins
    ensures WellIndexed(v.points) ==> r.selected == Some(i) && Valid(r)
  {
    v.(selected := Some(v.points[i].index))
  }

  /** The drawing part of `_set_full_data`: the selection is reset, then the
      last scatter point is clicked. The source indexes `points()[-1]`, which
      fails on an empty snapshot. */
  function Load(points: seq<Point>, bins: seq<real>): (r: Viewer)
    requires |points| > 0
    requires WellIndexed(points)
    ensures Valid(r)
    ensures r.points == points && r.bins == bins
    ensures r.selected == Some(|points| - 1)
  {
    Click(Viewer(points, bins, None), |points| - 1)
  }

  /** The selection part of `_set_full_data`: the first `n` scatter points
      are paired with their samples and histograms, and the last of them is
      clicked, so the detail panes show its histogram and samples. */
  function LoadSnapshot(n: nat, counts: seq<seq<int>>, hists: seq<seq<int>>, bins: seq<real>): (v: Viewer)
    requires 0 < n <= |counts| && |hists| == |counts|
    ensures Valid(v) && |v.points| == n && v.bins == bins
    ensures forall i :: 0 <= i < n ==> v.points[i].samples == counts[i] && v.points[i].hist == hists[i]
    ensures v.selected == Some(n - 1)
    ensures DetailOf(v) == Detail(bins, hists[n - 1], Indices(|counts[n - 1]|), counts[n - 1])
  {
    var points := AttachPoints(n, counts, hists);
    assert |points| == n;
    Load(points, bins)
  }

  /** `keyPressEvent`: Left and Right move the selection by one point and do
      nothing at the first and last point; other keys, and any key while
      nothing is selected, are ignored. */
  function KeyPress(v: Viewer, k: Key): (r: Viewer)
    requires Valid(v)
    ensures Valid(r)
    ensures r.points == v.points && r.bins == v.bins
    ensures r.selected.Some? <==> v.selected.Some?
  {
    if v.selected.None? then v
    else
      var i := v.selected.value;
      match k
      case LeftArrow => if i == 0 then v else Click(v, i - 1)
      case RightArrow => if i == |v.points| - 1 then v else Click(v, i + 1)
      case OtherKey => v
  }

  /** The detail panes for the selected point: its histogram against the bin
      edges and its samples against `0 .. len - 1`. */
  function DetailOf(v: Viewer): (d: Detail)
    requires Valid(v) && v.selected.Some?
    ensures |d.samplesX| == |d.samplesY|
    ensures forall k :: 0 <= k < |d.samplesX| ==> d.samplesX[k] == k
    ensures d.histY == v.points[v.selected.value].hist
    ensures d.samplesY == v.points[v.selected.value].samples
    ensures d.histX == v.bins
  {
    var p := v.points[v.selected.value];
    Detail(v.bins, p.hist, Indices(|p.samples|), p.samples)
  }

  /** Whatever the user does after a load, the detail panes show the
      histogram and the samples that the snapshot paired with the selected
      point, over the snapshot's bin edges. */
  lemma DetailFollowsSelection(n: nat, counts: seq<seq<int>>, hists: seq<seq<int>>, bins: seq<real>, events: seq<Event>)
    requires 0 < n <= |counts| && |hists| == |counts|
    requires ClicksInRange(events, n)
    ensures var r := Run(LoadSnapshot(n, counts, hists, bins), events);
      && Valid(r) && r.selected.Some? && r.selected.value < n
      && DetailOf(r) == Detail(bins, hists[r.selected.value], Indices(|counts[r.selected.value]|), counts[r.selected.value])
  {
    RunKeepsSelectionInRange(LoadSnapshot(n, counts, hists, bins), events);
  }

  /** Left and Right change the selected index by exactly one step, except at
      the boundary in the direction of travel, where they change nothing. */
  lemma ArrowSteps(v: Viewer, k: Key)
    requires Valid(v) && v.selected.Some?
    ensures var i, r := v.selected.value, KeyPress(v, k);
      && (k == LeftArrow && i == 0 ==> r == v)
      && (k == LeftArrow && i > 0 ==> r.selected == Some(i - 1))
      && (k == RightArrow && i == |v.points| - 1 ==> r == v)
      && (k == RightArrow && i < |v.points| - 1 ==> r.selected == Some(i + 1))
      && (k == OtherKey ==> r == v)
  {
  }

  /** Without a selection every key is ignored. */
  lemma KeysNeedSelection(v: Viewer, k: Key)
    requires Valid(v) && v.selected.None?
    ensures KeyPress(v, k) == v
  {
  }

  /** Right undoes Left away from the first point, and Left undoes Right away
      from the last point. */
  lemma ArrowsInverse(v: Viewer)
    requires Valid(v) && v.selected.Some?
    ensures v.selected.value > 0 ==> KeyPress(KeyPress(v, LeftArrow), RightArrow) == v
    ensures v.selected.value < |v.points| - 1 ==> KeyPress(KeyPress(v, RightArrow), LeftArrow) == v
  {
  }

  /** A user event on the widget. */
  datatype Event = Clicked(point: nat) | Pressed(key: Key)

  /** Clicks can only land on points of the current snapshot. */
  predicate ClicksInRange(events: seq<Event>, n: nat) {
    forall e :: e in events && e.Clicked? ==> e.point < n
  }

  function Step(v: Viewer, e: Event): Viewer
    requires Valid(v)
    requires e.Clicked? ==> e.point < |v.points|
  {
    match e
    case Clicked(i) => Click(v, i)
    case Pressed(k) => KeyPress(v, k)
  }

  /** Any sequence of clicks and key presses after a load. */
  function Run(v: Viewer, events: seq<Event>): Viewer
    requires Valid(v)
    requires ClicksInRange(events, |v.points|)
    decreases |events|
  {
    if |events| == 0 then v
    else
      var v' := Step(v, events[0]);
      assert Valid(v') && v'.points == v.points;
      Run(v', events[1..])
  }

  /** Whatever the user does after a load, the selection stays on a point of
      the snapshot, and the snapshot itself does not change. */
  lemma {:induction false} RunKeepsSelectionInRange(v: Viewer, events: seq<Event>)
    requires Valid(v) && v.selected.Some?
    requires ClicksInRange(events, |v.points|)
    ensures Valid(Run(v, events))
    ensures Run(v, events).selected.Some?
    ensures Run(v, events).selected.value < |v.points|
    ensures Run(v, events).points == v.points && Run(v, events).bins == v.bins
    decreases |events|
  {
    if |events| > 0 {
      var v' := Step(v, events[0]);
      assert ClicksInRange(events[1..], |v'.points|) by {
        forall e | e in events[1..] && e.Clicked? ensures e.point < |v'.points| {
          assert e in events;
        }
      }
      RunKeepsSelectionInRange(v', events[1..]);
    }
  }

  /** Pressing Left `m` times from index `i` stops at the first point. */
  lemma {:induction false} LeftRepeated(v: Viewer, m: nat)
    requires Valid(v) && v.selected.Some?
    ensures var r := Run(v, seq(m, _ => Pressed(LeftArrow)));
      r.selected == Some(if v.selected.value <= m then 0 else v.selected.value - m)
    decreases m
  {
    if m > 0 {
      var v' := KeyPress(v, LeftArrow);
      assert seq(m, _ => Pressed(LeftArrow))[1..] == seq(m - 1, _ => Pressed(LeftArrow));
      LeftRepeated(v', m - 1);
    }
  }

  /** Selecting index 2 of a five-point snapshot and pressing Right twice
      reaches index 4; a further Right changes nothing. */
  lemma NavigationExample(points: seq<Point>, bins: seq<real>)
    requires |points| == 5 && WellIndexed(points)
    ensures var v := Click(Load(points, bins), 2);
      var twice := KeyPress(KeyPress(v, RightArrow), RightArrow);
      twice.selected == Some(4) && KeyPress(twice, RightArrow) == twice
  {
  }
}
