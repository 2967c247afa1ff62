/** `XYPlot.data_changed` of `plot_xy.py`: which updates are drawn, and how
    the drawn series are paired and ordered.

    An update needs `y`; `x` defaults to the point numbers; `x` and `y` must
    have the same length; an error array, when given and non-empty, must have
    that length too. The points are then drawn in order of increasing `x`,
    each `y` (and each fit value) staying with its own `x`. The model is the
    applet without `--xscale`, whose in-place division of `x` raises on an
    integer `x`. */
module XYApplet {
  import opened Options
  import opened Sorting
  import opened Counting

  /** The datasets of one update; `None` when the name is not configured or
      the update does not carry it (the source treats both alike). */
  datatype Inputs = Inputs(y: Option<seq<real>>, x: Option<seq<real>>, error: Option<seq<real>>, fit: Option<seq<real>>)

  /** Why an update was dropped. */
  datatype Drop = MissingY | LengthMismatch | ErrorLengthMismatch

  /** Error bars are drawn at the points in dataset order. */
  datatype ErrorBars = ErrorBars(x: seq<real>, y: seq<real>, height: seq<real>)

  /** What one accepted update draws. */
  datatype Frame = Frame(xs: seq<real>, ys: seq<real>, errorBars: Option<ErrorBars>, fitLine: Option<seq<real>>)

  /** The abscissas used: `x` when present, the point numbers otherwise. */
  function Abscissas(inp: Inputs): seq<real>
    requires inp.y.Some?
  {
    if inp.x.Some? then inp.x.value else RealRange(|inp.y.value|)
  }

  /** An empty error array counts as no error array. */
  predicate HasErrors(inp: Inputs) {
    inp.error.Some? && |inp.error.value| > 0
  }

  /** The acceptance rule of `data_changed`. */
  predicate Accepted(inp: Inputs) {
    && inp.y.Some?
    && |Abscissas(inp)| == |inp.y.value|
    && (HasErrors(inp) ==> |inp.error.value| == |inp.y.value|)
  }

  function Zip(a: seq<real>, b: seq<real>): (r: seq<(real, real)>)
    requires |a| == |b|
    ensures |r| == |a|
  {
    seq(|a|, k requires 0 <= k < |a| => (a[k], b[k]))
  }

  function Zip3(a: seq<real>, b: seq<real>, c: seq<real>): (r: seq<(real, real, real)>)
    requires |a| == |b| == |c|
    ensures |r| == |a|
  {
    seq(|a|, k requires 0 <= k < |a| => (a[k], b[k], c[k]))
  }

  /** One call of `data_changed`: the frame it draws, or why it returns
      without drawing. */
  function Update(inp: Inputs): (r: Result<Frame, Drop>)
    ensures r.Success? <==> Accepted(inp)
    ensures inp.y.None? ==> r == Failure(MissingY)
    ensures inp.y.Some? && |Abscissas(inp)| != |inp.y.value| ==> r == Failure(LengthMismatch)
    ensures r.Success? ==> |r.value.xs| == |r.value.ys| == |inp.y.value|
    ensures r.Success? ==> NonDecreasing(r.value.xs)
    ensures r.Success? ==> multiset(Zip(r.value.xs, r.value.ys)) == multiset(Zip(Abscissas(inp), inp.y.value))
    ensures r.Success? ==> (r.value.errorBars.Some? <==> HasErrors(inp))
    ensures r.Success? && HasErrors(inp) ==>
      r.value.errorBars == Some(ErrorBars(Abscissas(inp), inp.y.value, inp.error.value))
    ensures r.Success? ==>
      (r.value.fitLine.Some? <==> inp.fit.Some? && |inp.fit.value| == |inp.y.value|)
    ensures r.Success? && r.value.fitLine.Some? ==>
      |r.value.fitLine.value| == |r.value.xs| &&
      multiset(Zip3(r.value.xs, r.value.ys, r.value.fitLine.value))
        == multiset(Zip3(Abscissas(inp), inp.y.value, inp.fit.value))
  {
    if inp.y.None? then Failure(MissingY)
    else
      var y := inp.y.value;
      var x := Abscissas(inp);
      if |y| != |x| then Failure(LengthMismatch)
      else if HasErrors(inp) && |inp.error.value| != |y| then Failure(ErrorLengthMismatch)
      else
        var xi := ArgSort(x);
        var xs, ys := Reorder(x, xi), Reorder(y, xi);
        var errorBars := if HasErrors(inp) then Some(ErrorBars(x, y, inp.error.value)) else None;
        var fitLine := if inp.fit.Some? && |inp.fit.value| == |x| then Some(Reorder(inp.fit.value, xi)) else None;
        PairsFollowX(x, y, xi);
        assert fitLine.Some? ==>
          multiset(Zip3(xs, ys, fitLine.value)) == multiset(Zip3(x, y, inp.fit.value)) by {
          if fitLine.Some? {
            TriplesFollowX(x, y, inp.fit.value, xi);
          }
        }
        Success(Frame(xs, ys, errorBars, fitLine))
  }

  /** Reordering `x` and `y` by the argsort of `x` draws the same `(x, y)`
      pairs, sorted by `x`. */
  lemma PairsFollowX(x: seq<real>, y: seq<real>, xi: seq<nat>)
    requires |x| == |y| && xi == ArgSort(x)
    ensures NonDecreasing(Reorder(x, xi))
    ensures multiset(Zip(Reorder(x, xi), Reorder(y, xi))) == multiset(Zip(x, y))
  {
    ReorderAt(x, xi);
    ReorderAt(y, xi);
    ReorderAt(Zip(x, y), xi);
    assert Zip(Reorder(x, xi), Reorder(y, xi)) == Reorder(Zip(x, y), xi);
    ReorderIsPermutation(Zip(x, y), x);
  }

  /** The fit is reordered by the same permutation, so each fit value stays
      with its own `(x, y)` point. */
  lemma TriplesFollowX(x: seq<real>, y: seq<real>, fit: seq<real>, xi: seq<nat>)
    requires |x| == |y| == |fit| && xi == ArgSort(x)
    ensures multiset(Zip3(Reorder(x, xi), Reorder(y, xi), Reorder(fit, xi))) == multiset(Zip3(x, y, fit))
  {
    ReorderAt(x, xi);
    ReorderAt(y, xi);
    ReorderAt(fit, xi);
    ReorderAt(Zip3(x, y, fit), xi);
    assert Zip3(Reorder(x, xi), Reorder(y, xi), Reorder(fit, xi)) == Reorder(Zip3(x, y, fit), xi);
    ReorderIsPermutation(Zip3(x, y, fit), x);
  }

  /** A missing `x` behaves exactly like `x = [0, 1, ..., len(y) - 1]`. */
  lemma DefaultAbscissas(inp: Inputs)
    requires inp.y.Some? && inp.x.None?
    ensures Update(inp) == Update(inp.(x := Some(RealRange(|inp.y.value|))))
  {
  }

  /** An empty error array is the same as none. */
  lemma EmptyErrorsIgnored(inp: Inputs)
    requires inp.error == Some([])
    ensures Update(inp) == Update(inp.(error := None))
  {
  }

  /** `data_changed` on the drawn state: a dropped update leaves the plot as
      it was; an accepted one replaces it. */
  function DataChanged(shown: Option<Frame>, inp: Inputs): (r: Option<Frame>)
    ensures !Accepted(inp) ==> r == shown
    ensures Accepted(inp) ==> r == Some(Update(inp).value)
    ensures Accepted(inp) ==> r.Some? && NonDecreasing(r.value.xs)
    ensures Accepted(inp) ==>
      multiset(Zip(r.value.xs, r.value.ys)) == multiset(Zip(Abscissas(inp), inp.y.value))
  {
    match Update(inp)
    case Failure(_) => shown
    case Success(frame) => Some(frame)
  }
}
