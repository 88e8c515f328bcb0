/** `PolyInterpolation` of perf/fit.py: an object that stores the samples,
    the per-pair polynomials and their ranges, answers `predict` queries and
    exports itself as a JavaScript function. */
module Interpolation {
  import opened Wrappers
  import opened Segments
  import opened JsExport

  /** A list built line by line from the adjacent pairs is Lines(xs, ys). */
  lemma LinesElementwise(xs: seq<int>, ys: seq<real>, ls: seq<Line>)
    requires |xs| == |ys| && AdjacentDistinct(xs) && |ls| == SegmentCount(|xs|)
    requires forall k :: 0 <= k < |ls| ==> ls[k] == Through(xs[k], ys[k], xs[k + 1], ys[k + 1])
    ensures ls == Lines(xs, ys)
  {
  }

  /** A list built range by range from the adjacent pairs is Ranges(xs). */
  lemma RangesElementwise(xs: seq<int>, rs: seq<Range>)
    requires |rs| == SegmentCount(|xs|)
    requires forall k :: 0 <= k < |rs| ==> rs[k] == Range(xs[k], xs[k + 1])
    ensures rs == Ranges(xs)
  {
  }

  /** What `predict` promises, stated on the specification. */
  lemma PredictFacts(xs: seq<int>, ys: seq<real>, n: real)
    requires |xs| == |ys| && AdjacentDistinct(xs)
    ensures |xs| >= 2 ==> Segments.Predict(xs, ys, n).Ok?
    ensures |xs| >= 2 && StrictlyIncreasing(xs) ==>
      forall i :: 0 <= i < |xs| && n == xs[i] as real ==> Segments.Predict(xs, ys, n) == Ok(ys[i])
  {
    if |xs| >= 2 {
      PredictTotal(xs, ys, n);
      if StrictlyIncreasing(xs) {
        forall i | 0 <= i < |xs| && n == xs[i] as real ensures Segments.Predict(xs, ys, n) == Ok(ys[i]) {
          PredictInterpolates(xs, ys, i);
        }
      }
    }
  }

  class PolyInterpolation {
    var xs: seq<int>
    var ys: seq<real>
    var polynomials: seq<Line>
    var ranges: seq<Range>

    /** The lists hold, position by position, the line and the range of each
        adjacent pair of samples. */
    ghost predicate Valid()
      reads this
    {
      && |xs| == |ys| && AdjacentDistinct(xs)
      && polynomials == Lines(xs, ys)
      && ranges == Ranges(xs)
    }

    /** `__init__(xs, ys)`: one line and one range per adjacent pair, appended
        in order. */
    constructor (xs: seq<int>, ys: seq<real>)
      requires |xs| == |ys| && AdjacentDistinct(xs)
      ensures Valid() && this.xs == xs && this.ys == ys
      ensures |polynomials| == |ranges| == SegmentCount(|xs|)
    {
      this.xs := xs;
      this.ys := ys;
      polynomials := [];
      ranges := [];
      new;
      var i := 0;
      while i < |xs| - 1
        invariant 0 <= i <= SegmentCount(|xs|)
        invariant this.xs == xs && this.ys == ys
        invariant |polynomials| == |ranges| == i
        invariant forall k :: 0 <= k < i ==> polynomials[k] == Through(xs[k], ys[k], xs[k + 1], ys[k + 1])
        invariant forall k :: 0 <= k < i ==> ranges[k] == Range(xs[k], xs[k + 1])
      {
        polynomials := polynomials + [Through(xs[i], ys[i], xs[i + 1], ys[i + 1])];
        ranges := ranges + [Range(xs[i], xs[i + 1])];
        i := i + 1;
      }
      LinesElementwise(xs, ys, polynomials);
      RangesElementwise(xs, ranges);
    }

    /** `predict(n)`: the extrapolation tests, then a scan of the ranges
        with an early return. It never raises once there are two samples,
        and with ascending sizes it returns each sample's own time. */
    method Predict(n: real) returns (r: Result<real, PredictError>)
      requires Valid()
      ensures r == Segments.Predict(xs, ys, n)
      ensures |xs| >= 2 ==> r.Ok?
      ensures |xs| >= 2 && StrictlyIncreasing(xs) ==>
        forall i :: 0 <= i < |xs| && n == xs[i] as real ==> r == Ok(ys[i])
    {
      if |ranges| == 0 {
        r := Err(NoSegments);
      } else if n < ranges[0].lo as real {
        r := Ok(Eval(polynomials[0], n));
      } else if n > ranges[|ranges| - 1].hi as real {
        r := Ok(Eval(polynomials[|polynomials| - 1], n));
      } else {
        r := Scan(n);
      }
      PredictFacts(xs, ys, n);
    }

    /** The `for` loop of `predict`: the first range holding `n` chooses the
        polynomial; none raises `ValueError("Invalid size")`. */
    method Scan(n: real) returns (r: Result<real, PredictError>)
      requires |polynomials| == |ranges|
      ensures r == match FirstCovering(ranges, n)
        case Some(i) => Ok(Eval(polynomials[i], n))
        case None => Err(InvalidSize)
    {
      var i := 0;
      while i < |ranges|
        invariant 0 <= i <= |ranges|
        invariant forall j :: 0 <= j < i ==> !Covers(ranges[j], n)
      {
        if ranges[i].lo as real <= n <= ranges[i].hi as real {
          FirstCoveringAt(ranges, n, i);
          return Ok(Eval(polynomials[i], n));
        }
        i := i + 1;
      }
      return Err(InvalidSize);
    }

    /** `to_javascript()`: the tables and branch logic; with ascending sizes
        the exported function computes `predict` for every argument. */
    function ToJavascript(): (f: JsFunction)
      reads this
      requires Valid()
      ensures f.Piecewise? && Evaluable(f)
      ensures |xs| >= 2 && StrictlyIncreasing(xs) ==>
        forall n :: (Segments.Predict(xs, ys, n).Ok? && JsEval(f, n) == Ok(Segments.Predict(xs, ys, n).value))
    {
      if |xs| >= 2 && StrictlyIncreasing(xs) then
        ExportAgreesEverywhere(xs, ys);
        Piecewise(polynomials, ranges)
      else
        Piecewise(polynomials, ranges)
    }
  }
}
