/** The mathematics of `PolyInterpolation` in perf/fit.py: the two-point
    line of each adjacent sample pair, the range it covers, and what
    `predict` returns for a query, as functions of the samples. */
module Segments {
  import opened Wrappers

  /** A degree-1 polynomial `slope * x + intercept`. */
  datatype Line = Line(slope: real, intercept: real)

  /** Evaluating the polynomial at `n` (`polynomial(n)`). */
  function Eval(l: Line, n: real): real
  {
    n * l.slope + l.intercept
  }

  /** The Lagrange polynomial of two points with distinct x, written out:
      slope `(y1 - y0) / (x1 - x0)`, intercept `y0 - slope * x0`. */
  function Through(x0: int, y0: real, x1: int, y1: real): (l: Line)
    requires x0 != x1
    ensures Eval(l, x0 as real) == y0 && Eval(l, x1 as real) == y1
  {
    var dx := (x1 - x0) as real;
    var slope := (y1 - y0) / dx;
    assert slope * dx == y1 - y0;
    assert (x1 as real) * slope - slope * (x0 as real) == slope * dx;
    Line(slope, y0 - slope * x0 as real)
  }

  /** It is the only line through the two points. */
  lemma ThroughUnique(x0: int, y0: real, x1: int, y1: real, l: Line)
    requires x0 != x1
    requires Eval(l, x0 as real) == y0 && Eval(l, x1 as real) == y1
    ensures l == Through(x0, y0, x1, y1)
  {
    var dx := (x1 - x0) as real;
    assert l.slope * dx == y1 - y0 by {
      assert (x1 as real) * l.slope - (x0 as real) * l.slope == l.slope * dx;
    }
    assert l.slope == (y1 - y0) / dx;
  }

  /** The x-range `[lo, hi]` a segment was built for. */
  datatype Range = Range(lo: int, hi: int)

  /** `start <= n <= end` */
  predicate Covers(r: Range, n: real)
  {
    r.lo as real <= n <= r.hi as real
  }

  /** Consecutive sizes differ, so every adjacent pair has a line. */
  predicate AdjacentDistinct(xs: seq<int>)
  {
    forall i :: 0 <= i < |xs| - 1 ==> xs[i] != xs[i + 1]
  }

  predicate StrictlyIncreasing(xs: seq<int>)
  {
    forall i, j :: 0 <= i < j < |xs| ==> xs[i] < xs[j]
  }

  /** `range(len(xs) - 1)` has this many iterations. */
  function SegmentCount(k: nat): nat
  {
    if k == 0 then 0 else k - 1
  }

  /** The polynomials the constructor stores: segment i interpolates the
      samples i and i + 1, so neighbouring segments meet at their shared
      sample. */
  function Lines(xs: seq<int>, ys: seq<real>): (ls: seq<Line>)
    requires |xs| == |ys| && AdjacentDistinct(xs)
    ensures |ls| == SegmentCount(|xs|)
    ensures forall i :: 0 <= i < |ls| ==>
      Eval(ls[i], xs[i] as real) == ys[i] && Eval(ls[i], xs[i + 1] as real) == ys[i + 1]
  {
    var ls := seq(SegmentCount(|xs|), i requires 0 <= i < SegmentCount(|xs|) =>
      Through(xs[i], ys[i], xs[i + 1], ys[i + 1]));
    assert forall i :: 0 <= i < |ls| ==>
      Eval(ls[i], xs[i] as real) == ys[i] && Eval(ls[i], xs[i + 1] as real) == ys[i + 1] by {
      forall i | 0 <= i < |ls|
        ensures Eval(ls[i], xs[i] as real) == ys[i] && Eval(ls[i], xs[i + 1] as real) == ys[i + 1]
      {
        var l := Through(xs[i], ys[i], xs[i + 1], ys[i + 1]);
        assert ls[i] == l;
      }
    }
    ls
  }

  /** The ranges the constructor stores: contiguous, from the first size to
      the last, and ascending with no overlap when the sizes ascend. */
  function Ranges(xs: seq<int>): (rs: seq<Range>)
    ensures |rs| == SegmentCount(|xs|)
    ensures |rs| > 0 ==> rs[0].lo == xs[0] && rs[|rs| - 1].hi == xs[|xs| - 1]
    ensures forall i :: 0 <= i < |rs| - 1 ==> rs[i].hi == rs[i + 1].lo
    ensures StrictlyIncreasing(xs) ==> forall i, j :: 0 <= i < j < |rs| ==> rs[i].lo < rs[i].hi <= rs[j].lo
  {
    seq(SegmentCount(|xs|), i requires 0 <= i < SegmentCount(|xs|) => Range(xs[i], xs[i + 1]))
  }

  /** The first range covering `n`, as the scan in `predict` finds it. */
  function FirstCovering(rs: seq<Range>, n: real): (r: Option<nat>)
    ensures r.Some? ==> r.value < |rs| && Covers(rs[r.value], n)
    ensures r.Some? ==> forall j :: 0 <= j < r.value ==> !Covers(rs[j], n)
    ensures r.None? ==> forall j :: 0 <= j < |rs| ==> !Covers(rs[j], n)
  {
    if |rs| == 0 then None
    else if Covers(rs[0], n) then Some(0)
    else match FirstCovering(rs[1..], n)
      case None => None
      case Some(i) => Some(i + 1)
  }

  /** A scan that stops at the first covering range found FirstCovering's answer. */
  lemma FirstCoveringAt(rs: seq<Range>, n: real, i: nat)
    requires i < |rs| && Covers(rs[i], n)
    requires forall j :: 0 <= j < i ==> !Covers(rs[j], n)
    ensures FirstCovering(rs, n) == Some(i)
  {
  }

  /** `predict` raises: `IndexError` on a model with no segment,
      `ValueError("Invalid size")` when the scan finds no range. */
  datatype PredictError = NoSegments | InvalidSize

  /** `predict(n)` over the stored polynomials and ranges: below the first
      range and above the last the boundary line extrapolates; otherwise the
      first range containing `n` chooses the line. */
  function PredictAt(lines: seq<Line>, ranges: seq<Range>, n: real): Result<real, PredictError>
    requires |lines| == |ranges|
  {
    if |ranges| == 0 then Err(NoSegments)
    else if n < ranges[0].lo as real then Ok(Eval(lines[0], n))
    else if n > ranges[|ranges| - 1].hi as real then Ok(Eval(lines[|lines| - 1], n))
    else match FirstCovering(ranges, n)
      case Some(i) => Ok(Eval(lines[i], n))
      case None => Err(InvalidSize)
  }

  /** `PolyInterpolation(xs, ys).predict(n)`. */
  function Predict(xs: seq<int>, ys: seq<real>, n: real): Result<real, PredictError>
    requires |xs| == |ys| && AdjacentDistinct(xs)
  {
    PredictAt(Lines(xs, ys), Ranges(xs), n)
  }

  /** The three outcomes of `predict` over stored tables: `IndexError`
      exactly on empty tables, `Invalid size` exactly when a query between
      the first start and the last end lies in no range, and otherwise the
      value of one of the stored lines. */
  lemma PredictAtOutcomes(lines: seq<Line>, ranges: seq<Range>, n: real)
    requires |lines| == |ranges|
    ensures PredictAt(lines, ranges, n) == Err(NoSegments) <==> |ranges| == 0
    ensures PredictAt(lines, ranges, n) == Err(InvalidSize) <==>
      (|ranges| > 0 && ranges[0].lo as real <= n <= ranges[|ranges| - 1].hi as real
       && forall j :: 0 <= j < |ranges| ==> !Covers(ranges[j], n))
    ensures PredictAt(lines, ranges, n).Ok? ==>
      exists i :: 0 <= i < |lines| && PredictAt(lines, ranges, n).value == Eval(lines[i], n)
  {
    var r := PredictAt(lines, ranges, n);
    if r.Ok? {
      if |ranges| > 0 && n < ranges[0].lo as real {
        assert r.value == Eval(lines[0], n);
      } else if |ranges| > 0 && n > ranges[|ranges| - 1].hi as real {
        assert r.value == Eval(lines[|lines| - 1], n);
      } else {
        var i := FirstCovering(ranges, n).value;
        assert r.value == Eval(lines[i], n);
      }
    }
  }

  /** A model of fewer than two samples has no segment, and `predict` fails
      on `self.ranges[0]`; a model of two or more never fails that way. */
  lemma PredictNeedsTwoSamples(xs: seq<int>, ys: seq<real>, n: real)
    requires |xs| == |ys| && AdjacentDistinct(xs)
    ensures Predict(xs, ys, n) == Err(NoSegments) <==> |xs| < 2
  {
    PredictAtOutcomes(Lines(xs, ys), Ranges(xs), n);
  }

  // ---------------------------------------------------------------------------
  // Properties of predict

  /** Between the first and the last size, some adjacent pair brackets `n`,
      whatever order the sizes come in: the walk from the first size to the
      last must step across `n` upwards somewhere. */
  lemma {:induction false} SomePairBrackets(xs: seq<int>, n: real)
    requires |xs| >= 2
    requires xs[0] as real <= n <= xs[|xs| - 1] as real
    ensures exists i :: 0 <= i < |xs| - 1 && xs[i] as real <= n <= xs[i + 1] as real
  {
    if n <= xs[1] as real {
      assert xs[0] as real <= n <= xs[1] as real;
    } else {
      var tail := xs[1..];
      SomePairBrackets(tail, n);
      var i :| 0 <= i < |tail| - 1 && tail[i] as real <= n <= tail[i + 1] as real;
      assert xs[i + 1] as real <= n <= xs[i + 2] as real;
    }
  }

  /** `predict` never reaches `raise ValueError("Invalid size")` on a model
      of two or more samples, sorted or not. */
  lemma PredictTotal(xs: seq<int>, ys: seq<real>, n: real)
    requires |xs| == |ys| >= 2 && AdjacentDistinct(xs)
    ensures Predict(xs, ys, n).Ok?
  {
    var rs := Ranges(xs);
    if xs[0] as real <= n <= xs[|xs| - 1] as real {
      SomePairBrackets(xs, n);
      var i :| 0 <= i < |xs| - 1 && xs[i] as real <= n <= xs[i + 1] as real;
      assert Covers(rs[i], n);
      assert FirstCovering(rs, n).Some?;
    }
    PredictAtTotal(Lines(xs, ys), rs, n);
  }

  /** predict succeeds whenever a query between the first and last range
      endpoints is covered by some range. */
  lemma PredictAtTotal(lines: seq<Line>, ranges: seq<Range>, n: real)
    requires |lines| == |ranges| > 0
    requires ranges[0].lo as real <= n <= ranges[|ranges| - 1].hi as real ==> FirstCovering(ranges, n).Some?
    ensures PredictAt(lines, ranges, n).Ok?
  {
  }

  /** Outside the sampled range the boundary segments' lines extrapolate. */
  lemma PredictExtrapolates(xs: seq<int>, ys: seq<real>, n: real)
    requires |xs| == |ys| >= 2 && AdjacentDistinct(xs)
    ensures n < xs[0] as real ==> Predict(xs, ys, n) == Ok(Eval(Through(xs[0], ys[0], xs[1], ys[1]), n))
    ensures var k := |xs| - 1;
      n > xs[k] as real && !(n < xs[0] as real) ==>
        Predict(xs, ys, n) == Ok(Eval(Through(xs[k - 1], ys[k - 1], xs[k], ys[k]), n))
  {
  }

  /** With ascending sizes, the scan for a query inside segment i's range
      stops at segment i, or at segment i - 1 when the query is their shared
      endpoint. */
  lemma FirstCoveringAscending(xs: seq<int>, i: nat, n: real)
    requires StrictlyIncreasing(xs)
    requires i < |xs| - 1 && xs[i] as real <= n <= xs[i + 1] as real
    ensures FirstCovering(Ranges(xs), n).Some?
    ensures var j := FirstCovering(Ranges(xs), n).value;
      j == i || (j + 1 == i && n == xs[i] as real)
  {
    var rs := Ranges(xs);
    assert rs[i] == Range(xs[i], xs[i + 1]);
    assert Covers(rs[i], n);
    var j := FirstCovering(rs, n).value;
    assert j <= i;
    if j < i {
      assert rs[j] == Range(xs[j], xs[j + 1]);
      assert n <= xs[j + 1] as real && xs[j + 1] <= xs[i];
    }
  }

  /** With ascending sizes, a query inside the range of segment i is answered
      by segment i's line (at a shared endpoint the earlier segment is chosen,
      and the two lines agree there). */
  lemma PredictInSegment(xs: seq<int>, ys: seq<real>, i: nat, n: real)
    requires |xs| == |ys| && StrictlyIncreasing(xs)
    requires i < |xs| - 1 && xs[i] as real <= n <= xs[i + 1] as real
    ensures Predict(xs, ys, n) == Ok(Eval(Lines(xs, ys)[i], n))
  {
    var ls, rs := Lines(xs, ys), Ranges(xs);
    var last := |xs| - 1;
    assert xs[0] <= xs[i] && xs[i + 1] <= xs[last];
    assert !(n < rs[0].lo as real) && !(n > rs[|rs| - 1].hi as real);
    FirstCoveringAscending(xs, i, n);
    var j := FirstCovering(rs, n).value;
    assert Predict(xs, ys, n) == Ok(Eval(ls[j], n));
    if j != i {
      assert Eval(ls[j], xs[j + 1] as real) == ys[i] == Eval(ls[i], xs[i] as real);
    }
  }

  /** With ascending sizes the interpolant passes through every sample. */
  lemma PredictInterpolates(xs: seq<int>, ys: seq<real>, i: nat)
    requires |xs| == |ys| >= 2 && StrictlyIncreasing(xs) && i < |xs|
    ensures Predict(xs, ys, xs[i] as real) == Ok(ys[i])
  {
    if i < |xs| - 1 {
      PredictInSegment(xs, ys, i, xs[i] as real);
    } else {
      PredictInSegment(xs, ys, i - 1, xs[i] as real);
    }
  }

  /** Without ascending sizes the interpolant can miss its own data: for
      sizes [2, 3, 1] the query 1 lies below the first range and is
      extrapolated from the first segment. */
  lemma UnsortedSizesMissTheirData()
    ensures Predict([2, 3, 1], [0.0, 0.0, 10.0], 1.0) == Ok(0.0)
  {
    var ls := Lines([2, 3, 1], [0.0, 0.0, 10.0]);
    assert ls[0] == Through(2, 0.0, 3, 0.0);
  }

  predicate NonDecreasing(ys: seq<real>)
  {
    forall i, j :: 0 <= i < j < |ys| ==> ys[i] <= ys[j]
  }

  /** A line that does not fall between two ascending points has a
      non-negative slope. */
  lemma RisingLine(l: Line, x0: real, x1: real)
    requires x0 < x1 && Eval(l, x0) <= Eval(l, x1)
    ensures l.slope >= 0.0
  {
    var d := x1 - x0;
    assert d > 0.0;
    assert x1 * l.slope == x0 * l.slope + d * l.slope;
    assert d * l.slope >= 0.0;
  }

  /** A line of non-negative slope never decreases. */
  lemma EvalMonotone(l: Line, n: real, m: real)
    requires l.slope >= 0.0 && n <= m
    ensures Eval(l, n) <= Eval(l, m)
  {
    var d := m - n;
    assert d >= 0.0;
    assert d * l.slope >= 0.0;
    assert m * l.slope == n * l.slope + d * l.slope;
  }

  /** With ascending sizes, the segment whose line answers `n`: n lies at or
      above its start unless it is the first segment, and at or below its
      end unless it is the last. */
  lemma PredictSegment(xs: seq<int>, ys: seq<real>, n: real) returns (k: nat)
    requires |xs| == |ys| >= 2 && StrictlyIncreasing(xs)
    ensures k < |xs| - 1
    ensures Predict(xs, ys, n) == Ok(Eval(Lines(xs, ys)[k], n))
    ensures k == 0 || xs[k] as real <= n
    ensures k == |xs| - 2 || n <= xs[k + 1] as real
  {
    var last := |xs| - 1;
    if n < xs[0] as real {
      k := 0;
    } else if n > xs[last] as real {
      k := last - 1;
    } else {
      SomePairBrackets(xs, n);
      var i :| 0 <= i < |xs| - 1 && xs[i] as real <= n <= xs[i + 1] as real;
      PredictInSegment(xs, ys, i, n);
      k := i;
    }
  }

  /** Times that never decrease with size give a prediction that never
      decreases with size, extrapolation included. */
  lemma PredictMonotone(xs: seq<int>, ys: seq<real>, n: real, m: real)
    requires |xs| == |ys| >= 2 && StrictlyIncreasing(xs) && NonDecreasing(ys)
    requires n <= m
    ensures Predict(xs, ys, n).Ok? && Predict(xs, ys, m).Ok?
    ensures Predict(xs, ys, n).value <= Predict(xs, ys, m).value
  {
    PredictTotal(xs, ys, n);
    PredictTotal(xs, ys, m);
    if n < m {
      var ls := Lines(xs, ys);
      var p := PredictSegment(xs, ys, n);
      var q := PredictSegment(xs, ys, m);
      if p > q {
        assert false;
      }
      RisingLine(ls[p], xs[p] as real, xs[p + 1] as real);
      RisingLine(ls[q], xs[q] as real, xs[q + 1] as real);
      if p == q {
        EvalMonotone(ls[p], n, m);
      } else {
        EvalMonotone(ls[p], n, xs[p + 1] as real);
        assert ys[p + 1] <= ys[q];
        EvalMonotone(ls[q], xs[q] as real, m);
      }
    }
  }
}
