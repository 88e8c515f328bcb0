/** The JavaScript functions perf/fit.py emits for the zkalc website, as an
    IR plus an evaluator that follows the emitted control flow, instead of
    the f-string text. */
module JsExport {
  import opened Wrappers
  import opened Segments

  /** `{"arguments": "n", "body": ...}` */
  datatype JsFunction =
      /** `basic_operation_to_js(x)`: `return n * x;` */
    | Product(rate: int)
      /** `to_javascript()`: the coefficient table, the range table and the
          branch logic over them. */
    | Piecewise(polynomials: seq<Line>, ranges: seq<Range>)

  /** What the emitted body throws: a `TypeError` from reading `ranges[0][0]`
      of an empty table, or `Error('Size out of range')`. */
  datatype JsError = TypeError | SizeOutOfRange

  predicate Evaluable(f: JsFunction)
  {
    f.Piecewise? ==> |f.polynomials| == |f.ranges|
  }

  /** The control flow of the emitted piecewise body: the index of the
      polynomial it evaluates. In-range segments are tried FIRST, then the
      extrapolation branches. */
  function JsBranch(ranges: seq<Range>, n: real): (r: Result<nat, JsError>)
    ensures r.Ok? ==> r.value < |ranges|
    ensures r.Err? <==> (|ranges| == 0 ||
      (ranges[0].lo as real <= n <= ranges[|ranges| - 1].hi as real && FirstCovering(ranges, n).None?))
  {
    match FirstCovering(ranges, n)
    case Some(i) => Ok(i)
    case None =>
      if |ranges| == 0 then Err(TypeError)
      else if n < ranges[0].lo as real then Ok(0)
      else if n > ranges[|ranges| - 1].hi as real then Ok(|ranges| - 1)
      else Err(SizeOutOfRange)
  }

  /** Calling the exported function with argument `n`. */
  function JsEval(f: JsFunction, n: real): (r: Result<real, JsError>)
    requires Evaluable(f)
    ensures f.Product? ==> r.Ok?
    ensures f.Piecewise? ==> (r.Err? <==> JsBranch(f.ranges, n).Err?)
    ensures f.Piecewise? && r.Err? ==> r.error == JsBranch(f.ranges, n).error
    ensures f.Piecewise? && r.Ok? ==>
      exists i :: 0 <= i < |f.polynomials| && r.value == Eval(f.polynomials[i], n)
  {
    match f
    case Product(x) => Ok(n * x as real)
    case Piecewise(ps, rs) =>
      match JsBranch(rs, n)
      case Ok(i) => Ok(Eval(ps[i], n))
      case Err(e) => Err(e)
  }

  /** `basic_operation_to_js(x)`: the exported function multiplies its
      argument by `x`. */
  function BasicOperationToJs(x: int): (f: JsFunction)
    ensures Evaluable(f)
    ensures forall n :: JsEval(f, n) == Ok(n * x as real)
  {
    assert forall n :: JsEval(Product(x), n) == Ok(n * x as real) by {
      forall n ensures JsEval(Product(x), n) == Ok(n * x as real) {
        var r := JsEval(Product(x), n);
        assert r.Ok? && r.value == n * x as real;
      }
    }
    Product(x)
  }

  /** With ascending sizes no range reaches below the first size or above the
      last one. */
  lemma RangesWithinSizes(xs: seq<int>, j: nat)
    requires |xs| >= 2 && StrictlyIncreasing(xs) && j < |xs| - 1
    ensures xs[0] <= Ranges(xs)[j].lo && Ranges(xs)[j].hi <= xs[|xs| - 1]
  {
  }

  /** The exported piecewise function computes `predict` for every argument
      when the sizes ascend, even though it tests in-range segments before
      the extrapolation branches. */
  lemma {:induction false} ExportAgreesWithPredict(xs: seq<int>, ys: seq<real>, n: real)
    requires |xs| == |ys| >= 2 && StrictlyIncreasing(xs)
    ensures Predict(xs, ys, n).Ok?
    ensures JsEval(Piecewise(Lines(xs, ys), Ranges(xs)), n) == Ok(Predict(xs, ys, n).value)
  {
    PredictTotal(xs, ys, n);
    var rs := Ranges(xs);
    if n < xs[0] as real || n > xs[|xs| - 1] as real {
      forall j | 0 <= j < |rs| ensures !Covers(rs[j], n) {
        RangesWithinSizes(xs, j);
      }
    }
  }

  /** The same for all arguments at once. */
  lemma ExportAgreesEverywhere(xs: seq<int>, ys: seq<real>)
    requires |xs| == |ys| >= 2 && StrictlyIncreasing(xs)
    ensures forall n :: (Predict(xs, ys, n).Ok?
      && JsEval(Piecewise(Lines(xs, ys), Ranges(xs)), n) == Ok(Predict(xs, ys, n).value))
  {
    forall n ensures Predict(xs, ys, n).Ok?
      && JsEval(Piecewise(Lines(xs, ys), Ranges(xs)), n) == Ok(Predict(xs, ys, n).value)
    {
      ExportAgreesWithPredict(xs, ys, n);
    }
  }

  /** When the sizes do not ascend, the exported function and `predict` can
      answer differently: for sizes [2, 1, 3] the query 1.5 is below the first
      range for `predict` but inside the second range for the export. */
  lemma ExportDisagreesOnUnsortedSizes()
    ensures Predict([2, 1, 3], [0.0, 10.0, 0.0], 1.5) == Ok(5.0)
    ensures JsEval(Piecewise(Lines([2, 1, 3], [0.0, 10.0, 0.0]), Ranges([2, 1, 3])), 1.5) == Ok(7.5)
  {
    var ls := Lines([2, 1, 3], [0.0, 10.0, 0.0]);
    var rs := Ranges([2, 1, 3]);
    assert ls[0] == Through(2, 0.0, 1, 10.0);
    assert ls[1] == Through(1, 10.0, 3, 0.0);
    assert rs == [Range(2, 1), Range(1, 3)];
    assert FirstCovering(rs, 1.5) == Some(1);
  }

  // ---------------------------------------------------------------------------
  // The coefficient table as the source writes it

  /** `poly1d.coeffs.tolist()` for a line: numpy trims leading zero
      coefficients, so a flat line keeps only its constant term. */
  function Coefficients(l: Line): (c: seq<real>)
    ensures 1 <= |c| <= 2 && c[|c| - 1] == l.intercept
    ensures |c| == 2 <==> l.slope != 0.0
    ensures |c| == 2 ==> c[0] == l.slope
  {
    if l.slope == 0.0 then [l.intercept] else [l.slope, l.intercept]
  }

  /** `n * c[0] + c[1]` in JavaScript; `c[1]` past the end is `undefined`
      and the sum is `NaN`, written None here. */
  function JsLinear(c: seq<real>, n: real): (v: Option<real>)
    requires |c| >= 1
  {
    if |c| >= 2 then Some(n * c[0] + c[1]) else None
  }

  /** The emitted piecewise body evaluated over the coefficient lists that
      are actually embedded. */
  function JsEvalAsWritten(ps: seq<Line>, rs: seq<Range>, n: real): (r: Result<Option<real>, JsError>)
    requires |ps| == |rs|
    ensures r.Err? <==> JsEval(Piecewise(ps, rs), n).Err?
    ensures r.Ok? && r.value.Some? ==> r.value.value == JsEval(Piecewise(ps, rs), n).value
  {
    match JsBranch(rs, n)
    case Ok(i) => Ok(JsLinear(Coefficients(ps[i]), n))
    case Err(e) => Err(e)
  }

  /** The embedded table yields NaN exactly when the chosen segment is flat,
      and otherwise the value of the two-coefficient export. */
  lemma AsWrittenNaNOnFlatSegments(ps: seq<Line>, rs: seq<Range>, n: real)
    requires |ps| == |rs| && JsBranch(rs, n).Ok?
    ensures var i := JsBranch(rs, n).value;
      (JsEvalAsWritten(ps, rs, n) == Ok(None) <==> ps[i].slope == 0.0)
      && (ps[i].slope != 0.0 ==> JsEvalAsWritten(ps, rs, n) == Ok(Some(JsEval(Piecewise(ps, rs), n).value)))
  {
  }

  /** Two equal times give a flat segment, and the export as written returns
      NaN where `predict` returns the time. */
  lemma FlatSegmentExportsNaN()
    ensures Predict([1, 2], [5.0, 5.0], 1.5) == Ok(5.0)
    ensures JsEvalAsWritten(Lines([1, 2], [5.0, 5.0]), Ranges([1, 2]), 1.5) == Ok(None)
  {
    var ls := Lines([1, 2], [5.0, 5.0]);
    assert ls[0] == Through(1, 5.0, 2, 5.0);
    assert Ranges([1, 2]) == [Range(1, 2)];
  }
}
