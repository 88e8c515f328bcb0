/** The driver of perf/fit.py: per operation, choose the single-sample
    export or the piecewise interpolation (`convert_measurement_to_js_function`),
    and build the operation -> function result (`convert_benchmark_to_javascript`). */
module Convert {
  import opened Wrappers
  import opened SampleSets
  import opened Segments
  import opened JsExport
  import opened Interpolation
  import opened Extraction

  /** Python's `int(x)` of a float: truncation toward zero. */
  function Truncate(t: real): (r: int)
    ensures t >= 0.0 ==> r >= 0 && r as real <= t < r as real + 1.0
    ensures t < 0.0 ==> r <= 0 && r as real - 1.0 < t <= r as real
  {
    if t >= 0.0 then t.Floor else -((-t).Floor)
  }

  /** Distinct keys are in particular distinct neighbours. */
  lemma UniqueSizesAdjacentDistinct(s: SampleSet)
    requires UniqueSizes(s)
    ensures AdjacentDistinct(Sizes(s))
  {
  }

  /** The function exported for one operation's samples (in insertion order). */
  function ExportSpec(samples: SampleSet): (f: JsFunction)
    requires |samples| >= 1 && UniqueSizes(samples)
    ensures Evaluable(f)
  {
    UniqueSizesAdjacentDistinct(samples);
    if |samples| == 1 then BasicOperationToJs(Truncate(samples[0].time))
    else Piecewise(Lines(Sizes(samples), Times(samples)), Ranges(Sizes(samples)))
  }

  /** `convert_measurement_to_js_function(operation, measurement)`. A single
      sample exports `n * int(t)`, whatever size it was measured at; several
      samples export the interpolation, which computes `predict` when the
      sizes arrived in ascending order. */
  method ConvertMeasurement(samples: SampleSet) returns (f: JsFunction)
    requires |samples| >= 1 && UniqueSizes(samples)
    ensures f == ExportSpec(samples)
    ensures |samples| == 1 ==> forall n :: JsEval(f, n) == Ok(n * Truncate(samples[0].time) as real)
    ensures |samples| >= 2 && StrictlyIncreasing(Sizes(samples)) ==>
      forall n :: (Predict(Sizes(samples), Times(samples), n).Ok?
        && JsEval(f, n) == Ok(Predict(Sizes(samples), Times(samples), n).value))
  {
    var sizes, times := Sizes(samples), Times(samples);
    UniqueSizesAdjacentDistinct(samples);
    if |sizes| == 1 {
      var x := Truncate(times[0]);
      assert x == Truncate(samples[0].time);
      f := BasicOperationToJs(x);
      forall n ensures JsEval(f, n) == Ok(n * Truncate(samples[0].time) as real) {
        var r := JsEval(f, n);
        assert r.Ok? && r.value == n * x as real;
        var v: real := n * x as real;
        assert r == Ok(v);
        assert v == n * Truncate(samples[0].time) as real;
      }
    } else {
      var interpolation := new PolyInterpolation(sizes, times);
      f := interpolation.ToJavascript();
    }
  }

  /** A worked case: sizes 2, 4 and 8 taking 10, 30 and 70 ns. The query 6
      falls in the segment from 4 to 8, whose line is `10 * n - 10`, so both
      `predict` and the exported function answer 50. */
  lemma WorkedExample()
    ensures var samples := [Sample(2, 10.0), Sample(4, 30.0), Sample(8, 70.0)];
      && UniqueSizes(samples)
      && Predict(Sizes(samples), Times(samples), 6.0) == Ok(50.0)
      && JsEval(ExportSpec(samples), 6.0) == Ok(50.0)
  {
    var samples := [Sample(2, 10.0), Sample(4, 30.0), Sample(8, 70.0)];
    var xs, ys := Sizes(samples), Times(samples);
    assert xs == [2, 4, 8] && ys == [10.0, 30.0, 70.0];
    var l := Through(4, 30.0, 8, 70.0);
    assert l == Line(10.0, -10.0) by {
      ThroughUnique(4, 30.0, 8, 70.0, Line(10.0, -10.0));
    }
    assert Lines(xs, ys)[1] == l;
    PredictInSegment(xs, ys, 1, 6.0);
    ExportAgreesWithPredict(xs, ys, 6.0);
  }

  /** The loop of `convert_benchmark_to_javascript`: one exported function
      per operation of the extracted dictionary. */
  method ConvertAll(measurements: Measurements) returns (results: map<string, JsFunction>)
    requires Extraction.WellFormed(measurements)
    ensures results.Keys == measurements.Keys
    ensures forall op :: op in results ==> results[op] == ExportSpec(measurements[op])
  {
    results := map[];
    var pending := measurements.Keys;
    while pending != {}
      invariant pending <= measurements.Keys
      invariant results.Keys == measurements.Keys - pending
      invariant forall op :: op in results ==> results[op] == ExportSpec(measurements[op])
      decreases pending
    {
      var op :| op in pending;
      var f := ConvertMeasurement(measurements[op]);
      results := results[op := f];
      pending := pending - {op};
    }
  }

  /** `convert_benchmark_to_javascript(bench_output)` without the JSON
      output: one exported function per extracted operation, or the error
      that aborted extraction. */
  method ConvertBenchmark(records: seq<Record>) returns (r: Result<map<string, JsFunction>, ExtractError>)
    ensures r.Err? <==> Extract(records).Err?
    ensures r.Err? ==> r.error == Extract(records).error
    ensures r.Ok? ==> r.value.Keys == Extract(records).value.Keys
    ensures r.Ok? ==> forall op :: op in r.value ==> r.value[op] == ExportSpec(Extract(records).value[op])
  {
    var extracted := ExtractMeasurements(records);
    if extracted.Err? {
      return Err(extracted.error);
    }
    var results := ConvertAll(extracted.value);
    r := Ok(results);
  }
}
