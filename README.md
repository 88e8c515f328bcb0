# zkalc cost-function fitter, modelled in Dafny

zkalc estimates how long cryptographic operations take, such as field and
curve arithmetic, multi-scalar multiplication (MSM) and pairings.
`perf/fit.py` turns the Criterion benchmark output of a backend into one
JavaScript cost function per operation for the zkalc website. It works in
five steps:

- It reads each benchmark id `msm/G1/1024` as an operation and a size.
- It converts the measured mean to nanoseconds.
- It collects `operation -> {size -> time}`.
- It fits each operation. An operation with one sample becomes a constant
  rate `n * int(t)`. One with more samples becomes a chain of two-point lines
  (`PolyInterpolation`) that extrapolates with its boundary lines.
- It emits each fit as a JavaScript function.

The model has one module per concept:

| file | module | models |
|---|---|---|
| `wrappers.dfy` | `Wrappers` | `Option` and `Result` |
| `units.dfy` | `Units` | `to_nanoseconds` and its factor table |
| `descriptor.dfy` | `Descriptor` | `str.split("/")`, Python's `int()` on a size token, `parse_benchmark_description` |
| `sample_sets.dfy` | `SampleSets` | the per-operation `{size: time}` dict, in insertion order |
| `extraction.dfy` | `Extraction` | `extract_measurements`, as a method with a loop and as a fold over the records |
| `segments.dfy` | `Segments` | the mathematics of `PolyInterpolation` (lines, ranges, `predict`) as functions |
| `interpolation.dfy` | `Interpolation` | the `PolyInterpolation` class: constructor loop, `predict` scan, `to_javascript` |
| `js_export.dfy` | `JsExport` | the exported JavaScript as an IR plus an evaluator that follows the emitted control flow |
| `convert.dfy` | `Convert` | `basic_operation_to_js` / `to_javascript` choice, and `convert_benchmark_to_javascript` |

Modelling choices:

- Times are exact `real`s and sizes are `int`s.
- scipy's `lagrange` on two points is the explicit line
  `slope = (y1 - y0) / (x1 - x0)`, `intercept = y0 - slope * x0`.
- Python's `int(x)` on a float truncates toward zero (`Convert.Truncate`).
- A Python dict keeps insertion order, and `zip(*measurement.items())` hands
  the sizes to the interpolator in that order. So a sample set is a sequence
  with unique sizes. Overwriting keeps an entry's position, and a new size
  goes to the end.
- Exceptions that nothing catches end the run. They are `Result` errors:
  - the `IndexError` of a descriptor with too few tokens;
  - the `KeyError` of a missing `mean` or an unknown unit;
  - the `ValueError` of `int(size)`;
  - `ValueError("Invalid size")` and the `IndexError` of an empty range list
    in `predict`.

Four behaviours of the code are easy to miss:

- The single-sample path exports `n * int(t)` (perf/fit.py:125). It
  truncates the time and never checks that the one size is 1.
- Sizes reach the interpolator in arrival order, not sorted
  (perf/fit.py:120). So the contiguity, interpolation and export-agreement
  properties carry a "sizes strictly increasing" hypothesis, and lemmas show
  what goes wrong without it.
- An unknown unit raises `KeyError` (perf/fit.py:114) and aborts the whole run.
- `predict` cannot fail on any model of two or more samples, whether or not
  the sizes are sorted (`Segments.PredictTotal`).

The Criterion harness in `backend/blstrs/benches/bench_blstrs.rs` is not
part of this model. One mismatch with it is proved: the harness names a
pairing-product measurement `pairing_product/pairing_product/<size>`
(bench_blstrs.rs:74 and :89). The classifier takes `pairing_product` as
that record's size, and `int` rejects it
(`Descriptor.HarnessPairingProductId`). Its `add` and `mul` ids are
classifier misses (`Descriptor.ClassifyMiss`).

## Model

| member | source | states |
|---|---|---|
| Units.Factor | perf/fit.py:113 | The table has an entry exactly for ns, µs, ms and s, and every factor is positive |
| Units.ToNanoseconds | perf/fit.py:111-114 | Fails exactly on a unit outside the table, with that unit in the error; nanoseconds pass through unchanged |
| Units.ThousandfoldChain | perf/fit.py:113 | A duration in µs, ms or s normalises like a thousand times that duration in the next smaller unit |
| Units.NormaliseLinearMonotone | perf/fit.py:114 | Normalising is additive over durations in one unit and preserves their order |
| Descriptor.Split | perf/fit.py:98 | `str.split`: at least one part, no part contains the separator, and joining the parts gives back the string |
| Descriptor.SplitJoin | perf/fit.py:98 | Splitting a join of separator-free parts gives back the parts |
| Descriptor.ParseInt | perf/fit.py:156 | `int(s)` succeeds exactly on an optionally signed digit string; a failure carries the text; a negative result came from a leading '-' |
| Descriptor.ParseDecimalRoundTrip | perf/fit.py:156 | `int` reads back every integer written in decimal |
| Descriptor.ClassifyTokens | perf/fit.py:100-109 | A miss exactly when the first token is none of msm, pairing_product or the single-shot names; the size is the fixed 1 exactly for single-shot names; otherwise the size token is one of the later tokens |
| Descriptor.Classify | perf/fit.py:97-109 | Classifying the `/`-split descriptor; a size token never contains '/' |
| Descriptor.ClassifyMsm | perf/fit.py:100-102 | `msm/V/S`, with or without further tokens, is operation `msm_V` at size token S |
| Descriptor.ClassifyPairingProduct | perf/fit.py:103-105 | `pairing_product/S`, with or without further tokens, is operation `pairing_product` at size token S |
| Descriptor.ClassifySingleShot | perf/fit.py:106-107 | Each of mul_ff, mul_ec, add_ff, add_ec, invert, pairing, alone or followed by more tokens, is that operation at size 1 |
| Descriptor.ClassifyMiss | perf/fit.py:108-109 | Any other first token is a `NoNeedForFitting` miss |
| Descriptor.ClassifyMsmTooShort | perf/fit.py:100-102 | `msm` and `msm/V` raise the uncaught `IndexError`, not a miss |
| Descriptor.ClassifyPairingProductTooShort | perf/fit.py:103-105 | `pairing_product` alone raises the uncaught `IndexError` |
| Descriptor.HarnessPairingProductId | backend/blstrs/benches/bench_blstrs.rs:74-89 | The harness id `pairing_product/pairing_product/<n>` classifies with size token `pairing_product`, which `int` rejects |
| SampleSets.Get | perf/fit.py:156 | A lookup finds a value exactly for a stored size, and the value is that entry's time |
| SampleSets.Put | perf/fit.py:156 | `d[size] = time`: the size now reads `time`; every other size reads as before; an existing size keeps its position and a new one is appended; keys stay unique |
| Extraction.SizeValue | perf/fit.py:156 | `int(size)` is 1 for a single-shot operation; on a size token it succeeds exactly when the token is an integer literal, and otherwise fails with that text |
| Extraction.RecordOutcome | perf/fit.py:145-156 | One loop iteration: skipped exactly without `id` or on a classifier miss; `IndexError` (DescriptorTooShort, with the id) exactly when the classifier runs out of tokens; a missing `mean` (KeyError) exactly after a successful classification; `BadUnit` with the unit exactly when the mean is present and its unit is outside the table; `SizeNotInteger` with the token exactly when the unit converts and `int(size)` fails; a stored record carries the classified operation, `int(size)` and `to_nanoseconds(estimate, unit)` |
| Extraction.Insert | perf/fit.py:156 | The defaultdict store: the operation gains an entry, other operations are untouched, the size reads the new time and the operation's other sizes read as before |
| Extraction.Extract | perf/fit.py:140-158 | A successful result is well formed; a failure carries the error of some record's outcome |
| Extraction.Fold | perf/fit.py:141-157 | The dictionary built by the loop has at least one sample per operation and no repeated size |
| Extraction.ApplyKeepsWellFormed | perf/fit.py:156 | Storing one record keeps every operation non-empty with unique sizes |
| Extraction.ExtractMeasurements | perf/fit.py:140-158 | The loop returns the fold of the records' outcomes (the dictionary, or the first uncaught error) and the dictionary is well formed |
| Extraction.ErrorSticks | perf/fit.py:150-156 | Once a record raises, the whole run fails with that error |
| Extraction.SkippedRecordChangesNothing | perf/fit.py:145-153 | A record without `id`, or one the classifier misses, leaves the result unchanged |
| Extraction.KeptRecordStored | perf/fit.py:151-156 | A kept record stores `to_nanoseconds(estimate, unit)` under its operation and `int(size)`, replacing any earlier value |
| Extraction.FoldFailsAtFirstFailure | perf/fit.py:140-158 | The run fails exactly when some record fails, and then with the first failing record's error |
| Extraction.FoldKeys | perf/fit.py:141-156 | An operation appears exactly when some record was stored under it; skipped records add no entry |
| Extraction.LastWriteWins | perf/fit.py:156 | The time stored under an operation and size is that of the last such record (reference definition `LastStored`), not an average |
| Extraction.FoldSnoc | perf/fit.py:144-156 | One more record applies its outcome to the dictionary so far |
| Extraction.ArrivalOrder | perf/fit.py:156 | Storing appends a new size to its operation's sizes and leaves an existing size's order alone: sizes are in arrival order, not sorted |
| Segments.PredictAtOutcomes | perf/fit.py:45-60 | `predict` over the stored tables raises `IndexError` exactly on empty tables, `Invalid size` exactly when an in-between query lies in no range, and otherwise returns the value of one stored line |
| Segments.PredictNeedsTwoSamples | perf/fit.py:38-49 | `PolyInterpolation(xs, ys).predict` raises `IndexError` exactly when there are fewer than two samples |
| Segments.FirstCoveringAscending | perf/fit.py:56-58 | With ascending sizes a query in segment i's range is found at segment i, or at i - 1 when it is their shared endpoint |
| Segments.Through | perf/fit.py:39-41 | The two-point line passes through both points |
| Segments.ThroughUnique | perf/fit.py:41 | It is the only line through those points |
| Segments.Lines | perf/fit.py:37-42 | k samples give k-1 lines, and line i passes through samples i and i+1 |
| Segments.Ranges | perf/fit.py:38-43 | k-1 ranges from the first size to the last, each ending where the next starts; with ascending sizes they ascend without overlap |
| Segments.FirstCovering | perf/fit.py:56-58 | The scan's answer is the first range containing n, or no range contains n |
| Segments.FirstCoveringAt | perf/fit.py:56-58 | A scan that stops at the first range containing n finds that index |
| Segments.SomePairBrackets | perf/fit.py:48-60 | Between the first and last size some adjacent pair brackets n, in any order of sizes |
| Segments.PredictTotal | perf/fit.py:45-60 | With two or more samples `predict` never raises, sorted or not |
| Segments.PredictAtTotal | perf/fit.py:48-60 | `predict` over non-empty tables succeeds when every in-between query is covered |
| Segments.PredictExtrapolates | perf/fit.py:48-53 | Below the first size the first line answers; above the last size the last line answers |
| Segments.PredictInSegment | perf/fit.py:55-58 | With ascending sizes, a query in segment i's range is answered by line i, so two neighbours agree at their shared endpoint |
| Segments.PredictInterpolates | perf/fit.py:45-58 | With ascending sizes, `predict(xs[i]) == ys[i]` for every sample |
| Segments.UnsortedSizesMissTheirData | perf/fit.py:49-50 | With sizes [2, 3, 1], `predict(1)` extrapolates from the first segment and misses the sample's time |
| Segments.RisingLine | perf/fit.py:41 | A line that does not fall between two ascending points has non-negative slope |
| Segments.EvalMonotone | perf/fit.py:41 | A line of non-negative slope never decreases |
| Segments.PredictSegment | perf/fit.py:45-58 | With ascending sizes, the segment that answers n, with n inside it unless it extrapolates |
| Segments.PredictMonotone | perf/fit.py:45-60 | With ascending sizes and non-decreasing times, `predict` never decreases in n, extrapolation included |
| Interpolation.PolyInterpolation.constructor | perf/fit.py:30-43 | The loop stores the samples and exactly the lines and ranges of the adjacent pairs, in order |
| Interpolation.PolyInterpolation.Predict | perf/fit.py:45-60 | The method computes `Segments.Predict`; it never fails with two or more samples; with ascending sizes it returns each sample's time at its size |
| Interpolation.PolyInterpolation.Scan | perf/fit.py:55-60 | The loop returns the line of the first range containing n, or `Invalid size` |
| Interpolation.PredictFacts | perf/fit.py:45-60 | The facts `predict` promises, stated on `Segments.Predict` |
| Interpolation.PolyInterpolation.ToJavascript | perf/fit.py:75-95 | Exports the tables; with ascending sizes the exported function computes `predict` for every argument |
| JsExport.JsBranch | perf/fit.py:82-93 | The emitted branch picks a valid index, and throws exactly when the table is empty or an in-between query is in no range |
| JsExport.JsEval | perf/fit.py:82-93 | Calling the exported function: `n * x` never throws; the piecewise body throws exactly when its branch logic does, and otherwise returns the value of one embedded line |
| JsExport.BasicOperationToJs | perf/fit.py:133-138 | The exported function returns `n * x` for every n |
| JsExport.ExportAgreesWithPredict | perf/fit.py:28 | With ascending sizes the exported piecewise function returns `predict(n)`, although it tests ranges before the extrapolation branches |
| JsExport.ExportAgreesEverywhere | perf/fit.py:75-95 | The same for every n at once |
| JsExport.ExportDisagreesOnUnsortedSizes | perf/fit.py:82-92 | With sizes [2, 1, 3], at 1.5 `predict` gives 5 and the export gives 7.5 |
| JsExport.RangesWithinSizes | perf/fit.py:43 | With ascending sizes every range lies between the first and last size |
| JsExport.Coefficients | perf/fit.py:80 | `poly1d.coeffs` ends with the intercept, has two entries exactly when the slope is non-zero, and then leads with the slope |
| JsExport.JsEvalAsWritten | perf/fit.py:80-93 | The body over the embedded `coeffs` lists throws exactly when the corrected export throws, and any number it returns is the corrected export's value |
| JsExport.AsWrittenNaNOnFlatSegments | perf/fit.py:80-85 | The export as written gives NaN exactly on a flat chosen segment, and otherwise the corrected export's value |
| JsExport.FlatSegmentExportsNaN | perf/fit.py:80-85 | Samples (1, 5) and (2, 5): `predict(1.5)` is 5 but the export as written gives NaN |
| Convert.Truncate | perf/fit.py:125 | `int(t)` truncates toward zero: the result is within 1 of t, on t's side of zero |
| Convert.UniqueSizesAdjacentDistinct | perf/fit.py:120 | Dict keys are distinct, so every adjacent pair of sizes can have a line |
| Convert.ExportSpec | perf/fit.py:116-131 | The exported function is always evaluable |
| Convert.ConvertMeasurement | perf/fit.py:116-131 | One sample exports `n * int(t)` whatever its size; more samples export the interpolation, which computes `predict` everywhere when the sizes arrived ascending |
| Convert.WorkedExample | perf/fit.py:116-131 | Sizes 2, 4, 8 with 10, 30, 70 ns: `predict(6)` and the exported function both give 50 |
| Convert.ConvertAll | perf/fit.py:168-170 | The loop exports exactly one function per extracted operation, each the one for its samples |
| Convert.ConvertBenchmark | perf/fit.py:160-170 | Fails exactly when extraction fails, with the same error; otherwise one exported function per extracted operation |

## Left out

- `PolyInterpolation.plot` (perf/fit.py:62-73). It is a matplotlib debug plot.
- Reading JSON from stdin, `json.dumps`, writing the results, and the stderr
  diagnostic with its `2**28` example (perf/fit.py:126, 172-182). These are
  I/O. Records are a parameter and the result is a value.
- The JSON types of a record. `estimate` is a number and `unit`/`id` are
  strings. A `mean` without an `estimate` or `unit` key is not modelled.
- IEEE floating point. Times, factors, slopes and intercepts are exact
  reals, so `1e3` is exactly 1000 and the two-point line is exact.
- scipy's `lagrange` and numpy's `poly1d` internals. The two-point line is
  written out. The one observable numpy behaviour, trimming a zero leading
  coefficient, is modelled under Findings.
- The JavaScript text of the f-strings and Python's `str()` of the tables.
  The export is an IR evaluated by `JsExport.JsEval`, which follows the
  emitted control flow.
- The order of keys in the output object. Operations are a Dafny `map`,
  and nothing downstream depends on their order.
- The unused `numpy.polynomial` import. There is no least-squares fitter in
  this code.
- Descriptor.ParseInt: does not accept what Python's `int` additionally
  accepts, because benchmark sizes are plain decimal numbers. That is
  surrounding whitespace, `_` digit separators and non-ASCII digits.
- Convert.ConvertAll: iterates over the keys in an arbitrary order rather than
  the dict's insertion order, because the result is a map.

## Findings

| source | as written | input that shows it | evidently intended | confidence | as-written member | corrected member |
|---|---|---|---|---|---|---|
| perf/fit.py:80-85 | The coefficient table is `poly1d.coeffs`, and numpy trims a zero leading coefficient. A flat segment (equal times) therefore embeds one coefficient, `polynomials[i][1]` is `undefined` and the function returns NaN | samples {1: 5, 2: 5}, n = 1.5: `predict` gives 5, the export gives NaN | Every segment embeds `[slope, intercept]`, and the export computes `predict` | not executed | JsExport.FlatSegmentExportsNaN | JsExport.ExportAgreesWithPredict |
