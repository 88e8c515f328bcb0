/** The measurement extractor of perf/fit.py (`extract_measurements`): one
    pass over the benchmark records that files each kept record's time, in
    nanoseconds, under its operation and integer size. */
module Extraction {
  import opened Wrappers
  import opened Descriptor
  import opened Units
  import opened SampleSets

  /** The `mean` object of a benchmark record. */
  datatype Mean = Mean(estimate: real, unit: string)

  /** One parsed line of the benchmark output: `id` is absent on the lines
      that are not benchmark results; `mean` may be absent too. */
  datatype Record = Record(id: Option<string>, mean: Option<Mean>)

  /** The exceptions that escape the extractor and end the whole run. */
  datatype ExtractError =
    | DescriptorTooShort(id: string)   // IndexError in the classifier
    | MissingMean                      // KeyError on record["mean"]
    | BadUnit(unit: string)            // KeyError in the unit table
    | SizeNotInteger(text: string)     // ValueError from int(size)

  /** operation -> {size -> nanoseconds} */
  type Measurements = map<string, SampleSet>

  /** What one record does to the dictionary: nothing, abort the run, or
      store `time` under `[operation][size]`. */
  datatype Outcome = Skip | Fail(error: ExtractError) | Store(operation: string, size: int, time: real)

  /** `int(size)` on the classifier's size: the literal 1, or a parsed token. */
  function SizeValue(size: SizeToken): (r: Result<int, ParseError>)
    ensures size.One? ==> r == Ok(1)
    ensures size.Token? ==> (r.Ok? <==> IsIntegerLiteral(size.text))
    ensures size.Token? && r.Err? ==> r.error == NotAnInteger(size.text)
  {
    match size
    case One => Ok(1)
    case Token(text) => ParseInt(text)
  }

  /** The outcome of one iteration of the extraction loop, in the order the
      source evaluates its steps: the `id` check, the classifier, the unit
      conversion, then `int(size)`. */
  function RecordOutcome(rec: Record): (o: Outcome)
    ensures o == Skip <==> rec.id.None? || Classify(rec.id.value) == Err(NoNeedForFitting)
    ensures (o.Fail? && o.error.DescriptorTooShort?) <==> rec.id.Some? && Classify(rec.id.value) == Err(TooFewTokens)
    ensures o.Fail? && o.error.DescriptorTooShort? ==> o.error.id == rec.id.value
    ensures o == Fail(MissingMean) <==> rec.id.Some? && Classify(rec.id.value).Ok? && rec.mean.None?
    ensures (o.Fail? && o.error.BadUnit?) <==>
      && rec.id.Some? && Classify(rec.id.value).Ok? && rec.mean.Some?
      && ToNanoseconds(rec.mean.value.estimate, rec.mean.value.unit).Err?
    ensures o.Fail? && o.error.BadUnit? ==> rec.mean.Some? && o.error.unit == rec.mean.value.unit
    ensures (o.Fail? && o.error.SizeNotInteger?) <==>
      && rec.id.Some? && Classify(rec.id.value).Ok? && rec.mean.Some?
      && ToNanoseconds(rec.mean.value.estimate, rec.mean.value.unit).Ok?
      && SizeValue(Classify(rec.id.value).value.size).Err?
    ensures o.Fail? && o.error.SizeNotInteger? ==>
      && rec.id.Some? && Classify(rec.id.value).Ok? && Classify(rec.id.value).value.size.Token?
      && o.error.text == Classify(rec.id.value).value.size.text
    ensures o.Store? ==> (
      && rec.id.Some? && rec.mean.Some?
      && Classify(rec.id.value).Ok? && Classify(rec.id.value).value.operation == o.operation
      && SizeValue(Classify(rec.id.value).value.size) == Ok(o.size)
      && ToNanoseconds(rec.mean.value.estimate, rec.mean.value.unit) == Ok(o.time))
  {
    if rec.id.None? then Skip
    else match Classify(rec.id.value)
      case Err(NoNeedForFitting) => Skip
      case Err(TooFewTokens) => Fail(DescriptorTooShort(rec.id.value))
      case Ok(c) =>
        if rec.mean.None? then Fail(MissingMean)
        else match ToNanoseconds(rec.mean.value.estimate, rec.mean.value.unit)
          case Err(_) => Fail(BadUnit(rec.mean.value.unit))
          case Ok(t) =>
            match SizeValue(c.size)
            case Err(_) => Fail(SizeNotInteger(c.size.text))
            case Ok(n) => Store(c.operation, n, t)
  }

  /** `measurements[operation][size] = time` on a `defaultdict(dict)`. */
  function Insert(m: Measurements, operation: string, size: int, time: real): (m': Measurements)
    ensures m'.Keys == m.Keys + {operation}
    ensures forall op :: op in m && op != operation ==> m'[op] == m[op]
    ensures Get(m'[operation], size) == Some(time)
    ensures forall k :: k != size ==>
      Get(m'[operation], k) == if operation in m then Get(m[operation], k) else None
  {
    m[operation := Put(if operation in m then m[operation] else [], size, time)]
  }

  /** Every operation present has at least one sample and no repeated size. */
  predicate WellFormed(m: Measurements)
  {
    forall op :: op in m ==> |m[op]| > 0 && UniqueSizes(m[op])
  }

  /** The dictionary after applying one record's outcome. */
  function Apply(m: Measurements, o: Outcome): Result<Measurements, ExtractError>
  {
    match o
    case Skip => Ok(m)
    case Fail(e) => Err(e)
    case Store(op, size, time) => Ok(Insert(m, op, size, time))
  }

  /** The outcomes of a run's records, in order. */
  function Outcomes(records: seq<Record>): (os: seq<Outcome>)
    ensures |os| == |records| && forall i :: 0 <= i < |records| ==> os[i] == RecordOutcome(records[i])
  {
    seq(|records|, i requires 0 <= i < |records| => RecordOutcome(records[i]))
  }

  /** The extraction loop as a left fold over the records' outcomes; the
      first failure ends it. */
  function Fold(os: seq<Outcome>): (r: Result<Measurements, ExtractError>)
    ensures r.Ok? ==> WellFormed(r.value)
  {
    if |os| == 0 then Ok(map[])
    else match Fold(os[..|os| - 1])
      case Err(e) => Err(e)
      case Ok(m) =>
        ApplyKeepsWellFormed(m, os[|os| - 1]);
        Apply(m, os[|os| - 1])
  }

  lemma ApplyKeepsWellFormed(m: Measurements, o: Outcome)
    requires WellFormed(m)
    ensures Apply(m, o).Ok? ==> WellFormed(Apply(m, o).value)
  {
    if o.Store? {
      var s := Put(if o.operation in m then m[o.operation] else [], o.size, o.time);
      assert |Sizes(s)| > 0;
    }
  }

  /** What `extract_measurements(records)` returns or raises. */
  function Extract(records: seq<Record>): (r: Result<Measurements, ExtractError>)
    ensures r.Ok? ==> WellFormed(r.value)
    ensures r.Err? ==> exists i :: 0 <= i < |records| && RecordOutcome(records[i]) == Fail(r.error)
  {
    FoldFailsAtFirstFailure(Outcomes(records));
    Fold(Outcomes(records))
  }

  /** `extract_measurements(bench_output)`. */
  method ExtractMeasurements(records: seq<Record>) returns (r: Result<Measurements, ExtractError>)
    ensures r == Extract(records)
    ensures r.Ok? ==> WellFormed(r.value)
  {
    var measurements: Measurements := map[];
    for i := 0 to |records|
      invariant Extract(records[..i]) == Ok(measurements)
    {
      var rec := records[i];
      ExtractStep(records, i, measurements);
      if rec.id.None? {
        assert RecordOutcome(rec) == Skip;
        continue;
      }
      var c := Classify(rec.id.value);
      if c.Err? {
        if c.error == NoNeedForFitting {
          assert RecordOutcome(rec) == Skip;
          continue;
        }
        r := Err(DescriptorTooShort(rec.id.value));
        ErrorSticks(records, i + 1);
        return;
      }
      if rec.mean.None? {
        r := Err(MissingMean);
        ErrorSticks(records, i + 1);
        return;
      }
      var t := ToNanoseconds(rec.mean.value.estimate, rec.mean.value.unit);
      if t.Err? {
        r := Err(BadUnit(rec.mean.value.unit));
        ErrorSticks(records, i + 1);
        return;
      }
      var size := SizeValue(c.value.size);
      if size.Err? {
        r := Err(SizeNotInteger(c.value.size.text));
        ErrorSticks(records, i + 1);
        return;
      }
      var op := c.value.operation;
      assert RecordOutcome(rec) == Store(op, size.value, t.value);
      var samples := if op in measurements then measurements[op] else [];
      measurements := measurements[op := Put(samples, size.value, t.value)];
    }
    assert records[..|records|] == records;
    r := Ok(measurements);
  }

  /** One more record: the fold applies that record's outcome. */
  lemma ExtractStep(records: seq<Record>, i: nat, m: Measurements)
    requires i < |records| && Extract(records[..i]) == Ok(m)
    ensures Extract(records[..i + 1]) == Apply(m, RecordOutcome(records[i]))
  {
    var os := Outcomes(records[..i + 1]);
    assert os[..i] == Outcomes(records[..i]);
  }

  /** The first exception aborts the run: once a prefix fails, the whole
      fold fails with the same error. */
  lemma {:induction false} ErrorSticks(records: seq<Record>, k: nat)
    requires k <= |records| && Extract(records[..k]).Err?
    ensures Extract(records) == Extract(records[..k])
    decreases |records| - k
  {
    if k < |records| {
      var os := Outcomes(records[..k + 1]);
      assert os[..k] == Outcomes(records[..k]);
      ErrorSticks(records, k + 1);
    } else {
      assert records[..k] == records;
    }
  }

  /** A record without `id`, or whose descriptor the classifier rejects as a
      miss, leaves the dictionary exactly as it was. */
  lemma SkippedRecordChangesNothing(records: seq<Record>, rec: Record)
    requires rec.id.None? || Classify(rec.id.value) == Err(NoNeedForFitting)
    ensures Extract(records + [rec]) == Extract(records)
  {
    var os := Outcomes(records + [rec]);
    assert os[..|records|] == Outcomes(records);
  }

  /** A kept record stores its time, in nanoseconds, under its operation and
      integer size, whatever was stored there before. */
  lemma KeptRecordStored(records: seq<Record>, rec: Record, c: Classified, t: real, n: int)
    requires Extract(records).Ok?
    requires rec.id.Some? && Classify(rec.id.value) == Ok(c)
    requires rec.mean.Some? && ToNanoseconds(rec.mean.value.estimate, rec.mean.value.unit) == Ok(t)
    requires SizeValue(c.size) == Ok(n)
    ensures Extract(records + [rec]).Ok?
    ensures c.operation in Extract(records + [rec]).value
    ensures Get(Extract(records + [rec]).value[c.operation], n) == Some(t)
  {
    assert RecordOutcome(rec) == Store(c.operation, n, t);
    OutcomesSnoc(records, rec);
    FoldSnoc(Outcomes(records), Store(c.operation, n, t));
  }

  /** One more record adds its outcome at the end. */
  lemma OutcomesSnoc(records: seq<Record>, rec: Record)
    ensures Outcomes(records + [rec]) == Outcomes(records) + [RecordOutcome(rec)]
  {
  }

  /** The run fails exactly when some record fails, and then with the error of
      the first failing record. */
  lemma {:induction false} FoldFailsAtFirstFailure(os: seq<Outcome>)
    ensures Fold(os).Ok? <==> forall i :: 0 <= i < |os| ==> !os[i].Fail?
    ensures Fold(os).Err? ==>
      exists i :: 0 <= i < |os| && os[i] == Fail(Fold(os).error)
        && forall j :: 0 <= j < i ==> !os[j].Fail?
  {
    if |os| > 0 {
      var prefix, last := os[..|os| - 1], os[|os| - 1];
      FoldFailsAtFirstFailure(prefix);
      assert forall i :: 0 <= i < |prefix| ==> prefix[i] == os[i];
      if Fold(prefix).Err? {
        var i :| 0 <= i < |prefix| && prefix[i] == Fail(Fold(prefix).error)
          && forall j :: 0 <= j < i ==> !prefix[j].Fail?;
        assert os[i] == Fail(Fold(os).error);
      } else if last.Fail? {
        assert os[|os| - 1] == Fail(Fold(os).error);
      } else {
        assert Fold(os).Ok?;
      }
    }
  }

  /** An operation has an entry exactly when some record was stored under it. */
  lemma {:induction false} FoldKeys(os: seq<Outcome>, op: string)
    requires Fold(os).Ok?
    ensures op in Fold(os).value <==> exists i :: 0 <= i < |os| && os[i].Store? && os[i].operation == op
  {
    if |os| > 0 {
      var prefix := os[..|os| - 1];
      FoldKeys(prefix, op);
      assert forall i :: 0 <= i < |prefix| ==> prefix[i] == os[i];
    }
  }

  /** Reference definition of last-write-wins: the time of the LAST outcome
      stored under this operation and size, scanning from the end. */
  function LastStored(os: seq<Outcome>, op: string, size: int): Option<real>
  {
    if |os| == 0 then None
    else match os[|os| - 1]
      case Store(o, n, t) =>
        if o == op && n == size then Some(t) else LastStored(os[..|os| - 1], op, size)
      case _ => LastStored(os[..|os| - 1], op, size)
  }

  /** The stored time under [op][size] is that of the last record with that
      operation and size: a later record overwrites, no averaging. */
  lemma {:induction false} LastWriteWins(os: seq<Outcome>, op: string, size: int)
    requires Fold(os).Ok?
    ensures var m := Fold(os).value;
      (if op in m then Get(m[op], size) else None) == LastStored(os, op, size)
  {
    if |os| > 0 {
      LastWriteWins(os[..|os| - 1], op, size);
    }
  }

  /** Folding one more outcome applies it to the dictionary so far. */
  lemma FoldSnoc(os: seq<Outcome>, o: Outcome)
    requires Fold(os).Ok?
    ensures Fold(os + [o]) == Apply(Fold(os).value, o)
  {
    assert (os + [o])[..|os|] == os;
  }

  /** Sizes are kept in arrival order, not sorted: storing a record appends
      its size to its operation's sizes, unless that size is already there,
      in which case the sizes keep their order. */
  lemma ArrivalOrder(os: seq<Outcome>, op: string, size: int, time: real)
    requires Fold(os).Ok?
    ensures var before := if op in Fold(os).value then Sizes(Fold(os).value[op]) else [];
      && Fold(os + [Store(op, size, time)]).Ok?
      && op in Fold(os + [Store(op, size, time)]).value
      && Sizes(Fold(os + [Store(op, size, time)]).value[op])
         == if size in before then before else before + [size]
  {
    FoldSnoc(os, Store(op, size, time));
  }
}
