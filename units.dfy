/** The unit normaliser of perf/fit.py: a time measured in one of four
    units is converted to nanoseconds through a fixed factor table. */
module Units {
  import opened Wrappers

  /** The unit string is not a key of the factor table (a Python `KeyError`). */
  datatype UnitError = UnknownUnit(unit: string)

  /** The factor table: nanoseconds per unit. */
  function Factor(unit: string): (f: Option<real>)
    ensures f.Some? <==> unit in {"ns", "µs", "ms", "s"}
    ensures f.Some? ==> f.value > 0.0
  {
    if unit == "ns" then Some(1.0)
    else if unit == "µs" then Some(1000.0)
    else if unit == "ms" then Some(1000000.0)
    else if unit == "s" then Some(1000000000.0)
    else None
  }

  /** `to_nanoseconds(num, unit_str)`: the value times the unit's factor,
      or an error for a unit outside the table. */
  function ToNanoseconds(num: real, unit: string): (r: Result<real, UnitError>)
    ensures r.Err? <==> unit !in {"ns", "µs", "ms", "s"}
    ensures r.Err? ==> r.error == UnknownUnit(unit)
    ensures unit == "ns" ==> r == Ok(num)
  {
    match Factor(unit)
    case None => Err(UnknownUnit(unit))
    case Some(f) => Ok(num * f)
  }

  /** Each unit of the table is a thousand of the next smaller one, so one
      duration written in two adjacent units normalises to one value. */
  lemma ThousandfoldChain(x: real)
    ensures ToNanoseconds(x, "µs") == ToNanoseconds(1000.0 * x, "ns")
    ensures ToNanoseconds(x, "ms") == ToNanoseconds(1000.0 * x, "µs")
    ensures ToNanoseconds(x, "s") == ToNanoseconds(1000.0 * x, "ms")
  {
    assert Factor("ns") == Some(1.0) && Factor("µs") == Some(1000.0);
    assert Factor("ms") == Some(1000000.0) && Factor("s") == Some(1000000000.0);
    assert (1000.0 * x) * 1000.0 == x * 1000000.0;
    assert (1000.0 * x) * 1000000.0 == x * 1000000000.0;
  }

  /** Normalising is linear: it commutes with adding two durations given in
      the same unit, and it never reverses their order. */
  lemma NormaliseLinearMonotone(a: real, b: real, unit: string)
    requires ToNanoseconds(a, unit).Ok?
    ensures ToNanoseconds(a + b, unit).Ok? && ToNanoseconds(b, unit).Ok?
    ensures ToNanoseconds(a + b, unit).value
         == ToNanoseconds(a, unit).value + ToNanoseconds(b, unit).value
    ensures a <= b ==> ToNanoseconds(a, unit).value <= ToNanoseconds(b, unit).value
  {
    var f := Factor(unit).value;
    assert (a + b) * f == a * f + b * f;
    if a <= b {
      assert b * f - a * f == (b - a) * f;
    }
  }
}
