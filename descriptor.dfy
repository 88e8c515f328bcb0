/** The descriptor classifier of perf/fit.py (`parse_benchmark_description`)
    and the two string operations it relies on: Python's `str.split("/")`
    and `int(...)` of the size token. */
module Descriptor {
  import opened Wrappers

  // ---------------------------------------------------------------------------
  // str.split with a one-character separator

  /** Python's `s.split(sep)`: the maximal separator-free pieces, in order,
      empty pieces included ("a//b" gives three pieces, "" gives one). */
  function Split(s: string, sep: char): (parts: seq<string>)
    ensures |parts| >= 1
    ensures forall i :: 0 <= i < |parts| ==> sep !in parts[i]
    ensures Join(parts, sep) == s
    decreases |s|
  {
    if |s| == 0 then [""]
    else
      var rest := Split(s[1..], sep);
      if s[0] == sep then [""] + rest
      else [[s[0]] + rest[0]] + rest[1..]
  }

  /** `sep.join(parts)`: the inverse of Split. */
  function Join(parts: seq<string>, sep: char): string
    requires |parts| >= 1
  {
    if |parts| == 1 then parts[0] else parts[0] + [sep] + Join(parts[1..], sep)
  }

  /** Splitting a joined list of separator-free pieces gives the pieces back. */
  lemma {:induction false} SplitJoin(parts: seq<string>, sep: char)
    requires |parts| >= 1
    requires forall i :: 0 <= i < |parts| ==> sep !in parts[i]
    ensures Split(Join(parts, sep), sep) == parts
    decreases |Join(parts, sep)|
  {
    var s := Join(parts, sep);
    if |parts| == 1 {
      if |parts[0]| > 0 {
        var w := parts[0][1..];
        assert s[1..] == Join([w], sep);
        SplitJoin([w], sep);
        assert parts[0] == [parts[0][0]] + w;
      }
    } else if |parts[0]| == 0 {
      assert s == [sep] + Join(parts[1..], sep);
      assert s[1..] == Join(parts[1..], sep);
      SplitJoin(parts[1..], sep);
      assert [""] + parts[1..] == parts;
    } else {
      var w := parts[0][1..];
      var tail := [w] + parts[1..];
      assert tail[1..] == parts[1..];
      assert forall i :: 0 <= i < |tail| ==> sep !in tail[i] by {
        forall i | 0 <= i < |tail| ensures sep !in tail[i] {
          if i == 0 { assert forall c :: c in w ==> c in parts[0]; } else { assert tail[i] == parts[i]; }
        }
      }
      assert Join(tail, sep) == w + [sep] + Join(parts[1..], sep);
      assert s == [parts[0][0]] + Join(tail, sep);
      assert s[1..] == Join(tail, sep);
      SplitJoin(tail, sep);
      assert parts[0][0] != sep by { assert parts[0][0] in parts[0]; }
      assert parts[0] == [parts[0][0]] + w;
      assert parts == [parts[0]] + parts[1..];
    }
  }

  /** A separator-free prefix followed by the separator is the first piece. */
  lemma {:induction false} SplitAt(w: string, sep: char, t: string)
    requires sep !in w
    ensures Split(w + [sep] + t, sep) == [w] + Split(t, sep)
  {
    if |w| == 0 {
      assert w + [sep] + t == [sep] + t;
      assert ([sep] + t)[1..] == t;
    } else {
      assert (w + [sep] + t)[1..] == w[1..] + [sep] + t;
      assert sep !in w[1..] by { assert forall c :: c in w[1..] ==> c in w; }
      SplitAt(w[1..], sep, t);
      assert w == [w[0]] + w[1..];
    }
  }

  /** A separator-free string is a single piece. */
  lemma {:induction false} SplitNone(t: string, sep: char)
    requires sep !in t
    ensures Split(t, sep) == [t]
  {
    if |t| > 0 {
      assert sep !in t[1..] by { assert forall c :: c in t[1..] ==> c in t; }
      SplitNone(t[1..], sep);
      assert t == [t[0]] + t[1..];
    }
  }

  // ---------------------------------------------------------------------------
  // int(...) of a decimal size token

  predicate IsDigit(c: char) { '0' <= c <= '9' }

  predicate AllDigits(s: string) { forall i :: 0 <= i < |s| ==> IsDigit(s[i]) }

  function DigitValue(c: char): nat
    requires IsDigit(c)
  {
    (c as int) - ('0' as int)
  }

  /** The value of a string of decimal digits, most significant first. */
  function DigitsValue(s: string): nat
    requires AllDigits(s)
  {
    if |s| == 0 then 0 else DigitsValue(s[..|s| - 1]) * 10 + DigitValue(s[|s| - 1])
  }

  /** The integer literals `int(...)` accepts here: an optional sign and at
      least one decimal digit. */
  predicate IsIntegerLiteral(s: string)
  {
    if |s| > 0 && (s[0] == '-' || s[0] == '+') then |s| > 1 && AllDigits(s[1..])
    else |s| > 0 && AllDigits(s)
  }

  /** `int(...)` would raise `ValueError` on this text. */
  datatype ParseError = NotAnInteger(text: string)

  /** Python's `int(s)` on a size token. */
  function ParseInt(s: string): (r: Result<int, ParseError>)
    ensures r.Ok? <==> IsIntegerLiteral(s)
    ensures r.Err? ==> r.error == NotAnInteger(s)
    ensures r.Ok? && r.value < 0 ==> s[0] == '-'
  {
    if !IsIntegerLiteral(s) then Err(NotAnInteger(s))
    else if s[0] == '-' then Ok(-(DigitsValue(s[1..]) as int))
    else if s[0] == '+' then Ok(DigitsValue(s[1..]))
    else Ok(DigitsValue(s))
  }

  function DigitChar(d: nat): (c: char)
    requires d < 10
    ensures IsDigit(c) && DigitValue(c) == d
  {
    ('0' as int + d) as char
  }

  /** The decimal text of a natural number, as the benchmark harness writes
      a size into a benchmark id. */
  function NatDecimal(n: nat): (s: string)
    ensures |s| > 0 && AllDigits(s)
  {
    if n < 10 then [DigitChar(n)] else NatDecimal(n / 10) + [DigitChar(n % 10)]
  }

  /** The decimal text of an integer, with a leading '-' for a negative one. */
  function Decimal(n: int): string
  {
    if n < 0 then "-" + NatDecimal(-n) else NatDecimal(n)
  }

  lemma {:induction false} NatDecimalValue(n: nat)
    ensures DigitsValue(NatDecimal(n)) == n
  {
    if n >= 10 {
      var s := NatDecimal(n);
      assert s[..|s| - 1] == NatDecimal(n / 10);
      NatDecimalValue(n / 10);
    }
  }

  /** `int` reads back every integer a size is written as. */
  lemma ParseDecimalRoundTrip(n: int)
    ensures ParseInt(Decimal(n)) == Ok(n)
  {
    NatDecimalValue(if n < 0 then -n else n);
    if n < 0 {
      assert Decimal(n)[1..] == NatDecimal(-n);
    }
  }

  // ---------------------------------------------------------------------------
  // The classifier

  /** The second half of the classifier's pair: the size token taken from the
      descriptor (still a string), or the integer 1 for single-shot operations. */
  datatype SizeToken = Token(text: string) | One

  datatype Classified = Classified(operation: string, size: SizeToken)

  /** `NoNeedForFitting` is the expected miss that the extractor catches;
      `TooFewTokens` is the `IndexError` that "msm", "msm/G1" or
      "pairing_product" raise, which nothing catches. */
  datatype ClassifyError = NoNeedForFitting | TooFewTokens

  /** The operations measured once and scaled linearly. */
  const SingleShot: set<string> := {"mul_ff", "mul_ec", "add_ff", "add_ec", "invert", "pairing"}

  /** `parse_benchmark_description` on the already split descriptor: the
      first token selects the rule, tried in the order msm, pairing_product,
      single-shot. */
  function ClassifyTokens(tokens: seq<string>): (r: Result<Classified, ClassifyError>)
    requires |tokens| >= 1
    ensures r == Err(NoNeedForFitting) <==> tokens[0] !in SingleShot + {"msm", "pairing_product"}
    ensures r.Ok? ==> (r.value.size.Token? <==> tokens[0] !in SingleShot)
    ensures r.Ok? && r.value.size.Token? ==> r.value.size.text in tokens[1..]
  {
    if tokens[0] == "msm" then
      if |tokens| < 3 then Err(TooFewTokens)
      else Ok(Classified(tokens[0] + "_" + tokens[1], Token(tokens[2])))
    else if tokens[0] == "pairing_product" then
      if |tokens| < 2 then Err(TooFewTokens)
      else Ok(Classified(tokens[0], Token(tokens[1])))
    else if tokens[0] in SingleShot then
      Ok(Classified(tokens[0], One))
    else
      Err(NoNeedForFitting)
  }

  /** `parse_benchmark_description(description)`. */
  function Classify(description: string): (r: Result<Classified, ClassifyError>)
    ensures r.Ok? && r.value.size.Token? ==> '/' !in r.value.size.text
  {
    ClassifyTokens(Split(description, '/'))
  }

  /** "msm/V/S" is the operation "msm_V" at size token S, whatever follows
      a further '/'. */
  lemma ClassifyMsm(variant: string, size: string, rest: string)
    requires '/' !in variant && '/' !in size
    ensures Classify("msm/" + variant + "/" + size)
         == Ok(Classified("msm_" + variant, Token(size)))
    ensures Classify("msm/" + variant + "/" + size + "/" + rest)
         == Ok(Classified("msm_" + variant, Token(size)))
  {
    assert "msm" + "_" == "msm_";
    assert "msm/" + variant + "/" + size == "msm" + ['/'] + (variant + ['/'] + size);
    SplitAt("msm", '/', variant + ['/'] + size);
    SplitAt(variant, '/', size);
    SplitNone(size, '/');
    var d := "msm/" + variant + "/" + size + "/" + rest;
    assert d == "msm" + ['/'] + (variant + ['/'] + (size + ['/'] + rest));
    SplitAt("msm", '/', variant + ['/'] + (size + ['/'] + rest));
    SplitAt(variant, '/', size + ['/'] + rest);
    SplitAt(size, '/', rest);
  }

  /** "pairing_product/S" is the operation "pairing_product" at size token S,
      whatever follows a further '/'. */
  lemma ClassifyPairingProduct(size: string, rest: string)
    requires '/' !in size
    ensures Classify("pairing_product/" + size) == Ok(Classified("pairing_product", Token(size)))
    ensures Classify("pairing_product/" + size + "/" + rest)
         == Ok(Classified("pairing_product", Token(size)))
  {
    assert "pairing_product/" + size == "pairing_product" + ['/'] + size;
    SplitAt("pairing_product", '/', size);
    SplitNone(size, '/');
    assert "pairing_product/" + size + "/" + rest == "pairing_product" + ['/'] + (size + ['/'] + rest);
    SplitAt("pairing_product", '/', size + ['/'] + rest);
    SplitAt(size, '/', rest);
  }

  /** The single-shot names are plain tokens, distinct from the other two rules. */
  lemma SingleShotNames(name: string)
    requires name in SingleShot
    ensures '/' !in name && name != "msm" && name != "pairing_product"
  {
  }

  /** A single-shot name, alone or followed by '/' and anything, is that
      operation at the fixed size 1. */
  lemma ClassifySingleShot(name: string, rest: string)
    requires name in SingleShot
    ensures Classify(name) == Ok(Classified(name, One))
    ensures Classify(name + "/" + rest) == Ok(Classified(name, One))
  {
    SingleShotNames(name);
    SplitNone(name, '/');
    SplitAt(name, '/', rest);
  }

  /** Any first token outside the three rules is the expected miss. */
  lemma ClassifyMiss(head: string, rest: string)
    requires '/' !in head && head !in SingleShot + {"msm", "pairing_product"}
    ensures Classify(head) == Err(NoNeedForFitting)
    ensures Classify(head + "/" + rest) == Err(NoNeedForFitting)
  {
    SplitNone(head, '/');
    SplitAt(head, '/', rest);
  }

  /** "msm" with fewer than two further tokens is an `IndexError`, not a miss. */
  lemma ClassifyMsmTooShort(variant: string)
    requires '/' !in variant
    ensures Classify("msm") == Err(TooFewTokens)
    ensures Classify("msm/" + variant) == Err(TooFewTokens)
  {
    SplitNone("msm", '/');
    assert "msm/" + variant == "msm" + ['/'] + variant;
    SplitAt("msm", '/', variant);
    SplitNone(variant, '/');
  }

  /** "pairing_product" without a size token is an `IndexError`, not a miss. */
  lemma ClassifyPairingProductTooShort()
    ensures Classify("pairing_product") == Err(TooFewTokens)
  {
    SplitNone("pairing_product", '/');
  }

  /** The benchmark harness names a pairing-product measurement
      "pairing_product/pairing_product/<size>": its size token is the group
      name again, which `int` rejects. */
  lemma HarnessPairingProductId(size: nat)
    ensures var c := Classify("pairing_product/pairing_product/" + NatDecimal(size));
      c.Ok? && c.value.size == Token("pairing_product")
      && ParseInt(c.value.size.text).Err?
  {
    var d := NatDecimal(size);
    assert "pairing_product/pairing_product/" + d == "pairing_product/" + "pairing_product" + "/" + d;
    ClassifyPairingProduct("pairing_product", d);
    assert !IsIntegerLiteral("pairing_product") by { assert !IsDigit("pairing_product"[0]); }
  }
}
