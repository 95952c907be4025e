/** `parseFloat` for the decimal notation found in the planet data and in
    the numeric filter input. `None` stands for NaN. */
module Numbers {
  import opened Wrappers

  predicate IsDigit(ch: char) { '0' <= ch <= '9' }

  /** The white space `parseFloat` skips before the number (ASCII part). */
  predicate IsSpace(ch: char) { ch == ' ' || '\t' <= ch <= '\r' }

  predicate AllDigits(s: string) { forall i :: 0 <= i < |s| ==> IsDigit(s[i]) }

  function DigitValue(ch: char): (d: nat)
    requires IsDigit(ch)
    ensures d < 10
  {
    ch as int - '0' as int
  }

  function DigitChar(d: nat): (ch: char)
    requires d < 10
    ensures IsDigit(ch) && DigitValue(ch) == d
  {
    ('0' as int + d) as char
  }

  /** Length of the run of white space at the start of `s`. */
  function SpaceRun(s: string): (k: nat)
    ensures k <= |s|
    ensures forall i :: 0 <= i < k ==> IsSpace(s[i])
    ensures k == |s| || !IsSpace(s[k])
  {
    if s != [] && IsSpace(s[0]) then 1 + SpaceRun(s[1..]) else 0
  }

  /** Length of the run of digits at the start of `s`. */
  function DigitRun(s: string): (k: nat)
    ensures k <= |s|
    ensures AllDigits(s[..k])
    ensures k == |s| || !IsDigit(s[k])
  {
    if s != [] && IsDigit(s[0]) then 1 + DigitRun(s[1..]) else 0
  }

  /** The natural number a string of decimal digits denotes. */
  function DigitsValue(ds: string): nat
    requires AllDigits(ds)
  {
    if ds == [] then 0 else 10 * DigitsValue(ds[..|ds| - 1]) + DigitValue(ds[|ds| - 1])
  }

  /** 10 to the power `e`. */
  function Pow10(e: nat): (p: nat)
    ensures p >= 1
  {
    if e == 0 then 1 else 10 * Pow10(e - 1)
  }

  /** `x` with its decimal point moved `n` places to the right. */
  function Scale10(x: real, n: nat): (r: real)
    ensures x >= 0.0 ==> r >= 0.0
  {
    if n == 0 then x else 10.0 * Scale10(x, n - 1)
  }

  /** `x` with its decimal point moved `n` places to the left. */
  function Tenths(x: real, n: nat): (r: real)
    ensures x >= 0.0 ==> r >= 0.0
  {
    if n == 0 then x else Tenths(x, n - 1) / 10.0
  }

  /** `x` with its decimal point moved by the exponent `e`: to the right
      when `e` is positive, to the left when it is negative. */
  function ApplyExponent(x: real, e: int): (r: real)
    ensures x >= 0.0 ==> r >= 0.0
    ensures e == 0 ==> r == x
  {
    if e >= 0 then Scale10(x, e) else Tenths(x, -e)
  }

  /** The value of the digits after a decimal point. */
  function FractionValue(ds: string): (f: real)
    requires AllDigits(ds)
    ensures 0.0 <= f < 1.0
  {
    if ds == [] then 0.0 else (DigitValue(ds[0]) as real + FractionValue(ds[1..])) / 10.0
  }

  /** Text that cannot continue the digits of a number: it does not start
      with a digit or with the letter of an exponent part. */
  predicate EndsDigits(rest: string)
  {
    rest == [] || (!IsDigit(rest[0]) && rest[0] != 'e' && rest[0] != 'E')
  }

  /** The exponent part (`e5`, `E+5`, `e-5`) at the start of `s`, as the
      number of places it moves the decimal point. Without a digit after
      the letter and the optional sign there is no exponent part, and
      `parseFloat` ignores the text. */
  function Exponent(s: string): (e: int)
    ensures EndsDigits(s) ==> e == 0
  {
    if s == [] || (s[0] != 'e' && s[0] != 'E') then 0
    else if |s| > 1 && s[1] == '-' then -(LeadingValue(s[2..]) as int)
    else if |s| > 1 && s[1] == '+' then LeadingValue(s[2..])
    else LeadingValue(s[1..])
  }

  /** The value of the digits that start `s`; 0 when there are none. */
  function LeadingValue(s: string): nat
  {
    DigitsValue(s[..DigitRun(s)])
  }

  /** The number `ds.after` denotes, where `ds` are the digits before the
      point: the digits that start `after` are the fraction, and an exponent
      part may follow them. Without a digit on either side of the point
      there is no number. */
  function ParsePointed(ds: string, after: string): (r: Option<real>)
    requires AllDigits(ds)
    ensures r.Some? ==> r.value >= 0.0
    ensures r.Some? <==> ds != [] || (after != [] && IsDigit(after[0]))
  {
    var m := DigitRun(after);
    if ds == [] && m == 0 then None
    else Some(ApplyExponent(DigitsValue(ds) as real + FractionValue(after[..m]), Exponent(after[m..])))
  }

  /** The longest prefix of `s` of the form `digits`, `digits.digits`,
      `digits.` or `.digits`, followed by an optional exponent part, as a
      non-negative number. */
  function ParseUnsigned(s: string): (r: Option<real>)
    ensures r.Some? ==> r.value >= 0.0
    ensures r.Some? <==> s != [] && (IsDigit(s[0]) || (s[0] == '.' && |s| > 1 && IsDigit(s[1])))
  {
    var k := DigitRun(s);
    if k < |s| && s[k] == '.' then ParsePointed(s[..k], s[k + 1..])
    else if k == 0 then None
    else Some(ApplyExponent(DigitsValue(s[..k]) as real, Exponent(s[k..])))
  }

  /** `parseFloat(s)`: skip leading white space, read an optional sign and
      the longest decimal prefix; anything after it is ignored. */
  function ParseFloat(s: string): (r: Option<real>)
    ensures r.Some? ==> exists i :: 0 <= i < |s| && IsDigit(s[i])
  {
    var t := s[SpaceRun(s)..];
    if t != [] && t[0] == '-' then
      match ParseUnsigned(t[1..])
      case None => None
      case Some(x) => Some(-x)
    else if t != [] && t[0] == '+' then ParseUnsigned(t[1..])
    else ParseUnsigned(t)
  }

  /** The canonical decimal rendering of `n`, as the planet data stores
      numbers ("1000000"). */
  function Decimal(n: nat): (s: string)
    ensures s != [] && AllDigits(s)
    ensures s[0] == '0' ==> n == 0
    decreases n
  {
    if n < 10 then [DigitChar(n)] else Decimal(n / 10) + [DigitChar(n % 10)]
  }

  lemma {:induction false} DecimalValue(n: nat)
    ensures DigitsValue(Decimal(n)) == n
    decreases n
  {
    if n >= 10 {
      var s := Decimal(n);
      assert s[..|s| - 1] == Decimal(n / 10);
      DecimalValue(n / 10);
    }
  }

  lemma DigitRunOf(ds: string, rest: string)
    requires AllDigits(ds)
    requires rest == [] || !IsDigit(rest[0])
    ensures DigitRun(ds + rest) == |ds|
    ensures (ds + rest)[..|ds|] == ds && (ds + rest)[|ds|..] == rest
  {
    var s := ds + rest;
    assert forall i :: 0 <= i < |ds| ==> s[i] == ds[i];
    if |ds| < |s| { assert s[|ds|] == rest[0]; }
  }

  /** Moving the point to the left distributes over a sum. */
  lemma {:induction false} TenthsAdd(x: real, y: real, n: nat)
    ensures Tenths(x + y, n) == Tenths(x, n) + Tenths(y, n)
  {
    if n > 0 {
      TenthsAdd(x, y, n - 1);
    }
  }

  /** Moving the point to the left commutes with multiplying by 10. */
  lemma {:induction false} TenthsTimesTen(x: real, n: nat)
    ensures Tenths(10.0 * x, n) == 10.0 * Tenths(x, n)
  {
    if n > 0 {
      TenthsTimesTen(x, n - 1);
    }
  }

  /** Moving the point `n` places right and then `n` places left gives the
      number back. */
  lemma {:induction false} TenthsOfScale10(x: real, n: nat)
    ensures Tenths(Scale10(x, n), n) == x
  {
    if n > 0 {
      TenthsOfScale10(x, n - 1);
      TenthsTimesTen(Scale10(x, n - 1), n - 1);
    }
  }

  /** Moving the point `n` places to the right multiplies by `10^n`. */
  lemma {:induction false} Scale10IsProduct(x: real, n: nat)
    ensures Scale10(x, n) == x * Pow10(n) as real
  {
    if n > 0 {
      Scale10IsProduct(x, n - 1);
      var p := Pow10(n - 1) as real;
      assert Pow10(n) as real == 10.0 * p;
      TimesTen(x, p);
    }
  }

  lemma TimesTen(x: real, p: real)
    ensures x * (10.0 * p) == 10.0 * (x * p)
  {
  }

  /** Moving the point `n` places to the left divides by `10^n`. */
  lemma TenthsIsQuotient(x: real, n: nat)
    ensures Tenths(x, n) * Pow10(n) as real == x
  {
    TenthsOfScale10(Tenths(x, n), n);
    Scale10IsProduct(Tenths(x, n), n);
    Scale10OfTenths(x, n);
  }

  /** Moving the point `n` places left and then `n` places right gives the
      number back. */
  lemma {:induction false} Scale10OfTenths(x: real, n: nat)
    ensures Scale10(Tenths(x, n), n) == x
  {
    if n > 0 {
      var y := Tenths(x, n - 1);
      Scale10OfTenths(x, n - 1);
      Scale10TimesTenth(y, n - 1);
    }
  }

  /** Moving the point right commutes with dividing by 10. */
  lemma {:induction false} Scale10TimesTenth(x: real, n: nat)
    ensures 10.0 * Scale10(x / 10.0, n) == Scale10(x, n)
  {
    if n > 0 {
      Scale10TimesTenth(x, n - 1);
    }
  }

  /** The digits of a number read from the front: the first digit stands
      `|ds| - 1` places left of the point. */
  lemma {:induction false} DigitsValueFront(ds: string)
    requires ds != [] && AllDigits(ds)
    ensures DigitsValue(ds) as real == Scale10(DigitValue(ds[0]) as real, |ds| - 1) + DigitsValue(ds[1..]) as real
    decreases |ds|
  {
    if |ds| > 1 {
      var init := ds[..|ds| - 1];
      DigitsValueFront(init);
      assert init[0] == ds[0];
      assert ds[1..][..|ds[1..]| - 1] == init[1..];
      assert ds[1..][|ds[1..]| - 1] == ds[|ds| - 1];
    } else {
      assert ds[..|ds| - 1] == [];
    }
  }

  /** The digits after a decimal point denote `DigitsValue(ds)` with the
      point moved `|ds|` places to the left: ".25" is 25 / 100. */
  lemma {:induction false} FractionValueExact(ds: string)
    requires AllDigits(ds)
    ensures FractionValue(ds) == Tenths(DigitsValue(ds) as real, |ds|)
    decreases |ds|
  {
    if ds == [] {
      assert DigitsValue(ds) == 0;
    } else {
      var tail := ds[1..];
      var d := DigitValue(ds[0]) as real;
      FractionValueExact(tail);
      DigitsValueFront(ds);
      TenthsAdd(Scale10(d, |tail|), DigitsValue(tail) as real, |ds|);
      TenthsOfScale10(d, |tail|);
    }
  }

  /** A run of digits with no point after it, then `tail`: the digits
      make the mantissa and `tail` supplies the exponent. */
  lemma ReadInteger(ds: string, tail: string, v: real)
    requires ds != [] && AllDigits(ds)
    requires tail == [] || (!IsDigit(tail[0]) && tail[0] != '.')
    requires v == ApplyExponent(DigitsValue(ds) as real, Exponent(tail))
    ensures ParseUnsigned(ds + tail) == Some(v)
  {
    DigitRunOf(ds, tail);
  }

  /** The two parts of a concatenation. */
  lemma Halves(a: string, b: string)
    ensures (a + b)[..|a|] == a && (a + b)[|a|..] == b
    ensures a != [] ==> (a + b)[0] == a[0]
  {
  }

  lemma ReadFraction(ds: string, fs: string, tail: string)
    requires ds != [] && AllDigits(ds) && AllDigits(fs)
    requires EndsDigits(tail)
    ensures ParseUnsigned(ds + ("." + (fs + tail))).Some?
    ensures ParseUnsigned(ds + ("." + (fs + tail))).value == DigitsValue(ds) as real + FractionValue(fs)
  {
    ReadPoint(ds, fs + tail);
    ReadPointed(ds, fs, tail, FractionValue(fs));
  }

  /** A number read as an integer part plus `FractionValue(fs)` is the integer
      part plus the fraction digits read as an integer and shifted right. */
  lemma ExactFraction(v: real, x: real, fs: string)
    requires AllDigits(fs)
    requires v == x + FractionValue(fs)
    ensures v == x + Tenths(DigitsValue(fs) as real, |fs|)
  {
    FractionValueExact(fs);
  }

  /** Digits and a point: the rest is read as in `ParsePointed`. */
  lemma ReadPoint(ds: string, after: string)
    requires ds != [] && AllDigits(ds)
    ensures ParseUnsigned(ds + ("." + after)) == ParsePointed(ds, after)
  {
    var s := ds + ("." + after);
    DigitRunOf(ds, "." + after);
    assert s[..|ds|] == ds;
    assert s[|ds|] == '.';
    assert s[|ds| + 1..] == after;
  }

  /** Digits, a point, the fraction digits `fs` whose value is `f`, and no
      exponent part. */
  lemma ReadPointed(ds: string, fs: string, tail: string, f: real)
    requires ds != [] && AllDigits(ds) && AllDigits(fs)
    requires EndsDigits(tail) && f == FractionValue(fs)
    ensures ParsePointed(ds, fs + tail) == Some(DigitsValue(ds) as real + f)
  {
    DigitRunOf(fs, tail);
  }

  /** An exponent part made of the letter, an optional sign and digits. */
  lemma ReadExponent(es: string, rest: string)
    requires es != [] && AllDigits(es)
    requires rest == [] || !IsDigit(rest[0])
    ensures Exponent("e" + (es + rest)) == DigitsValue(es)
    ensures Exponent("E+" + (es + rest)) == DigitsValue(es)
    ensures Exponent("e-" + (es + rest)) == -(DigitsValue(es) as int)
  {
    DigitRunOf(es, rest);
    assert (es + rest)[..|es|] == es;
    assert LeadingValue(es + rest) == DigitsValue(es);
    var plain, plus, minus := "e" + (es + rest), "E+" + (es + rest), "e-" + (es + rest);
    assert plain[1] == es[0] && plain[1..] == es + rest;
    assert plus[1] == '+' && plus[2..] == es + rest;
    assert minus[1] == '-' && minus[2..] == es + rest;
  }

  /** A negative exponent moves the point to the left. */
  lemma NegativeExponent(x: real, k: nat)
    ensures ApplyExponent(x, -(k as int)) == Tenths(x, k)
  {
  }

  /** Text that starts with a digit is read without a sign. */
  lemma StartsWithDigit(s: string)
    requires s != [] && IsDigit(s[0])
    ensures ParseFloat(s) == ParseUnsigned(s)
    ensures ParseFloat("-" + s) == if ParseUnsigned(s).Some? then Some(-ParseUnsigned(s).value) else None
  {
    Unsigned(s);
    Negated(s);
  }

  lemma Unsigned(s: string)
    requires s != [] && IsDigit(s[0])
    ensures ParseFloat(s) == ParseUnsigned(s)
  {
    assert SpaceRun(s) == 0 && s[0..] == s;
  }

  lemma Negated(s: string)
    ensures ParseFloat("-" + s) == if ParseUnsigned(s).Some? then Some(-ParseUnsigned(s).value) else None
  {
    var m := "-" + s;
    assert m[0] == '-' && m[1..] == s;
    assert SpaceRun(m) == 0 && m[0..] == m;
  }

  /** A run of digits followed by text that cannot continue a number
      parses to the value of the digits. */
  lemma DigitsThenStop(ds: string, rest: string)
    requires ds != [] && AllDigits(ds)
    requires EndsDigits(rest) && (rest == [] || rest[0] != '.')
    ensures ParseFloat(ds + rest) == Some(DigitsValue(ds) as real)
    ensures ParseFloat("-" + (ds + rest)) == Some(-(DigitsValue(ds) as real))
  {
    ReadDigits(ds, rest);
    Halves(ds, rest);
    StartsWithDigit(ds + rest);
  }

  lemma ReadDigits(ds: string, rest: string)
    requires ds != [] && AllDigits(ds)
    requires EndsDigits(rest) && (rest == [] || rest[0] != '.')
    ensures ParseUnsigned(ds + rest) == Some(DigitsValue(ds) as real)
  {
    ReadInteger(ds, rest, DigitsValue(ds) as real);
  }

  /** Round trip: the decimal rendering of a natural number, followed by
      text that cannot continue a number, parses back to that number, and
      so does its negation. */
  lemma DecimalRoundTrip(n: nat, rest: string)
    requires EndsDigits(rest) && (rest == [] || rest[0] != '.')
    ensures ParseFloat(Decimal(n) + rest) == Some(n as real)
    ensures ParseFloat("-" + (Decimal(n) + rest)) == Some(-(n as real))
  {
    DecimalValue(n);
    DigitsThenStop(Decimal(n), rest);
  }

  /** A number with a decimal point: "12.25" is 12 plus 25 with the point
      moved two places to the left. */
  lemma PointRoundTrip(ds: string, fs: string, rest: string)
    requires ds != [] && AllDigits(ds) && AllDigits(fs)
    requires EndsDigits(rest)
    ensures ParseFloat(ds + ("." + (fs + rest))).Some?
    ensures ParseFloat(ds + ("." + (fs + rest))).value ==
      DigitsValue(ds) as real + Tenths(DigitsValue(fs) as real, |fs|)
  {
    var s := ds + ("." + (fs + rest));
    ReadFraction(ds, fs, rest);
    assert s[0] == ds[0];
    Unsigned(s);
    ExactFraction(ParseFloat(s).value, DigitsValue(ds) as real, fs);
  }

  /** A number with an exponent part: "15e6" is 15 with the point moved six
      places to the right. */
  lemma ExponentRoundTrip(ds: string, es: string, rest: string)
    requires ds != [] && AllDigits(ds) && es != [] && AllDigits(es)
    requires rest == [] || !IsDigit(rest[0])
    ensures ParseFloat(ds + ("e" + (es + rest))) == Some(Scale10(DigitsValue(ds) as real, DigitsValue(es)))
  {
    var s := ds + ("e" + (es + rest));
    ReadExponent(es, rest);
    ReadInteger(ds, "e" + (es + rest), Scale10(DigitsValue(ds) as real, DigitsValue(es)));
    assert s[0] == ds[0];
    StartsWithDigit(s);
  }

  /** A negative exponent: "15e-1" is 15 with the point moved one place to
      the left. */
  lemma NegativeExponentRoundTrip(ds: string, es: string, rest: string)
    requires ds != [] && AllDigits(ds) && es != [] && AllDigits(es)
    requires rest == [] || !IsDigit(rest[0])
    ensures ParseFloat(ds + ("e-" + (es + rest))) == Some(Tenths(DigitsValue(ds) as real, DigitsValue(es)))
  {
    var s := ds + ("e-" + (es + rest));
    ReadExponent(es, rest);
    NegativeExponent(DigitsValue(ds) as real, DigitsValue(es));
    ReadInteger(ds, "e-" + (es + rest), Tenths(DigitsValue(ds) as real, DigitsValue(es)));
    assert s[0] == ds[0];
    StartsWithDigit(s);
  }

  /** Text that starts with something other than white space, a sign, a
      point or a digit is not a number, e.g. the "unknown" the planet data
      uses for missing values. */
  lemma NotANumber(s: string)
    requires s == [] || (!IsSpace(s[0]) && !IsDigit(s[0]) && s[0] != '-' && s[0] != '+' && s[0] != '.')
    ensures ParseFloat(s) == None
  {
  }
}
