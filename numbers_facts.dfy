/** What the number conversions promise: `float()` reads back what `str()`
    prints, the locale conversion reads Spanish-formatted amounts, and the
    strike quirk that multiplies an integral float by ten. */
module NumberFacts {
  import opened Wrappers
  import opened Text
  import opened Numbers

  // ---------------------------------------------------------------------------
  // Parsing helpers
  // ---------------------------------------------------------------------------

  lemma MapCharAppend(a: string, b: string, c: char, d: char)
    ensures MapChar(a + b, c, d) == MapChar(a, c, d) + MapChar(b, c, d)
    decreases |a|
  {
    if |a| > 0 {
      assert (a + b)[1..] == a[1..] + b;
      MapCharAppend(a[1..], b, c, d);
    } else {
      assert a + b == b;
    }
  }

  lemma DigitsNoChar(s: string, c: char)
    requires AllDigits(s) && !IsDigit(c)
    ensures c !in s
  {
  }

  lemma ParseUnsignedInt(a: string)
    requires |a| > 0 && AllDigits(a)
    ensures ParseUnsigned(a) == Some(Decimal(DigitsValue(a), 0))
  {
    DigitsNoChar(a, '.');
    SplitOnNoSep(a, '.');
  }

  lemma ParseUnsignedFrac(a: string, b: string)
    requires AllDigits(a) && AllDigits(b) && |a| + |b| > 0
    ensures AllDigits(a + b)
    ensures ParseUnsigned(a + "." + b) == Some(Decimal(DigitsValue(a + b), |b|))
  {
    DigitsNoChar(a, '.');
    DigitsNoChar(b, '.');
    SplitOnConcat(a, '.', b);
    SplitOnNoSep(b, '.');
    assert SplitOn(a + "." + b, '.') == [a, b];
  }

  /** A numeral that starts and ends with a digit is read by `ParseUnsigned`;
      no whitespace is stripped from it. */
  lemma ParsePositive(body: string, d: Decimal)
    requires |body| > 0 && IsDigit(body[0]) && IsDigit(body[|body| - 1])
    requires ParseUnsigned(body) == Some(d)
    ensures ParseFloat(body) == Some(Finite(d))
  {
    StripNoEdge(body);
  }

  /** The same numeral after a minus sign reads as the negated decimal. */
  lemma ParseNegative(body: string, d: Decimal)
    requires |body| > 0 && IsDigit(body[0]) && IsDigit(body[|body| - 1])
    requires ParseUnsigned(body) == Some(d)
    ensures ParseFloat("-" + body) == Some(Finite(Negate(d)))
  {
    var t := "-" + body;
    assert t[|t| - 1] == body[|body| - 1];
    StripNoEdge(t);
    assert t[1..] == body;
  }

  /** A digit string with a point `k` places in is a numeral with those digits
      and `|digits| - k` decimal places. */
  lemma PointedBody(digits: string, k: nat)
    requires AllDigits(digits) && 0 < k < |digits|
    ensures var body := digits[..k] + "." + digits[k..];
      |body| > 0 && IsDigit(body[0]) && IsDigit(body[|body| - 1])
      && ParseUnsigned(body) == Some(Decimal(DigitsValue(digits), |digits| - k))
  {
    var a := digits[..k];
    var b := digits[k..];
    assert a + b == digits;
    ParseUnsignedFrac(a, b);
    var body := a + "." + b;
    assert body[0] == digits[0] && body[|body| - 1] == digits[|digits| - 1];
  }

  // ---------------------------------------------------------------------------
  // Round trips
  // ---------------------------------------------------------------------------

  /** `float(str(Decimal(x)))` and `Decimal(str(Decimal(x)))` give back `x`
      exactly: same digits, same scale. */
  lemma ParseDecimalText(d: Decimal)
    ensures ParseFloat(DecimalText(d)) == Some(Finite(d))
  {
    var digits := NatDigits(Abs(d.mant), d.scale + 1);
    var u := Decimal(Abs(d.mant), d.scale);
    assert d.mant < 0 ==> Negate(u) == d;
    if d.scale == 0 {
      assert DecimalText(d) == if d.mant < 0 then "-" + digits else digits;
      WholeBody(digits);
      ParseSigned(d.mant < 0, digits, u);
    } else {
      var k := |digits| - d.scale;
      var body := digits[..k] + "." + digits[k..];
      assert DecimalText(d) == if d.mant < 0 then "-" + body else body;
      PointedBody(digits, k);
      ParseSigned(d.mant < 0, body, u);
    }
  }

  /** A digit string is a numeral with scale zero. */
  lemma WholeBody(digits: string)
    requires |digits| > 0 && AllDigits(digits)
    ensures IsDigit(digits[0]) && IsDigit(digits[|digits| - 1])
    ensures ParseUnsigned(digits) == Some(Decimal(DigitsValue(digits), 0))
  {
    ParseUnsignedInt(digits);
  }

  /** A numeral, with or without a minus sign in front. */
  lemma ParseSigned(neg: bool, body: string, u: Decimal)
    requires |body| > 0 && IsDigit(body[0]) && IsDigit(body[|body| - 1])
    requires ParseUnsigned(body) == Some(u)
    ensures ParseFloat(if neg then "-" + body else body) == Some(Finite(if neg then Negate(u) else u))
  {
    if neg {
      ParseNegative(body, u);
    } else {
      ParsePositive(body, u);
    }
  }

  /** `int(str(n)) == n`. */
  lemma ParseIntText(n: int)
    ensures ParseInt(IntText(n)) == Some(n)
  {
    var digits := NatDigits(Abs(n), 0);
    if n < 0 {
      assert IntText(n) == "-" + digits;
      ParseMinusDigits(digits);
    } else {
      assert IntText(n) == digits;
      ParseDigits(digits);
    }
  }

  lemma ParseDigits(digits: string)
    requires |digits| > 0 && AllDigits(digits)
    ensures ParseInt(digits) == Some(DigitsValue(digits))
  {
    assert IsDigit(digits[0]) && IsDigit(digits[|digits| - 1]);
    StripNoEdge(digits);
  }

  lemma ParseMinusDigits(digits: string)
    requires |digits| > 0 && AllDigits(digits)
    ensures ParseInt("-" + digits) == Some(-(DigitsValue(digits) as int))
  {
    var t := "-" + digits;
    assert NoEdgeSpace(t) by {
      assert t[|t| - 1] == digits[|digits| - 1];
    }
    StripNoEdge(t);
    MinusStripped(t, digits);
  }

  lemma MinusStripped(t: string, digits: string)
    requires |digits| > 0 && AllDigits(digits)
    requires |t| > 0 && t[0] == '-' && t[1..] == digits
    ensures ParseIntStripped(t) == Some(-(DigitsValue(digits) as int))
  {
  }

  /** `float(str(x))` gives back a float of the same value (and the same NaN or
      infinity). */
  lemma ParseFloatRepr(x: Number)
    ensures ParseFloat(FloatRepr(x)) == Some(if x.Finite? then Finite(ReprDecimal(x.d)) else x)
    ensures x.Finite? ==> ValueOf(ReprDecimal(x.d)) == ValueOf(x.d)
  {
    match x
    case Finite(d) =>
      assert FloatRepr(x) == DecimalText(ReprDecimal(d));
      ParseDecimalText(ReprDecimal(d));
    case NaN => ParseNanRepr();
    case Infinity(neg) => ParseInfRepr(neg);
  }

  lemma ParseNanRepr()
    ensures ParseFloat("nan") == Some(NaN)
  {
    StripNoEdge("nan");
  }

  lemma ParseInfRepr(neg: bool)
    ensures ParseFloat(if neg then "-inf" else "inf") == Some(Infinity(neg))
  {
    var sign := if neg then "-" else "";
    var t := sign + "inf";
    assert t == if neg then "-inf" else "inf";
    StripNoEdge(t);
    InfSpecial(neg);
    SignedSpecial(sign, "inf");
  }

  /** A body that cannot start a numeral is read by `ParseSpecial`. */
  lemma SignedSpecial(sign: string, body: string)
    requires sign == "" || sign == "-"
    requires |body| > 0 && !IsDigit(body[0]) && body[0] !in ".+-"
    ensures ParseStripped(sign + body) == ParseSpecial(body, sign == "-")
  {
    var t := sign + body;
    if sign == "-" {
      assert t[0] == '-' && t[1..] == body;
    } else {
      assert t == body;
    }
  }

  lemma InfSpecial(neg: bool)
    ensures ParseSpecial("inf", neg) == Some(Infinity(neg))
  {
    assert !LowerEquals("inf", "nan") by {
      assert LowerChar('i') == 'i';
    }
    LowerOfLower("inf");
    LowerEqualsIff("inf", "inf");
  }

  // ---------------------------------------------------------------------------
  // Locale conversion
  // ---------------------------------------------------------------------------

  /** A Spanish amount `a.b,c` (thousands dot, decimal comma) reads as the
      decimal with digits `abc` and `|c|` decimal places. */
  lemma LocaleThousandsComma(a: string, b: string, c: string)
    requires |a| > 0 && AllDigits(a) && AllDigits(b) && AllDigits(c)
    ensures AllDigits(a + b + c)
    ensures LocaleFloat(a + "." + b + "," + c) == Some(Finite(Decimal(DigitsValue(a + b + c), |c|)))
  {
    DigitsNoChar(a, '.');
    DigitsNoChar(b, '.');
    DigitsNoChar(c, '.');
    DigitsNoChar(a + b, ',');
    DigitsNoChar(c, ',');
    var tail := b + [','] + c;
    assert '.' !in tail;
    assert a + "." + b + "," + c == a + ['.'] + tail;
    RemoveCharAround(a, '.', tail);
    assert a + tail == (a + b) + [','] + c;
    MapCharAround(a + b, ',', '.', c);
    assert LocaleNormalize(a + "." + b + "," + c) == (a + b) + "." + c;
    LocaleTail(a + b, c);
    assert (a + b) + c == a + b + c;
  }

  /** Reading `digits.` or `digits.rest` once the dots are gone. */
  lemma LocaleTail(ab: string, c: string)
    requires |ab| > 0 && AllDigits(ab) && AllDigits(c)
    ensures AllDigits(ab + c)
    ensures ParseFloat(ab + "." + c) == Some(Finite(Decimal(DigitsValue(ab + c), |c|)))
  {
    ParseUnsignedFrac(ab, c);
    var t := ab + "." + c;
    assert t[0] == ab[0];
    assert t[|t| - 1] == '.' || IsDigit(t[|t| - 1]);
    StripNoEdge(t);
  }

  /** Without a comma every dot is a thousands separator: `a.b` reads as the
      integer with digits `ab`. */
  lemma LocaleThousandsOnly(a: string, b: string)
    requires |a| > 0 && AllDigits(a) && AllDigits(b)
    ensures AllDigits(a + b)
    ensures LocaleFloat(a + "." + b) == Some(Finite(Decimal(DigitsValue(a + b), 0)))
  {
    DigitsNoChar(a, '.');
    DigitsNoChar(b, '.');
    DigitsNoChar(a + b, ',');
    assert a + "." + b == a + ['.'] + b;
    RemoveCharAround(a, '.', b);
    MapCharAbsent(a + b, ',', '.');
    ParseUnsignedInt(a + b);
    var body := a + b;
    assert body[0] == a[0];
    ParsePositive(body, Decimal(DigitsValue(body), 0));
  }

  // ---------------------------------------------------------------------------
  // The strike quirk: str(float) followed by the locale conversion
  // ---------------------------------------------------------------------------

  /** Applying the locale conversion to `str(x)` of a finite float deletes the
      decimal point that `repr` always prints, so the result is the repr digits
      read as an integer: the value scaled up by `10^(fraction digits)`. */
  lemma LocaleOfRepr(d: Decimal)
    ensures LocaleFloat(FloatRepr(Finite(d))) == Some(Finite(Decimal(ReprDecimal(d).mant, 0)))
  {
    var r := ReprDecimal(d);
    var digits := NatDigits(Abs(r.mant), r.scale + 1);
    assert FloatRepr(Finite(d)) == DecimalText(r);
    ReprLocaleDigits(r);
    ParseUnsignedInt(digits);
    var u := Decimal(DigitsValue(digits), 0);
    if r.mant < 0 {
      assert LocaleNormalize(DecimalText(r)) == "-" + digits;
      ParseNegative(digits, u);
    } else {
      assert LocaleNormalize(DecimalText(r)) == digits;
      ParsePositive(digits, u);
    }
  }

  /** The locale conversion of a pointed `str(Decimal)` is its sign and digits. */
  lemma ReprLocaleDigits(r: Decimal)
    requires r.scale > 0
    ensures LocaleNormalize(DecimalText(r))
      == (if r.mant < 0 then "-" else "") + NatDigits(Abs(r.mant), r.scale + 1)
  {
    var digits := NatDigits(Abs(r.mant), r.scale + 1);
    var k := |digits| - r.scale;
    var a := digits[..k];
    var b := digits[k..];
    var sgn := if r.mant < 0 then "-" else "";
    DecimalTextPointed(r);
    AllDigitsSplit(digits, k);
    LocaleDropsPoint(sgn, a, b);
    assert a + b == digits;
  }

  lemma DecimalTextPointed(r: Decimal)
    requires r.scale > 0
    ensures var digits := NatDigits(Abs(r.mant), r.scale + 1);
      var k := |digits| - r.scale;
      DecimalText(r) == (if r.mant < 0 then "-" else "") + (digits[..k] + "." + digits[k..])
  {
  }

  lemma LocaleDropsPoint(sgn: string, a: string, b: string)
    requires sgn == "" || sgn == "-"
    requires AllDigits(a) && AllDigits(b)
    ensures LocaleNormalize(sgn + (a + "." + b)) == sgn + (a + b)
  {
    DigitsNoChar(a, '.');
    DigitsNoChar(b, '.');
    DigitsNoChar(a + b, ',');
    assert sgn + (a + "." + b) == (sgn + a) + ['.'] + b;
    assert '.' !in sgn + a;
    RemoveCharAround(sgn + a, '.', b);
    assert (sgn + a) + b == sgn + (a + b);
    assert ',' !in sgn + (a + b);
    MapCharAbsent(sgn + (a + b), ',', '.');
  }

  /** `"14000.0"`: an integral float `n` comes back as `10 * n`. */
  lemma IntegralStrikeTimesTen(n: int)
    ensures LocaleFloat(FloatRepr(Finite(Decimal(n, 0)))) == Some(Finite(Decimal(10 * n, 0)))
  {
    LocaleOfRepr(Decimal(n, 0));
  }
}

/** Worked instances of the locale conversion and of the strike quirk. */
module NumberExamples {
  import opened Wrappers
  import opened Text
  import opened Numbers
  import opened NumberFacts

  /** `"14.000,50"` reads as 14000.5. */
  lemma LocaleExample()
    ensures LocaleFloat("14.000,50") == Some(Finite(Decimal(1400050, 2)))
    ensures ValueOf(Decimal(1400050, 2)) == 14000.5
  {
    ExampleLocale();
    ExampleDigits();
    ExampleValue();
  }

  lemma ExampleLocale()
    ensures LocaleFloat("14.000,50") == Some(Finite(Decimal(DigitsValue("1400050"), 2)))
  {
    LocaleThousandsComma("14", "000", "50");
    ExampleJoin();
  }

  lemma ExampleValue()
    ensures ValueOf(Decimal(1400050, 2)) == 14000.5
  {
    assert Pow10(2) == 100;
  }

  lemma ExampleJoin()
    ensures "14" + "." + "000" + "," + "50" == "14.000,50"
    ensures "14" + "000" + "50" == "1400050"
  {
  }

  lemma ExampleDigits()
    ensures DigitsValue("1400050") == 1400050
  {
    Digits1400050();
  }

  lemma Digits1400050()
    ensures NatDigits(1400050, 0) == "1400050"
  {
    Digits14000();
    assert NatDigits(140005, 0) == "140005";
  }

  lemma Digits14000()
    ensures NatDigits(14000, 0) == "14000"
  {
    assert NatDigits(1, 0) == "1";
    assert NatDigits(14, 0) == "14";
    assert NatDigits(140, 0) == "140";
    assert NatDigits(1400, 0) == "1400";
  }

  /** The float 14000.0 prints as `14000.0` and comes back as 140000. */
  lemma StrikeQuirkExample()
    ensures FloatRepr(Finite(Decimal(14000, 0))) == "14000.0"
    ensures LocaleFloat("14000.0") == Some(Finite(Decimal(140000, 0)))
  {
    Repr14000();
    IntegralStrikeTimesTen(14000);
  }

  lemma Repr14000()
    ensures FloatRepr(Finite(Decimal(14000, 0))) == "14000.0"
  {
    var r := Decimal(140000, 1);
    assert Normalize(Decimal(14000, 0)) == Decimal(14000, 0);
    assert ReprDecimal(Decimal(14000, 0)) == r;
    DecimalTextPointed(r);
    Digits140000();
    Slices140000();
  }

  lemma Digits140000()
    ensures NatDigits(140000, 2) == "140000"
  {
    Digits14000();
    assert NatDigits(14000, 1) == "14000";
  }

  lemma Slices140000()
    ensures "140000"[..5] + "." + "140000"[5..] == "14000.0"
  {
  }
}
