/** Numbers as the scrapers see them: Python `float` and `Decimal` values held
    exactly (an integer mantissa and a decimal scale), the `float()` and `int()`
    conversions over a restricted grammar, `str()` of both kinds, and the
    Spanish locale conversion that deletes thousands dots and turns the decimal
    comma into a dot. */
module Numbers {
  import opened Wrappers
  import opened Text

  /** The exact decimal `mant * 10^-scale`. */
  datatype Decimal = Decimal(mant: int, scale: nat)

  /** A Python `float` or `decimal.Decimal`: finite, NaN or a signed infinity. */
  datatype Number = Finite(d: Decimal) | NaN | Infinity(negative: bool)

  function Pow10(n: nat): (r: nat)
    ensures r >= 1
  {
    if n == 0 then 1 else 10 * Pow10(n - 1)
  }

  /** The rational value a decimal stands for. */
  function ValueOf(d: Decimal): real {
    d.mant as real / Pow10(d.scale) as real
  }

  function Abs(n: int): nat { if n < 0 then -n else n }

  // ---------------------------------------------------------------------------
  // Digit strings
  // ---------------------------------------------------------------------------

  /** The number a string of ASCII digits denotes. */
  function DigitsValue(s: string): nat
    requires AllDigits(s)
  {
    if |s| == 0 then 0 else 10 * DigitsValue(s[..|s| - 1]) + DigitValue(s[|s| - 1])
  }

  lemma DigitsValueSnoc(s: string, c: char)
    requires AllDigits(s) && IsDigit(c)
    ensures AllDigits(s + [c]) && DigitsValue(s + [c]) == 10 * DigitsValue(s) + DigitValue(c)
  {
    assert (s + [c])[..|s|] == s;
  }

  lemma {:induction false} DigitsValueBound(s: string)
    requires AllDigits(s)
    ensures DigitsValue(s) < Pow10(|s|)
  {
    if |s| > 0 {
      DigitsValueBound(s[..|s| - 1]);
    }
  }

  /** The decimal digits of `n`, left-padded with zeros to at least `width`
      characters; reading them back gives `n`. */
  function NatDigits(n: nat, width: nat): (r: string)
    ensures AllDigits(r) && |r| >= width && |r| >= 1
    ensures DigitsValue(r) == n
    decreases n + width
  {
    var last := ('0' as int + n % 10) as char;
    assert DigitValue(last) == n % 10;
    if n < 10 && width <= 1 then
      assert [last] == [] + [last];
      DigitsValueSnoc([], last);
      [last]
    else
      var front := NatDigits(n / 10, if width == 0 then 0 else width - 1);
      DigitsValueSnoc(front, last);
      front + [last]
  }

  // ---------------------------------------------------------------------------
  // float(): optional sign, digits with at most one dot, nan / inf / infinity
  // ---------------------------------------------------------------------------

  /** An unsigned numeral `digits`, `digits.digits`, `digits.` or `.digits`. */
  function ParseUnsigned(t: string): (r: Option<Decimal>)
    ensures r.Some? ==> r.value.mant >= 0
  {
    var parts := SplitOn(t, '.');
    if |parts| == 1 then
      if |t| > 0 && AllDigits(t) then Some(Decimal(DigitsValue(t), 0)) else None
    else if |parts| == 2 && AllDigits(parts[0]) && AllDigits(parts[1]) && |parts[0]| + |parts[1]| > 0 then
      AllDigitsAppend(parts[0], parts[1]);
      Some(Decimal(DigitsValue(parts[0] + parts[1]), |parts[1]|))
    else None
  }

  lemma AllDigitsAppend(a: string, b: string)
    requires AllDigits(a) && AllDigits(b)
    ensures AllDigits(a + b)
  {
  }

  function Negate(d: Decimal): Decimal { Decimal(-d.mant, d.scale) }

  /** Python `float(s)` on a string: surrounding whitespace is ignored, then an
      optional sign and either a numeral or one of `nan`, `inf`, `infinity` in
      any letter case.  `None` stands for the `ValueError` it raises. */
  function ParseFloat(s: string): (r: Option<Number>)
    ensures |Strip(s)| == 0 ==> r == None
  {
    ParseStripped(Strip(s))
  }

  /** `float()` once the surrounding whitespace is gone. */
  function ParseStripped(t: string): (r: Option<Number>)
    ensures |t| == 0 ==> r == None
  {
    var signed := |t| > 0 && (t[0] == '-' || t[0] == '+');
    var neg := |t| > 0 && t[0] == '-';
    var body := if signed then t[1..] else t;
    if |body| > 0 && (IsDigit(body[0]) || body[0] == '.') then
      match ParseUnsigned(body)
      case None => None
      case Some(d) => Some(Finite(if neg then Negate(d) else d))
    else ParseSpecial(body, neg)
  }

  /** The non-numeric spellings `float()` accepts.  A numeral starts with a
      digit or a point and none of these does, so the two are tried in either
      order with the same outcome. */
  function ParseSpecial(body: string, neg: bool): Option<Number> {
    if LowerEquals(body, "nan") then Some(NaN)
    else if LowerEquals(body, "inf") || LowerEquals(body, "infinity") then Some(Infinity(neg))
    else None
  }

  /** Python `int(s)` on a string: surrounding whitespace, an optional sign and
      ASCII digits. */
  function ParseInt(s: string): Option<int> {
    ParseIntStripped(Strip(s))
  }

  /** `int()` once the surrounding whitespace is gone. */
  function ParseIntStripped(t: string): Option<int> {
    var neg := |t| > 0 && t[0] == '-';
    var body := if |t| > 0 && (t[0] == '-' || t[0] == '+') then t[1..] else t;
    if |body| > 0 && AllDigits(body) then
      var n: int := DigitsValue(body);
      Some(if neg then -n else n)
    else None
  }

  // ---------------------------------------------------------------------------
  // str() of a Decimal, repr() of a float
  // ---------------------------------------------------------------------------

  /** `str(Decimal)`: the digits of the mantissa with the point `scale` places
      from the right, a leading `0` before a bare point, and a minus sign. */
  function DecimalText(d: Decimal): (r: string)
    ensures |r| > 0
  {
    var digits := NatDigits(Abs(d.mant), d.scale + 1);
    var body := if d.scale == 0 then digits
      else digits[..|digits| - d.scale] + "." + digits[|digits| - d.scale..];
    if d.mant < 0 then "-" + body else body
  }

  /** The decimal with trailing fractional zeros removed; the value is unchanged. */
  function Normalize(d: Decimal): (r: Decimal)
    ensures ValueOf(r) == ValueOf(d)
    ensures r.scale <= d.scale
    ensures r.scale == 0 || r.mant % 10 != 0
    decreases d.scale
  {
    if d.scale > 0 && d.mant % 10 == 0 then
      ScaleDown(d.mant / 10, d.scale - 1);
      Normalize(Decimal(d.mant / 10, d.scale - 1))
    else d
  }

  /** Appending a zero digit and a decimal place keeps the value. */
  lemma ScaleDown(m: int, k: nat)
    ensures ValueOf(Decimal(10 * m, k + 1)) == ValueOf(Decimal(m, k))
  {
    var p := Pow10(k) as real;
    assert Pow10(k + 1) as real == 10.0 * p;
    assert (10 * m) as real == 10.0 * (m as real);
    assert (10.0 * (m as real)) / (10.0 * p) == (m as real) / p;
  }

  /** The digits `repr(float)` prints for a finite float: the shortest scale,
      but always at least one fractional digit. */
  function ReprDecimal(d: Decimal): (r: Decimal)
    ensures ValueOf(r) == ValueOf(d)
    ensures r.scale >= 1
  {
    var c := Normalize(d);
    if c.scale == 0 then
      ScaleDown(c.mant, 0);
      Decimal(10 * c.mant, 1)
    else c
  }

  /** `str(x)` for a Python float, in plain notation. */
  function FloatRepr(x: Number): (r: string)
    ensures |r| > 0
  {
    match x
    case Finite(d) => DecimalText(ReprDecimal(d))
    case NaN => "nan"
    case Infinity(neg) => if neg then "-inf" else "inf"
  }

  /** `str(x)` for a Python `decimal.Decimal`. */
  function DecimalNumberText(x: Number): (r: string)
    ensures |r| > 0
  {
    match x
    case Finite(d) => DecimalText(d)
    case NaN => "NaN"
    case Infinity(neg) => if neg then "-Infinity" else "Infinity"
  }

  // ---------------------------------------------------------------------------
  // Locale conversion
  // ---------------------------------------------------------------------------

  /** `s.replace('.', '').replace(',', '.')`: thousands dots are deleted and the
      decimal comma becomes the decimal point. */
  function LocaleNormalize(s: string): (r: string)
    ensures r == MapChar(RemoveChar(s, '.'), ',', '.')
    ensures ',' !in r
  {
    ReplaceByEmpty(s, '.');
    ReplaceByChar(RemoveChar(s, '.'), ',', '.');
    ReplaceCharGone(ReplaceAll(s, ".", ""), ',', ".");
    ReplaceAll(ReplaceAll(s, ".", ""), ",", ".")
  }

  /** `float(s.replace('.', '').replace(',', '.'))`. */
  function LocaleFloat(s: string): Option<Number> {
    ParseFloat(LocaleNormalize(s))
  }

  // ---------------------------------------------------------------------------
  // Comparisons and conversions on numbers
  // ---------------------------------------------------------------------------

  /** `x > 0` in Python; false for NaN. */
  predicate IsPositive(x: Number) {
    match x
    case Finite(d) => d.mant > 0
    case NaN => false
    case Infinity(neg) => !neg
  }

  /** `x <= 0` in Python; false for NaN. */
  predicate IsNonPositive(x: Number) {
    match x
    case Finite(d) => d.mant <= 0
    case NaN => false
    case Infinity(neg) => neg
  }

  predicate IsFinite(x: Number) { x.Finite? }

  /** `int(x)` for a finite float: truncation toward zero. */
  function Truncate(d: Decimal): (r: int)
    ensures d.mant >= 0 ==> 0.0 <= r as real <= ValueOf(d) < r as real + 1.0
    ensures d.mant < 0 ==> r as real - 1.0 < ValueOf(d) <= r as real <= 0.0
  {
    var p := Pow10(d.scale);
    var q := Abs(d.mant) / p;
    TruncBounds(Abs(d.mant), p);
    assert d.mant < 0 ==> ValueOf(d) == -(Abs(d.mant) as real / p as real);
    if d.mant >= 0 then q else -q
  }

  lemma TruncBounds(a: nat, p: nat)
    requires p >= 1
    ensures (a / p) as real <= a as real / p as real < (a / p) as real + 1.0
  {
    var q := a / p;
    var m := a % p;
    var pr := p as real;
    assert a == q * p + m && 0 <= m < p;
    assert a as real == (q as real) * pr + m as real;
    assert a as real / pr == (q as real) + (m as real) / pr;
    assert (m as real) / pr < 1.0;
  }

  /** `str(n)` for a Python int. */
  function IntText(n: int): (r: string)
    ensures |r| > 0
  {
    if n < 0 then "-" + NatDigits(-n, 0) else NatDigits(n, 0)
  }
}
