/** What the MEFF scrapers read off the Mini IBEX page, once BeautifulSoup has
    found the elements: the options of the expiry drop-down and the rows of
    the options table as plain strings.  With them, the cell cleaners and the
    Spanish-locale number conversion the scrapers share, `safe_decimal`, and
    `str` of a `pandas.Timestamp`. */
module MeffPage {
  import opened Wrappers
  import opened Text
  import opened Numbers
  import opened NumberFacts
  import opened Dates
  import opened Records
  import NumberExamples
  import IdParsing

  /** An `<option>` of the expiry drop-down: its `value` attribute, which a
      page may omit, and its text. */
  datatype SelectOption = SelectOption(value: Option<string>, text: string)

  /** A `<tr data-tipo=…>` of the options table: the `data-tipo` code and the
      text of each `<td>`. */
  datatype OptionRow = OptionRow(code: string, cells: seq<string>)

  // ---------------------------------------------------------------------------
  // Characters the cleaners delete
  // ---------------------------------------------------------------------------

  /** Deleting occurrences of a pattern brings in no character. */
  lemma {:induction false} ReplaceKeepsAbsent(s: string, pat: string, rep: string, x: char)
    requires |pat| > 0 && x !in s && x !in rep
    ensures x !in ReplaceAll(s, pat, rep)
    decreases |s|
  {
    if |s| >= |pat| {
      if pat <= s {
        assert forall c :: c in s[|pat|..] ==> c in s;
        ReplaceKeepsAbsent(s[|pat|..], pat, rep, x);
      } else {
        assert forall c :: c in s[1..] ==> c in s;
        ReplaceKeepsAbsent(s[1..], pat, rep, x);
      }
    }
  }

  /** `strip()` keeps a slice of its argument, so it brings in no character. */
  lemma StripKeepsAbsent(s: string, x: char)
    requires x !in s
    ensures x !in Strip(s)
  {
    var l := LStrip(s);
    assert forall c :: c in l ==> c in s;
    assert forall c :: c in RStrip(l) ==> c in l;
  }

  /** A pattern that occurs shows its first character. */
  lemma ContainsHead(s: string, t: string)
    requires |t| > 0 && Contains(s, t)
    ensures t[0] in s
  {
    var i := ContainsWitness(s, t);
    assert s[i] == t[0];
  }

  // ---------------------------------------------------------------------------
  // limpiar_texto and clean_value
  // ---------------------------------------------------------------------------

  /** `limpiar_texto`: a string loses every non-breaking space and every
      `&nbsp;`, then its edge whitespace; anything else is returned as it is. */
  function LimpiarTexto(v: Value): (r: Value)
    ensures !v.VStr? ==> r == v
    ensures v.VStr? ==> r.VStr? && '\U{a0}' !in r.s && NoEdgeSpace(r.s)
  {
    match v
    case VStr(s) =>
      var once := ReplaceAll(s, "\U{a0}", "");
      var twice := ReplaceAll(once, "&nbsp;", "");
      ReplaceCharGone(s, '\U{a0}', "");
      ReplaceKeepsAbsent(once, "&nbsp;", "", '\U{a0}');
      StripKeepsAbsent(twice, '\U{a0}');
      VStr(Strip(twice))
    case _ => v
  }

  /** `clean_value`: a string loses every `&nbsp;`, then its edge whitespace;
      anything else is returned as it is. */
  function CleanValue(v: Value): (r: Value)
    ensures !v.VStr? ==> r == v
    ensures v.VStr? ==> r.VStr? && NoEdgeSpace(r.s)
  {
    match v
    case VStr(s) => VStr(Strip(ReplaceAll(s, "&nbsp;", "")))
    case _ => v
  }

  /** Text without markup entities or non-breaking spaces is only trimmed, by
      either cleaner. */
  lemma CleanersOnPlainText(s: string)
    requires '&' !in s && '\U{a0}' !in s
    ensures LimpiarTexto(VStr(s)) == VStr(Strip(s))
    ensures CleanValue(VStr(s)) == VStr(Strip(s))
  {
    if Contains(s, "\U{a0}") {
      ContainsHead(s, "\U{a0}");
    }
    ReplaceAbsent(s, "\U{a0}", "");
    if Contains(s, "&nbsp;") {
      ContainsHead(s, "&nbsp;");
    }
    ReplaceAbsent(s, "&nbsp;", "");
  }

  /** The two cleaners differ only in the non-breaking spaces inside a cell:
      on text without them they agree. */
  lemma CleanersAgree(s: string)
    requires '\U{a0}' !in s
    ensures LimpiarTexto(VStr(s)) == CleanValue(VStr(s))
  {
    if Contains(s, "\U{a0}") {
      ContainsHead(s, "\U{a0}");
    }
    ReplaceAbsent(s, "\U{a0}", "");
  }

  // ---------------------------------------------------------------------------
  // convertir_a_float and clean_and_convert
  // ---------------------------------------------------------------------------

  /** `convertir_a_float`: falsy values and `'-'` give `None`; a string goes
      through the locale conversion, `None` when `float()` refuses it; the
      `AttributeError` a number meets at `.replace` is caught, also `None`. */
  function ConvertirAFloat(v: Value): (r: Option<Number>)
    ensures r.Some? <==> v.VStr? && v.s != "" && v.s != "-" && LocaleFloat(v.s).Some?
    ensures r.Some? ==> r == LocaleFloat(v.s)
  {
    if !Truthy(v) || v == VStr("-") then None
    else match v
      case VStr(s) => LocaleFloat(s)
      case _ => None
  }

  /** `clean_and_convert`: `None`, `''` and `'-'` give `None`; a string goes
      through the locale conversion, `None` on the `ValueError`; a number
      raises at `.replace`, which is not caught. */
  function CleanAndConvert(v: Value): (r: Result<Option<Number>>)
    ensures r.Err? <==> v.VDec? || v.VFloat?
    ensures r.Err? ==> r.error == AttributeError
    ensures v.VStr? && v.s != "" && v.s != "-" ==> r == Ok(LocaleFloat(v.s))
    ensures r.Ok? && r.value.Some? ==> v.VStr? && v.s != "" && v.s != "-"
  {
    match v
    case VNone => Ok(None)
    case VStr(s) => if s == "" || s == "-" then Ok(None) else Ok(LocaleFloat(s))
    case _ => Err(AttributeError)
  }

  /** On the strings and `None` the scrapers pass them, the two converters
      give the same answer. */
  lemma ConvertersAgree(v: Value)
    requires v.VStr? || v.VNone?
    ensures CleanAndConvert(v) == Ok(ConvertirAFloat(v))
  {
  }

  /** A Spanish amount `a.b,c` reads as the decimal with digits `abc` and
      `|c|` decimal places, through either converter. */
  lemma ConvertSpanishAmount(a: string, b: string, c: string)
    requires |a| > 0 && AllDigits(a) && AllDigits(b) && AllDigits(c)
    ensures ConvertirAFloat(VStr(a + "." + b + "," + c)) == Some(Finite(Decimal(DigitsValue(a + b + c), |c|)))
    ensures CleanAndConvert(VStr(a + "." + b + "," + c)) == Ok(Some(Finite(Decimal(DigitsValue(a + b + c), |c|))))
  {
    LocaleThousandsComma(a, b, c);
    var s := a + "." + b + "," + c;
    assert |s| >= 3;
  }

  /** `convertir_a_float("14.000,50")` is 14000.5. */
  lemma ConvertExample()
    ensures ConvertirAFloat(VStr("14.000,50")) == Some(Finite(Decimal(1400050, 2)))
    ensures ValueOf(Decimal(1400050, 2)) == 14000.5
  {
    NumberExamples.LocaleExample();
  }

  // ---------------------------------------------------------------------------
  // safe_decimal
  // ---------------------------------------------------------------------------

  /** `safe_decimal` of a float column value:
      `None`, NaN and the infinities give `None`, any other float the
      `Decimal` of its `str`. */
  function SafeDecimal(x: Option<Number>): (r: Value)
    ensures r == VNone <==> x.None? || !x.value.Finite?
    ensures r != VNone ==> r.VDec? && r.n.Finite? && ValueOf(r.n.d) == ValueOf(x.value.d)
    ensures r != VNone ==> DecimalNumberText(r.n) == FloatRepr(x.value)
  {
    if x.Some? && x.value.Finite? then VDec(Finite(ReprDecimal(x.value.d))) else VNone
  }

  /** A cell of a float column: a `None` stored there reads back as NaN. */
  function FloatCell(x: Option<Number>): (r: Number)
    ensures x.Some? ==> r == x.value
    ensures x.None? ==> r == NaN
  {
    if x.Some? then x.value else NaN
  }

  /** `Decimal(str(x))` of a float: a finite float keeps its value and is
      written with the digits of its `repr`; NaN and the infinities become the
      `Decimal` NaN and infinities (no error is raised). */
  function ReprNumber(x: Number): (r: Number)
    ensures r.Finite? <==> x.Finite?
    ensures r.Finite? ==> ValueOf(r.d) == ValueOf(x.d) && DecimalNumberText(r) == FloatRepr(x)
    ensures r == NaN <==> x == NaN
    ensures !r.Finite? ==> r == x
  {
    match x
    case Finite(d) => Finite(ReprDecimal(d))
    case _ => x
  }

  /** `str()` of a float holds no `#`, so it can stand as an id segment. */
  lemma FloatReprNoHash(x: Number)
    ensures '#' !in FloatRepr(x)
  {
    match x
    case Finite(d) => IdParsing.StrikeSegmentChars(d);
    case NaN =>
    case Infinity(neg) =>
  }

  // ---------------------------------------------------------------------------
  // str(pandas.Timestamp)
  // ---------------------------------------------------------------------------

  /** `str()` of a DataFrame date cell: a Timestamp at midnight prints its
      date and `00:00:00`, the missing `NaT` prints `NaT`. */
  function TimestampText(d: Option<Date>): (r: string)
    requires d.Some? ==> IsValid(d.value)
    ensures d.None? ==> r == "NaT"
    ensures d.Some? ==> |r| == 19 && r[..10] == IsoText(d.value)
    ensures '#' !in r
  {
    match d
    case None => "NaT"
    case Some(day) =>
      IdParsing.IsoTextPattern(day);
      var t := IsoText(day) + " 00:00:00";
      assert t[..10] == IsoText(day);
      assert forall i :: 0 <= i < |t| ==> t[i] != '#';
      t
  }
}
