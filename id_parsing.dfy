/** `parsea_id` of the dashboards and the back-fill that uses it: the dates,
    type and strike are recovered from an item's `id`
    (`scrape#expiry#type#strike`) and written into the columns a table lacks
    or holds only nulls in. */
module IdParsing {
  import opened Wrappers
  import opened Text
  import opened Numbers
  import opened NumberFacts
  import opened Dates
  import opened Records
  import Dashboard

  // ---------------------------------------------------------------------------
  // Dates in an id
  // ---------------------------------------------------------------------------

  /** Ten characters matching `\d{4}-\d{2}-\d{2}`. */
  predicate IsDatePattern(t: string) {
    && |t| == 10
    && IsDigit(t[0]) && IsDigit(t[1]) && IsDigit(t[2]) && IsDigit(t[3]) && t[4] == '-'
    && IsDigit(t[5]) && IsDigit(t[6]) && t[7] == '-' && IsDigit(t[8]) && IsDigit(t[9])
  }

  /** `re.findall(r'\d{4}-\d{2}-\d{2}', s)`: the scan tries each position from
      the left, takes a match where one starts and resumes after it. */
  function DateMatches(s: string): (r: seq<string>)
    ensures forall k :: 0 <= k < |r| ==> IsDatePattern(r[k])
    decreases |s|
  {
    if |s| < 10 then []
    else if IsDatePattern(s[..10]) then [s[..10]] + DateMatches(s[10..])
    else DateMatches(s[1..])
  }

  /** A date at the front is the first match. */
  lemma DateMatchesFront(p: string, rest: string)
    requires IsDatePattern(p)
    ensures DateMatches(p + rest) == [p] + DateMatches(rest)
  {
    assert (p + rest)[..10] == p;
    assert (p + rest)[10..] == rest;
  }

  /** A character that is not a digit is skipped. */
  lemma DateMatchesSkip(c: char, rest: string)
    requires !IsDigit(c)
    ensures DateMatches([c] + rest) == DateMatches(rest)
  {
    assert ([c] + rest)[1..] == rest;
  }

  /** `date.isoformat()` matches the pattern. */
  lemma IsoTextPattern(d: Date)
    requires IsValid(d)
    ensures IsDatePattern(IsoText(d))
  {
    assert Pow10(4) == 10000 && Pow10(2) == 100;
    NatDigitsWidth(d.year, 4);
    NatDigitsWidth(d.month, 2);
    NatDigitsWidth(d.day, 2);
    var y, m, n := NatDigits(d.year, 4), NatDigits(d.month, 2), NatDigits(d.day, 2);
    var t := IsoText(d);
    assert t == y + "-" + m + "-" + n;
    assert t[0] == y[0] && t[1] == y[1] && t[2] == y[2] && t[3] == y[3];
    assert t[5] == m[0] && t[6] == m[1] && t[8] == n[0] && t[9] == n[1];
  }

  // ---------------------------------------------------------------------------
  // Type and strike
  // ---------------------------------------------------------------------------

  /** The type test: `#call#` wins over `#put#`, which wins over `#futures`. */
  function IdType(s: string): (r: string)
    ensures r == "call" <==> Contains(s, "#call#")
    ensures r == "put" <==> !Contains(s, "#call#") && Contains(s, "#put#")
    ensures r == "futures" <==> !Contains(s, "#call#") && !Contains(s, "#put#") && Contains(s, "#futures")
    ensures r == "" <==> !Contains(s, "#call#") && !Contains(s, "#put#") && !Contains(s, "#futures")
  {
    if Contains(s, "#call#") then "call"
    else if Contains(s, "#put#") then "put"
    else if Contains(s, "#futures") then "futures"
    else ""
  }

  /** `int(float(p))`, or `None` where it raises: text that is not a number,
      NaN (`ValueError`) and the infinities (`OverflowError`). */
  function SegmentInt(p: string): (r: Option<int>)
    ensures r.Some? <==> ParseFloat(p).Some? && ParseFloat(p).value.Finite?
    ensures r.Some? ==> r.value == Truncate(ParseFloat(p).value.d)
  {
    match ParseFloat(p)
    case Some(Finite(d)) => Some(Truncate(d))
    case _ => None
  }

  /** A conversion of one segment that may raise. */
  type Converter = string -> Option<int>

  /** The position of the last segment that converts, or -1 when none does. */
  function LastIntIndex(parts: seq<string>, conv: Converter): (r: int)
    ensures -1 <= r < |parts|
    ensures r >= 0 ==> conv(parts[r]).Some?
    ensures forall j :: r < j < |parts| ==> conv(parts[j]).None?
  {
    if |parts| == 0 then -1
    else if conv(parts[|parts| - 1]).Some? then |parts| - 1
    else LastIntIndex(parts[..|parts| - 1], conv)
  }

  /** The strike `parsea_id` reports: `str(int(float(p)))` of the last
      segment that converts, else `''`. */
  function StrikeText(parts: seq<string>, conv: Converter): string {
    var i := LastIntIndex(parts, conv);
    if i >= 0 then IntText(conv(parts[i]).value) else ""
  }

  /** The loop over `partes[::-1]` that stops at the first segment that
      converts. */
  method ScanStrike(parts: seq<string>, conv: Converter) returns (strike: string)
    ensures strike == StrikeText(parts, conv)
  {
    strike := "";
    var i := |parts|;
    while i > 0
      invariant 0 <= i <= |parts|
      invariant forall j :: i <= j < |parts| ==> conv(parts[j]).None?
      invariant strike == ""
      decreases i
    {
      var v := conv(parts[i - 1]);
      if v.Some? {
        assert LastIntIndex(parts, conv) == i - 1;
        strike := IntText(v.value);
        break;
      }
      i := i - 1;
    }
  }

  // ---------------------------------------------------------------------------
  // parsea_id
  // ---------------------------------------------------------------------------

  /** The dictionary `parsea_id` returns; a missing part is `''`. */
  datatype Parsed = Parsed(scrapeDate: string, date: string, tipo: string, strike: string)

  /** What `parsea_id` computes from `str(id_str)`. */
  function ParsedId(s: string): (r: Parsed)
    ensures r.scrapeDate == "" || IsDatePattern(r.scrapeDate)
    ensures r.date == "" || IsDatePattern(r.date)
    ensures r.date != "" ==> r.scrapeDate != ""
    ensures r.tipo == IdType(s)
  {
    var fechas := DateMatches(s);
    Parsed(
      if |fechas| > 0 then fechas[0] else "",
      if |fechas| > 1 then fechas[1] else "",
      IdType(s),
      StrikeText(SplitOn(s, '#'), SegmentInt))
  }

  /** `parsea_id(id_str)`. */
  method ParseaId(id: Value) returns (r: Parsed)
    ensures r == ParsedId(Str(id))
  {
    var s := Str(id);
    var fechas := DateMatches(s);
    var tipo := IdType(s);
    var strike := ScanStrike(SplitOn(s, '#'), SegmentInt);
    r := Parsed(
      if |fechas| > 0 then fechas[0] else "",
      if |fechas| > 1 then fechas[1] else "",
      tipo,
      strike);
  }

  // ---------------------------------------------------------------------------
  // Round trip with the ids the ingestion writes
  // ---------------------------------------------------------------------------

  /** The characters of a decimal's text: digits, the point and the sign. */
  predicate NumberChar(ch: char) { IsDigit(ch) || ch == '.' || ch == '-' }

  lemma DecimalTextChars(d: Decimal)
    ensures forall i :: 0 <= i < |DecimalText(d)| ==> NumberChar(DecimalText(d)[i])
  {
    var digits := NatDigits(Abs(d.mant), d.scale + 1);
    if d.scale > 0 {
      var k := |digits| - d.scale;
      AllDigitsSplit(digits, k);
    }
  }

  /** `int(x)` depends only on the value of `x`. */
  lemma TruncateByValue(a: Decimal, b: Decimal)
    requires ValueOf(a) == ValueOf(b)
    ensures Truncate(a) == Truncate(b)
  {
    ValueSign(a);
    ValueSign(b);
  }

  lemma ValueSign(d: Decimal)
    ensures d.mant >= 0 <==> ValueOf(d) >= 0.0
  {
    var p := Pow10(d.scale) as real;
    assert ValueOf(d) * p == d.mant as real;
  }

  /** `a + '#' + b + '#' + c + '#' + e`. */
  lemma JoinFour(a: string, b: string, c: string, e: string)
    ensures Join([a, b, c, e], '#') == a + "#" + b + "#" + c + "#" + e
  {
    assert [a, b, c, e][1..] == [b, c, e];
    assert [b, c, e][1..] == [c, e];
    assert [c, e][1..] == [e];
    assert Join([c, e], '#') == c + "#" + e;
    assert Join([b, c, e], '#') == b + "#" + (c + "#" + e);
    assert Join([a, b, c, e], '#') == a + "#" + (b + "#" + (c + "#" + e));
  }

  /** A string that lacks one character of `t` does not contain `t`. */
  lemma MissingChar(s: string, t: string, i: nat)
    requires i < |t| && t[i] !in s
    ensures !Contains(s, t)
  {
    if Contains(s, t) {
      var j := ContainsWitness(s, t);
    }
  }

  /** The dates of `a#b#tail` with ISO dates `a` and `b` are `a` and `b`. */
  lemma IdDates(a: string, b: string, tail: string)
    requires IsDatePattern(a) && IsDatePattern(b)
    ensures |DateMatches(a + "#" + b + tail)| >= 2
    ensures DateMatches(a + "#" + b + tail)[0] == a && DateMatches(a + "#" + b + tail)[1] == b
  {
    assert a + "#" + b + tail == a + ("#" + (b + tail));
    DateMatchesFront(a, "#" + (b + tail));
    DateMatchesSkip('#', b + tail);
    DateMatchesFront(b, tail);
  }

  /** The characters of an ISO date: digits and dashes. */
  lemma DatePatternChars(t: string)
    requires IsDatePattern(t)
    ensures 'c' !in t && '#' !in t
  {
  }

  /** The type of `pre#call#k` is `call`; that of `pre#put#k` is `put` when
      no `c` occurs. */
  lemma IdTypeOf(pre: string, tipo: string, k: string)
    requires tipo == "call" || (tipo == "put" && 'c' !in pre && 'c' !in k)
    ensures IdType(pre + "#" + tipo + "#" + k) == tipo
  {
    var t := "#" + tipo + "#";
    assert pre + "#" + tipo + "#" + k == pre + t + k;
    ContainsMiddle(pre, t, k);
    if tipo == "put" {
      assert t == "#put#";
      AbsentFromConcat(pre, t, k, 'c');
      assert "#call#"[1] == 'c';
      MissingChar(pre + t + k, "#call#", 1);
    } else {
      assert t == "#call#";
    }
  }

  lemma ContainsMiddle(a: string, t: string, b: string)
    ensures Contains(a + t + b, t)
  {
    assert (a + t + b)[|a|..|a| + |t|] == t;
    ContainsAt(a + t + b, t, |a|);
  }

  lemma AbsentFromConcat(a: string, t: string, b: string, c: char)
    requires c !in a && c !in t && c !in b
    ensures c !in a + t + b
  {
  }

  /** The strike segment of `str(float(x))` converts to `int(x)`. */
  lemma StrikeSegment(x: Decimal)
    ensures SegmentInt(FloatRepr(Finite(x))) == Some(Truncate(x))
  {
    ParseFloatRepr(Finite(x));
    TruncateByValue(ReprDecimal(x), x);
  }

  /** `str(float(x))` holds neither a `c` nor a `#`. */
  lemma StrikeSegmentChars(x: Decimal)
    ensures 'c' !in FloatRepr(Finite(x)) && '#' !in FloatRepr(Finite(x))
  {
    DecimalTextChars(ReprDecimal(x));
    assert FloatRepr(Finite(x)) == DecimalText(ReprDecimal(x));
  }

  /** The strike of `a#b#tipo#str(float(x))` is `int(x)`. */
  lemma IdStrike(a: string, b: string, tipo: string, x: Decimal)
    requires '#' !in a && '#' !in b && '#' !in tipo
    ensures StrikeText(SplitOn(Join([a, b, tipo, FloatRepr(Finite(x))], '#'), '#'), SegmentInt) == IntText(Truncate(x))
  {
    var k := FloatRepr(Finite(x));
    var parts := [a, b, tipo, k];
    StrikeSegmentChars(x);
    SplitJoinParts(parts, '#');
    StrikeSegment(x);
    StrikeOfLast(parts, SegmentInt);
  }

  /** A last segment that converts is the strike. */
  lemma StrikeOfLast(parts: seq<string>, conv: Converter)
    requires |parts| > 0 && conv(parts[|parts| - 1]).Some?
    ensures StrikeText(parts, conv) == IntText(conv(parts[|parts| - 1]).value)
  {
  }

  /** An option id as the ingestion writes it, `scrape#expiry#type#strike`
      with ISO dates, a `call` or `put` type and `str(float)` of the strike,
      is read back into its dates and type, with the strike truncated to an
      integer. */
  lemma ParseaIdRoundTrip(scrape: Date, expiry: Date, tipo: string, x: Decimal)
    requires IsValid(scrape) && IsValid(expiry) && (tipo == "call" || tipo == "put")
    ensures ParsedId(Join([IsoText(scrape), IsoText(expiry), tipo, FloatRepr(Finite(x))], '#'))
      == Parsed(IsoText(scrape), IsoText(expiry), tipo, IntText(Truncate(x)))
  {
    IsoTextPattern(scrape);
    IsoTextPattern(expiry);
    PatternIdRoundTrip(IsoText(scrape), IsoText(expiry), tipo, x);
  }

  /** The round trip for any two date-shaped texts. */
  lemma PatternIdRoundTrip(a: string, b: string, tipo: string, x: Decimal)
    requires IsDatePattern(a) && IsDatePattern(b) && (tipo == "call" || tipo == "put")
    ensures ParsedId(Join([a, b, tipo, FloatRepr(Finite(x))], '#')) == Parsed(a, b, tipo, IntText(Truncate(x)))
  {
    StrikeSegmentChars(x);
    ParsedIdOfParts(a, b, tipo, FloatRepr(Finite(x)));
    DatePatternChars(a);
    DatePatternChars(b);
    assert '#' !in tipo;
    IdStrike(a, b, tipo, x);
  }

  /** The dates and the type of an id made of two dates, a type and a strike
      segment without `c` or `#`. */
  lemma ParsedIdOfParts(a: string, b: string, tipo: string, k: string)
    requires IsDatePattern(a) && IsDatePattern(b) && (tipo == "call" || tipo == "put") && 'c' !in k
    ensures var s := Join([a, b, tipo, k], '#');
      ParsedId(s) == Parsed(a, b, tipo, StrikeText(SplitOn(s, '#'), SegmentInt))
  {
    var s := Join([a, b, tipo, k], '#');
    JoinFour(a, b, tipo, k);
    IdDates(a, b, "#" + tipo + "#" + k);
    assert s == a + "#" + b + ("#" + tipo + "#" + k);
    DatePatternChars(a);
    DatePatternChars(b);
    assert 'c' !in a + "#" + b;
    IdTypeOf(a + "#" + b, tipo, k);
  }

  /** An integral strike the ingestion stored as ten times its value (the
      locale conversion of `str(float)`) is read back as that larger
      integer. */
  lemma ParseaIdStoredStrike(scrape: Date, expiry: Date, tipo: string, n: int)
    requires IsValid(scrape) && IsValid(expiry) && (tipo == "call" || tipo == "put")
    ensures ParsedId(Join([IsoText(scrape), IsoText(expiry), tipo, FloatRepr(Finite(Decimal(10 * n, 0)))], '#')).strike
      == IntText(10 * n)
  {
    ParseaIdRoundTrip(scrape, expiry, tipo, Decimal(10 * n, 0));
    assert Pow10(0) == 1;
  }

  // ---------------------------------------------------------------------------
  // Back-fill
  // ---------------------------------------------------------------------------

  /** A DataFrame: its column names and its rows. */
  datatype Table = Table(columns: seq<string>, rows: seq<Obj>)

  /** The columns filled from the id, in the order they are tried. */
  const FilledColumns: seq<string> := ["scrape_date", "date", "type", "strike"]

  /** `parsed[col]` for one row. */
  function Field(p: Parsed, col: string): string {
    if col == "scrape_date" then p.scrapeDate
    else if col == "date" then p.date
    else if col == "type" then p.tipo
    else p.strike
  }

  /** `col not in df.columns or df[col].isnull().all()`. */
  predicate NeedsFill(t: Table, col: string) {
    col !in t.columns || forall k :: 0 <= k < |t.rows| ==> Dashboard.IsNull(Get(t.rows[k], col))
  }

  /** `df['id'].apply(parsea_id)`. */
  function IdsParsed(t: Table): (r: seq<Parsed>)
    ensures |r| == |t.rows|
    ensures forall k :: 0 <= k < |t.rows| ==> r[k] == ParsedId(Str(Get(t.rows[k], "id")))
  {
    seq(|t.rows|, k requires 0 <= k < |t.rows| => ParsedId(Str(Get(t.rows[k], "id"))))
  }

  /** `df[col] = parsed[col]` when the column needs it. */
  function FillStep(t: Table, col: string, parsed: seq<Parsed>): (r: Table)
    requires |parsed| == |t.rows|
    ensures |r.rows| == |t.rows|
    ensures r.columns == if NeedsFill(t, col) && col !in t.columns then t.columns + [col] else t.columns
    ensures forall k :: 0 <= k < |t.rows| ==>
      r.rows[k] == if NeedsFill(t, col) then t.rows[k][col := VStr(Field(parsed[k], col))] else t.rows[k]
  {
    if !NeedsFill(t, col) then t
    else
      Table(
        if col in t.columns then t.columns else t.columns + [col],
        seq(|t.rows|, k requires 0 <= k < |t.rows| => t.rows[k][col := VStr(Field(parsed[k], col))]))
  }

  /** The loop over the columns, as a fold. */
  function FillAll(t: Table, cols: seq<string>, parsed: seq<Parsed>): (r: Table)
    requires |parsed| == |t.rows|
    ensures |r.rows| == |t.rows|
  {
    if |cols| == 0 then t
    else FillStep(FillAll(t, cols[..|cols| - 1], parsed), cols[|cols| - 1], parsed)
  }

  /** The back-fill of one table: nothing happens to an empty table or one
      without an `id` column. */
  function BackFilled(t: Table): (r: Table)
    ensures |r.rows| == |t.rows|
  {
    if |t.rows| == 0 || "id" !in t.columns then t
    else FillAll(t, FilledColumns, IdsParsed(t))
  }

  /** The back-fill loop. */
  method BackFill(t: Table) returns (r: Table)
    ensures r == BackFilled(t)
  {
    if |t.rows| == 0 || "id" !in t.columns {
      return t;
    }
    var parsed := IdsParsed(t);
    r := t;
    for i := 0 to |FilledColumns|
      invariant |r.rows| == |t.rows|
      invariant r == FillAll(t, FilledColumns[..i], parsed)
    {
      assert FilledColumns[..i + 1][..i] == FilledColumns[..i];
      r := FillStep(r, FilledColumns[i], parsed);
    }
    assert FilledColumns[..|FilledColumns|] == FilledColumns;
  }

  /** Filling other columns does not change whether `col` needs filling, nor
      its values. */
  lemma {:induction false} FillAllOther(t: Table, cols: seq<string>, parsed: seq<Parsed>, col: string)
    requires |parsed| == |t.rows| && col !in cols
    ensures NeedsFill(FillAll(t, cols, parsed), col) == NeedsFill(t, col)
    ensures forall k :: 0 <= k < |t.rows| ==> Get(FillAll(t, cols, parsed).rows[k], col) == Get(t.rows[k], col)
  {
    if |cols| > 0 {
      var n := |cols| - 1;
      FillAllOther(t, cols[..n], parsed, col);
      var u := FillAll(t, cols[..n], parsed);
      assert cols[n] != col;
      assert col in FillStep(u, cols[n], parsed).columns <==> col in u.columns;
    }
  }

  /** What a fold over distinct columns leaves in each of them. */
  lemma {:induction false} FillAllValues(t: Table, cols: seq<string>, parsed: seq<Parsed>, col: string, k: nat)
    requires |parsed| == |t.rows| && k < |t.rows|
    requires forall i, j :: 0 <= i < j < |cols| ==> cols[i] != cols[j]
    ensures Get(FillAll(t, cols, parsed).rows[k], col) ==
      if col in cols && NeedsFill(t, col) then VStr(Field(parsed[k], col)) else Get(t.rows[k], col)
    ensures col in FillAll(t, cols, parsed).columns <==> col in t.columns || (col in cols && NeedsFill(t, col))
  {
    if |cols| > 0 {
      var n := |cols| - 1;
      var pre := cols[..n];
      assert cols == pre + [cols[n]];
      FillAllValues(t, pre, parsed, col, k);
      if cols[n] == col {
        assert col !in pre;
        FillAllOther(t, pre, parsed, col);
      }
    }
  }

  /** After the back-fill, each of the four columns holds the id's part in
      every row exactly when the table had an id column and rows, and the
      column was missing or all null; every other value is unchanged. */
  lemma BackFilledValues(t: Table, k: nat, col: string)
    requires k < |t.rows|
    ensures Get(BackFilled(t).rows[k], col) ==
      if "id" in t.columns && col in FilledColumns && NeedsFill(t, col)
      then VStr(Field(ParsedId(Str(Get(t.rows[k], "id"))), col))
      else Get(t.rows[k], col)
  {
    if "id" in t.columns {
      FillAllValues(t, FilledColumns, IdsParsed(t), col, k);
    }
  }

  lemma FilledColumnsDistinct()
    ensures forall i, j :: 0 <= i < j < |FilledColumns| ==> FilledColumns[i] != FilledColumns[j]
  {
  }

  /** After the back-fill no filled column needs filling again. */
  lemma FilledColumnSettled(t: Table, col: string)
    requires |t.rows| > 0 && "id" in t.columns && col in FilledColumns
    ensures !NeedsFill(BackFilled(t), col)
  {
    FilledColumnsDistinct();
    var parsed := IdsParsed(t);
    FillAllValues(t, FilledColumns, parsed, col, 0);
    if !NeedsFill(t, col) {
      var j :| 0 <= j < |t.rows| && !Dashboard.IsNull(Get(t.rows[j], col));
      FillAllValues(t, FilledColumns, parsed, col, j);
    }
  }

  /** A second back-fill changes nothing: a filled column holds strings,
      which are never null. */
  lemma BackFilledIdempotent(t: Table)
    ensures BackFilled(BackFilled(t)) == BackFilled(t)
  {
    var u := BackFilled(t);
    if |t.rows| > 0 && "id" in t.columns {
      forall i | 0 <= i < |FilledColumns|
        ensures !NeedsFill(u, FilledColumns[i])
      {
        FilledColumnSettled(t, FilledColumns[i]);
      }
      FilledColumnsDistinct();
      FillAllValues(t, FilledColumns, IdsParsed(t), "id", 0);
      NoFillKeeps(u, FilledColumns, IdsParsed(u));
    }
  }

  /** A fold over columns none of which needs filling is the identity. */
  lemma {:induction false} NoFillKeeps(t: Table, cols: seq<string>, parsed: seq<Parsed>)
    requires |parsed| == |t.rows|
    requires forall i :: 0 <= i < |cols| ==> !NeedsFill(t, cols[i])
    ensures FillAll(t, cols, parsed) == t
  {
    if |cols| > 0 {
      NoFillKeeps(t, cols[..|cols| - 1], parsed);
    }
  }
}
