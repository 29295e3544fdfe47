/** Calendar dates as Python's `datetime` module handles them: the proleptic
    Gregorian calendar of years 1 to 9999, the day numbers of `toordinal()`,
    the three `strptime` formats the scrapers use (`%d/%m/%Y`, `%Y-%m-%d` and
    `%d %b. %Y`), `strftime` of the first two, the whole-day difference
    `(a - b).days`, and the expiry parser `parse_spanish_date`. */
module Dates {
  import opened Wrappers
  import opened Text
  import opened Numbers
  import opened NumberFacts

  datatype Date = Date(year: int, month: int, day: int)

  predicate IsLeap(y: int) { y % 4 == 0 && (y % 100 != 0 || y % 400 == 0) }

  function DaysInYear(y: int): int { if IsLeap(y) then 366 else 365 }

  function DaysInMonth(y: int, m: int): (r: int)
    requires 1 <= m <= 12
    ensures 28 <= r <= 31
  {
    if m == 2 then (if IsLeap(y) then 29 else 28)
    else if m == 4 || m == 6 || m == 9 || m == 11 then 30
    else 31
  }

  /** A date `datetime.date` can hold. */
  predicate IsValid(d: Date) {
    1 <= d.year <= 9999 && 1 <= d.month <= 12 && 1 <= d.day <= DaysInMonth(d.year, d.month)
  }

  /** A date that is a real calendar day, as every `date` and `Timestamp`
      value is. */
  type ValidDate = d: Date | IsValid(d) witness Date(1, 1, 1)

  /** The range of the C `int` the constructor converts its arguments to. */
  predicate FitsCInt(n: int) { -0x8000_0000 <= n <= 0x7fff_ffff }

  /** `date(year, month, day)`: an argument outside the C `int` range raises
      `OverflowError`; a year, month or day out of range raises `ValueError`. */
  function MakeDate(year: int, month: int, day: int): (r: Result<Date>)
    ensures r.Ok? <==> IsValid(Date(year, month, day))
    ensures r.Ok? ==> r.value == Date(year, month, day)
    ensures r.Err? ==> r.error == (if FitsCInt(year) && FitsCInt(month) && FitsCInt(day) then ValueError else OverflowError)
  {
    if !(FitsCInt(year) && FitsCInt(month) && FitsCInt(day)) then Err(OverflowError)
    else if !(1 <= year <= 9999) || !(1 <= month <= 12) then Err(ValueError)
    else if !(1 <= day <= DaysInMonth(year, month)) then Err(ValueError)
    else Ok(Date(year, month, day))
  }

  // ---------------------------------------------------------------------------
  // Day numbers
  // ---------------------------------------------------------------------------

  /** Days in the years before `y`. */
  function DaysBeforeYear(y: int): int
    requires y >= 1
  {
    var p := y - 1;
    p * 365 + p / 4 - p / 100 + p / 400
  }

  /** Days in the months of year `y` before month `m`. */
  function DaysBeforeMonth(y: int, m: int): (r: int)
    requires 1 <= m <= 12
    ensures 0 <= r <= 335
  {
    var common :=
      if m == 1 then 0 else if m == 2 then 31 else if m == 3 then 59
      else if m == 4 then 90 else if m == 5 then 120 else if m == 6 then 151
      else if m == 7 then 181 else if m == 8 then 212 else if m == 9 then 243
      else if m == 10 then 273 else if m == 11 then 304 else 334;
    common + (if m > 2 && IsLeap(y) then 1 else 0)
  }

  /** `date.toordinal()`: 1 for 0001-01-01, one more for each later day. */
  function Ordinal(d: Date): (r: int)
    requires IsValid(d)
    ensures r >= 1
  {
    DaysBeforeYear(d.year) + DaysBeforeMonth(d.year, d.month) + d.day
  }

  lemma YearStep(y: int)
    requires y >= 1
    ensures DaysBeforeYear(y + 1) == DaysBeforeYear(y) + DaysInYear(y)
  {
    var p := y - 1;
    assert (p + 1) / 4 == p / 4 + (if y % 4 == 0 then 1 else 0);
    assert (p + 1) / 100 == p / 100 + (if y % 100 == 0 then 1 else 0);
    assert (p + 1) / 400 == p / 400 + (if y % 400 == 0 then 1 else 0);
  }

  lemma {:induction false} YearsAscend(y: int, z: int)
    requires 1 <= y <= z
    ensures DaysBeforeYear(y) + 365 * (z - y) <= DaysBeforeYear(z)
    decreases z - y
  {
    if y < z {
      YearStep(y);
      YearsAscend(y + 1, z);
    }
  }

  lemma MonthStep(y: int, m: int)
    requires 1 <= m < 12
    ensures DaysBeforeMonth(y, m) + DaysInMonth(y, m) == DaysBeforeMonth(y, m + 1)
  {
  }

  lemma {:induction false} MonthsAscend(y: int, m: int, n: int)
    requires 1 <= m < n <= 12
    ensures DaysBeforeMonth(y, m) + DaysInMonth(y, m) <= DaysBeforeMonth(y, n)
    decreases n - m
  {
    MonthStep(y, m);
    if m + 1 < n {
      MonthsAscend(y, m + 1, n);
    }
  }

  /** A date's place in its year never passes the year's length. */
  lemma DayOfYearBound(d: Date)
    requires IsValid(d)
    ensures DaysBeforeMonth(d.year, d.month) + d.day <= DaysInYear(d.year)
  {
  }

  /** Calendar order: by year, then month, then day. */
  predicate Before(a: Date, b: Date) {
    a.year < b.year || (a.year == b.year && (a.month < b.month || (a.month == b.month && a.day < b.day)))
  }

  lemma OrdinalIncreases(a: Date, b: Date)
    requires IsValid(a) && IsValid(b) && Before(a, b)
    ensures Ordinal(a) < Ordinal(b)
  {
    if a.year < b.year {
      DayOfYearBound(a);
      YearStep(a.year);
      YearsAscend(a.year + 1, b.year);
    } else if a.month < b.month {
      MonthsAscend(a.year, a.month, b.month);
    }
  }

  /** Day numbers follow calendar order in both directions, so two valid dates
      with the same day number are the same date. */
  lemma OrdinalOrder(a: Date, b: Date)
    requires IsValid(a) && IsValid(b)
    ensures Before(a, b) <==> Ordinal(a) < Ordinal(b)
    ensures a == b <==> Ordinal(a) == Ordinal(b)
  {
    if Before(a, b) {
      OrdinalIncreases(a, b);
    } else if a != b {
      assert Before(b, a);
      OrdinalIncreases(b, a);
    }
  }

  /** The next calendar day; undefined after 9999-12-31. */
  function NextDay(d: Date): (r: Date)
    requires IsValid(d) && d != Date(9999, 12, 31)
    ensures IsValid(r) && Before(d, r)
    ensures Ordinal(r) == Ordinal(d) + 1
  {
    if d.day < DaysInMonth(d.year, d.month) then Date(d.year, d.month, d.day + 1)
    else if d.month < 12 then
      MonthStep(d.year, d.month);
      Date(d.year, d.month + 1, 1)
    else
      YearStep(d.year);
      Date(d.year + 1, 1, 1)
  }

  lemma FirstOrdinal()
    ensures IsValid(Date(1, 1, 1)) && Ordinal(Date(1, 1, 1)) == 1
  {
  }

  /** `(b - a).days` for two dates at midnight. */
  function DaysBetween(a: Date, b: Date): int
    requires IsValid(a) && IsValid(b)
  {
    Ordinal(b) - Ordinal(a)
  }

  const MicrosPerDay: nat := 86_400_000_000

  /** A `datetime` reading of the clock: a date and the microseconds since the
      midnight that starts it. */
  datatype Instant = Instant(date: Date, micros: nat)

  predicate IsValidInstant(t: Instant) { IsValid(t.date) && t.micros < MicrosPerDay }

  /** `(expiry - now).days` for an expiry at midnight: `timedelta` rounds the
      difference down to whole days, so any time past midnight costs one day. */
  function DaysFromNow(expiry: Date, now: Instant): (r: int)
    requires IsValid(expiry) && IsValidInstant(now)
    ensures r as real <= (Ordinal(expiry) - Ordinal(now.date)) as real - now.micros as real / MicrosPerDay as real < r as real + 1.0
  {
    var whole := Ordinal(expiry) - Ordinal(now.date);
    if now.micros == 0 then whole else whole - 1
  }

  // ---------------------------------------------------------------------------
  // strptime fields
  // ---------------------------------------------------------------------------

  /** `%d`: `3[01]`, `[12]\d`, `0[1-9]`, `[1-9]` or a space before `[1-9]`. */
  function DayField(t: string): (r: Option<int>)
    ensures r.Some? ==> 1 <= r.value <= 31
  {
    if |t| == 1 && '1' <= t[0] <= '9' then Some(DigitValue(t[0]))
    else if |t| == 2 && t[0] == ' ' && '1' <= t[1] <= '9' then Some(DigitValue(t[1]))
    else if |t| == 2 && ((t[0] == '3' && '0' <= t[1] <= '1') || ('1' <= t[0] <= '2' && IsDigit(t[1]))
                         || (t[0] == '0' && '1' <= t[1] <= '9'))
    then Some(10 * DigitValue(t[0]) + DigitValue(t[1]))
    else None
  }

  /** `%m`: `1[0-2]`, `0[1-9]` or `[1-9]`. */
  function MonthField(t: string): (r: Option<int>)
    ensures r.Some? ==> 1 <= r.value <= 12
  {
    if |t| == 1 && '1' <= t[0] <= '9' then Some(DigitValue(t[0]))
    else if |t| == 2 && ((t[0] == '1' && '0' <= t[1] <= '2') || (t[0] == '0' && '1' <= t[1] <= '9'))
    then Some(10 * DigitValue(t[0]) + DigitValue(t[1]))
    else None
  }

  /** `%Y`: exactly four digits. */
  function YearField(t: string): (r: Option<int>)
    ensures r.Some? ==> 0 <= r.value <= 9999
  {
    if |t| == 4 && AllDigits(t) then
      DigitsValueBound(t);
      assert Pow10(4) == 10000;
      Some(DigitsValue(t))
    else None
  }

  lemma {:induction false} NatDigitsWidth(n: nat, w: nat)
    requires w >= 1 && n < Pow10(w)
    ensures |NatDigits(n, w)| == w
    decreases w
  {
    if !(n < 10 && w <= 1) {
      assert w > 1;
      assert n / 10 < Pow10(w - 1);
      NatDigitsWidth(n / 10, w - 1);
    }
  }

  lemma TwoDigits(n: nat)
    requires n < 100
    ensures var t := NatDigits(n, 2);
      |t| == 2 && 10 * DigitValue(t[0]) + DigitValue(t[1]) == n
  {
    NatDigitsWidth(n, 2);
    var t := NatDigits(n, 2);
    assert t[..1][..0] == [];
  }

  /** Zero-padded two-digit text of a day is read back by `%d`. */
  lemma DayFieldPadded(n: int)
    requires 1 <= n <= 31
    ensures DayField(NatDigits(n, 2)) == Some(n)
  {
    TwoDigits(n);
  }

  lemma MonthFieldPadded(n: int)
    requires 1 <= n <= 12
    ensures MonthField(NatDigits(n, 2)) == Some(n)
  {
    TwoDigits(n);
  }

  lemma YearFieldPadded(n: int)
    requires 0 <= n <= 9999
    ensures YearField(NatDigits(n, 4)) == Some(n)
  {
    NatDigitsWidth(n, 4);
  }

  /** The date the three fields name, when they name a valid one. */
  function DateOfFields(d: Option<int>, m: Option<int>, y: Option<int>): (r: Option<Date>)
    ensures r.Some? ==> IsValid(r.value)
    ensures r.Some? <==> d.Some? && m.Some? && y.Some? && IsValid(Date(y.value, m.value, d.value))
  {
    if d.Some? && m.Some? && y.Some? && IsValid(Date(y.value, m.value, d.value))
    then Some(Date(y.value, m.value, d.value)) else None
  }

  // ---------------------------------------------------------------------------
  // The numeric strptime formats and their strftime partners
  // ---------------------------------------------------------------------------

  /** `datetime.strptime(s, "%d/%m/%Y")`; `None` is the `ValueError`.  No field
      can hold a `/`, so the match splits `s` at its slashes. */
  function StrptimeDMY(s: string): (r: Option<Date>)
    ensures r.Some? ==> IsValid(r.value)
  {
    var p := SplitOn(s, '/');
    if |p| == 3 then DateOfFields(DayField(p[0]), MonthField(p[1]), YearField(p[2])) else None
  }

  /** `datetime.strptime(s, "%Y-%m-%d")`. */
  function StrptimeYMD(s: string): (r: Option<Date>)
    ensures r.Some? ==> IsValid(r.value)
  {
    var p := SplitOn(s, '-');
    if |p| == 3 then DateOfFields(DayField(p[2]), MonthField(p[1]), YearField(p[0])) else None
  }

  /** Splitting three separator-free fields joined by the separator. */
  lemma SplitThree(a: string, c: char, b: string, e: string)
    requires c !in a && c !in b && c !in e
    ensures SplitOn(a + [c] + b + [c] + e, c) == [a, b, e]
  {
    assert a + [c] + b + [c] + e == a + [c] + (b + [c] + e);
    SplitOnConcat(a, c, b + [c] + e);
    SplitOnConcat(b, c, e);
    SplitOnNoSep(e, c);
  }

  lemma StrptimeDMYFields(a: string, b: string, e: string)
    requires '/' !in a && '/' !in b && '/' !in e
    ensures StrptimeDMY(a + "/" + b + "/" + e) == DateOfFields(DayField(a), MonthField(b), YearField(e))
  {
    SplitThree(a, '/', b, e);
  }

  lemma StrptimeYMDFields(a: string, b: string, e: string)
    requires '-' !in a && '-' !in b && '-' !in e
    ensures StrptimeYMD(a + "-" + b + "-" + e) == DateOfFields(DayField(e), MonthField(b), YearField(a))
  {
    SplitThree(a, '-', b, e);
  }

  /** `d.strftime("%d/%m/%Y")`. */
  function DMYText(d: Date): string
    requires IsValid(d)
  {
    NatDigits(d.day, 2) + "/" + NatDigits(d.month, 2) + "/" + NatDigits(d.year, 4)
  }

  /** `d.strftime("%Y-%m-%d")`, which is also `str(d)`. */
  function IsoText(d: Date): string
    requires IsValid(d)
  {
    NatDigits(d.year, 4) + "-" + NatDigits(d.month, 2) + "-" + NatDigits(d.day, 2)
  }

  lemma StrptimeDMYText(d: Date)
    requires IsValid(d)
    ensures StrptimeDMY(DMYText(d)) == Some(d)
  {
    DigitsNoChar(NatDigits(d.day, 2), '/');
    DigitsNoChar(NatDigits(d.month, 2), '/');
    DigitsNoChar(NatDigits(d.year, 4), '/');
    StrptimeDMYFields(NatDigits(d.day, 2), NatDigits(d.month, 2), NatDigits(d.year, 4));
    DayFieldPadded(d.day);
    MonthFieldPadded(d.month);
    YearFieldPadded(d.year);
  }

  lemma StrptimeIsoText(d: Date)
    requires IsValid(d)
    ensures StrptimeYMD(IsoText(d)) == Some(d)
  {
    DigitsNoChar(NatDigits(d.day, 2), '-');
    DigitsNoChar(NatDigits(d.month, 2), '-');
    DigitsNoChar(NatDigits(d.year, 4), '-');
    StrptimeYMDFields(NatDigits(d.year, 4), NatDigits(d.month, 2), NatDigits(d.day, 2));
    DayFieldPadded(d.day);
    MonthFieldPadded(d.month);
    YearFieldPadded(d.year);
  }

  // ---------------------------------------------------------------------------
  // "%d %b. %Y"
  // ---------------------------------------------------------------------------

  /** `%b` in the C locale, compared without regard to case. */
  const EnglishMonths: seq<string> :=
    ["jan", "feb", "mar", "apr", "may", "jun", "jul", "aug", "sep", "oct", "nov", "dec"]

  /** Position of the first name equal to `t` ignoring case. */
  function FindFolded(t: string, names: seq<string>): (r: Option<nat>)
    ensures r.Some? ==> r.value < |names| && LowerEquals(t, names[r.value])
    ensures r.None? ==> forall k :: 0 <= k < |names| ==> !LowerEquals(t, names[k])
  {
    if |names| == 0 then None
    else if LowerEquals(t, names[0]) then Some(0)
    else match FindFolded(t, names[1..])
      case None => None
      case Some(k) => Some(k + 1)
  }

  function EnglishMonth(t: string): (r: Option<int>)
    ensures r.Some? ==> 1 <= r.value <= 12 && LowerEquals(t, EnglishMonths[r.value - 1])
  {
    match FindFolded(t, EnglishMonths)
    case None => None
    case Some(k) => Some(k + 1)
  }

  /** Where `%d` stops: before the first whitespace, or after a space and one
      more character. */
  function DayEnd(s: string): (r: nat)
    ensures r <= |s|
  {
    if |s| > 0 && s[0] == ' ' then (if |s| < 2 then |s| else 2) else SpaceIndex(s)
  }

  /** A format space, `\s+`: at least one whitespace character, all of them
      consumed. */
  function AfterSpaces(t: string): (r: Option<string>)
    ensures r.Some? ==> |r.value| < |t| && r.value == t[|t| - |r.value|..]
  {
    var u := LStrip(t);
    if |u| == |t| then None else Some(u)
  }

  /** `datetime.strptime(s, "%d %b. %Y")`.  The day is the text `DayEnd`
      marks, the month name is three letters followed by a point, and the
      year is the four digits that end `s`. */
  function StrptimeDayMonthYear(s: string): (r: Option<Date>)
    ensures r.Some? ==> IsValid(r.value)
  {
    var k := DayEnd(s);
    match AfterSpaces(s[k..])
    case None => None
    case Some(mon) =>
      if |mon| < 4 || mon[3] != '.' then None
      else match AfterSpaces(mon[4..])
        case None => None
        case Some(year) => DateOfFields(DayField(s[..k]), EnglishMonth(mon[..3]), YearField(year))
  }

  lemma DayEndWord(a: string, t: string)
    requires IsWord(a) && a[0] != ' ' && (|t| == 0 || IsSpace(t[0]))
    ensures DayEnd(a + t) == |a|
  {
    assert (a + t)[0] == a[0];
    SpaceIndexWord(a, t);
  }

  lemma AfterOneSpace(t: string)
    requires |t| > 0 && !IsSpace(t[0])
    ensures AfterSpaces([' '] + t) == Some(t)
  {
    assert ([' '] + t)[1..] == t;
  }

  /** How `%d %b. %Y` reads a day word, a single space, a three-letter month, a
      point, a single space and a digit string. */
  lemma DayMonthYearFields(a: string, m: string, y: string)
    requires IsWord(a) && a[0] != ' '
    requires |m| == 3 && !IsSpace(m[0])
    requires |y| > 0 && AllDigits(y)
    ensures StrptimeDayMonthYear(a + ([' '] + (m + ['.'] + ([' '] + y))))
      == DateOfFields(DayField(a), EnglishMonth(m), YearField(y))
  {
    var mon := m + ['.'] + ([' '] + y);
    var s := a + ([' '] + mon);
    DayEndWord(a, [' '] + mon);
    assert s[..|a|] == a && s[|a|..] == [' '] + mon;
    assert mon[0] == m[0];
    AfterOneSpace(mon);
    assert mon[3] == '.' && mon[..3] == m && mon[4..] == [' '] + y;
    AfterOneSpace(y);
  }

  /** A month word that is not an English abbreviation fails the whole parse. */
  lemma UnknownMonthRejected(a: string, m: string, y: string)
    requires IsWord(a) && a[0] != ' '
    requires |m| == 3 && !IsSpace(m[0]) && EnglishMonth(m).None?
    requires |y| > 0 && AllDigits(y)
    ensures StrptimeDayMonthYear(a + ([' '] + (m + ['.'] + ([' '] + y)))) == None
  {
    DayMonthYearFields(a, m, y);
  }

  // ---------------------------------------------------------------------------
  // parse_spanish_date
  // ---------------------------------------------------------------------------

  const SpanishMonths: map<string, int> := map[
    "ene." := 1, "feb." := 2, "mar." := 3, "abr." := 4,
    "may." := 5, "jun." := 6, "jul." := 7, "ago." := 8,
    "sep." := 9, "oct." := 10, "nov." := 11, "dic." := 12]

  /** The abbreviation a MEFF page prints for month `m`. */
  function SpanishAbbrev(m: int): (r: string)
    requires 1 <= m <= 12
    ensures r in SpanishMonths && SpanishMonths[r] == m
  {
    ["ene.", "feb.", "mar.", "abr.", "may.", "jun.", "jul.", "ago.", "sep.", "oct.", "nov.", "dic."][m - 1]
  }

  /** `parse_spanish_date`: first `dd/mm/yyyy`; failing that, the lower-cased
      text must split into exactly three words, day and year must read as
      integers, the month word must be one of the twelve dotted Spanish
      abbreviations and the three must form a valid date.  Every failure is
      a `ValueError`, except a day or year too large for a C `int`. */
  function ParseSpanishDate(s: string): (r: Result<Date>)
    ensures r.Ok? ==> IsValid(r.value)
  {
    match StrptimeDMY(s)
    case Some(d) => Ok(d)
    case None =>
      var parts := SplitWs(Lower(s));
      if |parts| != 3 then Err(ValueError)
      else match ParseInt(parts[0])
        case None => Err(ValueError)
        case Some(day) =>
          match ParseInt(parts[2])
          case None => Err(ValueError)
          case Some(year) =>
            if parts[1] !in SpanishMonths then Err(ValueError)
            else MakeDate(year, SpanishMonths[parts[1]], day)
  }

  /** The order of the tests inside the fallback does not matter: every way
      the fallback can fail before the constructor is a `ValueError`. */
  lemma SpanishFallbackErrors(s: string)
    requires StrptimeDMY(s).None?
    ensures var parts := SplitWs(Lower(s));
      (|parts| != 3 || ParseInt(parts[0]).None? || ParseInt(parts[2]).None? || parts[1] !in SpanishMonths)
      ==> ParseSpanishDate(s) == Err(ValueError)
    ensures ParseSpanishDate(s).Ok? ==> var parts := SplitWs(Lower(s));
      |parts| == 3 && parts[1] in SpanishMonths
      && ParseSpanishDate(s).value == Date(ParseInt(parts[2]).value, SpanishMonths[parts[1]], ParseInt(parts[0]).value)
  {
  }

  /** The text a MEFF page shows for an expiry: day, abbreviation, year. */
  function SpanishText(d: Date): string
    requires IsValid(d)
  {
    IntText(d.day) + " " + SpanishAbbrev(d.month) + " " + IntText(d.year)
  }

  /** Both spellings of a valid date are read back as that date. */
  lemma ParseSpanishDMY(d: Date)
    requires IsValid(d)
    ensures ParseSpanishDate(DMYText(d)) == Ok(d)
  {
    StrptimeDMYText(d);
  }

  lemma ParseSpanishWords(d: Date)
    requires IsValid(d)
    ensures ParseSpanishDate(SpanishText(d)) == Ok(d)
  {
    var a := IntText(d.day);
    var b := SpanishAbbrev(d.month);
    var c := IntText(d.year);
    SpanishTextWords(d);
    assert SplitWs(Lower(SpanishText(d))) == [a, b, c];
    ParseIntText(d.day);
    ParseIntText(d.year);
  }

  /** A Spanish expiry text has no slash and splits into its three words. */
  lemma SpanishTextWords(d: Date)
    requires IsValid(d)
    ensures StrptimeDMY(SpanishText(d)) == None
    ensures SplitWs(Lower(SpanishText(d))) == [IntText(d.day), SpanishAbbrev(d.month), IntText(d.year)]
  {
    var a := IntText(d.day);
    var b := SpanishAbbrev(d.month);
    var c := IntText(d.year);
    assert a == NatDigits(d.day, 0) && c == NatDigits(d.year, 0);
    NoSlash(a, b, c);
    SplitOnNoSep(SpanishText(d), '/');
    LowerWords(a, b, c);
  }

  lemma LowerWords(a: string, b: string, c: string)
    requires AllDigits(a) && AllDigits(c) && |a| > 0 && |c| > 0
    requires b in SpanishMonths
    ensures SplitWs(Lower(a + " " + b + " " + c)) == [a, b, c]
  {
    AllLowerWords(a, b, c);
    LowerOfLower(a + " " + b + " " + c);
    DigitsWord(a);
    DigitsWord(c);
    SplitWsThree(a, b, c);
  }

  lemma NoSlash(a: string, b: string, c: string)
    requires AllDigits(a) && AllDigits(c)
    requires b in SpanishMonths
    ensures '/' !in a + " " + b + " " + c
  {
  }

  lemma AllLowerWords(a: string, b: string, c: string)
    requires AllDigits(a) && AllDigits(c)
    requires b in SpanishMonths
    ensures IsLower(a + " " + b + " " + c)
  {
  }

  lemma DigitsWord(a: string)
    requires AllDigits(a) && |a| > 0
    ensures IsWord(a)
  {
  }
}

module DateExamples {
  import opened Wrappers
  import opened Text
  import opened Numbers
  import opened Dates

  lemma NumericExample()
    ensures ParseSpanishDate("16/05/2025") == Ok(Date(2025, 5, 16))
  {
    ExampleText();
    ParseSpanishDMY(Date(2025, 5, 16));
  }

  lemma ExampleText()
    ensures DMYText(Date(2025, 5, 16)) == "16/05/2025"
  {
    Digits16();
    Digits05();
    Digits2025();
  }

  lemma Digits16()
    ensures NatDigits(16, 2) == "16"
  {
    assert NatDigits(1, 1) == "1";
  }

  lemma Digits05()
    ensures NatDigits(5, 2) == "05"
  {
    assert NatDigits(0, 1) == "0";
  }

  lemma Digits2025()
    ensures NatDigits(2025, 4) == "2025"
  {
    assert NatDigits(2, 1) == "2";
    assert NatDigits(20, 2) == "20";
    assert NatDigits(202, 3) == "202";
  }

  lemma WordsExample()
    ensures ParseSpanishDate("16 may. 2025") == Ok(Date(2025, 5, 16))
  {
    WordsText();
    ParseSpanishWords(Date(2025, 5, 16));
  }

  lemma WordsText()
    ensures SpanishText(Date(2025, 5, 16)) == "16 may. 2025"
  {
    Words16();
    Words2025();
    assert SpanishAbbrev(5) == "may.";
  }

  lemma Words16()
    ensures IntText(16) == "16"
  {
    assert NatDigits(1, 0) == "1";
  }

  lemma Words2025()
    ensures IntText(2025) == "2025"
  {
    assert NatDigits(2, 0) == "2";
    assert NatDigits(20, 0) == "20";
    assert NatDigits(202, 0) == "202";
  }

  /** The text of neither form is rejected with `ValueError`. */
  lemma InvalidExample()
    ensures ParseSpanishDate("invalid-date") == Err(ValueError)
  {
    InvalidNoSlash();
    InvalidOneWord();
  }

  lemma InvalidNoSlash()
    ensures StrptimeDMY("invalid-date") == None
  {
    SplitOnNoSep("invalid-date", '/');
  }

  lemma InvalidOneWord()
    ensures |SplitWs(Lower("invalid-date"))| == 1
  {
    LowerOfLower("invalid-date");
    SplitWsOne("invalid-date");
  }

  /** A MEFF futures expiry in May reads as `%d %b. %Y`, because the Spanish
      and English abbreviations agree. */
  lemma FuturesMayExample()
    ensures StrptimeDayMonthYear("16 may. 2025") == Some(Date(2025, 5, 16))
  {
    FuturesMayText();
    Day16();
    MayIsFifth();
    Year2025();
    DayMonthYearFields("16", "may", "2025");
  }

  lemma FuturesMayText()
    ensures "16" + ([' '] + ("may" + ['.'] + ([' '] + "2025"))) == "16 may. 2025"
  {
  }

  lemma Day16()
    ensures DayField("16") == Some(16)
  {
  }

  lemma MayIsFifth()
    ensures EnglishMonth("may") == Some(5)
  {
    assert FindFolded("may", EnglishMonths[4..]) == Some(0);
  }

  lemma Year2025()
    ensures YearField("2025") == Some(2025)
  {
    Words2025();
  }

  /** Of the twelve abbreviations a MEFF page prints, the C-locale `%b`
      knows the eight that English shares (`feb`, `mar`, `may`, `jun`, `jul`,
      `sep`, `oct`, `nov`) and refuses `ene`, `abr`, `ago` and `dic`, so
      `UnknownMonthRejected` applies to January, April, August and December
      expiries. */
  lemma SpanishOnlyAbbrevs()
    ensures EnglishMonth("ene").None? && EnglishMonth("abr").None?
    ensures EnglishMonth("ago").None? && EnglishMonth("dic").None?
  {
    EneUnknown();
    AbrUnknown();
    AgoUnknown();
    DicUnknown();
  }

  lemma EneUnknown()
    ensures EnglishMonth("ene") == None
  {
    assert forall k :: 0 <= k < 12 ==> EnglishMonths[k][0] != 'e';
  }

  lemma AbrUnknown()
    ensures EnglishMonth("abr") == None
  {
    assert forall k :: 0 <= k < 12 ==> EnglishMonths[k][0] != 'a' || EnglishMonths[k][1] != 'b';
  }

  lemma AgoUnknown()
    ensures EnglishMonth("ago") == None
  {
    assert forall k :: 0 <= k < 12 ==> EnglishMonths[k][0] != 'a' || EnglishMonths[k][1] != 'g';
  }

  lemma DicUnknown()
    ensures EnglishMonth("dic") == None
  {
    assert forall k :: 0 <= k < 12 ==> EnglishMonths[k][0] != 'd' || EnglishMonths[k][1] != 'i';
  }
}
