/** The scraper's volatility step: pick the strike and price columns of an
    options table, convert each row's cells, hand them to the Black-Scholes
    root finder and keep or null its answer, for every expiry that has a
    futures quote. The two copies of the step differ only in a `Policy`: the
    scipy copy asks the solver only about positive inputs and nulls answers
    of 5 or more; the mibian copy always asks and nulls answers of 500 or
    more (it reports percent). */
module Volatility {
  import opened Wrappers
  import opened Text
  import opened Numbers
  import opened Dates
  import opened Records

  /** A DataFrame: its column headers in order and one record per row. */
  datatype Frame = Frame(columns: seq<string>, rows: seq<Obj>)

  /** `df.empty`: no rows or no columns. */
  predicate IsEmpty(f: Frame) { |f.rows| == 0 || |f.columns| == 0 }

  /** Whether the solver is asked only about positive inputs, whether the
      row loop tests a returned volatility for `None` before comparing it with
      the ceiling, and the ceiling at or above which a volatility is nulled. */
  datatype Policy = Policy(guard: bool, nullSafe: bool, ceiling: int)

  /** lambda/scraper/volatility.py: `brentq` on `[1e-6, 5]`, asked only
      about positive inputs, its `None` tested before the comparison. */
  const ScipyPolicy := Policy(true, true, 5)

  /** iv_smile_project/lambda/scraper/volatility.py: `mibian.BS`, always
      asked, percent scale, its answer compared with 500 untested. */
  const MibianPolicy := Policy(false, false, 500)

  /** What the root finder does with one row: it raises, it returns `None`,
      or it returns a volatility. */
  datatype Answer = Raises | ReturnsNone | Returns(v: Number)

  /** The root finder, given (is a call, option price, future price, strike,
      days to expiry). */
  type Solver = (bool, Number, Number, Number, nat) -> Answer

  // ---------------------------------------------------------------------------
  // Column selection
  // ---------------------------------------------------------------------------

  /** `word in c.upper()`. */
  predicate Mentions(c: string, word: string) { Contains(Upper(c), word) }

  /** The position of the first header mentioning `word`, or `|cols|`. */
  function FirstMatch(cols: seq<string>, word: string): (r: nat)
    ensures r <= |cols|
    ensures forall j :: 0 <= j < r ==> !Mentions(cols[j], word)
    ensures r < |cols| ==> Mentions(cols[r], word)
  {
    if |cols| == 0 then 0
    else if Mentions(cols[0], word) then 0
    else 1 + FirstMatch(cols[1..], word)
  }

  /** The position of the last header mentioning `word`, or -1. */
  function LastMatch(cols: seq<string>, word: string): (r: int)
    ensures -1 <= r < |cols|
    ensures forall j :: r < j < |cols| ==> !Mentions(cols[j], word)
    ensures r >= 0 ==> Mentions(cols[r], word)
  {
    if |cols| == 0 then -1
    else if Mentions(cols[|cols| - 1], word) then |cols| - 1
    else LastMatch(cols[..|cols| - 1], word)
  }

  /** The strike column is the first header holding STRIKE and the price
      column the last holding ANT, whatever the case; when either is missing
      the step raises `KeyError`. */
  function Columns(cols: seq<string>): (r: Result<(nat, nat)>)
    ensures r.Err? <==> (forall j :: 0 <= j < |cols| ==> !Mentions(cols[j], "STRIKE"))
                        || (forall j :: 0 <= j < |cols| ==> !Mentions(cols[j], "ANT"))
    ensures r.Err? ==> r.error == KeyError
    ensures r.Ok? ==> r.value.0 < |cols| && Mentions(cols[r.value.0], "STRIKE")
                      && forall j :: 0 <= j < r.value.0 ==> !Mentions(cols[j], "STRIKE")
    ensures r.Ok? ==> r.value.1 < |cols| && Mentions(cols[r.value.1], "ANT")
                      && forall j :: r.value.1 < j < |cols| ==> !Mentions(cols[j], "ANT")
  {
    var s := FirstMatch(cols, "STRIKE");
    var a := LastMatch(cols, "ANT");
    if s == |cols| || a < 0 then Err(KeyError) else Ok((s, a))
  }

  // ---------------------------------------------------------------------------
  // One row
  // ---------------------------------------------------------------------------

  /** A cell conversion: the number, or `None` when `float` raises. */
  type Reader = Value -> Option<Number>

  /** `float(str(cell).replace('.', '').replace(',', '.'))`. */
  function StrikeOf(cell: Value): Option<Number> {
    LocaleFloat(Str(cell))
  }

  /** The option price: a float cell is taken as it is, anything else goes
      through the same locale cleaning as the strike. */
  function PriceOf(cell: Value): Option<Number> {
    if cell.VFloat? then Some(cell.n) else LocaleFloat(Str(cell))
  }

  /** `x < c` in Python; false for NaN. */
  predicate Below(x: Number, c: int) {
    match x
    case Finite(d) => ValueOf(d) < c as real
    case NaN => false
    case Infinity(neg) => neg
  }

  /** What one row appends: `raw` to `iv_raw_list` and `iv` to `iv_list`;
      `twice` when the comparison with the ceiling raised after `raw` was
      appended, so that the except branch appended a second `None` to
      `iv_raw_list`. */
  datatype RowIv = RowIv(raw: Option<Number>, iv: Option<Number>, twice: bool)

  /** Whether the row loop calls the solver: both cells convert and, under a
      guarded policy, price, future, strike and the days are all positive. */
  predicate Asks(p: Policy, strike: Option<Number>, price: Option<Number>, future: Number, days: nat) {
    strike.Some? && price.Some?
    && (!p.guard || (IsPositive(price.value) && IsPositive(future) && IsPositive(strike.value) && days > 0))
  }

  /** Whether the row's volatility is a `None` that reaches the comparison
      `iv < 500`, which raises `TypeError`. */
  predicate Unpaired(p: Policy, strike: Option<Number>, price: Option<Number>, future: Number, days: nat,
                     isCall: bool, solver: Solver) {
    !p.nullSafe && Asks(p, strike, price, future, days)
    && solver(isCall, price.value, future, strike.value, days).ReturnsNone?
  }

  /** One pass of the row loop, given the row's converted strike and price
      (`None` when the conversion raised). A row whose strike or price does
      not convert, or whose solver raises, gives `None` twice; a guarded
      policy gives `None` twice unless price, future, strike and the time to
      expiry are all positive; a `None` from the solver gives `None` twice when
      the policy tests for it and otherwise a doubled `None` in `IV_raw`;
      a volatility from the solver is the raw answer, unchanged, and the
      reported one when it is below the ceiling. */
  function RowResult(p: Policy, strike: Option<Number>, price: Option<Number>, future: Number, days: nat,
                     isCall: bool, solver: Solver): (r: RowIv)
    ensures r.raw.Some? <==>
      Asks(p, strike, price, future, days) && solver(isCall, price.value, future, strike.value, days).Returns?
    ensures r.raw.Some? ==> r.raw.value == solver(isCall, price.value, future, strike.value, days).v
    ensures r.twice <==> Unpaired(p, strike, price, future, days, isCall, solver)
    ensures r.twice ==> r.raw.None? && r.iv.None?
    ensures r.iv.Some? <==> r.raw.Some? && Below(r.raw.value, p.ceiling)
    ensures r.iv.Some? ==> r.iv == r.raw
  {
    match strike
    case None => RowIv(None, None, false)
    case Some(k) =>
      match price
      case None => RowIv(None, None, false)
      case Some(x) =>
        if p.guard && !(IsPositive(x) && IsPositive(future) && IsPositive(k) && days > 0) then RowIv(None, None, false)
        else
          match solver(isCall, x, future, k, days)
          case Raises => RowIv(None, None, false)
          case ReturnsNone => RowIv(None, None, !p.nullSafe)
          case Returns(v) => RowIv(Some(v), if Below(v, p.ceiling) then Some(v) else None, false)
  }

  /** Without a guard the solver is asked about every row whose cells
      convert, whatever their sign: its volatility is the raw one, and
      without a `None` test a `None` from it doubles the row in `IV_raw`. */
  lemma UnguardedAsks(p: Policy, strike: Number, price: Number, future: Number, days: nat, isCall: bool, solver: Solver)
    requires !p.guard
    ensures var r := RowResult(p, Some(strike), Some(price), future, days, isCall, solver);
      && (r.raw.Some? <==> solver(isCall, price, future, strike, days).Returns?)
      && (r.raw.Some? ==> r.raw.value == solver(isCall, price, future, strike, days).v)
      && (r.twice <==> !p.nullSafe && solver(isCall, price, future, strike, days).ReturnsNone?)
  {
  }

  // ---------------------------------------------------------------------------
  // add_implied_volatility
  // ---------------------------------------------------------------------------

  /** `max((expiry_dt - datetime.now()).days, 1)`. */
  function DaysToExpiry(expiry: Date, now: Instant): (r: nat)
    requires IsValid(expiry) && IsValidInstant(now)
    ensures r >= 1 && r >= DaysFromNow(expiry, now)
  {
    var d := DaysFromNow(expiry, now);
    if d >= 1 then d else 1
  }

  /** An expiry at least one whole day ahead keeps its day count; an expiry
      today or in the past counts as one day. */
  lemma DaysToExpiryCases(expiry: Date, now: Instant)
    requires IsValid(expiry) && IsValidInstant(now)
    ensures Ordinal(expiry) - Ordinal(now.date) >= 2 ==> DaysToExpiry(expiry, now) == DaysFromNow(expiry, now)
    ensures Ordinal(expiry) <= Ordinal(now.date) ==> DaysToExpiry(expiry, now) == 1
  {
  }

  /** The frame `add_implied_volatility` returns: the input frame with the
      `IV_raw` and `IV` columns and a constant `Days` column. */
  datatype IvTable = IvTable(frame: Frame, ivRaw: seq<Option<Number>>, iv: seq<Option<Number>>, days: nat)

  /** Each row's strike and price cells, converted. */
  function Cells(rows: seq<Obj>, strikeCol: string, antCol: string, strikeOf: Reader, priceOf: Reader)
    : (r: seq<(Option<Number>, Option<Number>)>)
    ensures |r| == |rows|
    ensures forall k :: 0 <= k < |rows| ==> r[k] == (strikeOf(Get(rows[k], strikeCol)), priceOf(Get(rows[k], antCol)))
  {
    seq(|rows|, k requires 0 <= k < |rows| => (strikeOf(Get(rows[k], strikeCol)), priceOf(Get(rows[k], antCol))))
  }

  /** Every row's result, in order. */
  function RowResults(p: Policy, cells: seq<(Option<Number>, Option<Number>)>, future: Number, days: nat,
                      isCall: bool, solver: Solver): (r: seq<RowIv>)
    ensures |r| == |cells|
    ensures forall k :: 0 <= k < |cells| ==> r[k] == RowResult(p, cells[k].0, cells[k].1, future, days, isCall, solver)
  {
    seq(|cells|, k requires 0 <= k < |cells| => RowResult(p, cells[k].0, cells[k].1, future, days, isCall, solver))
  }

  /** What one row appends to `iv_raw_list`. */
  function RawAppended(row: RowIv): seq<Option<Number>> {
    if row.twice then [row.raw] + [None] else [row.raw]
  }

  /** `iv_raw_list` after the loop: every row's appended values, in order.
      It has one entry per row exactly when no row was doubled, and then
      entry `k` is row `k`'s raw value. */
  function RawColumn(rs: seq<RowIv>): (r: seq<Option<Number>>)
    ensures |r| >= |rs|
    ensures |r| == |rs| <==> forall k :: 0 <= k < |rs| ==> !rs[k].twice
    ensures |r| == |rs| ==> forall k :: 0 <= k < |rs| ==> r[k] == rs[k].raw
  {
    if |rs| == 0 then []
    else
      var n := |rs| - 1;
      var r0 := RawColumn(rs[..n]);
      assert forall k :: 0 <= k < n ==> rs[..n][k] == rs[k];
      r0 + RawAppended(rs[n])
  }

  /** `iv_list` after the loop: one reported value per row, in order. */
  function IvColumn(rs: seq<RowIv>): (r: seq<Option<Number>>)
    ensures |r| == |rs| && forall k :: 0 <= k < |rs| ==> r[k] == rs[k].iv
  {
    seq(|rs|, k requires 0 <= k < |rs| => rs[k].iv)
  }

  /** `add_implied_volatility(df, future_price, expiry_dt, option_type)`
      with `datetime.now()` given as `now`. Assigning a list whose length is
      not the number of rows to a column raises `ValueError`. */
  function AddIv(p: Policy, df: Frame, future: Number, expiry: Date, now: Instant, optionType: string,
                 solver: Solver): Result<IvTable>
    requires IsValid(expiry) && IsValidInstant(now)
  {
    match Columns(df.columns)
    case Err(e) => Err(e)
    case Ok(sa) =>
      var days := DaysToExpiry(expiry, now);
      var cells := Cells(df.rows, df.columns[sa.0], df.columns[sa.1], StrikeOf, PriceOf);
      var rs := RowResults(p, cells, future, days, LowerEquals(optionType, "call"), solver);
      var raw := RawColumn(rs);
      var iv := IvColumn(rs);
      if |raw| != |df.rows| || |iv| != |df.rows| then Err(ValueError)
      else Ok(IvTable(df, raw, iv, days))
  }

  /** Whether row `k` of the frame, with the columns `sa`, is a row whose
      `None` from the solver reaches the ceiling comparison. */
  predicate UnpairedRow(p: Policy, df: Frame, sa: (nat, nat), future: Number, days: nat, optionType: string,
                        solver: Solver, k: nat)
    requires sa.0 < |df.columns| && sa.1 < |df.columns| && k < |df.rows|
  {
    Unpaired(p, StrikeOf(Get(df.rows[k], df.columns[sa.0])), PriceOf(Get(df.rows[k], df.columns[sa.1])),
             future, days, LowerEquals(optionType, "call"), solver)
  }

  /** Whether some row of the frame, with the columns `sa`, is unpaired. */
  predicate SomeRowUnpaired(p: Policy, df: Frame, sa: (nat, nat), future: Number, days: nat, optionType: string,
                            solver: Solver)
    requires sa.0 < |df.columns| && sa.1 < |df.columns|
  {
    exists k :: 0 <= k < |df.rows| && UnpairedRow(p, df, sa, future, days, optionType, solver, k)
  }

  /** The step raises `KeyError` for missing columns and `ValueError` when a
      row's `None` from the solver reached the ceiling comparison, and fails
      for no other reason; otherwise it keeps the frame, writes one raw and
      one reported volatility per row in row order, the reported one being
      the raw one exactly when that is below the ceiling, and one day count
      of at least one for all rows. */
  lemma AddIvShape(p: Policy, df: Frame, future: Number, expiry: Date, now: Instant, optionType: string,
                   solver: Solver)
    requires IsValid(expiry) && IsValidInstant(now)
    ensures AddIv(p, df, future, expiry, now, optionType, solver).Err? <==>
      Columns(df.columns).Err?
      || SomeRowUnpaired(p, df, Columns(df.columns).value, future, DaysToExpiry(expiry, now), optionType, solver)
    ensures AddIv(p, df, future, expiry, now, optionType, solver).Err? ==>
      AddIv(p, df, future, expiry, now, optionType, solver).error
        == if Columns(df.columns).Err? then KeyError else ValueError
    ensures AddIv(p, df, future, expiry, now, optionType, solver).Ok? ==>
      var t := AddIv(p, df, future, expiry, now, optionType, solver).value;
      && t.frame == df && |t.ivRaw| == |df.rows| && |t.iv| == |df.rows|
      && t.days == DaysToExpiry(expiry, now) && t.days >= 1
      && (forall k :: 0 <= k < |t.iv| ==>
            (t.iv[k].Some? <==> t.ivRaw[k].Some? && Below(t.ivRaw[k].value, p.ceiling))
            && (t.iv[k].Some? ==> t.iv[k] == t.ivRaw[k]))
  {
    if Columns(df.columns).Ok? {
      var sa := Columns(df.columns).value;
      var days := DaysToExpiry(expiry, now);
      var rs := RowResults(p, Cells(df.rows, df.columns[sa.0], df.columns[sa.1], StrikeOf, PriceOf),
                           future, days, LowerEquals(optionType, "call"), solver);
      AddIvUnfold(p, df, future, expiry, now, optionType, solver);
      LengthsMatch(p, df, sa, future, days, optionType, solver);
      if |RawColumn(rs)| == |df.rows| {
        RowsAgree(p, rs, RawColumn(rs), IvColumn(rs));
      }
    }
  }

  /** With its columns found, the step is the row loop followed by the two
      column assignments. */
  lemma AddIvUnfold(p: Policy, df: Frame, future: Number, expiry: Date, now: Instant, optionType: string,
                    solver: Solver)
    requires IsValid(expiry) && IsValidInstant(now) && Columns(df.columns).Ok?
    ensures var sa := Columns(df.columns).value;
      var days := DaysToExpiry(expiry, now);
      var rs := RowResults(p, Cells(df.rows, df.columns[sa.0], df.columns[sa.1], StrikeOf, PriceOf),
                           future, days, LowerEquals(optionType, "call"), solver);
      AddIv(p, df, future, expiry, now, optionType, solver)
        == if |RawColumn(rs)| != |df.rows| then Err(ValueError) else Ok(IvTable(df, RawColumn(rs), IvColumn(rs), days))
  {
  }

  /** Columns of one entry per row pair each reported value with its raw one. */
  lemma RowsAgree(p: Policy, rs: seq<RowIv>, raw: seq<Option<Number>>, iv: seq<Option<Number>>)
    requires forall k :: 0 <= k < |rs| ==>
      (rs[k].iv.Some? <==> rs[k].raw.Some? && Below(rs[k].raw.value, p.ceiling)) && (rs[k].iv.Some? ==> rs[k].iv == rs[k].raw)
    requires raw == RawColumn(rs) && iv == IvColumn(rs) && |raw| == |rs|
    ensures forall k :: 0 <= k < |iv| ==>
      (iv[k].Some? <==> raw[k].Some? && Below(raw[k].value, p.ceiling)) && (iv[k].Some? ==> iv[k] == raw[k])
  {
  }

  /** A table the step returns keeps the frame and a day count of at least one. */
  lemma AddIvKeeps(p: Policy, df: Frame, future: Number, expiry: Date, now: Instant, optionType: string,
                   solver: Solver)
    requires IsValid(expiry) && IsValidInstant(now)
    ensures AddIv(p, df, future, expiry, now, optionType, solver).Ok? ==>
      var t := AddIv(p, df, future, expiry, now, optionType, solver).value;
      t.frame == df && t.days == DaysToExpiry(expiry, now) && t.days >= 1
  {
    if Columns(df.columns).Ok? {
      AddIvUnfold(p, df, future, expiry, now, optionType, solver);
    }
  }

  /** `iv_raw_list` has one entry per row exactly when no row is unpaired. */
  lemma LengthsMatch(p: Policy, df: Frame, sa: (nat, nat), future: Number, days: nat, optionType: string,
                     solver: Solver)
    requires sa.0 < |df.columns| && sa.1 < |df.columns|
    ensures var rs := RowResults(p, Cells(df.rows, df.columns[sa.0], df.columns[sa.1], StrikeOf, PriceOf),
                                 future, days, LowerEquals(optionType, "call"), solver);
      |RawColumn(rs)| == |df.rows| <==> !SomeRowUnpaired(p, df, sa, future, days, optionType, solver)
  {
    RowsTwice(p, df, sa, future, days, optionType, solver);
  }

  /** A row is doubled exactly when its `None` reaches the comparison. */
  lemma RowsTwice(p: Policy, df: Frame, sa: (nat, nat), future: Number, days: nat, optionType: string, solver: Solver)
    requires sa.0 < |df.columns| && sa.1 < |df.columns|
    ensures var rs := RowResults(p, Cells(df.rows, df.columns[sa.0], df.columns[sa.1], StrikeOf, PriceOf),
                                 future, days, LowerEquals(optionType, "call"), solver);
      forall k :: 0 <= k < |df.rows| ==> (rs[k].twice <==> UnpairedRow(p, df, sa, future, days, optionType, solver, k))
  {
  }

  /** The scipy copy tests for `None`, so it fails only for missing columns. */
  lemma ScipyFailsOnColumns(df: Frame, future: Number, expiry: Date, now: Instant, optionType: string,
                            solver: Solver)
    requires IsValid(expiry) && IsValidInstant(now)
    ensures AddIv(ScipyPolicy, df, future, expiry, now, optionType, solver).Err? <==> Columns(df.columns).Err?
  {
    AddIvShape(ScipyPolicy, df, future, expiry, now, optionType, solver);
  }

  /** In the mibian copy a `None` from the solver for any row whose cells
      convert makes the step raise `ValueError`. */
  lemma MibianNoneRaises(df: Frame, future: Number, expiry: Date, now: Instant, optionType: string,
                         solver: Solver, k: nat)
    requires IsValid(expiry) && IsValidInstant(now)
    requires Columns(df.columns).Ok? && k < |df.rows|
    requires var sa := Columns(df.columns).value;
      var strike := StrikeOf(Get(df.rows[k], df.columns[sa.0]));
      var price := PriceOf(Get(df.rows[k], df.columns[sa.1]));
      && strike.Some? && price.Some?
      && solver(LowerEquals(optionType, "call"), price.value, future, strike.value, DaysToExpiry(expiry, now)).ReturnsNone?
    ensures AddIv(MibianPolicy, df, future, expiry, now, optionType, solver) == Err(ValueError)
  {
    AddIvShape(MibianPolicy, df, future, expiry, now, optionType, solver);
    assert UnpairedRow(MibianPolicy, df, Columns(df.columns).value, future, DaysToExpiry(expiry, now), optionType, solver, k);
    assert SomeRowUnpaired(MibianPolicy, df, Columns(df.columns).value, future, DaysToExpiry(expiry, now), optionType, solver);
  }

  /** In the scipy copy every reported volatility is below 5 and came from a
      solve on positive inputs. */
  lemma ScipyReported(df: Frame, future: Number, expiry: Date, now: Instant, optionType: string,
                      solver: Solver, t: IvTable, k: nat)
    requires IsValid(expiry) && IsValidInstant(now)
    requires AddIv(ScipyPolicy, df, future, expiry, now, optionType, solver) == Ok(t)
    requires k < |t.iv| && t.iv[k].Some?
    ensures Below(t.iv[k].value, 5) && IsPositive(future)
    ensures var sa := Columns(df.columns).value;
      && IsPositive(StrikeOf(Get(df.rows[k], df.columns[sa.0])).value)
      && IsPositive(PriceOf(Get(df.rows[k], df.columns[sa.1])).value)
  {
    var sa := Columns(df.columns).value;
    var cells := Cells(df.rows, df.columns[sa.0], df.columns[sa.1], StrikeOf, PriceOf);
    var rs := RowResults(ScipyPolicy, cells, future, t.days, LowerEquals(optionType, "call"), solver);
    assert t.iv[k] == rs[k].iv;
  }

  /** The row loop of `add_implied_volatility`: convert each row's cells with
      the given readers and append its raw and reported volatility, and the
      second `None` of a row whose comparison raised. */
  method FillColumns(p: Policy, rows: seq<Obj>, strikeCol: string, antCol: string, strikeOf: Reader, priceOf: Reader,
                     future: Number, days: nat, isCall: bool, solver: Solver)
    returns (ivRaw: seq<Option<Number>>, iv: seq<Option<Number>>)
    ensures var rs := RowResults(p, Cells(rows, strikeCol, antCol, strikeOf, priceOf), future, days, isCall, solver);
      ivRaw == RawColumn(rs) && iv == IvColumn(rs)
  {
    ghost var rs := RowResults(p, Cells(rows, strikeCol, antCol, strikeOf, priceOf), future, days, isCall, solver);
    ivRaw, iv := [], [];
    for i := 0 to |rows|
      invariant ivRaw == RawColumn(rs[..i])
      invariant iv == IvColumn(rs[..i])
    {
      var strike := strikeOf(Get(rows[i], strikeCol));
      var price := priceOf(Get(rows[i], antCol));
      var row := RowResult(p, strike, price, future, days, isCall, solver);
      FillRow(p, rows, strikeCol, antCol, strikeOf, priceOf, future, days, isCall, solver, i);
      ghost var before := ivRaw;
      ivRaw := ivRaw + [row.raw];
      if row.twice {
        ivRaw := ivRaw + [None];
      }
      FillStep(rs, i, before, ivRaw, iv);
      iv := iv + [row.iv];
    }
    assert rs[..|rows|] == rs;
  }

  /** The row the loop computes at `i` is the specification's row `i`. */
  lemma FillRow(p: Policy, rows: seq<Obj>, strikeCol: string, antCol: string, strikeOf: Reader, priceOf: Reader,
                future: Number, days: nat, isCall: bool, solver: Solver, i: nat)
    requires i < |rows|
    ensures RowResult(p, strikeOf(Get(rows[i], strikeCol)), priceOf(Get(rows[i], antCol)), future, days, isCall, solver)
         == RowResults(p, Cells(rows, strikeCol, antCol, strikeOf, priceOf), future, days, isCall, solver)[i]
  {
  }

  /** Appending row `i`'s values extends both columns by that row. */
  lemma FillStep(rs: seq<RowIv>, i: nat, before: seq<Option<Number>>, raw: seq<Option<Number>>, iv: seq<Option<Number>>)
    requires i < |rs| && before == RawColumn(rs[..i]) && iv == IvColumn(rs[..i])
    requires raw == if rs[i].twice then before + [rs[i].raw] + [None] else before + [rs[i].raw]
    ensures raw == RawColumn(rs[..i + 1]) && iv + [rs[i].iv] == IvColumn(rs[..i + 1])
  {
    RawColumnSnoc(rs, i);
    assert before + [rs[i].raw] + [None] == before + ([rs[i].raw] + [None]);
    IvColumnSnoc(rs, i);
  }

  /** One more row appends its reported value to `iv_list`. */
  lemma IvColumnSnoc(rs: seq<RowIv>, i: nat)
    requires i < |rs|
    ensures IvColumn(rs[..i + 1]) == IvColumn(rs[..i]) + [rs[i].iv]
  {
    var a := IvColumn(rs[..i + 1]);
    var b := IvColumn(rs[..i]) + [rs[i].iv];
    assert |a| == |b|;
    forall k | 0 <= k < |a|
      ensures a[k] == b[k]
    {
      if k < i {
        assert rs[..i + 1][k] == rs[..i][k];
      }
    }
  }

  /** One more row appends its own values to `iv_raw_list`. */
  lemma RawColumnSnoc(rs: seq<RowIv>, i: nat)
    requires i < |rs|
    ensures RawColumn(rs[..i + 1]) == RawColumn(rs[..i]) + RawAppended(rs[i])
  {
    assert rs[..i + 1][..i] == rs[..i];
  }

  /** `add_implied_volatility`. */
  method AddImpliedVolatility(p: Policy, df: Frame, future: Number, expiry: Date, now: Instant, optionType: string,
                              solver: Solver) returns (r: Result<IvTable>)
    requires IsValid(expiry) && IsValidInstant(now)
    ensures r == AddIv(p, df, future, expiry, now, optionType, solver)
  {
    var cols := Columns(df.columns);
    if cols.Err? {
      return Err(cols.error);
    }
    var days := DaysToExpiry(expiry, now);
    var ivRaw, iv := FillColumns(p, df.rows, df.columns[cols.value.0], df.columns[cols.value.1], StrikeOf, PriceOf,
                                 future, days, LowerEquals(optionType, "call"), solver);
    if |ivRaw| != |df.rows| || |iv| != |df.rows| {
      return Err(ValueError);
    }
    return Ok(IvTable(df, ivRaw, iv, days));
  }

  // ---------------------------------------------------------------------------
  // calculate_iv_all
  // ---------------------------------------------------------------------------

  /** `pd.to_numeric(..., errors='coerce')` after `.astype(str)` and the
      locale replacements: the number, or `None` when it does not read. */
  function CellNumber(cell: Value): Option<Number> {
    LocaleFloat(Str(cell))
  }

  /** A value `dropna` keeps. */
  predicate Kept(x: Option<Number>) { x.Some? && !x.value.NaN? }

  /** The first row whose cell in `col` reads, through `read`, as a number
      other than NaN; `|rows|` when there is none. */
  function NumericIndex(rows: seq<Obj>, col: string, read: Value -> Option<Number>): (r: nat)
    ensures r <= |rows|
    ensures forall j :: 0 <= j < r ==> !Kept(read(Get(rows[j], col)))
    ensures r < |rows| ==> Kept(read(Get(rows[r], col)))
  {
    if |rows| == 0 then 0
    else if Kept(read(Get(rows[0], col))) then 0
    else 1 + NumericIndex(rows[1..], col, read)
  }

  /** The future's price: the first numeric value of the price column, or
      `ValueError` when there is none. */
  function SpotOf(rows: seq<Obj>, col: string): (r: Result<Number>)
    ensures r.Err? <==> forall j :: 0 <= j < |rows| ==> !Kept(CellNumber(Get(rows[j], col)))
    ensures r.Err? ==> r.error == ValueError
    ensures r.Ok? ==>
      var j := NumericIndex(rows, col, CellNumber);
      j < |rows| && CellNumber(Get(rows[j], col)) == Some(r.value) && !r.value.NaN?
  {
    var j := NumericIndex(rows, col, CellNumber);
    if j == |rows| then Err(ValueError) else Ok(CellNumber(Get(rows[j], col)).value)
  }

  /** One pass of either loop of `calculate_iv_all`: `None` when the expiry
      has no futures table or an empty one. */
  function ExpiryStep(p: Policy, fecha: string, df: Frame, futures: map<string, Frame>, optionType: string,
                      now: Instant, solver: Solver): (r: Result<Option<IvTable>>)
    requires IsValidInstant(now)
    ensures r == Ok(None) <==> ParseSpanishDate(fecha).Ok? && (fecha !in futures || IsEmpty(futures[fecha]))
    ensures r.Err? && ParseSpanishDate(fecha).Ok? ==> fecha in futures && !IsEmpty(futures[fecha])
    ensures r.Ok? ==> ParseSpanishDate(fecha).Ok?
    ensures r.Ok? && r.value.Some? ==> r.value.value.days >= 1 && r.value.value.frame == df
  {
    match ParseSpanishDate(fecha)
    case Err(e) => Err(e)
    case Ok(expiry) =>
      if fecha !in futures || IsEmpty(futures[fecha]) then Ok(None)
      else
        var fut := futures[fecha];
        var a := LastMatch(fut.columns, "ANT");
        if a < 0 then Err(KeyError)
        else
          match SpotOf(fut.rows, fut.columns[a])
          case Err(e) => Err(e)
          case Ok(spot) =>
            AddIvKeeps(p, df, spot, expiry, now, optionType, solver);
            match AddIv(p, df, spot, expiry, now, optionType, solver)
            case Err(e) => Err(e)
            case Ok(t) => Ok(Some(t))
  }

  /** An expiry whose date reads and whose future has a price runs the step. */
  lemma ExpiryStepRuns(p: Policy, fecha: string, df: Frame, futures: map<string, Frame>, optionType: string,
                       now: Instant, solver: Solver)
    requires IsValidInstant(now) && ParseSpanishDate(fecha).Ok? && fecha in futures && !IsEmpty(futures[fecha])
    requires LastMatch(futures[fecha].columns, "ANT") >= 0
    requires SpotOf(futures[fecha].rows, futures[fecha].columns[LastMatch(futures[fecha].columns, "ANT")]).Ok?
    ensures var t := AddIv(p, df, SpotOf(futures[fecha].rows, futures[fecha].columns[LastMatch(futures[fecha].columns, "ANT")]).value,
                           ParseSpanishDate(fecha).value, now, optionType, solver);
      ExpiryStep(p, fecha, df, futures, optionType, now, solver) == if t.Err? then Err(t.error) else Ok(Some(t.value))
  {
  }

  /** The expiries of one side, in dictionary order. */
  function Fechas(entries: seq<(string, Frame)>): (r: set<string>)
    ensures forall k :: 0 <= k < |entries| ==> entries[k].0 in r
    ensures forall f :: f in r ==> exists k :: 0 <= k < |entries| && entries[k].0 == f
  {
    set k | 0 <= k < |entries| :: entries[k].0
  }

  /** One loop of `calculate_iv_all` over a side's tables: the first raised
      error ends it. */
  function Side(p: Policy, entries: seq<(string, Frame)>, futures: map<string, Frame>, optionType: string,
                now: Instant, solver: Solver): Result<map<string, IvTable>>
    requires IsValidInstant(now)
  {
    if |entries| == 0 then Ok(map[])
    else
      var n := |entries| - 1;
      match Side(p, entries[..n], futures, optionType, now, solver)
      case Err(e) => Err(e)
      case Ok(m) =>
        match ExpiryStep(p, entries[n].0, entries[n].1, futures, optionType, now, solver)
        case Err(e) => Err(e)
        case Ok(None) => Ok(m)
        case Ok(Some(t)) => Ok(m[entries[n].0 := t])
  }

  /** The first error ends the side: later tables are not looked at. */
  lemma {:induction false} SideErr(p: Policy, entries: seq<(string, Frame)>, futures: map<string, Frame>,
                                   optionType: string, now: Instant, solver: Solver, i: nat)
    requires IsValidInstant(now)
    requires i <= |entries| && Side(p, entries[..i], futures, optionType, now, solver).Err?
    ensures Side(p, entries, futures, optionType, now, solver) == Side(p, entries[..i], futures, optionType, now, solver)
    decreases |entries|
  {
    if i < |entries| {
      var n := |entries| - 1;
      assert entries[..n][..i] == entries[..i];
      SideErr(p, entries[..n], futures, optionType, now, solver, i);
    } else {
      assert entries[..i] == entries;
    }
  }

  /** A table whose step raises, after earlier tables that all completed,
      makes the whole side raise that error. */
  lemma SideStopsAt(p: Policy, entries: seq<(string, Frame)>, futures: map<string, Frame>,
                    optionType: string, now: Instant, solver: Solver, i: nat)
    requires IsValidInstant(now)
    requires i < |entries| && Side(p, entries[..i], futures, optionType, now, solver).Ok?
    requires ExpiryStep(p, entries[i].0, entries[i].1, futures, optionType, now, solver).Err?
    ensures Side(p, entries, futures, optionType, now, solver)
         == Err(ExpiryStep(p, entries[i].0, entries[i].1, futures, optionType, now, solver).error)
  {
    assert entries[..i + 1][..i] == entries[..i];
    SideErr(p, entries, futures, optionType, now, solver, i + 1);
  }

  /** One more table brings in its own expiry. */
  lemma FechasSnoc(entries: seq<(string, Frame)>)
    requires |entries| > 0
    ensures Fechas(entries) == Fechas(entries[..|entries| - 1]) + {entries[|entries| - 1].0}
  {
    var n := |entries| - 1;
    assert forall k :: 0 <= k < n ==> entries[..n][k] == entries[k];
  }

  /** A side that completes holds a table for exactly the expiries that have a
      non-empty futures table, each with a day count of at least one. */
  lemma {:induction false} SideKeys(p: Policy, entries: seq<(string, Frame)>, futures: map<string, Frame>,
                                    optionType: string, now: Instant, solver: Solver, m: map<string, IvTable>)
    requires IsValidInstant(now)
    requires Side(p, entries, futures, optionType, now, solver) == Ok(m)
    ensures forall f :: f in m <==> f in Fechas(entries) && f in futures && !IsEmpty(futures[f])
    ensures forall f :: f in m ==> m[f].days >= 1
  {
    if |entries| > 0 {
      var n := |entries| - 1;
      SideOkSteps(p, entries, futures, optionType, now, solver);
      var m0 := Side(p, entries[..n], futures, optionType, now, solver).value;
      SideKeys(p, entries[..n], futures, optionType, now, solver, m0);
      FechasSnoc(entries);
      var step := ExpiryStep(p, entries[n].0, entries[n].1, futures, optionType, now, solver);
      var f := entries[n].0;
      if step.value.None? {
        assert m == m0 && (f !in futures || IsEmpty(futures[f]));
      } else {
        assert m == m0[f := step.value.value] && f in futures && !IsEmpty(futures[f]);
      }
    }
  }

  /** A side that completes completed without its last table, and that
      table's step succeeded and decided the last entry of the map. */
  lemma SideOkSteps(p: Policy, entries: seq<(string, Frame)>, futures: map<string, Frame>,
                    optionType: string, now: Instant, solver: Solver)
    requires IsValidInstant(now) && |entries| > 0
    requires Side(p, entries, futures, optionType, now, solver).Ok?
    ensures Side(p, entries[..|entries| - 1], futures, optionType, now, solver).Ok?
    ensures ExpiryStep(p, entries[|entries| - 1].0, entries[|entries| - 1].1, futures, optionType, now, solver).Ok?
    ensures var m0 := Side(p, entries[..|entries| - 1], futures, optionType, now, solver).value;
      var step := ExpiryStep(p, entries[|entries| - 1].0, entries[|entries| - 1].1, futures, optionType, now, solver).value;
      Side(p, entries, futures, optionType, now, solver).value
        == if step.None? then m0 else m0[entries[|entries| - 1].0 := step.value]
  {
  }

  /** A side completes only when every one of its expiries reads as a date. */
  lemma {:induction false} SideDates(p: Policy, entries: seq<(string, Frame)>, futures: map<string, Frame>,
                                     optionType: string, now: Instant, solver: Solver)
    requires IsValidInstant(now)
    requires Side(p, entries, futures, optionType, now, solver).Ok?
    ensures forall k :: 0 <= k < |entries| ==> ParseSpanishDate(entries[k].0).Ok?
  {
    if |entries| > 0 {
      var n := |entries| - 1;
      SideOkSteps(p, entries, futures, optionType, now, solver);
      SideDates(p, entries[..n], futures, optionType, now, solver);
      ExpiriesSnoc(entries, n, f => ParseSpanishDate(f).Ok?);
    }
  }

  /** The expiries all pass a test when those of the prefix and the last one do. */
  lemma ExpiriesSnoc(entries: seq<(string, Frame)>, n: nat, ok: string -> bool)
    requires n == |entries| - 1
    requires forall k :: 0 <= k < n ==> ok(entries[..n][k].0)
    requires ok(entries[n].0)
    ensures forall k :: 0 <= k < |entries| ==> ok(entries[k].0)
  {
    forall k | 0 <= k < |entries|
      ensures ok(entries[k].0)
    {
      if k < n {
        assert entries[..n][k] == entries[k];
      }
    }
  }

  /** `calculate_iv_all`: the calls of every expiry, then the puts. */
  function CalcIvAll(p: Policy, calls: seq<(string, Frame)>, puts: seq<(string, Frame)>, futures: map<string, Frame>,
                     now: Instant, solver: Solver): Result<(map<string, IvTable>, map<string, IvTable>)>
    requires IsValidInstant(now)
  {
    match Side(p, calls, futures, "call", now, solver)
    case Err(e) => Err(e)
    case Ok(c) =>
      match Side(p, puts, futures, "put", now, solver)
      case Err(e) => Err(e)
      case Ok(q) => Ok((c, q))
  }

  /** One side's loop. */
  method IvForSide(p: Policy, entries: seq<(string, Frame)>, futures: map<string, Frame>, optionType: string,
                   now: Instant, solver: Solver) returns (r: Result<map<string, IvTable>>)
    requires IsValidInstant(now)
    ensures r == Side(p, entries, futures, optionType, now, solver)
  {
    var out: map<string, IvTable> := map[];
    for i := 0 to |entries|
      invariant Side(p, entries[..i], futures, optionType, now, solver) == Ok(out)
    {
      assert entries[..i + 1][..i] == entries[..i];
      var (fecha, df) := entries[i];
      var expiry := ParseSpanishDate(fecha);
      if expiry.Err? {
        SideErr(p, entries, futures, optionType, now, solver, i + 1);
        return Err(expiry.error);
      }
      if fecha !in futures || IsEmpty(futures[fecha]) {
        continue;
      }
      var fut := futures[fecha];
      var a := LastMatch(fut.columns, "ANT");
      if a < 0 {
        SideErr(p, entries, futures, optionType, now, solver, i + 1);
        return Err(KeyError);
      }
      var spot := SpotOf(fut.rows, fut.columns[a]);
      if spot.Err? {
        SideErr(p, entries, futures, optionType, now, solver, i + 1);
        return Err(spot.error);
      }
      var t := AddImpliedVolatility(p, df, spot.value, expiry.value, now, optionType, solver);
      ExpiryStepRuns(p, fecha, df, futures, optionType, now, solver);
      if t.Err? {
        SideErr(p, entries, futures, optionType, now, solver, i + 1);
        return Err(t.error);
      }
      out := out[fecha := t.value];
    }
    assert entries[..|entries|] == entries;
    return Ok(out);
  }

  /** `calculate_iv_all(all_futures, all_calls, all_puts)`. */
  method CalculateIvAll(p: Policy, calls: seq<(string, Frame)>, puts: seq<(string, Frame)>, futures: map<string, Frame>,
                        now: Instant, solver: Solver) returns (r: Result<(map<string, IvTable>, map<string, IvTable>)>)
    requires IsValidInstant(now)
    ensures r == CalcIvAll(p, calls, puts, futures, now, solver)
  {
    var c := IvForSide(p, calls, futures, "call", now, solver);
    if c.Err? {
      return Err(c.error);
    }
    var q := IvForSide(p, puts, futures, "put", now, solver);
    if q.Err? {
      return Err(q.error);
    }
    return Ok((c.value, q.value));
  }
}
