/** The implied-volatility Lambda: matching an option expiry to a futures
    contract by date, and the per-option loop that decides which options reach
    the solver and what item is stored for each.  The DynamoDB scans become
    sequences of items, the clock a date argument, and the root finder an
    abstract function. */
module IvLambda {
  import opened Wrappers
  import opened Text
  import opened Numbers
  import opened NumberFacts
  import opened Dates
  import opened Records

  /** A future together with the day number (`toordinal`) of the expiry date
      read from it; two valid dates are equal exactly when their day numbers
      are (`Dates.OrdinalOrder`). */
  datatype Candidate = Candidate(fut: Obj, day: int)

  /** `abs((d - base).days)` in day numbers. */
  function Distance(day: int, base: int): nat {
    Abs(day - base)
  }

  /** The distance of every candidate from `base`, in order. */
  function Distances(cs: seq<Candidate>, base: int): (r: seq<nat>)
    ensures |r| == |cs|
    ensures forall k :: 0 <= k < |cs| ==> r[k] == Distance(cs[k].day, base)
  {
    seq(|cs|, k requires 0 <= k < |cs| => Distance(cs[k].day, base))
  }

  /** `min` over a key: the first position holding the least value. */
  function ArgMin(ds: seq<nat>): (i: nat)
    requires |ds| > 0
    ensures i < |ds|
    ensures forall j :: 0 <= j < |ds| ==> ds[i] <= ds[j]
    ensures forall j :: 0 <= j < i ==> ds[j] > ds[i]
  {
    if |ds| == 1 then 0
    else
      var b := ArgMin(ds[..|ds| - 1]);
      assert ds[..|ds| - 1][b] == ds[b];
      if ds[|ds| - 1] < ds[b] then |ds| - 1 else b
  }

  /** `min(candidates, key=distance)`: the first candidate at the least
      distance from `base`. */
  function ClosestIndex(cs: seq<Candidate>, base: int): (i: nat)
    requires |cs| > 0
    ensures i < |cs|
    ensures forall j :: 0 <= j < |cs| ==> Distance(cs[i].day, base) <= Distance(cs[j].day, base)
    ensures forall j :: 0 <= j < i ==> Distance(cs[j].day, base) > Distance(cs[i].day, base)
  {
    ArgMin(Distances(cs, base))
  }

  /** The future `min` picks, or `None` when no candidate is left. */
  function Closest(cs: seq<Candidate>, base: int): Option<Obj> {
    if |cs| == 0 then None else Some(cs[ClosestIndex(cs, base)].fut)
  }

  // ---------------------------------------------------------------------------
  // buscar_futuro_mas_cercano
  // ---------------------------------------------------------------------------

  /** `datetime.strptime(f['date'], '%Y-%m-%d')`; a missing key or a value that
      is not a string raises, which the scan catches. */
  function StrictDate(f: Obj): (r: Option<Date>)
    ensures r.Some? ==> IsValid(r.value)
  {
    match Get(f, "date")
    case VStr(s) => StrptimeYMD(s)
    case _ => None
  }

  /** The `(future, date)` pairs the first scan collects, in table order. */
  function StrictCandidates(fs: seq<Obj>): (r: seq<Candidate>)
    ensures |r| <= |fs|
    ensures forall k :: 0 <= k < |r| ==>
              r[k].fut in fs && StrictDate(r[k].fut).Some? && r[k].day == Ordinal(StrictDate(r[k].fut).value)
  {
    if |fs| == 0 then []
    else
      var rest := StrictCandidates(fs[..|fs| - 1]);
      var f := fs[|fs| - 1];
      match StrictDate(f)
      case Some(d) => rest + [Candidate(f, Ordinal(d))]
      case None => rest
  }

  /** What `buscar_futuro_mas_cercano(fecha, table)` returns: `None` for an
      empty table, `ValueError` for a malformed option date, otherwise the
      nearest future with a readable date, or `None` when there is none. */
  function MasCercano(fs: seq<Obj>, fecha: string): (r: Result<Option<Obj>>)
    ensures |fs| == 0 ==> r == Ok(None)
    ensures |fs| > 0 && StrptimeYMD(fecha).None? ==> r == Err(ValueError)
    ensures r.Ok? && r.value.Some? ==> r.value.value in fs && StrictDate(r.value.value).Some?
  {
    if |fs| == 0 then Ok(None)
    else
      match StrptimeYMD(fecha)
      case None => Err(ValueError)
      case Some(base) => Ok(Closest(StrictCandidates(fs), Ordinal(base)))
  }

  /** `buscar_futuro_mas_cercano`. */
  method BuscarFuturoMasCercano(fs: seq<Obj>, fecha: string) returns (r: Result<Option<Obj>>)
    ensures r == MasCercano(fs, fecha)
  {
    if |fs| == 0 {
      return Ok(None);
    }
    var base := StrptimeYMD(fecha);
    if base.None? {
      return Err(ValueError);
    }
    var fechas: seq<Candidate> := [];
    for i := 0 to |fs|
      invariant fechas == StrictCandidates(fs[..i])
    {
      assert fs[..i + 1][..i] == fs[..i];
      var d := StrictDate(fs[i]);
      if d.Some? {
        fechas := fechas + [Candidate(fs[i], Ordinal(d.value))];
      }
    }
    assert fs[..|fs|] == fs;
    if |fechas| == 0 {
      return Ok(None);
    }
    var best := ClosestIndex(fechas, Ordinal(base.value));
    return Ok(Some(fechas[best].fut));
  }

  /** With a readable option date and at least one readable future, the
      answer is the candidate at the least distance, every candidate before it
      being strictly farther. */
  lemma MasCercanoNearest(fs: seq<Obj>, fecha: string, base: Date)
    requires |fs| > 0 && StrptimeYMD(fecha) == Some(base) && |StrictCandidates(fs)| > 0
    ensures var cs := StrictCandidates(fs);
      exists i :: 0 <= i < |cs| && MasCercano(fs, fecha) == Ok(Some(cs[i].fut))
        && (forall j :: 0 <= j < |cs| ==> Distance(cs[i].day, Ordinal(base)) <= Distance(cs[j].day, Ordinal(base)))
        && (forall j :: 0 <= j < i ==> Distance(cs[j].day, Ordinal(base)) > Distance(cs[i].day, Ordinal(base)))
  {
    var cs := StrictCandidates(fs);
    var i := ClosestIndex(cs, Ordinal(base));
    assert MasCercano(fs, fecha) == Ok(Some(cs[i].fut));
  }

  // ---------------------------------------------------------------------------
  // buscar_futuro_flexible
  // ---------------------------------------------------------------------------

  const DateKeys: seq<string> := ["date", "vencimiento"]

  /** `datetime.strptime(str(v)[:10], '%Y-%m-%d').date()` tried only on a true
      value, accepting both `2025-05-16` and `2025-05-16 00:00:00`. */
  function LooseDate(v: Value): (r: Option<Date>)
    ensures r.Some? ==> IsValid(r.value)
  {
    if Truthy(v) then StrptimeYMD(Take(Str(v), 10)) else None
  }

  /** The day number of a loose date, if it reads. */
  function LooseDay(v: Value): Option<int> {
    match LooseDate(v)
    case Some(d) => Some(Ordinal(d))
    case None => None
  }

  /** The readable dates of one future under the given keys, in key order;
      `read` turns a field value into a day number (`LooseDay` in the Lambda). */
  function KeyEntries(f: Obj, ks: seq<string>, read: Value -> Option<int>): (r: seq<Candidate>)
    ensures forall k :: 0 <= k < |r| ==> r[k].fut == f
  {
    if |ks| == 0 then []
    else
      var rest := KeyEntries(f, ks[..|ks| - 1], read);
      match read(Get(f, ks[|ks| - 1]))
      case Some(d) => rest + [Candidate(f, d)]
      case None => rest
  }

  lemma {:induction false} KeyEntriesAppend(f: Obj, a: seq<string>, b: seq<string>, read: Value -> Option<int>)
    ensures KeyEntries(f, a + b, read) == KeyEntries(f, a, read) + KeyEntries(f, b, read)
  {
    if |b| == 0 {
      assert a + b == a;
    } else {
      assert (a + b)[..|a + b| - 1] == a + b[..|b| - 1];
      KeyEntriesAppend(f, a, b[..|b| - 1], read);
    }
  }

  /** Every `(future, date)` pair the flexible scans visit, in scan order:
      each future's keys in turn. */
  function FlexCandidates(fs: seq<Obj>, keys: seq<string>, read: Value -> Option<int>): seq<Candidate> {
    if |fs| == 0 then [] else FlexCandidates(fs[..|fs| - 1], keys, read) + KeyEntries(fs[|fs| - 1], keys, read)
  }

  lemma {:induction false} FlexCandidatesAppend(a: seq<Obj>, b: seq<Obj>, keys: seq<string>, read: Value -> Option<int>)
    ensures FlexCandidates(a + b, keys, read) == FlexCandidates(a, keys, read) + FlexCandidates(b, keys, read)
  {
    if |b| == 0 {
      assert a + b == a;
    } else {
      var n := |b| - 1;
      assert (a + b)[..|a + b| - 1] == a + b[..n];
      assert (a + b)[|a + b| - 1] == b[n];
      FlexCandidatesAppend(a, b[..n], keys, read);
      assert FlexCandidates(b, keys, read) == FlexCandidates(b[..n], keys, read) + KeyEntries(b[n], keys, read);
    }
  }

  /** The position of the first pair dated `base`, or `|cs|` when none is. */
  function FirstExactIndex(cs: seq<Candidate>, base: int): (r: nat)
    ensures r <= |cs|
    ensures forall j :: 0 <= j < r ==> cs[j].day != base
    ensures r < |cs| ==> cs[r].day == base
  {
    if |cs| == 0 then 0 else if cs[0].day == base then 0 else 1 + FirstExactIndex(cs[1..], base)
  }

  /** The future of the first pair dated exactly `base`. */
  function FirstExact(cs: seq<Candidate>, base: int): Option<Obj> {
    var k := FirstExactIndex(cs, base);
    if k < |cs| then Some(cs[k].fut) else None
  }

  /** `str(date_opcion)[:10]` read as a date, with no truth test. */
  function FlexBase(v: Value): (r: Option<Date>)
    ensures r.Some? ==> IsValid(r.value)
  {
    StrptimeYMD(Take(Str(v), 10))
  }

  /** The choice `buscar_futuro_flexible` makes among its candidates: the
      first exact match, failing that the nearest. */
  function FlexChoice(cs: seq<Candidate>, base: int): Option<Obj> {
    var exact := FirstExact(cs, base);
    if exact.Some? then exact else Closest(cs, base)
  }

  /** What `buscar_futuro_flexible(date, table)` returns: `None` for an empty
      table or an unreadable option date; otherwise the first future with an
      exact `date` or `vencimiento` match, failing that the nearest one. */
  function Flexible(fs: seq<Obj>, dateOpcion: Value): (r: Option<Obj>)
    ensures |fs| == 0 || FlexBase(dateOpcion).None? ==> r == None
  {
    if |fs| == 0 then None
    else
      match FlexBase(dateOpcion)
      case None => None
      case Some(base) => FlexChoice(FlexCandidates(fs, DateKeys, LooseDay), Ordinal(base))
  }

  /** An exact match, when there is one, is what the nearest-date search would
      pick anyway (the first pair at distance zero), so the choice is always
      the nearest candidate. */
  lemma ExactIsClosest(cs: seq<Candidate>, base: int)
    ensures FlexChoice(cs, base) == Closest(cs, base)
  {
    var k := FirstExactIndex(cs, base);
    if k < |cs| {
      var i := ClosestIndex(cs, base);
      assert Distance(cs[k].day, base) == 0;
    }
  }

  /** The exact-match pass never changes the answer of the nearest search. */
  lemma FlexibleIsNearest(fs: seq<Obj>, dateOpcion: Value, base: Date)
    requires |fs| > 0 && FlexBase(dateOpcion) == Some(base)
    ensures Flexible(fs, dateOpcion) == Closest(FlexCandidates(fs, DateKeys, LooseDay), Ordinal(base))
  {
    ExactIsClosest(FlexCandidates(fs, DateKeys, LooseDay), Ordinal(base));
  }

  /** An exact match wins over every candidate the nearest search might see:
      the choice is the first future, in scan order, with a key dated `base`. */
  lemma ExactPreferred(cs: seq<Candidate>, base: int, k: nat)
    requires k < |cs| && cs[k].day == base && forall j :: 0 <= j < k ==> cs[j].day != base
    ensures FlexChoice(cs, base) == Some(cs[k].fut)
  {
    assert FirstExactIndex(cs, base) == k;
  }

  /** Pairs after an exact match do not move it. */
  lemma FirstExactExtend(a: seq<Candidate>, b: seq<Candidate>, base: int)
    requires FirstExact(a, base).Some?
    ensures FirstExact(a + b, base) == FirstExact(a, base)
  {
    var k := FirstExactIndex(a, base);
    assert (a + b)[k] == a[k];
    assert FirstExactIndex(a + b, base) == k by {
      assert forall j :: 0 <= j < k ==> (a + b)[j] == a[j];
    }
  }

  /** Appending a pair dated other than `base`, or nothing, keeps "no exact
      match so far". */
  lemma NoExactStep(pre: seq<Candidate>, f: Obj, d: Option<int>, base: int)
    requires FirstExact(pre, base).None?
    requires d.Some? ==> d.value != base
    ensures FirstExact(pre + (if d.Some? then [Candidate(f, d.value)] else []), base).None?
  {
    var c := pre + (if d.Some? then [Candidate(f, d.value)] else []);
    assert forall j :: 0 <= j < |pre| ==> c[j] == pre[j];
  }

  lemma FirstExactFound(pre: seq<Candidate>, x: Candidate, base: int)
    requires FirstExact(pre, base).None? && x.day == base
    ensures FirstExact(pre + [x], base) == Some(x.fut)
  {
    assert forall j :: 0 <= j < |pre| ==> (pre + [x])[j] == pre[j];
    assert (pre + [x])[|pre|] == x;
  }

  /** The candidate list cut after future `i`'s first `j` keys. */
  lemma FlexSplit(fs: seq<Obj>, keys: seq<string>, read: Value -> Option<int>, i: nat, j: nat)
    requires i < |fs| && j <= |keys|
    ensures FlexCandidates(fs, keys, read)
         == FlexCandidates(fs[..i], keys, read) + KeyEntries(fs[i], keys[..j], read)
            + (KeyEntries(fs[i], keys[j..], read) + FlexCandidates(fs[i + 1..], keys, read))
  {
    var a := FlexCandidates(fs[..i], keys, read);
    var b := KeyEntries(fs[i], keys[..j], read);
    var c := KeyEntries(fs[i], keys[j..], read);
    var d := FlexCandidates(fs[i + 1..], keys, read);
    KeyEntriesAppend(fs[i], keys[..j], keys[j..], read);
    SplitAt(keys, j);
    var front := fs[..i + 1];
    assert |front| - 1 == i && front[..i] == fs[..i] && front[i] == fs[i];
    assert FlexCandidates(front, keys, read) == a + KeyEntries(fs[i], keys, read);
    assert FlexCandidates(front, keys, read) == a + (b + c);
    FlexCandidatesAppend(fs[..i + 1], fs[i + 1..], keys, read);
    SplitAt(fs, i + 1);
    assert FlexCandidates(fs, keys, read) == a + (b + c) + d;
    Regroup(a, b, c, d);
  }

  lemma SplitAt<T>(s: seq<T>, i: nat)
    requires i <= |s|
    ensures s[..i] + s[i..] == s
  {
  }

  lemma Regroup<T>(a: seq<T>, b: seq<T>, c: seq<T>, d: seq<T>)
    ensures a + (b + c) + d == a + b + (c + d)
  {
  }

  /** The first exact date met by the scan at future `i`, key `j`, after none
      before it, is the first exact pair of the whole list. */
  lemma ExactFound(fs: seq<Obj>, keys: seq<string>, read: Value -> Option<int>, i: nat, j: nat, base: int)
    requires i < |fs| && j < |keys|
    requires FirstExact(FlexCandidates(fs[..i], keys, read) + KeyEntries(fs[i], keys[..j], read), base).None?
    requires read(Get(fs[i], keys[j])) == Some(base)
    ensures FirstExact(FlexCandidates(fs, keys, read), base) == Some(fs[i])
  {
    var x := Candidate(fs[i], base);
    var pre := FlexCandidates(fs[..i], keys, read) + KeyEntries(fs[i], keys[..j], read);
    assert keys[..j + 1][..j] == keys[..j];
    var front := FlexCandidates(fs[..i], keys, read) + KeyEntries(fs[i], keys[..j + 1], read);
    assert front == pre + [x];
    FirstExactFound(pre, x, base);
    FlexSplit(fs, keys, read, i, j + 1);
    FirstExactExtend(front, KeyEntries(fs[i], keys[j + 1..], read) + FlexCandidates(fs[i + 1..], keys, read), base);
  }

  /** The first scan of `buscar_futuro_flexible`: return the first future with
      a key whose date is `base`. */
  method FindExact(fs: seq<Obj>, keys: seq<string>, read: Value -> Option<int>, base: int) returns (r: Option<Obj>)
    ensures r == FirstExact(FlexCandidates(fs, keys, read), base)
  {
    for i := 0 to |fs|
      invariant FirstExact(FlexCandidates(fs[..i], keys, read), base).None?
    {
      var f := fs[i];
      assert fs[..i + 1][..i] == fs[..i];
      for j := 0 to |keys|
        invariant FirstExact(FlexCandidates(fs[..i], keys, read) + KeyEntries(f, keys[..j], read), base).None?
      {
        assert keys[..j + 1][..j] == keys[..j];
        var vDay := read(Get(f, keys[j]));
        if vDay.Some? && vDay.value == base {
          ExactFound(fs, keys, read, i, j, base);
          return Some(f);
        }
        assert FlexCandidates(fs[..i], keys, read) + KeyEntries(f, keys[..j + 1], read)
            == FlexCandidates(fs[..i], keys, read) + KeyEntries(f, keys[..j], read)
               + (if vDay.Some? then [Candidate(f, vDay.value)] else []);
        NoExactStep(FlexCandidates(fs[..i], keys, read) + KeyEntries(f, keys[..j], read), f, vDay, base);
      }
      assert keys[..|keys|] == keys;
    }
    assert fs[..|fs|] == fs;
    return None;
  }

  /** The second scan of `buscar_futuro_flexible`: every readable
      `(future, date)` pair. */
  method CollectDates(fs: seq<Obj>, keys: seq<string>, read: Value -> Option<int>) returns (fechas: seq<Candidate>)
    ensures fechas == FlexCandidates(fs, keys, read)
  {
    fechas := [];
    for i := 0 to |fs|
      invariant fechas == FlexCandidates(fs[..i], keys, read)
    {
      var f := fs[i];
      assert fs[..i + 1][..i] == fs[..i];
      for j := 0 to |keys|
        invariant fechas == FlexCandidates(fs[..i], keys, read) + KeyEntries(f, keys[..j], read)
      {
        assert keys[..j + 1][..j] == keys[..j];
        var vDay := read(Get(f, keys[j]));
        if vDay.Some? {
          fechas := fechas + [Candidate(f, vDay.value)];
        }
      }
      assert keys[..|keys|] == keys;
    }
    assert fs[..|fs|] == fs;
  }

  /** `buscar_futuro_flexible`. */
  method BuscarFuturoFlexible(fs: seq<Obj>, dateOpcion: Value) returns (r: Option<Obj>)
    ensures r == Flexible(fs, dateOpcion)
  {
    if |fs| == 0 {
      return None;
    }
    var base := FlexBase(dateOpcion);
    if base.None? {
      return None;
    }
    var day := Ordinal(base.value);
    var exact := FindExact(fs, DateKeys, LooseDay, day);
    if exact.Some? {
      return exact;
    }
    var fechas := CollectDates(fs, DateKeys, LooseDay);
    if |fechas| == 0 {
      return None;
    }
    var best := ClosestIndex(fechas, day);
    return Some(fechas[best].fut);
  }

  // ---------------------------------------------------------------------------
  // lambda_handler
  // ---------------------------------------------------------------------------

  /** `round(implied_volatility(price, S, K, days / 365, 0, tipo), 4)`: the
      Black-Scholes root finder, `None` when it finds no root. */
  type Solver = (Number, Number, Number, nat, string) -> Option<Decimal>

  const OptionPriceKeys: seq<string> := ["Ant", "Ant.", "price", "ultimo", "last_price"]
  const FuturePriceKeys: seq<string> := ["last_price", "Ant", "Ant.", "precio", "price", "ultimo"]

  /** Days to expiry between the scrape date and the expiry, both read from
      their first ten characters: at least one, and 30 when either date does
      not read. */
  function OptionDays(scrape: Value, expiry: Value): (r: nat)
    ensures r >= 1
    ensures StrptimeYMD(Take(Str(scrape), 10)).None? || StrptimeYMD(Take(Str(expiry), 10)).None? ==> r == 30
  {
    match StrptimeYMD(Take(Str(scrape), 10))
    case None => 30
    case Some(a) =>
      match StrptimeYMD(Take(Str(expiry), 10))
      case None => 30
      case Some(b) =>
        var days := DaysBetween(a, b);
        if days >= 1 then days else 1
  }

  /** An expiry after the scrape date gives the true day count; an expiry on
      or before it gives one day. */
  lemma OptionDaysOrder(scrape: Value, expiry: Value, a: Date, b: Date)
    requires StrptimeYMD(Take(Str(scrape), 10)) == Some(a)
    requires StrptimeYMD(Take(Str(expiry), 10)) == Some(b)
    ensures Before(a, b) ==> OptionDays(scrape, expiry) == Ordinal(b) - Ordinal(a)
    ensures !Before(a, b) ==> OptionDays(scrape, expiry) == 1
  {
    OrdinalOrder(a, b);
    OrdinalOrder(b, a);
  }

  /** Why an option is left out. */
  datatype Skip = Incomplete | BadStrike | BadPrice | NotPositive

  /** What the loop does with one option: skip it, or store an item under an id. */
  datatype Outcome = Skipped(why: Skip) | Stored(id: string, item: Obj)

  /** `Decimal(x)` for a float: the same value, with no trailing zeros. */
  function DecimalOfFloat(x: Number): (r: Number)
    ensures x.Finite? ==> r.Finite? && ValueOf(r.d) == ValueOf(x.d)
    ensures !x.Finite? ==> r == x
  {
    match x
    case Finite(d) => Finite(Normalize(d))
    case _ => x
  }

  /** `construir_id_flexible` over the dictionary the handler builds. */
  function IdFor(scrape: Value, date: Value, tn: string, strikeF: Number): string {
    ConstruirIdFlexible(map["scrape_date" := scrape, "date" := date, "tipo" := VStr(tn), "strike" := VFloat(strikeF)])
  }

  /** What `get_first_valid(d, ['type', 'tipo'])` finds in the dictionary the
      handler builds: the normalised type unless it reads as missing. */
  function TipoField(tn: string): (r: Value)
    ensures r == VNone || r == VStr(tn)
  {
    if IsSentinel(VStr(tn)) then VNone else VStr(tn)
  }

  /** The handler's id is the id of its own four fields: the strike float
      always supplies the fourth segment. */
  lemma IdForSegments(scrape: Value, date: Value, tn: string, strikeF: Number)
    requires !IsSentinel(scrape) && !IsSentinel(date)
    ensures IdFor(scrape, date, tn, strikeF) == IdOf(scrape, date, TipoField(tn), VFloat(strikeF))
  {
    var m := map["scrape_date" := scrape, "date" := date, "tipo" := VStr(tn), "strike" := VFloat(strikeF)];
    assert FirstValidIndex(m, ScrapeKeys) == 0;
    assert FirstValidIndex(m, ExpiryKeys) == 0;
    assert FirstValidIndex(m, StrikeKeys) == 0;
    assert Get(m, "type") == VNone;
    if IsSentinel(VStr(tn)) {
      assert FirstValidIndex(m, TypeKeys) == 2;
    } else {
      assert FirstValidIndex(m, TypeKeys) == 1;
    }
  }

  /** The strike-as-id quirk inside the handler: an integral strike `n`
      reaches the id as ten times `n`. */
  lemma StoredIdStrike(date: Value, tipo: Value, scrape: Value, n: int, priceF: Number, spot: Number, solver: Solver)
    requires !IsSentinel(scrape) && !IsSentinel(date)
    ensures Accept(date, tipo, scrape, Finite(Decimal(n, 0)), priceF, spot, solver).id ==
      Join([Str(scrape), ExpiryPart(date), TypePart(TipoField(TypeNorm(tipo))), FloatRepr(Finite(Decimal(10 * n, 0)))], '#')
  {
    var tn := TypeNorm(tipo);
    IdForSegments(scrape, date, tn, Finite(Decimal(n, 0)));
    IntegralStrikePart(n);
    var segs := IdSegments(scrape, date, TipoField(tn), VFloat(Finite(Decimal(n, 0))));
    assert segs == [Str(scrape), ExpiryPart(date), TypePart(TipoField(tn)), FloatRepr(Finite(Decimal(10 * n, 0)))];
  }

  /** The item written to the IV table: `item_iv` with its `None` fields
      dropped. Only the volatility can be `None`, so the item has an `iv`
      field exactly when the solver converged. */
  function Store(id: string, date: Value, strikeF: Number, tn: string, iv: Option<Decimal>, scrape: Value): (r: Obj)
    ensures forall k :: k in r ==> r[k] != VNone
    ensures Get(r, "id") == VStr(id) && Get(r, "type") == VStr(tn)
    ensures Get(r, "strike") == VDec(DecimalOfFloat(strikeF))
    ensures Get(r, "date") == date && Get(r, "scrape_date") == scrape
    ensures "iv" in r <==> iv.Some?
    ensures iv.Some? ==> r["iv"] == VDec(Finite(ReprDecimal(iv.value)))
  {
    DropNone(map["id" := VStr(id), "date" := date, "strike" := VDec(DecimalOfFloat(strikeF)), "type" := VStr(tn),
                 "iv" := (if iv.Some? then VDec(Finite(ReprDecimal(iv.value))) else VNone), "scrape_date" := scrape])
  }

  /** The loop body once the five fields are looked up. */
  function ProcessFields(strike: Value, price: Value, date: Value, tipo: Value, scrape: Value,
                         spot: Number, solver: Solver): (r: Outcome)
    ensures r.Stored? ==> Get(r.item, "id") == VStr(r.id) && Get(r.item, "scrape_date") == scrape
    ensures r.Stored? ==> forall key :: key in r.item ==> r.item[key] != VNone
  {
    if IsSentinel(strike) || IsSentinel(price) || IsSentinel(date) || IsSentinel(tipo) || IsSentinel(scrape) then
      Skipped(Incomplete)
    else
      match LocaleFloat(Str(strike))
      case None => Skipped(BadStrike)
      case Some(strikeF) =>
        match ToFloat(price)
        case Err(_) => Skipped(BadPrice)
        case Ok(priceF) =>
          if !IsPositive(priceF) then Skipped(NotPositive)
          else Accept(date, tipo, scrape, strikeF, priceF, spot, solver)
  }

  /** The stored branch of the loop body, once the strike and the price have
      converted. */
  function Accept(date: Value, tipo: Value, scrape: Value, strikeF: Number, priceF: Number,
                  spot: Number, solver: Solver): (r: Outcome)
    ensures r.Stored? && Get(r.item, "id") == VStr(r.id) && Get(r.item, "scrape_date") == scrape
    ensures forall key :: key in r.item ==> r.item[key] != VNone
  {
    var tn := TypeNorm(tipo);
    var iv := solver(priceF, spot, strikeF, OptionDays(scrape, date), tn);
    var id := IdFor(scrape, date, tn, strikeF);
    Stored(id, Store(id, date, strikeF, tn, iv, scrape))
  }

  /** One pass of the handler's loop over an option. */
  function ProcessOption(op: Obj, spot: Number, solver: Solver): (r: Outcome)
    ensures r.Stored? ==> Get(r.item, "id") == VStr(r.id) && Get(r.item, "scrape_date") == Get(op, "scrape_date")
    ensures r.Stored? ==> forall key :: key in r.item ==> r.item[key] != VNone
  {
    ProcessFields(FirstValid(op, StrikeKeys), FirstValid(op, OptionPriceKeys), FirstValid(op, ExpiryKeys),
                  FirstValid(op, TypeKeys), FirstValid(op, ScrapeKeys), spot, solver)
  }

  /** An option is stored exactly when all five fields are valid, the strike
      converts after locale cleaning, and the price converts and is above zero
      (NaN is not); each failure has its own reason, checked in that order. */
  lemma SkipReasons(strike: Value, price: Value, date: Value, tipo: Value, scrape: Value, spot: Number, solver: Solver)
    ensures var o := ProcessFields(strike, price, date, tipo, scrape, spot, solver);
      && (o == Skipped(Incomplete) <==> IsSentinel(strike) || IsSentinel(price) || IsSentinel(date) || IsSentinel(tipo) || IsSentinel(scrape))
      && (o.Stored? <==> !IsSentinel(strike) && !IsSentinel(price) && !IsSentinel(date) && !IsSentinel(tipo) && !IsSentinel(scrape)
                         && LocaleFloat(Str(strike)).Some? && ToFloat(price).Ok? && IsPositive(ToFloat(price).value))
  {
  }

  /** A stored item keeps the option's expiry and scrape date, the normalised
      type and the strike as read, and carries an `iv` field exactly when the
      solver, given the days to expiry, converged. */
  lemma StoredFields(strike: Value, price: Value, date: Value, tipo: Value, scrape: Value, spot: Number, solver: Solver)
    requires ProcessFields(strike, price, date, tipo, scrape, spot, solver).Stored?
    ensures var o := ProcessFields(strike, price, date, tipo, scrape, spot, solver);
      var strikeF := LocaleFloat(Str(strike)).value;
      var iv := solver(ToFloat(price).value, spot, strikeF, OptionDays(scrape, date), TypeNorm(tipo));
      && Get(o.item, "date") == date && Get(o.item, "scrape_date") == scrape
      && Get(o.item, "type") == VStr(TypeNorm(tipo))
      && Get(o.item, "strike") == VDec(DecimalOfFloat(strikeF))
      && ("iv" in o.item <==> iv.Some?)
  {
    assert ProcessFields(strike, price, date, tipo, scrape, spot, solver)
        == Accept(date, tipo, scrape, LocaleFloat(Str(strike)).value, ToFloat(price).value, spot, solver);
  }

  /** The outcome of every option, in order. */
  function Outcomes(ops: seq<Obj>, spot: Number, solver: Solver): (r: seq<Outcome>)
    ensures |r| == |ops|
    ensures forall k :: 0 <= k < |ops| ==> r[k] == ProcessOption(ops[k], spot, solver)
  {
    seq(|ops|, k requires 0 <= k < |ops| => ProcessOption(ops[k], spot, solver))
  }

  /** What the handler's loop has gathered: the ids and the items written. */
  datatype Batch = Batch(ids: seq<string>, items: seq<Obj>)

  /** The stored outcomes, in order: `resultados` and `ivs_calculadas`. */
  function Gather(os: seq<Outcome>): (r: Batch)
    ensures |r.ids| == |r.items| <= |os|
  {
    if |os| == 0 then Batch([], [])
    else
      var b := Gather(os[..|os| - 1]);
      match os[|os| - 1]
      case Stored(id, item) => Batch(b.ids + [id], b.items + [item])
      case Skipped(_) => b
  }

  /** The answer lists exactly the stored outcomes: one id per stored option
      and none for a skipped one. */
  lemma {:induction false} GatherCount(os: seq<Outcome>)
    ensures |Gather(os).ids| == |set k | 0 <= k < |os| && os[k].Stored?|
  {
    if |os| > 0 {
      var n := |os| - 1;
      GatherCount(os[..n]);
      var front := set k | 0 <= k < n && os[..n][k].Stored?;
      var all := set k | 0 <= k < |os| && os[k].Stored?;
      assert all == front + (if os[n].Stored? then {n} else {});
    }
  }

  /** A property of the (id, item) pair that every stored outcome has holds
      of every position of the answer. */
  lemma {:induction false} GatherKeeps(os: seq<Outcome>, P: (string, Obj) -> bool)
    requires forall k :: 0 <= k < |os| && os[k].Stored? ==> P(os[k].id, os[k].item)
    ensures forall k :: 0 <= k < |Gather(os).ids| ==> P(Gather(os).ids[k], Gather(os).items[k])
  {
    if |os| > 0 {
      var n := |os| - 1;
      GatherKeeps(os[..n], P);
      var b := Gather(os[..n]);
      if os[n].Skipped? {
        assert Gather(os) == b;
      } else {
        var ids, items := b.ids + [os[n].id], b.items + [os[n].item];
        assert Gather(os) == Batch(ids, items);
        forall k | 0 <= k < |ids|
          ensures P(ids[k], items[k])
        {
          if k == |b.ids| {
            assert items[k] == os[n].item && ids[k] == os[n].id;
          } else {
            assert items[k] == b.items[k] && ids[k] == b.ids[k];
          }
        }
      }
    }
  }

  /** `[op for op in opciones if op.get('scrape_date') == hoy]`. */
  function TodaysOptions(ops: seq<Obj>, hoy: string): (r: seq<Obj>)
    ensures |r| <= |ops|
    ensures forall k :: 0 <= k < |r| ==> r[k] in ops && Get(r[k], "scrape_date") == VStr(hoy)
  {
    if |ops| == 0 then []
    else
      var rest := TodaysOptions(ops[..|ops| - 1], hoy);
      if Get(ops[|ops| - 1], "scrape_date") == VStr(hoy) then rest + [ops[|ops| - 1]] else rest
  }

  /** The handler's answer. */
  datatype Response = NoFuture | NoFuturePrice | Computed(batch: Batch)

  /** `lambda_handler` on the scanned options and futures, for the UTC date
      `today`. */
  function Handler(ops: seq<Obj>, today: Date, futures: seq<Obj>, solver: Solver): Result<Response>
    requires IsValid(today)
  {
    var hoy := IsoText(today);
    match MasCercano(futures, hoy)
    case Err(e) => Err(e)
    case Ok(fut) =>
      if fut.None? || |fut.value| == 0 then Ok(NoFuture)
      else
        var s := FirstValid(fut.value, FuturePriceKeys);
        if s == VNone then Ok(NoFuturePrice)
        else
          match ToFloat(s)
          case Err(e) => Err(e)
          case Ok(spot) => Ok(Computed(Gather(Outcomes(TodaysOptions(ops, hoy), spot, solver))))
  }

  /** Today's date always reads back, so the future search never raises inside
      the handler. */
  lemma HandlerDateReads(futures: seq<Obj>, today: Date)
    requires IsValid(today)
    ensures MasCercano(futures, IsoText(today)).Ok?
  {
    StrptimeIsoText(today);
  }

  /** Which of the handler's four answers comes back, in terms of the future
      found for today: no future (or an empty record), a future without a
      usable price, a price that does not convert (the only error), or the
      computed batch. */
  lemma HandlerCases(ops: seq<Obj>, today: Date, futures: seq<Obj>, solver: Solver, fut: Option<Obj>)
    requires IsValid(today)
    requires MasCercano(futures, IsoText(today)) == Ok(fut)
    ensures Handler(ops, today, futures, solver) == Ok(NoFuture) <==> fut.None? || |fut.value| == 0
    ensures Handler(ops, today, futures, solver) == Ok(NoFuturePrice) <==>
      fut.Some? && |fut.value| > 0 && FirstValid(fut.value, FuturePriceKeys) == VNone
    ensures Handler(ops, today, futures, solver).Err? <==>
      fut.Some? && |fut.value| > 0 && FirstValid(fut.value, FuturePriceKeys) != VNone
      && ToFloat(FirstValid(fut.value, FuturePriceKeys)).Err?
  {
  }

  /** A computed batch pairs each id with its item, holds no null field, and
      only holds options scraped today. */
  lemma HandlerComputed(ops: seq<Obj>, today: Date, futures: seq<Obj>, solver: Solver, b: Batch)
    requires IsValid(today)
    requires Handler(ops, today, futures, solver) == Ok(Computed(b))
    ensures |b.ids| == |b.items|
    ensures forall k :: 0 <= k < |b.ids| ==>
      Get(b.items[k], "id") == VStr(b.ids[k]) && Get(b.items[k], "scrape_date") == VStr(IsoText(today))
    ensures forall k, key :: 0 <= k < |b.items| && key in b.items[k] ==> b.items[k][key] != VNone
  {
    var hoy := IsoText(today);
    var fut := MasCercano(futures, hoy).value.value;
    var spot := ToFloat(FirstValid(fut, FuturePriceKeys)).value;
    assert b == Gather(Outcomes(TodaysOptions(ops, hoy), spot, solver));
    GatheredBatch(TodaysOptions(ops, hoy), hoy, spot, solver);
  }

  /** The batch gathered from options all scraped on `hoy`. */
  lemma GatheredBatch(todays: seq<Obj>, hoy: string, spot: Number, solver: Solver)
    requires forall k :: 0 <= k < |todays| ==> Get(todays[k], "scrape_date") == VStr(hoy)
    ensures var b := Gather(Outcomes(todays, spot, solver));
      && |b.ids| == |b.items|
      && (forall k :: 0 <= k < |b.ids| ==> Get(b.items[k], "id") == VStr(b.ids[k]) && Get(b.items[k], "scrape_date") == VStr(hoy))
      && (forall k, key :: 0 <= k < |b.items| && key in b.items[k] ==> b.items[k][key] != VNone)
  {
    var os := Outcomes(todays, spot, solver);
    var P := (id: string, item: Obj) =>
      Get(item, "id") == VStr(id) && Get(item, "scrape_date") == VStr(hoy)
      && forall key :: key in item ==> item[key] != VNone;
    forall k | 0 <= k < |os| && os[k].Stored?
      ensures P(os[k].id, os[k].item)
    {
      assert os[k] == ProcessOption(todays[k], spot, solver);
    }
    GatherKeeps(os, P);
  }

  /** One more option extends the gathered batch by its own outcome. */
  lemma GatherStep(ops: seq<Obj>, i: nat, spot: Number, solver: Solver)
    requires i < |ops|
    ensures var b := Gather(Outcomes(ops[..i], spot, solver));
      Gather(Outcomes(ops[..i + 1], spot, solver)) ==
        match ProcessOption(ops[i], spot, solver)
        case Stored(id, item) => Batch(b.ids + [id], b.items + [item])
        case Skipped(_) => b
  {
    var os := Outcomes(ops[..i + 1], spot, solver);
    assert os[..i] == Outcomes(ops[..i], spot, solver);
  }

  /** `lambda_handler`: the scan results and today's date in, the ids and the
      items written out. */
  method LambdaHandler(ops: seq<Obj>, today: Date, futures: seq<Obj>, solver: Solver) returns (r: Result<Response>)
    requires IsValid(today)
    ensures r == Handler(ops, today, futures, solver)
  {
    var hoy := IsoText(today);
    var todays := TodaysOptions(ops, hoy);
    var found := BuscarFuturoMasCercano(futures, hoy);
    if found.Err? {
      return Err(found.error);
    }
    var fut := found.value;
    if fut.None? || |fut.value| == 0 {
      return Ok(NoFuture);
    }
    var s := GetFirstValid(fut.value, FuturePriceKeys);
    if s == VNone {
      return Ok(NoFuturePrice);
    }
    var spotR := ToFloat(s);
    if spotR.Err? {
      return Err(spotR.error);
    }
    var spot := spotR.value;
    var resultados: seq<string> := [];
    var ivs: seq<Obj> := [];
    for i := 0 to |todays|
      invariant Batch(resultados, ivs) == Gather(Outcomes(todays[..i], spot, solver))
    {
      var opcion := todays[i];
      GatherStep(todays, i, spot, solver);
      var strike := GetFirstValid(opcion, StrikeKeys);
      var price := GetFirstValid(opcion, OptionPriceKeys);
      var date := GetFirstValid(opcion, ExpiryKeys);
      var tipo := GetFirstValid(opcion, TypeKeys);
      var scrape := GetFirstValid(opcion, ScrapeKeys);
      if IsSentinel(strike) || IsSentinel(price) || IsSentinel(date) || IsSentinel(tipo) || IsSentinel(scrape) {
        continue;
      }
      var strikeF := LocaleFloat(Str(strike));
      if strikeF.None? {
        continue;
      }
      var priceF := ToFloat(price);
      if priceF.Err? || !IsPositive(priceF.value) {
        continue;
      }
      var stored := Accept(date, tipo, scrape, strikeF.value, priceF.value, spot, solver);
      resultados := resultados + [stored.id];
      ivs := ivs + [stored.item];
    }
    assert todays[..|todays|] == todays;
    return Ok(Computed(Batch(resultados, ivs)));
  }
}
