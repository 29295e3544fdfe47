/** The class-based MEFF scrapers, `MiniIbexOpcionesScraper` and
    `MiniIbexFuturosScraper`, of which the repository keeps two copies: the
    one the Lambda packages and the one the dashboard ships.  They share the
    expiry map; for the options table the Lambda copy checks for an `ANT`
    header and reads the price from the last cell, keeping an unreadable one
    as NaN, while the dashboard copy reads cell 12 and drops a row it cannot
    read; for the futures table they pick the date and price columns
    differently. */
module MeffScraper {
  import opened Wrappers
  import opened Text
  import opened Numbers
  import opened Dates
  import opened Records
  import opened MeffPage
  import opened Collect

  // ---------------------------------------------------------------------------
  // _mapear_vencimientos
  // ---------------------------------------------------------------------------

  /** `venc_dict`: an option's `value` attribute, `None` included, to its expiry. */
  type ExpiryMap = map<Option<string>, Date>

  /** Every expiry in the map is a real date. */
  predicate ValidExpiries(m: ExpiryMap) {
    forall k :: k in m ==> IsValid(m[k])
  }

  /** `cod.startswith("OCE")`: the code of a call series. */
  predicate IsCallCode(code: string) { "OCE" <= code }

  /** `cod.replace("OCE", "OPE")`: the put series of the same expiry. */
  function PutTwin(code: string): string { ReplaceAll(code, "OCE", "OPE") }

  /** The twin of a call code is a put code, so it never overwrites the call. */
  lemma PutTwinIsPut(code: string)
    requires IsCallCode(code)
    ensures "OPE" <= PutTwin(code)
    ensures PutTwin(code) != code
  {
    assert PutTwin(code) == "OPE" + ReplaceAll(code[3..], "OCE", "OPE");
    assert PutTwin(code)[1] == 'P' && code[1] == 'C';
  }

  /** Reads an option's text as an expiry date; `None` is the exception
      `strptime` raises. */
  type DateReader = string -> Option<Date>

  /** The reader `_mapear_vencimientos` uses:
      `strptime(opt.text.strip(), "%d/%m/%Y").date()`. */
  function ReadExpiry(text: string): (r: Option<Date>)
    ensures r.Some? ==> IsValid(r.value)
  {
    StrptimeDMY(Strip(text))
  }

  /** A reader that only yields real dates. */
  ghost predicate ValidReader(read: DateReader) {
    forall t :: read(t).Some? ==> IsValid(read(t).value)
  }

  lemma ReadExpiryValid()
    ensures ValidReader(ReadExpiry)
  {
  }

  /** The keys option `o` writes: its own `value` and, for a call code, the put
      twin, provided its text reads as a date.  When `value` is missing, the
      `None` key is written before `.startswith` raises. */
  predicate Registers(o: SelectOption, k: Option<string>, read: DateReader) {
    read(o.text).Some?
    && (k == o.value || (o.value.Some? && IsCallCode(o.value.value) && k == Some(PutTwin(o.value.value))))
  }

  /** One pass of the loop body over option `o`. */
  function MapStep(m: ExpiryMap, o: SelectOption, read: DateReader): ExpiryMap {
    match read(o.text)
    case None => m
    case Some(f) =>
      var m1 := m[o.value := f];
      if o.value.Some? && IsCallCode(o.value.value) then m1[Some(PutTwin(o.value.value)) := f] else m1
  }

  /** What one pass does to key `k`: it either writes the option's date there
      or leaves the key as it was. */
  lemma MapStepKey(m: ExpiryMap, o: SelectOption, read: DateReader, k: Option<string>)
    ensures k in MapStep(m, o, read) <==> k in m || Registers(o, k, read)
    ensures k in MapStep(m, o, read) ==>
      MapStep(m, o, read)[k] == if Registers(o, k, read) then read(o.text).value else m[k]
  {
  }

  /** The map after the loop has seen `opts`. */
  function ExpiriesOf(opts: seq<SelectOption>, read: DateReader): (r: ExpiryMap)
    requires ValidReader(read)
    ensures ValidExpiries(r)
  {
    if |opts| == 0 then map[]
    else
      var m := ExpiriesOf(opts[..|opts| - 1], read);
      var r := MapStep(m, opts[|opts| - 1], read);
      assert forall k :: k in r ==> IsValid(r[k]) by {
        forall k | k in r
          ensures IsValid(r[k])
        {
          MapStepKey(m, opts[|opts| - 1], read, k);
        }
      }
      r
  }

  /** The map after one more option is one more pass over the map before it. */
  lemma ExpiriesSnoc(opts: seq<SelectOption>, i: nat, read: DateReader)
    requires ValidReader(read) && i < |opts|
    ensures ExpiriesOf(opts[..i + 1], read) == MapStep(ExpiriesOf(opts[..i], read), opts[i], read)
  {
    assert opts[..i + 1][..i] == opts[..i];
  }

  /** `_mapear_vencimientos`: no `OpStrike` drop-down gives the empty map. */
  function Vencimientos(select: Option<seq<SelectOption>>): (r: ExpiryMap)
    ensures select.None? ==> r == map[]
    ensures ValidExpiries(r)
  {
    ReadExpiryValid();
    match select
    case None => map[]
    case Some(opts) => ExpiriesOf(opts, ReadExpiry)
  }

  method MapearVencimientos(select: Option<seq<SelectOption>>) returns (venc: ExpiryMap)
    ensures venc == Vencimientos(select)
  {
    venc := map[];
    if select.None? {
      return;
    }
    var opts := select.value;
    ReadExpiryValid();
    for i := 0 to |opts|
      invariant venc == ExpiriesOf(opts[..i], ReadExpiry)
    {
      var o := opts[i];
      ExpiriesSnoc(opts, i, ReadExpiry);
      var fecha := ReadExpiry(o.text);
      if fecha.Some? {
        venc := venc[o.value := fecha.value];
        if o.value.Some? && IsCallCode(o.value.value) {
          venc := venc[Some(PutTwin(o.value.value)) := fecha.value];
        }
      }
    }
    assert opts[..|opts|] == opts;
  }

  /** The keys of the map are exactly the keys some option writes. */
  lemma {:induction false} ExpiriesDomain(opts: seq<SelectOption>, read: DateReader, k: Option<string>)
    requires ValidReader(read)
    ensures k in ExpiriesOf(opts, read) <==> exists i :: 0 <= i < |opts| && Registers(opts[i], k, read)
  {
    if |opts| > 0 {
      var n := |opts| - 1;
      ExpiriesDomain(opts[..n], read, k);
      MapStepKey(ExpiriesOf(opts[..n], read), opts[n], read, k);
      if exists i :: 0 <= i < n && Registers(opts[..n][i], k, read) {
        var i :| 0 <= i < n && Registers(opts[..n][i], k, read);
        assert opts[i] == opts[..n][i];
      }
      if exists i :: 0 <= i < |opts| && Registers(opts[i], k, read) {
        var i :| 0 <= i < |opts| && Registers(opts[i], k, read);
        if i < n {
          assert opts[..n][i] == opts[i];
        }
      }
    }
  }

  /** A key holds the date of the last option that writes it. */
  lemma {:induction false} ExpiriesLastWins(opts: seq<SelectOption>, read: DateReader, i: nat, k: Option<string>)
    requires ValidReader(read)
    requires i < |opts| && Registers(opts[i], k, read)
    requires forall j :: i < j < |opts| ==> !Registers(opts[j], k, read)
    ensures k in ExpiriesOf(opts, read) && ExpiriesOf(opts, read)[k] == read(opts[i].text).value
  {
    var n := |opts| - 1;
    MapStepKey(ExpiriesOf(opts[..n], read), opts[n], read, k);
    if i < n {
      forall j | i < j < n
        ensures !Registers(opts[..n][j], k, read)
      {
        assert opts[..n][j] == opts[j];
      }
      assert opts[..n][i] == opts[i];
      ExpiriesLastWins(opts[..n], read, i, k);
    }
  }

  /** A call option with a readable date registers its put twin under the same
      date, as a separate key. */
  lemma CallRegistersTwin(opts: seq<SelectOption>, read: DateReader, o: SelectOption, code: string)
    requires ValidReader(read)
    requires o.value == Some(code) && IsCallCode(code) && read(o.text).Some?
    ensures Some(code) in ExpiriesOf(opts + [o], read) && Some(PutTwin(code)) in ExpiriesOf(opts + [o], read)
    ensures ExpiriesOf(opts + [o], read)[Some(code)] == ExpiriesOf(opts + [o], read)[Some(PutTwin(code))]
      == read(o.text).value
    ensures PutTwin(code) != code
  {
    PutTwinIsPut(code);
    assert (opts + [o])[..|opts|] == opts;
    MapStepKey(ExpiriesOf(opts, read), o, read, Some(code));
    MapStepKey(ExpiriesOf(opts, read), o, read, Some(PutTwin(code)));
  }

  /** An option whose text is not a date changes nothing, wherever it stands. */
  lemma {:induction false} UnreadableOptionSkipped(a: seq<SelectOption>, o: SelectOption, b: seq<SelectOption>, read: DateReader)
    requires ValidReader(read)
    requires read(o.text).None?
    ensures ExpiriesOf(a + [o] + b, read) == ExpiriesOf(a + b, read)
    decreases |b|
  {
    if |b| == 0 {
      assert (a + [o] + b)[..|a|] == a;
      assert a + b == a;
    } else {
      var n := |b| - 1;
      UnreadableOptionSkipped(a, o, b[..n], read);
      assert (a + [o] + b)[..|a + [o] + b| - 1] == a + [o] + b[..n];
      assert (a + b)[..|a + b| - 1] == a + b[..n];
      assert (a + [o] + b)[|a + [o] + b| - 1] == b[n] == (a + b)[|a + b| - 1];
    }
  }

  // ---------------------------------------------------------------------------
  // obtener_opciones
  // ---------------------------------------------------------------------------

  /** Which of the two copies of the scraper runs. */
  datatype ScraperCopy = LambdaCopy | AppCopy

  /** The `tblOpciones` table: the texts of its `<th>` headers and its rows. */
  datatype OptionsTable = OptionsTable(headers: seq<string>, rows: seq<OptionRow>)

  /** One record of the options DataFrame. */
  datatype Quote = Quote(tipo: string, strike: Number, precio: Number, fecha: Date, dias: int)

  /** `"CALL" if tipo_cod.startswith("OCE") else "PUT"`. */
  function TipoOpcion(code: string): (r: string)
    ensures r == "CALL" <==> IsCallCode(code)
    ensures r == "CALL" || r == "PUT"
  {
    if IsCallCode(code) then "CALL" else "PUT"
  }

  /** Reads a cell's text as a number; `None` is the exception `float` raises. */
  type NumberReader = string -> Option<Number>

  /** The reader both copies use:
      `float(cell.get_text(strip=True).replace(".", "").replace(",", "."))`. */
  function CellNumber(cell: string): Option<Number> {
    LocaleFloat(Strip(cell))
  }

  /** The price of a row with at least one cell: the Lambda copy reads the
      last cell and keeps NaN when it is unreadable; the dashboard copy reads
      cell 12 and has no price (the row is dropped) when that cell is missing
      or unreadable. */
  function Precio(copy: ScraperCopy, cells: seq<string>, num: NumberReader): (r: Option<Number>)
    requires |cells| > 0
    ensures copy == LambdaCopy ==> r.Some?
    ensures copy == LambdaCopy ==> r == if num(cells[|cells| - 1]).Some? then num(cells[|cells| - 1]) else Some(NaN)
    ensures copy == AppCopy ==> r == if |cells| > 12 then num(cells[12]) else None
  {
    match copy
    case LambdaCopy =>
      var p := num(cells[|cells| - 1]);
      if p.Some? then p else Some(NaN)
    case AppCopy =>
      if |cells| > 12 then num(cells[12]) else None
  }

  /** The record one row yields, or `None` when the loop moves past it: no
      cells (the `IndexError` is caught), an unreadable strike, no price (the
      dashboard copy only), or a code without an expiry. */
  function RowQuote(copy: ScraperCopy, venc: ExpiryMap, today: Date, row: OptionRow, num: NumberReader): (r: Option<Quote>)
    requires ValidExpiries(venc) && IsValid(today)
    ensures r.Some? <==>
      |row.cells| > 0 && num(row.cells[0]).Some? && Precio(copy, row.cells, num).Some? && Some(row.code) in venc
    ensures r.Some? ==> r.value.tipo == TipoOpcion(row.code) && r.value.fecha == venc[Some(row.code)]
    ensures r.Some? ==> Some(r.value.strike) == num(row.cells[0]) && Some(r.value.precio) == Precio(copy, row.cells, num)
    ensures r.Some? ==> r.value.dias == DaysBetween(today, r.value.fecha)
  {
    if |row.cells| == 0 then None
    else match num(row.cells[0])
      case None => None
      case Some(strike) =>
        match Precio(copy, row.cells, num)
        case None => None
        case Some(precio) =>
          if Some(row.code) in venc then
            var fecha := venc[Some(row.code)];
            Some(Quote(TipoOpcion(row.code), strike, precio, fecha, DaysBetween(today, fecha)))
          else None
  }

  /** The records of `rows`, in row order. */
  function Quotes(copy: ScraperCopy, venc: ExpiryMap, today: Date, rows: seq<OptionRow>, num: NumberReader): seq<Quote>
    requires ValidExpiries(venc) && IsValid(today)
  {
    FilterMap(rows, (row: OptionRow) => RowQuote(copy, venc, today, row, num))
  }

  /** One more row appends its record, if it yields one. */
  lemma QuotesSnoc(copy: ScraperCopy, venc: ExpiryMap, today: Date, rows: seq<OptionRow>, num: NumberReader, i: nat)
    requires ValidExpiries(venc) && IsValid(today) && i < |rows|
    ensures Quotes(copy, venc, today, rows[..i + 1], num) == Quotes(copy, venc, today, rows[..i], num)
      + (if RowQuote(copy, venc, today, rows[i], num).Some? then [RowQuote(copy, venc, today, rows[i], num).value] else [])
  {
    assert rows[..i + 1] == rows[..i] + [rows[i]];
    FilterMapSnoc(rows[..i], rows[i], (row: OptionRow) => RowQuote(copy, venc, today, row, num));
  }

  /** `"ant" in h` for one lower-cased, stripped header text. */
  predicate IsAntHeader(h: string) { Contains(Lower(Strip(h)), "ant") }

  /** The Lambda copy raises unless some header mentions `ant`. */
  predicate HasAntHeader(headers: seq<string>) {
    Any(headers, IsAntHeader)
  }

  /** `obtener_opciones` on a page whose drop-down is `select`, with
      `date.today()` as `today`: the table must exist, and for the Lambda copy
      carry an `ANT` header. */
  function Opciones(copy: ScraperCopy, select: Option<seq<SelectOption>>, table: Option<OptionsTable>, today: Date): (r: Result<seq<Quote>>)
    requires IsValid(today)
    ensures table.None? ==> r == Err(RuntimeError)
    ensures table.Some? && copy == LambdaCopy && !HasAntHeader(table.value.headers) ==> r == Err(PlainException)
    ensures r.Ok? ==> |r.value| <= |table.value.rows|
  {
    if table.None? then Err(RuntimeError)
    else if copy == LambdaCopy && !HasAntHeader(table.value.headers) then Err(PlainException)
    else Ok(Quotes(copy, Vencimientos(select), today, table.value.rows, CellNumber))
  }

  /** The header scan of the Lambda copy: is there a header mentioning `ant`? */
  method FindAntHeader(headers: seq<string>) returns (found: bool)
    ensures found == HasAntHeader(headers)
  {
    found := false;
    for i := 0 to |headers|
      invariant found == Any(headers[..i], IsAntHeader)
    {
      AnySnoc(headers, IsAntHeader, i);
      if IsAntHeader(headers[i]) {
        found := true;
      }
    }
    assert headers[..|headers|] == headers;
  }

  /** The row loop of `obtener_opciones`, reading cells with `num`. */
  method ScanOptionRows(copy: ScraperCopy, venc: ExpiryMap, today: Date, rows: seq<OptionRow>, num: NumberReader)
    returns (opciones: seq<Quote>)
    requires ValidExpiries(venc) && IsValid(today)
    ensures opciones == Quotes(copy, venc, today, rows, num)
  {
    opciones := [];
    for i := 0 to |rows|
      invariant opciones == Quotes(copy, venc, today, rows[..i], num)
    {
      var fila := rows[i];
      var celdas := fila.cells;
      QuotesSnoc(copy, venc, today, rows, num, i);
      if |celdas| > 0 {
        var strike := num(celdas[0]);
        if strike.Some? {
          var precio: Option<Number>;
          if copy == LambdaCopy {
            precio := num(celdas[|celdas| - 1]);
            if precio.None? {
              precio := Some(NaN);
            }
          } else if |celdas| > 12 {
            precio := num(celdas[12]);
          } else {
            precio := None;
          }
          if precio.Some? && Some(fila.code) in venc {
            var fecha := venc[Some(fila.code)];
            opciones := opciones + [Quote(TipoOpcion(fila.code), strike.value, precio.value, fecha, DaysBetween(today, fecha))];
          }
        }
      }
    }
    assert rows[..|rows|] == rows;
  }

  method ObtenerOpciones(copy: ScraperCopy, select: Option<seq<SelectOption>>, table: Option<OptionsTable>, today: Date)
    returns (r: Result<seq<Quote>>)
    requires IsValid(today)
    ensures r == Opciones(copy, select, table, today)
  {
    var venc := MapearVencimientos(select);
    if table.None? {
      return Err(RuntimeError);
    }
    if copy == LambdaCopy {
      var found := FindAntHeader(table.value.headers);
      if !found {
        return Err(PlainException);
      }
    }
    var opciones := ScanOptionRows(copy, venc, today, table.value.rows, CellNumber);
    r := Ok(opciones);
  }

  /** Every record of the DataFrame comes from a row with a readable strike
      whose code has an expiry; its type is read from that code and its days
      count from that expiry. */
  lemma QuotesFromRows(copy: ScraperCopy, venc: ExpiryMap, today: Date, rows: seq<OptionRow>, num: NumberReader, q: Quote)
    requires ValidExpiries(venc) && IsValid(today)
    requires q in Quotes(copy, venc, today, rows, num)
    ensures exists i :: (0 <= i < |rows| && |rows[i].cells| > 0
      && Some(q.strike) == num(rows[i].cells[0])
      && Some(rows[i].code) in venc && q.fecha == venc[Some(rows[i].code)]
      && (q.tipo == "CALL" <==> IsCallCode(rows[i].code))
      && q.dias == DaysBetween(today, q.fecha))
  {
    var f := (row: OptionRow) => RowQuote(copy, venc, today, row, num);
    FilterMapMember(rows, f, q);
    var i :| 0 <= i < |rows| && f(rows[i]) == Some(q);
    assert RowQuote(copy, venc, today, rows[i], num) == Some(q);
  }

  /** In the Lambda copy a row with a readable strike and a known expiry is
      always kept: an unreadable price only turns into NaN. */
  lemma LambdaKeepsUnpricedRow(venc: ExpiryMap, today: Date, row: OptionRow, num: NumberReader)
    requires ValidExpiries(venc) && IsValid(today)
    requires |row.cells| > 0 && num(row.cells[0]).Some? && Some(row.code) in venc
    requires num(row.cells[|row.cells| - 1]).None?
    ensures RowQuote(LambdaCopy, venc, today, row, num).Some?
    ensures RowQuote(LambdaCopy, venc, today, row, num).value.precio == NaN
  {
  }

  /** In the dashboard copy a row is kept only when cell 12 exists and reads
      as a number, which is then its price. */
  lemma AppNeedsCellTwelve(venc: ExpiryMap, today: Date, row: OptionRow, num: NumberReader)
    requires ValidExpiries(venc) && IsValid(today)
    ensures RowQuote(AppCopy, venc, today, row, num).Some? ==>
      |row.cells| > 12 && Some(RowQuote(AppCopy, venc, today, row, num).value.precio) == num(row.cells[12])
  {
  }

  /** A row dropped for whatever reason leaves the other records as they are. */
  lemma DroppedRowIsolated(copy: ScraperCopy, venc: ExpiryMap, today: Date, num: NumberReader,
                           a: seq<OptionRow>, row: OptionRow, b: seq<OptionRow>)
    requires ValidExpiries(venc) && IsValid(today)
    requires RowQuote(copy, venc, today, row, num).None?
    ensures Quotes(copy, venc, today, a + [row] + b, num) == Quotes(copy, venc, today, a + b, num)
  {
    SkippedRow(a, row, b, (r: OptionRow) => RowQuote(copy, venc, today, r, num));
  }

  // ---------------------------------------------------------------------------
  // parse_futuros
  // ---------------------------------------------------------------------------

  /** The futures table as `pandas.read_html` returns it: the header texts
      and, per row, the parsed cells (numbers where `decimal=","` and
      `thousands="."` could read them, strings otherwise). */
  datatype FuturesFrame = FuturesFrame(columns: seq<string>, rows: seq<seq<Value>>)

  /** One row of the returned DataFrame. */
  datatype FutureQuote = FutureQuote(fecha: Date, precio: Number)

  /** Cell `j` of a row; `read_html` pads a short row with NaN. */
  function Cell(row: seq<Value>, j: nat): Value {
    if j < |row| then row[j] else VNone
  }

  /** `df[df.iloc[:, 0] != "Volumen Total"]`. */
  function KeptRow(row: seq<Value>): Option<seq<Value>> {
    if Cell(row, 0) == VStr("Volumen Total") then None else Some(row)
  }

  function KeptRows(rows: seq<seq<Value>>): seq<seq<Value>> {
    FilterMap(rows, KeptRow)
  }

  /** The totals row is removed and every other row is kept, in order. */
  lemma KeptRowsExact(rows: seq<seq<Value>>, row: seq<Value>)
    ensures row in KeptRows(rows) <==> row in rows && Cell(row, 0) != VStr("Volumen Total")
  {
    FilterMapMember(rows, KeptRow, row);
    if row in rows && Cell(row, 0) != VStr("Volumen Total") {
      var i :| 0 <= i < |rows| && rows[i] == row;
      assert KeptRow(rows[i]) == Some(row);
    }
  }

  /** `[c.strip().lower() for c in df.columns]`. */
  function LowerNames(columns: seq<string>): (r: seq<string>)
    ensures |r| == |columns|
    ensures forall j :: 0 <= j < |r| ==> r[j] == Lower(Strip(columns[j]))
  {
    seq(|columns|, j requires 0 <= j < |columns| => Lower(Strip(columns[j])))
  }

  /** `rename(columns={"vencimiento": "fecha_venc"})`. */
  function RenameVencimiento(names: seq<string>): (r: seq<string>)
    ensures |r| == |names|
    ensures forall j :: 0 <= j < |r| ==> r[j] == if names[j] == "vencimiento" then "fecha_venc" else names[j]
  {
    seq(|names|, j requires 0 <= j < |names| => if names[j] == "vencimiento" then "fecha_venc" else names[j])
  }

  /** The first index from `from` on whose name contains `ant`, else the last
      column (the Lambda copy's price column). */
  function AntColumn(names: seq<string>, from: nat): (r: nat)
    requires from <= |names| && |names| > 0
    ensures r < |names|
    ensures r < |names| - 1 ==> Contains(names[r], "ant")
    ensures Contains(names[r], "ant") ==> forall j :: from <= j < r ==> !Contains(names[j], "ant")
    ensures !Contains(names[r], "ant") ==> forall j :: from <= j < |names| ==> !Contains(names[j], "ant")
    ensures from <= r || r == |names| - 1
    decreases |names| - from
  {
    if from == |names| then |names| - 1
    else if Contains(names[from], "ant") then from
    else AntColumn(names, from + 1)
  }

  /** The first column named `name`, the one `df[name]` reads. */
  function ColumnNamed(names: seq<string>, name: string, from: nat): (r: Option<nat>)
    requires from <= |names|
    ensures r.Some? ==> from <= r.value < |names| && names[r.value] == name
    ensures r.Some? ==> forall j :: from <= j < r.value ==> names[j] != name
    ensures r.None? ==> forall j :: from <= j < |names| ==> names[j] != name
    decreases |names| - from
  {
    if from == |names| then None
    else if names[from] == name then Some(from)
    else ColumnNamed(names, name, from + 1)
  }

  /** `.replace('-', np.nan).astype(float)` of one cell: `'-'` and empty cells
      become NaN, numbers stay, other strings go through `float()`, which
      raises `ValueError` on the whole column. */
  function PrecioUltimo(v: Value): (r: Result<Number>)
    ensures v == VStr("-") || v == VNone ==> r == Ok(NaN)
    ensures (v.VDec? || v.VFloat?) ==> r == Ok(v.n)
    ensures v.VStr? && v.s != "-" ==> (r.Ok? <==> ParseFloat(v.s).Some?)
  {
    match v
    case VNone => Ok(NaN)
    case VStr(s) =>
      if s == "-" then Ok(NaN)
      else (
        match ParseFloat(s)
        case None => Err(ValueError)
        case Some(x) => Ok(x))
    case VDec(n) => Ok(n)
    case VFloat(n) => Ok(n)
  }

  /** `strptime(x.strip(), "%d %b. %Y").date()` of one cell of the Lambda
      copy: a number has no `.strip()`. */
  function FechaVencLambda(v: Value): (r: Result<Date>)
    ensures r.Ok? ==> IsValid(r.value)
    ensures r.Ok? <==> v.VStr? && StrptimeDayMonthYear(Strip(v.s)).Some?
  {
    match v
    case VStr(s) => (
      match StrptimeDayMonthYear(Strip(s))
      case None => Err(ValueError)
      case Some(d) => Ok(d))
    case _ => Err(AttributeError)
  }

  /** `str(x)` of a DataFrame cell; an empty cell is the float NaN. */
  function CellText(v: Value): string {
    if v.VNone? then "nan" else Str(v)
  }

  /** `strptime(str(x).strip(), "%d %b. %Y").date()` of one cell of the
      dashboard copy. */
  function FechaVencApp(v: Value): (r: Result<Date>)
    ensures r.Ok? ==> IsValid(r.value)
    ensures r.Ok? <==> StrptimeDayMonthYear(Strip(CellText(v))).Some?
  {
    match StrptimeDayMonthYear(Strip(CellText(v)))
    case None => Err(ValueError)
    case Some(d) => Ok(d)
  }

  /** `pd.to_numeric(x, errors="coerce")` of one cell. */
  function ToNumeric(v: Value): (r: Number)
    ensures v.VStr? && ParseFloat(v.s).None? ==> r == NaN
    ensures (v.VDec? || v.VFloat?) ==> r == v.n
  {
    match v
    case VNone => NaN
    case VStr(s) => if ParseFloat(s).Some? then ParseFloat(s).value else NaN
    case VDec(n) => n
    case VFloat(n) => n
  }

  /** The two columns of the answer, row by row. */
  function Pair(fechas: seq<Date>, precios: seq<Number>): (r: seq<FutureQuote>)
    requires |fechas| == |precios|
    ensures |r| == |fechas|
    ensures forall i :: 0 <= i < |r| ==> r[i] == FutureQuote(fechas[i], precios[i])
  {
    seq(|fechas|, i requires 0 <= i < |fechas| => FutureQuote(fechas[i], precios[i]))
  }

  /** The last steps of `parse_futuros` on the kept rows: the price column
      `pi` is converted first, then the date column is looked up (`None` is
      the `KeyError` of a missing column) and converted. */
  function Assemble(rows: seq<seq<Value>>, pi: nat, di: Option<nat>,
                    price: Value -> Result<Number>, date: Value -> Result<Date>): (r: Result<seq<FutureQuote>>)
    ensures r.Ok? ==> |r.value| == |rows|
  {
    match TryMap(rows, (row: seq<Value>) => price(Cell(row, pi)))
    case Err(e) => Err(e)
    case Ok(precios) =>
      match di
      case None => Err(KeyError)
      case Some(j) =>
        match TryMap(rows, (row: seq<Value>) => date(Cell(row, j)))
        case Err(e) => Err(e)
        case Ok(fechas) => Ok(Pair(fechas, precios))
  }

  /** The answer has one row per kept row, holding that row's converted date
      and price, and exists exactly when the date column exists and every
      kept row converts. */
  lemma AssembleRows(rows: seq<seq<Value>>, pi: nat, di: Option<nat>,
                     price: Value -> Result<Number>, date: Value -> Result<Date>)
    ensures Assemble(rows, pi, di, price, date).Ok? <==>
      (forall i :: 0 <= i < |rows| ==> price(Cell(rows[i], pi)).Ok?)
      && di.Some? && (forall i :: 0 <= i < |rows| ==> date(Cell(rows[i], di.value)).Ok?)
    ensures Assemble(rows, pi, di, price, date).Ok? ==>
      |Assemble(rows, pi, di, price, date).value| == |rows|
      && forall i :: 0 <= i < |rows| ==>
        && Ok(Assemble(rows, pi, di, price, date).value[i].precio) == price(Cell(rows[i], pi))
        && Ok(Assemble(rows, pi, di, price, date).value[i].fecha) == date(Cell(rows[i], di.value))
  {
    var p := (row: seq<Value>) => price(Cell(row, pi));
    assert forall i :: 0 <= i < |rows| ==> p(rows[i]) == price(Cell(rows[i], pi));
    if di.Some? {
      var d := (row: seq<Value>) => date(Cell(row, di.value));
      assert forall i :: 0 <= i < |rows| ==> d(rows[i]) == date(Cell(rows[i], di.value));
    }
  }

  /** `parse_futuros` of the Lambda copy (the `tblFuturos` table found).  An
      empty header row fails at `iloc[:, 0]`; the price column is the first
      whose name contains `ant`, else the last; the date column is the one
      renamed from `vencimiento`. */
  function ParseFuturosLambda(frame: FuturesFrame): (r: Result<seq<FutureQuote>>)
    ensures |frame.columns| == 0 ==> r == Err(IndexError)
  {
    if |frame.columns| == 0 then Err(IndexError)
    else
      var names := RenameVencimiento(LowerNames(frame.columns));
      Assemble(KeptRows(frame.rows), AntColumn(names, 0), ColumnNamed(names, "fecha_venc", 0),
               PrecioUltimo, FechaVencLambda)
  }

  /** `to_numeric` never raises. */
  function Coerce(v: Value): Result<Number> { Ok(ToNumeric(v)) }

  /** `parse_futuros` of the dashboard copy: the first column is the expiry
      and the last one the price, coerced to NaN when it is not a number. */
  function ParseFuturosApp(frame: FuturesFrame): (r: Result<seq<FutureQuote>>)
    ensures |frame.columns| == 0 ==> r == Err(IndexError)
  {
    if |frame.columns| == 0 then Err(IndexError)
    else Assemble(KeptRows(frame.rows), |frame.columns| - 1, Some(0), Coerce, FechaVencApp)
  }

  /** Every kept row is a row of the table other than the totals row. */
  lemma KeptRowsNoTotals(rows: seq<seq<Value>>)
    ensures forall i :: 0 <= i < |KeptRows(rows)| ==>
      KeptRows(rows)[i] in rows && Cell(KeptRows(rows)[i], 0) != VStr("Volumen Total")
  {
    forall i | 0 <= i < |KeptRows(rows)|
      ensures KeptRows(rows)[i] in rows && Cell(KeptRows(rows)[i], 0) != VStr("Volumen Total")
    {
      KeptRowsExact(rows, KeptRows(rows)[i]);
    }
  }

  /** In the Lambda copy a `'-'` in the price column becomes NaN, and so does
      an empty cell. */
  lemma LambdaDashIsNaN(frame: FuturesFrame, i: nat)
    requires |frame.columns| > 0
    requires ParseFuturosLambda(frame).Ok? && i < |KeptRows(frame.rows)|
    ensures var ai := AntColumn(RenameVencimiento(LowerNames(frame.columns)), 0);
      var v := Cell(KeptRows(frame.rows)[i], ai);
      v == VStr("-") || v == VNone ==> ParseFuturosLambda(frame).value[i].precio == NaN
  {
    var names := RenameVencimiento(LowerNames(frame.columns));
    AssembleRows(KeptRows(frame.rows), AntColumn(names, 0), ColumnNamed(names, "fecha_venc", 0),
                 PrecioUltimo, FechaVencLambda);
  }

  /** When no price can fail, only the date column decides. */
  lemma AssembleTotalPrice(rows: seq<seq<Value>>, pi: nat, j: nat,
                           price: Value -> Result<Number>, date: Value -> Result<Date>)
    requires forall i :: 0 <= i < |rows| ==> price(Cell(rows[i], pi)).Ok?
    ensures Assemble(rows, pi, Some(j), price, date).Ok? <==>
      forall i :: 0 <= i < |rows| ==> date(Cell(rows[i], j)).Ok?
  {
    AssembleRows(rows, pi, Some(j), price, date);
  }

  /** In the dashboard copy the price is the last cell coerced to a number,
      and the date the first cell read as `%d %b. %Y`; only a bad date fails. */
  lemma AppFuturesRows(frame: FuturesFrame)
    requires |frame.columns| > 0
    ensures ParseFuturosApp(frame).Ok? <==>
      forall i :: 0 <= i < |KeptRows(frame.rows)| ==> FechaVencApp(Cell(KeptRows(frame.rows)[i], 0)).Ok?
    ensures ParseFuturosApp(frame).Ok? ==>
      (|ParseFuturosApp(frame).value| == |KeptRows(frame.rows)|
      && forall i :: 0 <= i < |KeptRows(frame.rows)| ==>
        Ok(ParseFuturosApp(frame).value[i].precio) == Coerce(Cell(KeptRows(frame.rows)[i], |frame.columns| - 1)))
  {
    var rows := KeptRows(frame.rows);
    var last := |frame.columns| - 1;
    var price, date := Coerce, FechaVencApp;
    assert ParseFuturosApp(frame) == Assemble(rows, last, Some(0), price, date);
    AssembleRows(rows, last, Some(0), price, date);
    AssembleTotalPrice(rows, last, 0, price, date);
    assert forall i :: 0 <= i < |rows| ==> date(Cell(rows[i], 0)) == FechaVencApp(Cell(rows[i], 0));
    if ParseFuturosApp(frame).Ok? {
      var out := ParseFuturosApp(frame).value;
      forall i | 0 <= i < |rows|
        ensures Ok(out[i].precio) == Coerce(Cell(rows[i], last))
      {
        assert Ok(out[i].precio) == price(Cell(rows[i], last));
      }
    }
  }

  /** The totals row contributes nothing, wherever it stands. */
  lemma TotalsRowDropped(a: seq<seq<Value>>, total: seq<Value>, b: seq<seq<Value>>)
    requires Cell(total, 0) == VStr("Volumen Total")
    ensures KeptRows(a + [total] + b) == KeptRows(a + b)
  {
    SkippedRow(a, total, b, KeptRow);
  }
}
