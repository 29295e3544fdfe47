/** The raw-data Lambda that scrapes MEFF with BeautifulSoup: its own options
    scrape (`obtener_opciones_meff`), which keeps every row with cells, and
    the handler that writes the futures (from the scraper class) and the
    priced options as DynamoDB items. */
module LambdaIngest {
  import opened Wrappers
  import opened Text
  import opened Numbers
  import opened Dates
  import opened Records
  import opened MeffPage
  import opened Collect
  import opened ExpiryCodes
  import MeffScraper
  import IdParsing

  // ---------------------------------------------------------------------------
  // obtener_opciones_meff
  // ---------------------------------------------------------------------------

  /** `pd.to_datetime(text, dayfirst=True, errors='coerce')` of an expiry
      text, `None` for `NaT`.  Pandas' free-form date parser is not part of
      this model: it is a parameter. */
  type DayFirst = string -> Option<ValidDate>

  /** How a cell's text becomes a number; the scrape passes `CellFloat`. */
  type CellReader = string -> Option<Number>

  /** `convertir_a_float(limpiar_texto(cell.text))`. */
  function CellFloat(cell: string): Option<Number> {
    ConvertirAFloat(LimpiarTexto(VStr(cell)))
  }

  /** One dictionary of `opciones`, with its `dias_vto` column. */
  datatype OptionRecord = OptionRecord(fecha: Option<ValidDate>, tipo: string, strike: Option<Number>,
                                       precio: Option<Number>, dias: Option<int>)

  /** The expiry of a row: the text its code finds, read day first. */
  function RowExpiry(venc: TextMap, parse: DayFirst, code: string): Option<ValidDate> {
    var v := LookupLambda(venc, code);
    if v.Some? then parse(v.value) else None
  }

  /** What one `<tr data-tipo>` contributes: nothing when it has no cells;
      otherwise its type, its expiry, the first and last cells as numbers and
      `(fecha_venc - hoy).days` (missing for `NaT`). */
  function RowRecord(venc: TextMap, today: ValidDate, parse: DayFirst, num: CellReader, row: OptionRow)
    : (r: Option<OptionRecord>)
    ensures r.None? <==> |row.cells| == 0
    ensures r.Some? ==> (r.value.tipo == TypeLambda(row.code)
      && r.value.strike == num(row.cells[0]) && r.value.precio == num(row.cells[|row.cells| - 1])
      && r.value.fecha == RowExpiry(venc, parse, row.code))
    ensures r.Some? ==> (r.value.dias.Some? <==> r.value.fecha.Some?)
    ensures r.Some? && r.value.fecha.Some? ==> r.value.dias == Some(DaysBetween(today, r.value.fecha.value))
  {
    if |row.cells| == 0 then None
    else
      var fecha := RowExpiry(venc, parse, row.code);
      var dias := if fecha.Some? then Some(DaysBetween(today, fecha.value)) else None;
      Some(OptionRecord(fecha, TypeLambda(row.code), num(row.cells[0]), num(row.cells[|row.cells| - 1]), dias))
  }

  /** The records of the rows, in page order. */
  function OptionRecords(venc: TextMap, today: ValidDate, parse: DayFirst, num: CellReader, rows: seq<OptionRow>)
    : seq<OptionRecord>
  {
    FilterMap(rows, (row: OptionRow) => RowRecord(venc, today, parse, num, row))
  }

  lemma OptionRecordsSnoc(venc: TextMap, today: ValidDate, parse: DayFirst, num: CellReader, rows: seq<OptionRow>, i: nat)
    requires i < |rows|
    ensures OptionRecords(venc, today, parse, num, rows[..i + 1]) == OptionRecords(venc, today, parse, num, rows[..i])
      + (if |rows[i].cells| > 0 then [RowRecord(venc, today, parse, num, rows[i]).value] else [])
  {
    assert rows[..i + 1] == rows[..i] + [rows[i]];
    FilterMapSnoc(rows[..i], rows[i], (row: OptionRow) => RowRecord(venc, today, parse, num, row));
  }

  /** One pass of the row loop of `obtener_opciones_meff`. */
  method ReadRow(venc: TextMap, today: ValidDate, parse: DayFirst, num: CellReader, fila: OptionRow)
    returns (registro: Option<OptionRecord>)
    ensures registro == RowRecord(venc, today, parse, num, fila)
  {
    var tipoOpcion := TypeLambda(fila.code);
    var vencimiento := LookupLambda(venc, fila.code);
    var celdas := fila.cells;
    if |celdas| == 0 {
      return None;
    }
    var fecha := if vencimiento.Some? then parse(vencimiento.value) else None;
    var dias := if fecha.Some? then Some(DaysBetween(today, fecha.value)) else None;
    return Some(OptionRecord(fecha, tipoOpcion, num(celdas[0]), num(celdas[|celdas| - 1]), dias));
  }

  /** The row loop of `obtener_opciones_meff`. */
  method CollectOptions(venc: TextMap, today: ValidDate, parse: DayFirst, num: CellReader, rows: seq<OptionRow>)
    returns (opciones: seq<OptionRecord>)
    ensures opciones == OptionRecords(venc, today, parse, num, rows)
  {
    opciones := [];
    for i := 0 to |rows|
      invariant opciones == OptionRecords(venc, today, parse, num, rows[..i])
    {
      OptionRecordsSnoc(venc, today, parse, num, rows, i);
      var registro := ReadRow(venc, today, parse, num, rows[i]);
      if registro.Some? {
        opciones := opciones + [registro.value];
      }
    }
    assert rows[..|rows|] == rows;
  }

  /** `obtener_opciones_meff` on the page: with no record the DataFrame has no
      `fecha_venc` column and the `dias_vto` line raises `KeyError`. */
  function Opciones(opts: seq<SelectOption>, rows: seq<OptionRow>, today: ValidDate, parse: DayFirst, num: CellReader)
    : Result<seq<OptionRecord>>
  {
    var recs := OptionRecords(ExpiryTexts(opts, false), today, parse, num, rows);
    if |recs| == 0 then Err(KeyError) else Ok(recs)
  }

  method ObtenerOpcionesMeff(opts: seq<SelectOption>, rows: seq<OptionRow>, today: ValidDate, parse: DayFirst)
    returns (r: Result<seq<OptionRecord>>)
    ensures r == Opciones(opts, rows, today, parse, CellFloat)
  {
    var venc := MapTexts(opts);
    var opciones := CollectOptions(venc, today, parse, CellFloat, rows);
    if |opciones| == 0 {
      return Err(KeyError);
    }
    return Ok(opciones);
  }

  /** A row without cells is skipped, wherever it stands. */
  lemma RowWithoutCellsSkipped(venc: TextMap, today: ValidDate, parse: DayFirst, num: CellReader,
                               a: seq<OptionRow>, row: OptionRow, b: seq<OptionRow>)
    requires |row.cells| == 0
    ensures OptionRecords(venc, today, parse, num, a + [row] + b) == OptionRecords(venc, today, parse, num, a + b)
  {
    SkippedRow(a, row, b, (row: OptionRow) => RowRecord(venc, today, parse, num, row));
  }

  /** Every row with cells gives one record, in order. */
  lemma RecordPerRow(venc: TextMap, today: ValidDate, parse: DayFirst, num: CellReader, rows: seq<OptionRow>)
    requires forall i :: 0 <= i < |rows| ==> |rows[i].cells| > 0
    ensures |OptionRecords(venc, today, parse, num, rows)| == |rows|
    ensures forall i :: 0 <= i < |rows| ==>
      OptionRecords(venc, today, parse, num, rows)[i] == RowRecord(venc, today, parse, num, rows[i]).value
  {
    var f := (row: OptionRow) => RowRecord(venc, today, parse, num, row);
    assert forall i :: 0 <= i < |rows| ==> f(rows[i]).Some?;
    FilterMapTotal(rows, f);
  }

  /** The scrape raises exactly when no row has a cell, and otherwise returns
      the records of the rows that have one. */
  lemma OpcionesFails(opts: seq<SelectOption>, rows: seq<OptionRow>, today: ValidDate, parse: DayFirst, num: CellReader)
    ensures Opciones(opts, rows, today, parse, num).Err? <==> forall i :: 0 <= i < |rows| ==> |rows[i].cells| == 0
    ensures Opciones(opts, rows, today, parse, num).Err? ==> Opciones(opts, rows, today, parse, num).error == KeyError
    ensures Opciones(opts, rows, today, parse, num).Ok? ==>
      Opciones(opts, rows, today, parse, num).value == OptionRecords(ExpiryTexts(opts, false), today, parse, num, rows)
  {
    var venc := ExpiryTexts(opts, false);
    var f := (row: OptionRow) => RowRecord(venc, today, parse, num, row);
    var recs := OptionRecords(venc, today, parse, num, rows);
    if exists i :: 0 <= i < |rows| && |rows[i].cells| > 0 {
      var i :| 0 <= i < |rows| && |rows[i].cells| > 0;
      FilterMapMember(rows, f, f(rows[i]).value);
    }
    if |recs| > 0 {
      FilterMapMember(rows, f, recs[0]);
    }
  }

  // ---------------------------------------------------------------------------
  // The handler's items
  // ---------------------------------------------------------------------------

  /** `f"{scrape_date}#{row['fecha_venc']}#{row['tipo_opcion'].lower()}#{row['strike']}"`. */
  function OptionId(scrape: string, rec: OptionRecord): string {
    Join([scrape, TimestampText(rec.fecha), Lower(rec.tipo), FloatRepr(FloatCell(rec.strike))], '#')
  }

  /** `pd.isna(row['precio'])`: no price, or NaN. */
  predicate Unpriced(rec: OptionRecord) {
    rec.precio.None? || rec.precio.value == NaN
  }

  /** The item the handler writes for one option: none for an unpriced
      option; `int(row['dias_vto'])` raises `ValueError` on the NaN of a
      missing expiry. */
  function OptionItem(scrape: string, rec: OptionRecord): (r: Result<Option<Obj>>)
    ensures r == Ok(None) <==> Unpriced(rec)
    ensures r.Err? <==> !Unpriced(rec) && rec.dias.None?
    ensures r.Err? ==> r.error == ValueError
    ensures r.Ok? && r.value.Some? ==>
      var item := r.value.value;
      && item.Keys == {"id", "date", "type", "strike", "price", "dias_vto", "scrape_date"}
      && item["id"] == VStr(OptionId(scrape, rec))
      && item["price"] == VDec(ReprNumber(rec.precio.value)) && item["price"].n != NaN
      && item["strike"] == VDec(ReprNumber(FloatCell(rec.strike)))
      && item["dias_vto"] == VDec(Finite(Decimal(rec.dias.value, 0)))
  {
    if Unpriced(rec) then Ok(None)
    else if rec.dias.None? then Err(ValueError)
    else Ok(Some(ItemFields(OptionId(scrape, rec), TimestampText(rec.fecha), Lower(rec.tipo),
                            ReprNumber(FloatCell(rec.strike)), ReprNumber(rec.precio.value), rec.dias.value, scrape)))
  }

  /** The item's dict, `{'id': …, 'date': …, 'type': …, 'strike': …,
      'price': …, 'dias_vto': …, 'scrape_date': …}`. */
  function ItemFields(id: string, date: string, tipo: string, strike: Number, price: Number, dias: int, scrape: string)
    : (r: Obj)
    ensures r.Keys == {"id", "date", "type", "strike", "price", "dias_vto", "scrape_date"}
    ensures r["id"] == VStr(id) && r["strike"] == VDec(strike) && r["price"] == VDec(price)
    ensures r["dias_vto"] == VDec(Finite(Decimal(dias, 0)))
  {
    map["id" := VStr(id), "date" := VStr(date), "type" := VStr(tipo), "strike" := VDec(strike), "price" := VDec(price),
        "dias_vto" := VDec(Finite(Decimal(dias, 0))), "scrape_date" := VStr(scrape)]
  }

  /** The options loop: the items written, in order, and the error that ends
      it (the batch writer still sends what it holds). */
  function OptionWrites(scrape: string, recs: seq<OptionRecord>): Scanned<Obj> {
    ScanRows(recs, (rec: OptionRecord) => OptionItem(scrape, rec))
  }

  lemma OptionWritesSnoc(scrape: string, recs: seq<OptionRecord>, i: nat)
    requires i < |recs|
    ensures OptionWrites(scrape, recs[..i + 1]) ==
      if OptionWrites(scrape, recs[..i]).stopped.Some? then OptionWrites(scrape, recs[..i])
      else match OptionItem(scrape, recs[i])
        case Err(e) => Scanned(OptionWrites(scrape, recs[..i]).kept, Some(e))
        case Ok(y) => Scanned(OptionWrites(scrape, recs[..i]).kept + (if y.Some? then [y.value] else []), None)
  {
    assert recs[..i + 1] == recs[..i] + [recs[i]];
    ScanRowsSnoc(recs[..i], recs[i], (rec: OptionRecord) => OptionItem(scrape, rec));
  }

  /** The handler's options loop. */
  method SaveOptions(scrape: string, recs: seq<OptionRecord>) returns (written: seq<Obj>, stopped: Option<Error>)
    ensures Scanned(written, stopped) == OptionWrites(scrape, recs)
  {
    written := [];
    for i := 0 to |recs|
      invariant OptionWrites(scrape, recs[..i]) == Scanned(written, None)
    {
      OptionWritesSnoc(scrape, recs, i);
      var row := recs[i];
      if Unpriced(row) {
        continue;
      }
      var item := OptionItem(scrape, row);
      if item.Err? {
        ScanRowsStays(recs, i + 1, (rec: OptionRecord) => OptionItem(scrape, rec));
        return written, Some(item.error);
      }
      written := written + [item.value.value];
    }
    assert recs[..|recs|] == recs;
    stopped := None;
  }

  /** Every option item written carries a price that is a number. */
  lemma WrittenOptionsArePriced(scrape: string, recs: seq<OptionRecord>, item: Obj)
    requires item in OptionWrites(scrape, recs).kept
    ensures "price" in item && item["price"].VDec? && item["price"].n != NaN
    ensures exists i :: 0 <= i < |recs| && !Unpriced(recs[i]) && "id" in item && item["id"] == VStr(OptionId(scrape, recs[i]))
  {
    ScanRowsMember(recs, (rec: OptionRecord) => OptionItem(scrape, rec), item);
  }

  /** The loop runs to the end exactly when every priced option has an
      expiry; otherwise it stops at the first priced one without. */
  lemma OptionWritesStop(scrape: string, recs: seq<OptionRecord>)
    ensures OptionWrites(scrape, recs).stopped.None? <==>
      forall i :: 0 <= i < |recs| ==> Unpriced(recs[i]) || recs[i].dias.Some?
    ensures OptionWrites(scrape, recs).stopped.Some? ==> OptionWrites(scrape, recs).stopped == Some(ValueError)
  {
    var f := (rec: OptionRecord) => OptionItem(scrape, rec);
    ScanRowsStops(recs, f);
    assert forall i :: 0 <= i < |recs| ==> (f(recs[i]).Ok? <==> Unpriced(recs[i]) || recs[i].dias.Some?);
  }

  /** `'call'.lower()` and `'put'.lower()` */
  lemma LowerTypes()
    ensures Lower("call") == "call" && Lower("put") == "put"
  {
    assert Lower("call")[0] == LowerChar('c');
  }

  /** An option id splits back into the scrape date, the expiry, the type and
      the strike. */
  lemma OptionIdSplits(scrape: string, rec: OptionRecord)
    requires '#' !in scrape && (rec.tipo == "call" || rec.tipo == "put")
    ensures SplitOn(OptionId(scrape, rec), '#') ==
      [scrape, TimestampText(rec.fecha), rec.tipo, FloatRepr(FloatCell(rec.strike))]
  {
    LowerTypes();
    FloatReprNoHash(FloatCell(rec.strike));
    SplitJoinParts([scrape, TimestampText(rec.fecha), rec.tipo, FloatRepr(FloatCell(rec.strike))], '#');
  }

  /** The item of one futures row: `id` is the scrape date, the expiry and
      `futures`; the price is `Decimal(str(precio_ultimo))`. */
  function FuturesItem(scrape: string, q: MeffScraper.FutureQuote): (r: Obj)
    requires IsValid(q.fecha)
    ensures r.Keys == {"id", "date", "type", "last_price", "scrape_date"}
    ensures r["last_price"] == VDec(ReprNumber(q.precio)) && r["date"] == VStr(IsoText(q.fecha))
  {
    FuturesFields(Join([scrape, IsoText(q.fecha), "futures"], '#'), IsoText(q.fecha), ReprNumber(q.precio), scrape)
  }

  /** The futures item's dict, `{'id': …, 'date': …, 'type': 'futures',
      'last_price': …, 'scrape_date': …}`. */
  function FuturesFields(id: string, date: string, price: Number, scrape: string): (r: Obj)
    ensures r.Keys == {"id", "date", "type", "last_price", "scrape_date"}
    ensures r["id"] == VStr(id) && r["date"] == VStr(date) && r["last_price"] == VDec(price)
  {
    map["id" := VStr(id), "date" := VStr(date), "type" := VStr("futures"), "last_price" := VDec(price),
        "scrape_date" := VStr(scrape)]
  }

  predicate ValidQuotes(qs: seq<MeffScraper.FutureQuote>) {
    forall i :: 0 <= i < |qs| ==> IsValid(qs[i].fecha)
  }

  /** One item per futures row, in order. */
  function FuturesItems(scrape: string, qs: seq<MeffScraper.FutureQuote>): (r: seq<Obj>)
    requires ValidQuotes(qs)
    ensures |r| == |qs|
    ensures forall i :: 0 <= i < |qs| ==> r[i] == FuturesItem(scrape, qs[i])
  {
    seq(|qs|, i requires 0 <= i < |qs| => FuturesItem(scrape, qs[i]))
  }

  /** The handler's futures loop. */
  method SaveFutures(scrape: string, qs: seq<MeffScraper.FutureQuote>) returns (written: seq<Obj>)
    requires ValidQuotes(qs)
    ensures written == FuturesItems(scrape, qs)
  {
    written := [];
    for i := 0 to |qs|
      invariant |written| == i
      invariant forall j :: 0 <= j < i ==> written[j] == FuturesItem(scrape, qs[j])
    {
      written := written + [FuturesItem(scrape, qs[i])];
    }
  }

  /** A futures id splits back into the scrape date, the expiry and `futures`. */
  lemma FuturesIdSplits(scrape: string, q: MeffScraper.FutureQuote)
    requires '#' !in scrape && IsValid(q.fecha)
    ensures FuturesItem(scrape, q)["id"] == VStr(Join([scrape, IsoText(q.fecha), "futures"], '#'))
    ensures SplitOn(Join([scrape, IsoText(q.fecha), "futures"], '#'), '#') == [scrape, IsoText(q.fecha), "futures"]
  {
    IdParsing.IsoTextPattern(q.fecha);
    IdParsing.DatePatternChars(IsoText(q.fecha));
    SplitJoinParts([scrape, IsoText(q.fecha), "futures"], '#');
  }

  // ---------------------------------------------------------------------------
  // lambda_handler
  // ---------------------------------------------------------------------------

  /** What the handler writes.  `futures` is the futures table, `None` when
      its scrape raised (the handler catches that); the options scrape runs
      before anything is written, so its `KeyError` writes nothing. */
  function HandlerWrites(scrape: string, futures: Option<seq<MeffScraper.FutureQuote>>, opts: seq<SelectOption>,
                         rows: seq<OptionRow>, today: ValidDate, parse: DayFirst, num: CellReader): (r: Scanned<Obj>)
    requires futures.Some? ==> ValidQuotes(futures.value)
    ensures Opciones(opts, rows, today, parse, num).Err? ==> r == Scanned([], Some(KeyError))
  {
    OpcionesFails(opts, rows, today, parse, num);
    match Opciones(opts, rows, today, parse, num)
    case Err(e) => Scanned([], Some(e))
    case Ok(recs) =>
      var fut := if futures.Some? then FuturesItems(scrape, futures.value) else [];
      var opt := OptionWrites(scrape, recs);
      Scanned(fut + opt.kept, opt.stopped)
  }

  method LambdaHandler(scrape: string, futures: Option<seq<MeffScraper.FutureQuote>>, opts: seq<SelectOption>,
                       rows: seq<OptionRow>, today: ValidDate, parse: DayFirst)
    returns (written: seq<Obj>, stopped: Option<Error>)
    requires futures.Some? ==> ValidQuotes(futures.value)
    ensures Scanned(written, stopped) == HandlerWrites(scrape, futures, opts, rows, today, parse, CellFloat)
  {
    var opciones := ObtenerOpcionesMeff(opts, rows, today, parse);
    if opciones.Err? {
      return [], Some(opciones.error);
    }
    written := [];
    if futures.Some? {
      written := SaveFutures(scrape, futures.value);
    }
    var saved, err := SaveOptions(scrape, opciones.value);
    written := written + saved;
    stopped := err;
  }
}
