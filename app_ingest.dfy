/** The options raw-data Lambda of the dashboard project and the test script
    that shares its scrape (`obtener_datos_meff`): rows with at least two cells
    become `[strike, ant, vencimiento, tipo]`, the columns are converted, and
    the Lambda writes one item per complete row with its `None` fields
    removed. */
module AppIngest {
  import opened Wrappers
  import opened Text
  import opened Numbers
  import opened Dates
  import opened Records
  import opened MeffPage
  import opened Collect
  import opened ExpiryCodes

  // ---------------------------------------------------------------------------
  // obtener_datos_meff
  // ---------------------------------------------------------------------------

  /** The two copies of the scrape: they differ in when and how the type is
      read off the code. */
  datatype OptionsCopy = DashboardLambda | TestScript

  /** `[strike, ant, vencimiento_str, type_opt]`, one entry of `data_opciones`. */
  datatype RawOption = RawOption(strike: string, ant: string, vencimiento: Option<string>, tipo: string)

  /** `clean_value(cell.text)`: a cell's text stays a string. */
  function CleanText(cell: string): (r: string)
    ensures NoEdgeSpace(r)
  {
    CleanValue(VStr(cell)).s
  }

  /** What one `<tr data-tipo>` contributes.  The dashboard Lambda reads
      `data_tipo[1]` before looking at the cells, so a short code raises even
      on a row it would skip; the test script reads it only for a row it
      keeps. */
  function RawOptionOf(copy: OptionsCopy, venc: TextMap, row: OptionRow): (r: Result<Option<RawOption>>)
    ensures r.Err? <==> |row.code| < 2 && (copy == DashboardLambda || |row.cells| >= 2)
    ensures r.Err? ==> r.error == IndexError
    ensures r.Ok? ==> (r.value.Some? <==> |row.cells| >= 2)
    ensures r.Ok? && r.value.Some? ==>
      r.value.value == RawOption(CleanText(row.cells[0]), CleanText(row.cells[|row.cells| - 1]),
                                 LookupClean(venc, row.code),
                                 if copy == DashboardLambda then TypeApp(row.code).value else TypeTest(row.code).value)
  {
    match copy
    case DashboardLambda => (
      match TypeApp(row.code)
      case Err(e) => Err(e)
      case Ok(t) =>
        var v := LookupClean(venc, row.code);
        if |row.cells| < 2 then Ok(None)
        else Ok(Some(RawOption(CleanText(row.cells[0]), CleanText(row.cells[|row.cells| - 1]), v, t))))
    case TestScript =>
      var v := LookupClean(venc, row.code);
      if |row.cells| < 2 then Ok(None)
      else match TypeTest(row.code)
        case Err(e) => Err(e)
        case Ok(t) => Ok(Some(RawOption(CleanText(row.cells[0]), CleanText(row.cells[|row.cells| - 1]), v, t)))
  }

  /** The row loop: the first row that raises ends the scrape. */
  function RawOptions(copy: OptionsCopy, venc: TextMap, rows: seq<OptionRow>): Scanned<RawOption> {
    ScanRows(rows, (row: OptionRow) => RawOptionOf(copy, venc, row))
  }

  /** The loop's outcome as `obtener_datos_meff` sees it. */
  function RawOptionsResult(copy: OptionsCopy, venc: TextMap, rows: seq<OptionRow>): Result<seq<RawOption>> {
    var s := RawOptions(copy, venc, rows);
    if s.stopped.Some? then Err(s.stopped.value) else Ok(s.kept)
  }

  lemma RawOptionsSnoc(copy: OptionsCopy, venc: TextMap, rows: seq<OptionRow>, i: nat)
    requires i < |rows|
    ensures RawOptions(copy, venc, rows[..i + 1]) ==
      if RawOptions(copy, venc, rows[..i]).stopped.Some? then RawOptions(copy, venc, rows[..i])
      else match RawOptionOf(copy, venc, rows[i])
        case Err(e) => Scanned(RawOptions(copy, venc, rows[..i]).kept, Some(e))
        case Ok(y) => Scanned(RawOptions(copy, venc, rows[..i]).kept + (if y.Some? then [y.value] else []), None)
  {
    assert rows[..i + 1] == rows[..i] + [rows[i]];
    ScanRowsSnoc(rows[..i], rows[i], (row: OptionRow) => RawOptionOf(copy, venc, row));
  }

  /** `for row in rows_opciones: …` */
  method CollectRawOptions(copy: OptionsCopy, venc: TextMap, rows: seq<OptionRow>) returns (r: Result<seq<RawOption>>)
    ensures r == RawOptionsResult(copy, venc, rows)
  {
    var data: seq<RawOption> := [];
    for i := 0 to |rows|
      invariant RawOptions(copy, venc, rows[..i]) == Scanned(data, None)
    {
      RawOptionsSnoc(copy, venc, rows, i);
      var row := rows[i];
      var step := RawOptionOf(copy, venc, row);
      if step.Err? {
        ScanRowsStays(rows, i + 1, (row: OptionRow) => RawOptionOf(copy, venc, row));
        return Err(step.error);
      }
      if |row.cells| < 2 {
        continue;
      }
      data := data + [step.value.value];
    }
    assert rows[..|rows|] == rows;
    return Ok(data);
  }

  /** The dashboard Lambda fails on any code shorter than two characters; the
      test script only on one whose row has at least two cells. */
  lemma RawOptionsFail(copy: OptionsCopy, venc: TextMap, rows: seq<OptionRow>)
    ensures RawOptionsResult(copy, venc, rows).Err? <==>
      exists i :: 0 <= i < |rows| && |rows[i].code| < 2 && (copy == DashboardLambda || |rows[i].cells| >= 2)
    ensures RawOptionsResult(copy, venc, rows).Err? ==> RawOptionsResult(copy, venc, rows).error == IndexError
  {
    var f := (row: OptionRow) => RawOptionOf(copy, venc, row);
    ScanRowsStops(rows, f);
    if exists i :: 0 <= i < |rows| && |rows[i].code| < 2 && (copy == DashboardLambda || |rows[i].cells| >= 2) {
      var i :| 0 <= i < |rows| && |rows[i].code| < 2 && (copy == DashboardLambda || |rows[i].cells| >= 2);
      assert f(rows[i]).Err?;
    }
  }

  /** Each raw option comes from a row with at least two cells: its strike and
      price texts are the first and last cells, cleaned. */
  lemma RawOptionFromRow(copy: OptionsCopy, venc: TextMap, rows: seq<OptionRow>, y: RawOption)
    requires y in RawOptions(copy, venc, rows).kept
    ensures exists i :: (0 <= i < |rows| && |rows[i].cells| >= 2
      && y.strike == CleanText(rows[i].cells[0]) && y.ant == CleanText(rows[i].cells[|rows[i].cells| - 1])
      && y.vencimiento == LookupClean(venc, rows[i].code))
  {
    var f := (row: OptionRow) => RawOptionOf(copy, venc, row);
    ScanRowsMember(rows, f, y);
    var i :| 0 <= i < |rows| && f(rows[i]) == Ok(Some(y));
    assert RawOptionOf(copy, venc, rows[i]) == Ok(Some(y));
  }

  /** The test script's type is the dashboard Lambda's in capitals. */
  lemma TypeTestUpper(code: string)
    requires |code| >= 2
    ensures TypeTest(code).value == Upper(TypeApp(code).value)
  {
    assert Upper("call") == "CALL";
    assert Upper("put") == "PUT";
  }

  /** Two lists of raw options that differ only in the type being spelt in
      capitals in the second. */
  predicate UpperTyped(d: seq<RawOption>, t: seq<RawOption>) {
    |d| == |t| && forall j :: 0 <= j < |d| ==> t[j] == d[j].(tipo := Upper(d[j].tipo))
  }

  lemma UpperTypedSnoc(d: seq<RawOption>, t: seq<RawOption>, x: RawOption)
    requires UpperTyped(d, t)
    ensures UpperTyped(d + [x], t + [x.(tipo := Upper(x.tipo))])
  {
  }

  /** On a code of at least two characters both copies read a row alike. */
  lemma RowCopiesAgree(venc: TextMap, row: OptionRow)
    requires |row.code| >= 2
    ensures RawOptionOf(DashboardLambda, venc, row).Ok? && RawOptionOf(TestScript, venc, row).Ok?
    ensures var d := RawOptionOf(DashboardLambda, venc, row).value;
      RawOptionOf(TestScript, venc, row).value == if d.Some? then Some(d.value.(tipo := Upper(d.value.tipo))) else None
  {
    TypeTestUpper(row.code);
  }

  /** On codes of at least two characters both copies finish the loop and keep
      the same rows, the test script spelling the type in capitals. */
  lemma {:induction false} CopiesAgree(venc: TextMap, rows: seq<OptionRow>)
    requires forall i :: 0 <= i < |rows| ==> |rows[i].code| >= 2
    ensures RawOptions(DashboardLambda, venc, rows).stopped.None?
    ensures RawOptions(TestScript, venc, rows).stopped.None?
    ensures UpperTyped(RawOptions(DashboardLambda, venc, rows).kept, RawOptions(TestScript, venc, rows).kept)
  {
    if |rows| > 0 {
      var n := |rows| - 1;
      assert forall i :: 0 <= i < n ==> rows[..n][i] == rows[i];
      CopiesAgree(venc, rows[..n]);
      RawOptionsSnoc(DashboardLambda, venc, rows, n);
      RawOptionsSnoc(TestScript, venc, rows, n);
      RowCopiesAgree(venc, rows[n]);
      var d := RawOptionOf(DashboardLambda, venc, rows[n]).value;
      if d.Some? {
        UpperTypedSnoc(RawOptions(DashboardLambda, venc, rows[..n]).kept, RawOptions(TestScript, venc, rows[..n]).kept,
                       d.value);
      }
      assert rows[..n + 1] == rows;
    }
  }

  /** `pd.to_datetime(..., format='%d/%m/%Y', errors='coerce')` of one text. */
  type DmyReader = string -> Option<ValidDate>

  /** How a cleaned text becomes a number; the scrape passes `ConvertedCell`. */
  type CellReader = string -> Option<Number>

  function DmyDate(s: string): Option<ValidDate> {
    match StrptimeDMY(s)
    case None => None
    case Some(d) => Some(d)
  }

  /** `clean_and_convert` of a text, which never raises on a string. */
  function ConvertedCell(s: string): Option<Number> {
    CleanAndConvert(VStr(s)).value
  }

  /** One row of `df_opciones` after the column conversions. */
  datatype FrameRow = FrameRow(strike: Option<Number>, anterior: Option<Number>, vencimiento: Option<ValidDate>,
                               tipo: string)

  function ConvertRow(raw: RawOption, num: CellReader, dmy: DmyReader): FrameRow {
    FrameRow(num(raw.strike), num(raw.ant), if raw.vencimiento.Some? then dmy(raw.vencimiento.value) else None, raw.tipo)
  }

  /** The three column conversions, row by row. */
  function Frame(raws: seq<RawOption>, num: CellReader, dmy: DmyReader): (r: seq<FrameRow>)
    ensures |r| == |raws|
    ensures forall i :: 0 <= i < |raws| ==> r[i] == ConvertRow(raws[i], num, dmy)
  {
    seq(|raws|, i requires 0 <= i < |raws| => ConvertRow(raws[i], num, dmy))
  }

  /** `obtener_datos_meff`: the expiry dictionary (a missing `value` raises
      `KeyError`), the row loop, then the columns. */
  function ObtenerDatos(copy: OptionsCopy, opts: seq<SelectOption>, rows: seq<OptionRow>, num: CellReader,
                        dmy: DmyReader): Result<seq<FrameRow>>
  {
    match ComprehensionTexts(opts)
    case Err(e) => Err(e)
    case Ok(venc) =>
      match RawOptionsResult(copy, venc, rows)
      case Err(e) => Err(e)
      case Ok(raws) => Ok(Frame(raws, num, dmy))
  }

  method ObtenerDatosMeff(copy: OptionsCopy, opts: seq<SelectOption>, rows: seq<OptionRow>)
    returns (r: Result<seq<FrameRow>>)
    ensures r == ObtenerDatos(copy, opts, rows, ConvertedCell, DmyDate)
  {
    var vencimientos := ComprehensionTexts(opts);
    if vencimientos.Err? {
      return Err(vencimientos.error);
    }
    var data := CollectRawOptions(copy, vencimientos.value, rows);
    if data.Err? {
      return Err(data.error);
    }
    return Ok(Frame(data.value, ConvertedCell, DmyDate));
  }

  /** The scrape succeeds exactly when every option has a `value` and no code
      the copy reads is too short. */
  lemma ObtenerDatosFails(copy: OptionsCopy, opts: seq<SelectOption>, rows: seq<OptionRow>, num: CellReader,
                          dmy: DmyReader)
    ensures ObtenerDatos(copy, opts, rows, num, dmy).Ok? <==>
      AllValued(opts) && forall i :: 0 <= i < |rows| ==> !(|rows[i].code| < 2 && (copy == DashboardLambda || |rows[i].cells| >= 2))
    ensures !AllValued(opts) ==> ObtenerDatos(copy, opts, rows, num, dmy) == Err(KeyError)
  {
    if AllValued(opts) {
      RawOptionsFail(copy, ExpiryTexts(opts, true), rows);
    }
  }

  // ---------------------------------------------------------------------------
  // The handler's items
  // ---------------------------------------------------------------------------

  /** `generar_id`: `f"{scrape_date}#{str(row['Vencimiento'])}#{row['Tipo']}#{row['Strike']}"`. */
  function GenerarId(scrape: string, row: FrameRow): string {
    Join([scrape, TimestampText(row.vencimiento), row.tipo, FloatRepr(FloatCell(row.strike))], '#')
  }

  /** `pd.isna(row['Vencimiento']) or pd.isna(row['Tipo']) or pd.isna(row['Strike'])`;
      the type is always a string. */
  predicate Incomplete(row: FrameRow) {
    row.vencimiento.None? || row.strike.None? || row.strike.value == NaN
  }

  /** The dict the handler builds, `{'id': …, 'scrape_date': …,
      'vencimiento': …, 'tipo': …, 'strike': …, 'Ant': …}`, with its `None`
      fields removed. */
  function ItemFields(id: string, scrape: string, venc: string, tipo: string, strike: Value, ant: Value): (r: Obj)
    ensures forall k :: k in r ==> r[k] != VNone
    ensures "id" in r && r["id"] == VStr(id) && "scrape_date" in r && r["scrape_date"] == VStr(scrape)
    ensures "vencimiento" in r && r["vencimiento"] == VStr(venc) && "tipo" in r && r["tipo"] == VStr(tipo)
    ensures "strike" in r <==> strike != VNone
    ensures "strike" in r ==> r["strike"] == strike
    ensures "Ant" in r <==> ant != VNone
    ensures "Ant" in r ==> r["Ant"] == ant
    ensures r.Keys <= {"id", "scrape_date", "vencimiento", "tipo", "strike", "Ant"}
  {
    DropNone(map["id" := VStr(id), "scrape_date" := VStr(scrape), "vencimiento" := VStr(venc), "tipo" := VStr(tipo),
                 "strike" := strike, "Ant" := ant])
  }

  /** The item written for one row of the frame. */
  function OptionItem(scrape: string, row: FrameRow): (r: Option<Obj>)
    ensures r.None? <==> Incomplete(row)
    ensures r.Some? ==> forall k :: k in r.value ==> r.value[k] != VNone
    ensures r.Some? ==> "id" in r.value && "scrape_date" in r.value && "vencimiento" in r.value && "tipo" in r.value
    ensures r.Some? ==> r.value["id"] == VStr(GenerarId(scrape, row))
    ensures r.Some? ==> ("strike" in r.value <==> row.strike.value.Finite?)
    ensures r.Some? ==> ("Ant" in r.value <==> row.anterior.Some? && row.anterior.value.Finite?)
    ensures r.Some? ==> r.value.Keys <= {"id", "scrape_date", "vencimiento", "tipo", "strike", "Ant"}
  {
    if Incomplete(row) then None
    else Some(ItemFields(GenerarId(scrape, row), scrape, TimestampText(row.vencimiento), row.tipo,
                         SafeDecimal(row.strike), SafeDecimal(row.anterior)))
  }

  /** The items the handler writes, in frame order. */
  function OptionItems(scrape: string, frame: seq<FrameRow>): seq<Obj> {
    FilterMap(frame, (row: FrameRow) => OptionItem(scrape, row))
  }

  lemma OptionItemsSnoc(scrape: string, frame: seq<FrameRow>, i: nat)
    requires i < |frame|
    ensures OptionItems(scrape, frame[..i + 1]) == OptionItems(scrape, frame[..i])
      + (if Incomplete(frame[i]) then [] else [OptionItem(scrape, frame[i]).value])
  {
    assert frame[..i + 1] == frame[..i] + [frame[i]];
    FilterMapSnoc(frame[..i], frame[i], (row: FrameRow) => OptionItem(scrape, row));
  }

  /** `for _, row in df_opciones.iterrows(): … table.put_item(Item=item)` */
  method SaveOptions(scrape: string, frame: seq<FrameRow>) returns (written: seq<Obj>)
    ensures written == OptionItems(scrape, frame)
  {
    written := [];
    for i := 0 to |frame|
      invariant written == OptionItems(scrape, frame[..i])
    {
      OptionItemsSnoc(scrape, frame, i);
      var row := frame[i];
      if Incomplete(row) {
        continue;
      }
      written := written + [OptionItem(scrape, row).value];
    }
    assert frame[..|frame|] == frame;
  }

  /** What the handler writes, or the error its scrape raises. */
  function HandlerWrites(scrape: string, opts: seq<SelectOption>, rows: seq<OptionRow>, num: CellReader,
                         dmy: DmyReader): Result<seq<Obj>>
  {
    match ObtenerDatos(DashboardLambda, opts, rows, num, dmy)
    case Err(e) => Err(e)
    case Ok(frame) => Ok(OptionItems(scrape, frame))
  }

  method LambdaHandler(scrape: string, opts: seq<SelectOption>, rows: seq<OptionRow>) returns (r: Result<seq<Obj>>)
    ensures r == HandlerWrites(scrape, opts, rows, ConvertedCell, DmyDate)
  {
    var df := ObtenerDatosMeff(DashboardLambda, opts, rows);
    if df.Err? {
      return Err(df.error);
    }
    var written := SaveOptions(scrape, df.value);
    return Ok(written);
  }

  /** An incomplete row writes nothing, wherever it stands. */
  lemma IncompleteRowSkipped(scrape: string, a: seq<FrameRow>, row: FrameRow, b: seq<FrameRow>)
    requires Incomplete(row)
    ensures OptionItems(scrape, a + [row] + b) == OptionItems(scrape, a + b)
  {
    SkippedRow(a, row, b, (row: FrameRow) => OptionItem(scrape, row));
  }

  /** Every item written comes from a complete row, holds no `None`, and has a
      `strike` exactly when that row's strike is finite. */
  lemma WrittenItemsComplete(scrape: string, frame: seq<FrameRow>, item: Obj)
    requires item in OptionItems(scrape, frame)
    ensures forall k :: k in item ==> item[k] != VNone
    ensures exists i :: (0 <= i < |frame| && !Incomplete(frame[i]) && "id" in item
      && item["id"] == VStr(GenerarId(scrape, frame[i]))
      && ("strike" in item <==> frame[i].strike.value.Finite?))
  {
    var f := (row: FrameRow) => OptionItem(scrape, row);
    FilterMapMember(frame, f, item);
    var i :| 0 <= i < |frame| && f(frame[i]) == Some(item);
  }

  /** An id splits back into the scrape date, the expiry, the type and the
      strike. */
  lemma GenerarIdSplits(scrape: string, row: FrameRow)
    requires '#' !in scrape && '#' !in row.tipo
    ensures SplitOn(GenerarId(scrape, row), '#') ==
      [scrape, TimestampText(row.vencimiento), row.tipo, FloatRepr(FloatCell(row.strike))]
  {
    FloatReprNoHash(FloatCell(row.strike));
    SplitJoinParts([scrape, TimestampText(row.vencimiento), row.tipo, FloatRepr(FloatCell(row.strike))], '#');
  }
}
