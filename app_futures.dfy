/** The futures raw-data Lambda of the dashboard project: rows of the futures
    table with exactly fourteen cells are kept, cleaned and named, the expiry
    read with `%d %b. %Y` and two prices with the Spanish-locale conversion;
    each row with an expiry is written with its `None` fields removed. */
module AppFutures {
  import opened Wrappers
  import opened Text
  import opened Numbers
  import opened Dates
  import opened Records
  import opened MeffPage
  import opened Collect
  import AppIngest

  /** The columns `obtener_futuros_meff` gives the fourteen cells. */
  const Width: nat := 14

  /** The cells of a kept row, each through `clean_value`. */
  function CleanCells(cols: seq<string>): (r: seq<string>)
    ensures |r| == |cols|
    ensures forall j :: 0 <= j < |cols| ==> r[j] == AppIngest.CleanText(cols[j])
  {
    seq(|cols|, j requires 0 <= j < |cols| => AppIngest.CleanText(cols[j]))
  }

  /** What one `<tr>` contributes to `data_fut`. */
  function KeptRow(cols: seq<string>): Option<seq<string>> {
    if |cols| == Width then Some(CleanCells(cols)) else None
  }

  /** `data_fut`: the rows of exactly fourteen cells, cleaned, in page order. */
  function KeptRows(rows: seq<seq<string>>): seq<seq<string>> {
    FilterMap(rows, KeptRow)
  }

  lemma KeptRowsSnoc(rows: seq<seq<string>>, i: nat)
    requires i < |rows|
    ensures KeptRows(rows[..i + 1]) == KeptRows(rows[..i]) + (if |rows[i]| == Width then [CleanCells(rows[i])] else [])
  {
    assert rows[..i + 1] == rows[..i] + [rows[i]];
    FilterMapSnoc(rows[..i], rows[i], KeptRow);
  }

  /** `for row in rows_fut: … if len(cols) == 14: data_fut.append(…)` */
  method CollectFutures(rows: seq<seq<string>>) returns (data: seq<seq<string>>)
    ensures data == KeptRows(rows)
  {
    data := [];
    for i := 0 to |rows|
      invariant data == KeptRows(rows[..i])
    {
      KeptRowsSnoc(rows, i);
      var cols := rows[i];
      if |cols| == Width {
        data := data + [CleanCells(cols)];
      }
    }
    assert rows[..|rows|] == rows;
  }

  /** A row is kept exactly when it has fourteen cells, and then as its cleaned
      cells. */
  lemma KeptRowsFrom(rows: seq<seq<string>>, c: seq<string>)
    ensures c in KeptRows(rows) <==> exists i :: 0 <= i < |rows| && |rows[i]| == Width && c == CleanCells(rows[i])
  {
    FilterMapMember(rows, KeptRow, c);
    if exists i :: 0 <= i < |rows| && |rows[i]| == Width && c == CleanCells(rows[i]) {
      var i :| 0 <= i < |rows| && |rows[i]| == Width && c == CleanCells(rows[i]);
      assert KeptRow(rows[i]) == Some(c);
    }
  }

  /** Every kept row has fourteen cells, so the named columns line up. */
  lemma KeptRowsWidth(rows: seq<seq<string>>)
    ensures forall j :: 0 <= j < |KeptRows(rows)| ==> |KeptRows(rows)[j]| == Width
  {
    forall j | 0 <= j < |KeptRows(rows)|
      ensures |KeptRows(rows)[j]| == Width
    {
      KeptRowsFrom(rows, KeptRows(rows)[j]);
    }
  }

  /** One row of `df_fut` after the conversions: `Vencimiento`, `Tipo`,
      `Último`, `Volumen` and `Anterior`, the columns the handler reads. */
  datatype FutureRow = FutureRow(vencimiento: Option<ValidDate>, tipo: string, ultimo: Option<Number>, volumen: string,
                                 anterior: Option<Number>)

  /** `pd.to_datetime(…, format='%d %b. %Y', errors='coerce')` of one text. */
  function FutureDate(s: string): Option<ValidDate> {
    match StrptimeDayMonthYear(s)
    case None => None
    case Some(d) => Some(d)
  }

  function ConvertRow(cells: seq<string>): (r: FutureRow)
    requires |cells| == Width
    ensures r.vencimiento == FutureDate(cells[0]) && r.tipo == cells[1] && r.volumen == cells[9]
    ensures r.ultimo == AppIngest.ConvertedCell(cells[8]) && r.anterior == AppIngest.ConvertedCell(cells[13])
  {
    FutureRow(FutureDate(cells[0]), cells[1], AppIngest.ConvertedCell(cells[8]), cells[9],
              AppIngest.ConvertedCell(cells[13]))
  }

  /** The three column conversions, row by row. */
  function ConvertFrame(data: seq<seq<string>>): (r: seq<FutureRow>)
    requires forall j :: 0 <= j < |data| ==> |data[j]| == Width
    ensures |r| == |data|
    ensures forall j :: 0 <= j < |data| ==> r[j] == ConvertRow(data[j])
  {
    seq(|data|, j requires 0 <= j < |data| => ConvertRow(data[j]))
  }

  /** `obtener_futuros_meff`: the kept rows with their columns converted. */
  function FuturesFrame(rows: seq<seq<string>>): seq<FutureRow> {
    KeptRowsWidth(rows);
    ConvertFrame(KeptRows(rows))
  }

  method ObtenerFuturosMeff(rows: seq<seq<string>>) returns (df: seq<FutureRow>)
    ensures df == FuturesFrame(rows)
  {
    var data := CollectFutures(rows);
    KeptRowsWidth(rows);
    df := ConvertFrame(data);
  }

  // ---------------------------------------------------------------------------
  // The handler's items
  // ---------------------------------------------------------------------------

  /** `generar_id`: `f"{scrape_date}#{str(row['Vencimiento'])}#{row['Tipo']}"`. */
  function GenerarId(scrape: string, row: FutureRow): string {
    Join([scrape, TimestampText(row.vencimiento), row.tipo], '#')
  }

  /** The handler's dict, `{'id': …, 'scrape_date': …, 'vencimiento': …,
      'tipo': …, 'ultimo': …, 'anterior': …, 'volumen': …}`, with its `None`
      fields removed. */
  function ItemFields(id: string, scrape: string, venc: string, tipo: string, ultimo: Value, anterior: Value,
                      volumen: string): (r: Obj)
    ensures forall k :: k in r ==> r[k] != VNone
    ensures "id" in r && r["id"] == VStr(id) && "scrape_date" in r && r["scrape_date"] == VStr(scrape)
    ensures "vencimiento" in r && r["vencimiento"] == VStr(venc) && "tipo" in r && r["tipo"] == VStr(tipo)
    ensures "volumen" in r && r["volumen"] == VStr(volumen)
    ensures "ultimo" in r <==> ultimo != VNone
    ensures "ultimo" in r ==> r["ultimo"] == ultimo
    ensures "anterior" in r <==> anterior != VNone
    ensures "anterior" in r ==> r["anterior"] == anterior
    ensures r.Keys <= {"id", "scrape_date", "vencimiento", "tipo", "ultimo", "anterior", "volumen"}
  {
    DropNone(map["id" := VStr(id), "scrape_date" := VStr(scrape), "vencimiento" := VStr(venc), "tipo" := VStr(tipo),
                 "ultimo" := ultimo, "anterior" := anterior, "volumen" := VStr(volumen)])
  }

  /** The item written for one row: none when the expiry did not parse (the
      type is always a string). */
  function FutureItem(scrape: string, row: FutureRow): (r: Option<Obj>)
    ensures r.None? <==> row.vencimiento.None?
    ensures r.Some? ==> forall k :: k in r.value ==> r.value[k] != VNone
    ensures r.Some? ==> "id" in r.value && r.value["id"] == VStr(GenerarId(scrape, row))
    ensures r.Some? ==> "volumen" in r.value && r.value["volumen"] == VStr(row.volumen)
    ensures r.Some? ==> ("ultimo" in r.value <==> row.ultimo.Some? && row.ultimo.value.Finite?)
    ensures r.Some? ==> ("anterior" in r.value <==> row.anterior.Some? && row.anterior.value.Finite?)
  {
    if row.vencimiento.None? then None
    else Some(ItemFields(GenerarId(scrape, row), scrape, TimestampText(row.vencimiento), row.tipo,
                         SafeDecimal(row.ultimo), SafeDecimal(row.anterior), row.volumen))
  }

  /** The items the handler writes, in frame order. */
  function FutureItems(scrape: string, frame: seq<FutureRow>): seq<Obj> {
    FilterMap(frame, (row: FutureRow) => FutureItem(scrape, row))
  }

  lemma FutureItemsSnoc(scrape: string, frame: seq<FutureRow>, i: nat)
    requires i < |frame|
    ensures FutureItems(scrape, frame[..i + 1]) == FutureItems(scrape, frame[..i])
      + (if frame[i].vencimiento.None? then [] else [FutureItem(scrape, frame[i]).value])
  {
    assert frame[..i + 1] == frame[..i] + [frame[i]];
    FilterMapSnoc(frame[..i], frame[i], (row: FutureRow) => FutureItem(scrape, row));
  }

  /** `for _, row in df_fut.iterrows(): … table.put_item(Item=item)` */
  method SaveFutures(scrape: string, frame: seq<FutureRow>) returns (written: seq<Obj>)
    ensures written == FutureItems(scrape, frame)
  {
    written := [];
    for i := 0 to |frame|
      invariant written == FutureItems(scrape, frame[..i])
    {
      FutureItemsSnoc(scrape, frame, i);
      var row := frame[i];
      if row.vencimiento.None? {
        continue;
      }
      written := written + [FutureItem(scrape, row).value];
    }
    assert frame[..|frame|] == frame;
  }

  /** `lambda_handler`: the scrape, then the writes. */
  method LambdaHandler(scrape: string, rows: seq<seq<string>>) returns (written: seq<Obj>)
    ensures written == FutureItems(scrape, FuturesFrame(rows))
  {
    var df := ObtenerFuturosMeff(rows);
    written := SaveFutures(scrape, df);
  }

  /** A row whose expiry did not parse writes nothing, wherever it stands. */
  lemma UndatedRowSkipped(scrape: string, a: seq<FutureRow>, row: FutureRow, b: seq<FutureRow>)
    requires row.vencimiento.None?
    ensures FutureItems(scrape, a + [row] + b) == FutureItems(scrape, a + b)
  {
    SkippedRow(a, row, b, (row: FutureRow) => FutureItem(scrape, row));
  }

  /** Every item written comes from a dated row of the frame, with that row's
      id and volume, and holds no `None`. */
  lemma WrittenFuturesDated(scrape: string, frame: seq<FutureRow>, item: Obj)
    requires item in FutureItems(scrape, frame)
    ensures forall k :: k in item ==> item[k] != VNone
    ensures exists i :: (0 <= i < |frame| && frame[i].vencimiento.Some? && "id" in item
      && item["id"] == VStr(GenerarId(scrape, frame[i])) && "volumen" in item && item["volumen"] == VStr(frame[i].volumen))
  {
    var f := (row: FutureRow) => FutureItem(scrape, row);
    FilterMapMember(frame, f, item);
    var i :| 0 <= i < |frame| && f(frame[i]) == Some(item);
  }

  /** On a type without `#`, an id splits back into the scrape date, the expiry
      and the type. */
  lemma GenerarIdSplits(scrape: string, row: FutureRow)
    requires '#' !in scrape && '#' !in row.tipo
    ensures SplitOn(GenerarId(scrape, row), '#') == [scrape, TimestampText(row.vencimiento), row.tipo]
  {
    SplitJoinParts([scrape, TimestampText(row.vencimiento), row.tipo], '#');
  }
}
