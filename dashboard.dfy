/** The Streamlit dashboards' table clean-up: option-type and column-name
    normalisation, the scrape-date selector and its default, and the list of
    expiries offered for the skew chart. The three dashboard versions share
    `normaliza_tipo`; the first renames an alias only when its canonical
    column is missing, the later two map every alias and then drop
    duplicate names. */
module Dashboard {
  import opened Wrappers
  import opened Text
  import opened Records

  // ---------------------------------------------------------------------------
  // normaliza_tipo
  // ---------------------------------------------------------------------------

  /** The spellings `normaliza_tipo` recognises, on a lower-cased, stripped
      string. */
  function TipoName(t: string): (r: string)
    ensures IsLower(t) && NoEdgeSpace(t) ==> IsLower(r) && NoEdgeSpace(r)
    ensures r == "call" <==> t in {"call", "calls", "c"}
    ensures r == "put" <==> t in {"put", "puts", "p"}
    ensures r != "call" && r != "put" ==> r == t
  {
    NamesLower();
    if t == "call" || t == "calls" || t == "c" then "call"
    else if t == "put" || t == "puts" || t == "p" then "put"
    else t
  }

  lemma NamesLower()
    ensures IsLower("call") && NoEdgeSpace("call") && IsLower("put") && NoEdgeSpace("put")
  {
    assert "call"[0] == 'c' && "call"[3] == 'l';
    assert "put"[0] == 'p' && "put"[2] == 't';
  }

  /** `normaliza_tipo`: strings are lower-cased and stripped, and the call and
      put spellings collapse to `call` and `put`; anything else is returned
      as it is. */
  function NormalizaTipo(v: Value): (r: Value)
    ensures !v.VStr? ==> r == v
    ensures v.VStr? ==> r == VStr(TipoName(Strip(Lower(v.s)))) && IsLower(r.s) && NoEdgeSpace(r.s)
  {
    if !v.VStr? then v
    else
      StripLower(v.s);
      LowerIsLower(Strip(v.s));
      VStr(TipoName(Strip(Lower(v.s))))
  }

  /** Case and surrounding blanks do not matter. */
  lemma NormalizaTipoInsensitive(s: string)
    ensures NormalizaTipo(VStr(Lower(s))) == NormalizaTipo(VStr(s))
    ensures NormalizaTipo(VStr(Strip(s))) == NormalizaTipo(VStr(s))
  {
    LowerIsLower(s);
    LowerOfLower(Lower(s));
    StripLower(s);
    StripLower(Strip(s));
    StripIdempotent(s);
  }

  /** Normalising twice is normalising once. */
  lemma NormalizaTipoIdempotent(v: Value)
    ensures NormalizaTipo(NormalizaTipo(v)) == NormalizaTipo(v)
  {
    if v.VStr? {
      var t := NormalizaTipo(v).s;
      LowerOfLower(t);
      StripNoEdge(t);
    }
  }

  // ---------------------------------------------------------------------------
  // normaliza_columnas, first version
  // ---------------------------------------------------------------------------

  /** `df.rename(columns={src: dst})`: every column named `src` becomes `dst`. */
  function Rename(cols: seq<string>, src: string, dst: string): (r: seq<string>)
    ensures |r| == |cols|
    ensures forall k :: 0 <= k < |cols| ==> r[k] == if cols[k] == src then dst else cols[k]
  {
    seq(|cols|, k requires 0 <= k < |cols| => if cols[k] == src then dst else cols[k])
  }

  /** One `if src in df.columns and dst not in df.columns` step. */
  function RenameIfAbsent(cols: seq<string>, src: string, dst: string): (r: seq<string>)
    ensures |r| == |cols|
  {
    if src in cols && dst !in cols then Rename(cols, src, dst) else cols
  }

  /** The first version's `normaliza_columnas`. */
  function NormalizaColumnasV1(cols: seq<string>): (r: seq<string>)
    ensures |r| == |cols|
  {
    var a := RenameIfAbsent(cols, "tipo", "type");
    var b := RenameIfAbsent(a, "strike_price", "strike");
    var c := RenameIfAbsent(b, "fecha", "date");
    RenameIfAbsent(c, "vencimiento", "date")
  }

  /** An alias is renamed only when its canonical name is absent: columns
      already named `type`, `strike` or `date` stay, `tipo` and
      `strike_price` move only when their target is missing, and `fecha`
      takes precedence over `vencimiento` for `date`. Every other column
      keeps its name. */
  lemma NormalizaColumnasV1Renames(cols: seq<string>, k: nat)
    requires k < |cols|
    ensures var r := NormalizaColumnasV1(cols)[k];
      && (cols[k] == "tipo" ==> r == (if "type" in cols then "tipo" else "type"))
      && (cols[k] == "strike_price" ==> r == (if "strike" in cols then "strike_price" else "strike"))
      && (cols[k] == "fecha" ==> r == (if "date" in cols then "fecha" else "date"))
      && (cols[k] == "vencimiento" ==> r == (if "date" in cols || "fecha" in cols then "vencimiento" else "date"))
      && (cols[k] !in {"tipo", "strike_price", "fecha", "vencimiento"} ==> r == cols[k])
  {
    var a := RenameIfAbsent(cols, "tipo", "type");
    var b := RenameIfAbsent(a, "strike_price", "strike");
    var c := RenameIfAbsent(b, "fecha", "date");
    assert "date" in c <==> "date" in cols || "fecha" in cols by {
      assert "date" in b <==> "date" in cols;
      if "date" in cols || "fecha" in cols {
        var j :| 0 <= j < |cols| && (cols[j] == "date" || cols[j] == "fecha");
        assert c[j] == "date" || (b[j] == "fecha" && "date" in b) ;
      }
    }
    assert "strike" in a <==> "strike" in cols;
    assert "date" in b <==> "date" in cols;
    assert "fecha" in b <==> "fecha" in cols;
  }

  // ---------------------------------------------------------------------------
  // normaliza_columnas, later versions
  // ---------------------------------------------------------------------------

  /** The alias table of the later versions, keyed by `col.lower().strip()`. */
  const AliasTable: seq<(string, string)> := [
    ("tipo", "type"), ("type_opcion", "type"), ("tipo_opcion", "type"),
    ("fecha", "date"), ("vencimiento", "date"), ("fecha_venc", "date"),
    ("strike_price", "strike"), ("precio_ejercicio", "strike"),
    ("precio", "price"), ("price", "price"),
    ("volumen", "volume"), ("volume", "volume"),
    ("dias_vto", "dias_vto"), ("dias_vencimiento", "dias_vto"),
    ("scrape_date", "scrape_date"), ("scrape_datetimestamp", "scrape_date"),
    ("identificador", "id"), ("id_opcion", "id"), ("id_futuro", "id")]

  /** The first entry of `table` for `k`, as the `elif` chain tries them. */
  function Lookup(table: seq<(string, string)>, k: string): (r: Option<string>)
    ensures r.Some? ==> exists i :: 0 <= i < |table| && table[i] == (k, r.value)
    ensures r.None? ==> forall i :: 0 <= i < |table| ==> table[i].0 != k
  {
    if |table| == 0 then None
    else if table[0].0 == k then Some(table[0].1)
    else Lookup(table[1..], k)
  }

  /** A key every entry of which maps to itself is left alone. */
  lemma {:induction false} LookupFixed(table: seq<(string, string)>, c: string)
    requires forall i :: 0 <= i < |table| && table[i].0 == c ==> table[i].1 == c
    ensures Lookup(table, c) == None || Lookup(table, c) == Some(c)
  {
    if |table| > 0 && table[0].0 != c {
      LookupFixed(table[1..], c);
    }
  }

  /** The canonical names `normaliza_columnas` produces. */
  predicate IsTarget(c: string) {
    c in {"type", "date", "strike", "price", "volume", "dias_vto", "scrape_date", "id"}
  }

  lemma TableTargets()
    ensures forall i :: 0 <= i < |AliasTable| ==> IsTarget(AliasTable[i].1)
    ensures forall i :: 0 <= i < |AliasTable| && IsTarget(AliasTable[i].0) ==> AliasTable[i].1 == AliasTable[i].0
  {
  }

  function Alias(c: string): Option<string> {
    Lookup(AliasTable, c)
  }

  /** The name a column gets: its canonical name when it is an alias,
      compared lower-cased and trimmed, and its own name otherwise. */
  function Canonical(col: string): (r: string)
    ensures Alias(Strip(Lower(col))).None? ==> r == col
  {
    match Alias(Strip(Lower(col)))
    case Some(c) => c
    case None => col
  }

  /** A canonical name is its own canonical name. */
  lemma CanonicalIdempotent(col: string)
    ensures Canonical(Canonical(col)) == Canonical(col)
  {
    var c := Canonical(col);
    if Alias(Strip(Lower(col))).Some? {
      TableTargets();
      LowerFixed(c);
      StripFixed(c);
      TargetAlias(c);
    }
  }

  lemma TargetAlias(c: string)
    requires IsTarget(c)
    ensures Alias(c) == None || Alias(c) == Some(c)
  {
    TableTargets();
    LookupFixed(AliasTable, c);
  }

  /** The canonical names are already lower-case letters and underscores. */
  lemma LowerFixed(c: string)
    requires IsTarget(c)
    ensures Lower(c) == c
  {
    assert forall i :: 0 <= i < |c| ==> 'a' <= c[i] <= 'z' || c[i] == '_';
  }

  lemma StripFixed(c: string)
    requires IsTarget(c)
    ensures Strip(c) == c
  {
    assert |c| > 0 && !IsSpace(c[0]) && !IsSpace(c[|c| - 1]);
    StripNoEdge(c);
  }

  /** Every column after `df.rename(columns=renames)`. */
  function Renamed(cols: seq<string>): (r: seq<string>)
    ensures |r| == |cols| && forall k :: 0 <= k < |cols| ==> r[k] == Canonical(cols[k])
  {
    seq(|cols|, k requires 0 <= k < |cols| => Canonical(cols[k]))
  }

  predicate NoDup(s: seq<string>) {
    forall i, j :: 0 <= i < j < |s| ==> s[i] != s[j]
  }

  /** `df.loc[:, ~df.columns.duplicated()]`: the first occurrence of each
      name, in order. */
  function Dedup(s: seq<string>): (r: seq<string>)
    ensures NoDup(r)
    ensures forall x :: x in r <==> x in s
    ensures |r| <= |s|
  {
    if |s| == 0 then []
    else
      var d := Dedup(s[..|s| - 1]);
      if s[|s| - 1] in d then d else d + [s[|s| - 1]]
  }

  /** The position of the first occurrence of `x`. */
  function FirstIndex(s: seq<string>, x: string): (r: nat)
    requires x in s
    ensures r < |s| && s[r] == x && forall j :: 0 <= j < r ==> s[j] != x
  {
    if s[0] == x then 0 else 1 + FirstIndex(s[1..], x)
  }

  lemma {:induction false} FirstIndexAppend(s: seq<string>, y: string, x: string)
    requires x in s
    ensures FirstIndex(s + [y], x) == FirstIndex(s, x)
  {
    if s[0] != x {
      assert (s + [y])[1..] == s[1..] + [y];
      FirstIndexAppend(s[1..], y, x);
    }
  }

  /** Deduplication keeps names in the order of their first occurrences. */
  lemma {:induction false} DedupOrder(s: seq<string>)
    ensures forall i, j :: 0 <= i < j < |Dedup(s)| ==> FirstIndex(s, Dedup(s)[i]) < FirstIndex(s, Dedup(s)[j])
  {
    if |s| > 0 {
      var n := |s| - 1;
      var p := s[..n];
      assert s == p + [s[n]];
      DedupOrder(p);
      var d := Dedup(p);
      forall x | x in d
        ensures FirstIndex(s, x) == FirstIndex(p, x)
      {
        FirstIndexAppend(p, s[n], x);
      }
      if s[n] !in d {
        var r := d + [s[n]];
        assert Dedup(s) == r;
        assert FirstIndex(s, s[n]) == n;
        forall i, j | 0 <= i < j < |r|
          ensures FirstIndex(s, r[i]) < FirstIndex(s, r[j])
        {
          assert r[i] == d[i] && d[i] in d;
          assert FirstIndex(s, d[i]) == FirstIndex(p, d[i]) < n;
          if j < |d| {
            assert r[j] == d[j] && d[j] in d;
            assert FirstIndex(s, d[j]) == FirstIndex(p, d[j]);
          }
        }
      }
    }
  }

  /** A list without duplicates is its own deduplication. */
  lemma {:induction false} DedupNoDup(s: seq<string>)
    requires NoDup(s)
    ensures Dedup(s) == s
  {
    if |s| > 0 {
      var n := |s| - 1;
      DedupNoDup(s[..n]);
      assert s[n] !in s[..n];
      assert s[..n] + [s[n]] == s;
    }
  }

  /** The later versions' `normaliza_columnas`. */
  function NormalizedColumns(cols: seq<string>): (r: seq<string>)
    ensures NoDup(r)
    ensures forall x :: x in r <==> exists k :: 0 <= k < |cols| && x == Canonical(cols[k])
  {
    var rn := Renamed(cols);
    RenamedMembers(cols);
    Dedup(rn)
  }

  /** The renamed list holds exactly the canonical names of the columns. */
  lemma RenamedMembers(cols: seq<string>)
    ensures forall x :: x in Renamed(cols) <==> exists k :: 0 <= k < |cols| && x == Canonical(cols[k])
  {
    var rn := Renamed(cols);
    forall x | x in rn
      ensures exists k :: 0 <= k < |cols| && x == Canonical(cols[k])
    {
      var k :| 0 <= k < |rn| && rn[k] == x;
    }
  }

  /** Renaming a list of canonical names changes nothing. */
  lemma {:induction false} RenamedFixed(r: seq<string>, cols: seq<string>)
    requires forall x :: x in r ==> exists k :: 0 <= k < |cols| && x == Canonical(cols[k])
    ensures Renamed(r) == r
  {
    forall k | 0 <= k < |r|
      ensures Renamed(r)[k] == r[k]
    {
      assert r[k] in r;
      var j :| 0 <= j < |cols| && r[k] == Canonical(cols[j]);
      CanonicalIdempotent(cols[j]);
    }
  }

  /** Normalising the columns twice changes nothing more. */
  lemma NormalizedColumnsIdempotent(cols: seq<string>)
    ensures NormalizedColumns(NormalizedColumns(cols)) == NormalizedColumns(cols)
  {
    var r := NormalizedColumns(cols);
    RenamedFixed(r, cols);
    DedupNoDup(r);
  }

  /** What `renames` holds once the loop has seen `cols`: every column whose
      trimmed lower-case name is an alias, mapped to its canonical name. */
  ghost predicate RenamesFor(renames: map<string, string>, cols: seq<string>) {
    && (forall c :: c in renames <==> c in cols && Alias(Strip(Lower(c))).Some?)
    && (forall c :: c in renames ==> renames[c] == Canonical(c))
  }

  /** One turn of the loop over `df.columns`. */
  function AddAlias(renames: map<string, string>, col: string): (r: map<string, string>)
  {
    match Alias(Strip(Lower(col)))
    case Some(a) => renames[col := a]
    case None => renames
  }

  lemma AddAliasStep(renames: map<string, string>, cols: seq<string>, col: string, all: seq<string>)
    requires RenamesFor(renames, cols) && all == cols + [col]
    ensures RenamesFor(AddAlias(renames, col), all)
  {
    var r := AddAlias(renames, col);
    forall c
      ensures c in r <==> c in all && Alias(Strip(Lower(c))).Some?
    {
      assert c in all <==> c in cols || c == col;
    }
    forall c | c in r
      ensures r[c] == Canonical(c)
    {
      if c != col {
        assert c in renames;
      }
    }
  }

  /** The `renames` dictionary the loop builds over `cols`. */
  function RenamesOf(cols: seq<string>): map<string, string> {
    if |cols| == 0 then map[] else AddAlias(RenamesOf(cols[..|cols| - 1]), cols[|cols| - 1])
  }

  lemma {:induction false} RenamesOfFor(cols: seq<string>)
    ensures RenamesFor(RenamesOf(cols), cols)
  {
    if |cols| > 0 {
      var n := |cols| - 1;
      RenamesOfFor(cols[..n]);
      assert cols[..n] + [cols[n]] == cols;
      AddAliasStep(RenamesOf(cols[..n]), cols[..n], cols[n], cols);
    }
  }

  /** `df.rename(columns=renames)`. */
  function ApplyRenames(renames: map<string, string>, cols: seq<string>): (r: seq<string>)
    ensures |r| == |cols|
    ensures forall k :: 0 <= k < |cols| ==> r[k] == if cols[k] in renames then renames[cols[k]] else cols[k]
  {
    seq(|cols|, k requires 0 <= k < |cols| => if cols[k] in renames then renames[cols[k]] else cols[k])
  }

  lemma ApplyRenamesCanonical(renames: map<string, string>, cols: seq<string>)
    requires RenamesFor(renames, cols)
    ensures ApplyRenames(renames, cols) == Renamed(cols)
  {
    forall k | 0 <= k < |cols|
      ensures ApplyRenames(renames, cols)[k] == Renamed(cols)[k]
    {
      assert cols[k] in cols;
    }
  }

  /** `normaliza_columnas` of the later versions: the loop filling `renames`,
      then the rename and the duplicate drop. */
  method NormalizaColumnas(cols: seq<string>) returns (r: seq<string>)
    ensures r == NormalizedColumns(cols)
  {
    var renames: map<string, string> := map[];
    for i := 0 to |cols|
      invariant renames == RenamesOf(cols[..i])
    {
      renames := AddAlias(renames, cols[i]);
      assert cols[..i + 1][..i] == cols[..i];
    }
    assert cols[..|cols|] == cols;
    RenamesOfFor(cols);
    ApplyRenamesCanonical(renames, cols);
    r := Dedup(ApplyRenames(renames, cols));
  }

  // ---------------------------------------------------------------------------
  // normaliza_fecha
  // ---------------------------------------------------------------------------

  /** `normaliza_fecha`, given what `pd.to_datetime(fecha).strftime('%Y-%m-%d')`
      gives (`None` when it raises): the fallback is the first ten characters
      of `str(fecha)`. */
  function NormalizaFecha(fecha: Value, library: Option<string>): (r: string)
    ensures library.Some? ==> r == library.value
    ensures library.None? ==> r == Take(Str(fecha), 10) && |r| <= 10 && r <= Str(fecha)
  {
    match library
    case Some(s) => s
    case None => Take(Str(fecha), 10)
  }

  // ---------------------------------------------------------------------------
  // Scrape-date selector
  // ---------------------------------------------------------------------------

  /** Strictly increasing in Python's string order. */
  predicate Sorted(s: seq<string>) {
    forall i, j :: 0 <= i < j < |s| ==> StrLess(s[i], s[j])
  }

  /** Adds `x` to an increasing list. */
  function Insert(s: seq<string>, x: string): (r: seq<string>)
    requires Sorted(s)
    ensures Sorted(r)
    ensures forall y :: y in r <==> y in s || y == x
  {
    if |s| == 0 then [x]
    else if x == s[0] then s
    else if StrLess(x, s[0]) then
      forall j | 0 < j < |s| ensures StrLess(x, s[j]) {
        StrLessTransitive(x, s[0], s[j]);
      }
      [x] + s
    else
      StrLessTotal(x, s[0]);
      var t := Insert(s[1..], x);
      assert forall y :: y in t ==> StrLess(s[0], y);
      [s[0]] + t
  }

  /** `sorted(set(xs))`. */
  function SortedSet(xs: seq<string>): (r: seq<string>)
    ensures Sorted(r)
    ensures forall y :: y in r <==> y in xs
  {
    if |xs| == 0 then []
    else Insert(SortedSet(xs[..|xs| - 1]), xs[|xs| - 1])
  }

  /** An increasing list holds no name twice. */
  lemma SortedNoDup(s: seq<string>)
    requires Sorted(s)
    ensures NoDup(s)
  {
    forall i, j | 0 <= i < j < |s|
      ensures s[i] != s[j]
    {
      StrLessIrreflexive(s[i]);
    }
  }

  /** Keeps the elements at or after `cutoff`, in order. */
  function AtOrAfter(s: seq<string>, cutoff: string): (r: seq<string>)
    ensures forall y :: y in r <==> y in s && StrLessEq(cutoff, y)
    ensures Sorted(s) ==> Sorted(r)
  {
    if |s| == 0 then []
    else
      var rest := AtOrAfter(s[..|s| - 1], cutoff);
      var last := s[|s| - 1];
      if StrLessEq(cutoff, last) then
        assert Sorted(s) ==> forall y :: y in rest ==> StrLess(y, last) by {
          if Sorted(s) {
            forall y | y in rest ensures StrLess(y, last) {
              var i :| 0 <= i < |s| - 1 && s[i] == y;
            }
          }
        }
        rest + [last]
      else rest
  }

  /** The strings the first version accepts as scrape dates: non-blank. */
  function Candidates(vals: seq<Value>): (r: seq<string>)
    ensures forall y :: y in r <==> VStr(y) in vals && Strip(y) != ""
  {
    if |vals| == 0 then []
    else
      var rest := Candidates(vals[..|vals| - 1]);
      var v := vals[|vals| - 1];
      if v.VStr? && Strip(v.s) != "" then rest + [v.s] else rest
  }

  /** The first version's selectable scrape dates: the non-blank strings
      among the tables' scrape dates from `'2025-05-13'` on, once each,
      ascending. */
  function ScrapeDatesV1(vals: seq<Value>): (r: seq<string>)
    ensures Sorted(r) && NoDup(r)
    ensures forall y :: y in r <==> VStr(y) in vals && Strip(y) != "" && StrLessEq("2025-05-13", y)
  {
    var s := SortedSet(AtOrAfter(Candidates(vals), "2025-05-13"));
    SortedNoDup(s);
    s
  }

  /** The third version's selectable scrape dates: the given scrape dates,
      once each, ascending, from `'2025-05-15'` on. The caller passes the
      scrape dates of the rows that have a volatility; that filter is not
      part of this function. */
  function ScrapeDatesV3(dates: seq<string>): (r: seq<string>)
    ensures Sorted(r) && NoDup(r)
    ensures forall y :: y in r <==> y in dates && StrLessEq("2025-05-15", y)
  {
    var s := AtOrAfter(SortedSet(dates), "2025-05-15");
    SortedNoDup(s);
    s
  }

  /** The first version's default: the first position of `'2025-05-14'`
      when it is offered, as `list.index` finds it, else the latest date. */
  function DefaultIndexV1(ds: seq<string>): (r: nat)
    requires |ds| > 0
    ensures r < |ds|
    ensures "2025-05-14" in ds ==> ds[r] == "2025-05-14" && forall j :: 0 <= j < r ==> ds[j] != "2025-05-14"
    ensures "2025-05-14" !in ds ==> r == |ds| - 1
  {
    if "2025-05-14" in ds then FirstIndex(ds, "2025-05-14") else |ds| - 1
  }

  /** The third version's defaults: the first position of the default date
      when it is offered, as `list.index` finds it, else the first position. */
  function DefaultIndexV3(ds: seq<string>, default: string): (r: nat)
    ensures default in ds ==> r < |ds| && ds[r] == default && forall j :: 0 <= j < r ==> ds[j] != default
    ensures default !in ds ==> r == 0
  {
    if default in ds then FirstIndex(ds, default) else 0
  }

  // ---------------------------------------------------------------------------
  // Expiries offered for the skew chart
  // ---------------------------------------------------------------------------

  /** A row of the volatility table as the chart reads it: the normalised
      expiry date, the type and the strike. */
  datatype IvRow = IvRow(dateNorm: string, tipo: Value, strike: Value)

  /** What `nunique` does not count: `None` and NaN. */
  predicate IsNull(v: Value) {
    v.VNone? || ((v.VDec? || v.VFloat?) && v.n.NaN?)
  }

  /** Some row of the expiry with one of the type spellings has a strike. */
  predicate HasSide(rows: seq<IvRow>, fecha: string, names: set<string>) {
    exists k :: 0 <= k < |rows| && rows[k].dateNorm == fecha && rows[k].tipo.VStr? && rows[k].tipo.s in names
      && !IsNull(rows[k].strike)
  }

  function DateNorms(rows: seq<IvRow>): (r: seq<string>)
    ensures |r| == |rows| && forall k :: 0 <= k < |rows| ==> r[k] == rows[k].dateNorm
  {
    seq(|rows|, k requires 0 <= k < |rows| => rows[k].dateNorm)
  }

  /** The expiries kept from an ascending list. */
  function BothSides(ds: seq<string>, rows: seq<IvRow>): (r: seq<string>)
    ensures forall y :: y in r <==> y in ds && HasSide(rows, y, {"call", "calls"}) && HasSide(rows, y, {"put", "puts"})
    ensures Sorted(ds) ==> Sorted(r)
  {
    if |ds| == 0 then []
    else
      var rest := BothSides(ds[..|ds| - 1], rows);
      var d := ds[|ds| - 1];
      if HasSide(rows, d, {"call", "calls"}) && HasSide(rows, d, {"put", "puts"}) then
        assert Sorted(ds) ==> forall y :: y in rest ==> StrLess(y, d) by {
          if Sorted(ds) {
            forall y | y in rest ensures StrLess(y, d) {
              var i :| 0 <= i < |ds| - 1 && ds[i] == y;
            }
          }
        }
        rest + [d]
      else rest
  }

  /** The expiries offered: exactly those with at least one call strike and
      at least one put strike, once each, ascending. */
  function OfferedExpiries(rows: seq<IvRow>): (r: seq<string>)
    ensures Sorted(r)
    ensures forall y :: y in r <==>
      (exists k :: 0 <= k < |rows| && rows[k].dateNorm == y)
      && HasSide(rows, y, {"call", "calls"}) && HasSide(rows, y, {"put", "puts"})
  {
    var ds := SortedSet(DateNorms(rows));
    assert forall y :: y in ds <==> exists k :: 0 <= k < |rows| && rows[k].dateNorm == y by {
      forall y | y in ds ensures exists k :: 0 <= k < |rows| && rows[k].dateNorm == y {
        var k :| 0 <= k < |rows| && DateNorms(rows)[k] == y;
      }
    }
    BothSides(ds, rows)
  }

  /** The chart's loop over the sorted expiries, counting each side's
      strikes. */
  method ExpiriesWithBothSides(rows: seq<IvRow>) returns (fechas: seq<string>)
    ensures fechas == OfferedExpiries(rows)
  {
    var ds := SortedSet(DateNorms(rows));
    fechas := [];
    for i := 0 to |ds|
      invariant fechas == BothSides(ds[..i], rows)
    {
      assert ds[..i + 1][..i] == ds[..i];
      var calls := HasSide(rows, ds[i], {"call", "calls"});
      var puts := HasSide(rows, ds[i], {"put", "puts"});
      if calls && puts {
        fechas := fechas + [ds[i]];
      }
    }
    assert ds[..|ds|] == ds;
  }
}
