/** DynamoDB items as the Lambda and dashboard code read them: a dictionary
    from field names to Python values, the sentinel-skipping field lookup,
    the `#`-separated record keys and the JSON fallback for `Decimal`. */
module Records {
  import opened Wrappers
  import opened Text
  import opened Numbers
  import opened NumberFacts

  /** The Python values a stored item field can hold. */
  datatype Value =
    | VNone             // `None`, also what `dict.get` gives for a missing key
    | VStr(s: string)   // `str`
    | VDec(n: Number)   // `decimal.Decimal`, as DynamoDB returns numbers
    | VFloat(n: Number) // `float`

  /** An item: field name to value. */
  type Obj = map<string, Value>

  /** `obj.get(k)`. */
  function Get(obj: Obj, k: string): Value {
    if k in obj then obj[k] else VNone
  }

  /** `v in [None, '', 'NaN', '-']`: only `None` and three strings match; a
      `Decimal` or `float` never equals a string. */
  predicate IsSentinel(v: Value) {
    v == VNone || v == VStr("") || v == VStr("NaN") || v == VStr("-")
  }

  /** Python truthiness; NaN and the infinities are true. */
  predicate Truthy(v: Value) {
    match v
    case VNone => false
    case VStr(s) => |s| > 0
    case VDec(n) => !(n.Finite? && n.d.mant == 0)
    case VFloat(n) => !(n.Finite? && n.d.mant == 0)
  }

  /** `str(v)`. */
  function Str(v: Value): (r: string)
    ensures v.VStr? ==> r == v.s
  {
    match v
    case VNone => "None"
    case VStr(s) => s
    case VDec(n) => DecimalNumberText(n)
    case VFloat(n) => FloatRepr(n)
  }

  /** `float(v)`: strings go through the `float()` grammar, numbers keep their
      value, and `None` raises `TypeError`. */
  function ToFloat(v: Value): (r: Result<Number>)
    ensures r.Err? <==> v.VNone? || (v.VStr? && ParseFloat(v.s).None?)
    ensures r.Err? ==> r.error == (if v.VNone? then TypeError else ValueError)
    ensures v.VStr? && r.Ok? ==> Some(r.value) == ParseFloat(v.s)
    ensures (v.VDec? || v.VFloat?) ==> r == Ok(v.n)
  {
    match v
    case VNone => Err(TypeError)
    case VStr(s) => (match ParseFloat(s) case Some(x) => Ok(x) case None => Err(ValueError))
    case VDec(n) => Ok(n)
    case VFloat(n) => Ok(n)
  }

  // ---------------------------------------------------------------------------
  // get_first_valid
  // ---------------------------------------------------------------------------

  /** The position of the first key whose value is not a sentinel, or
      `|keys|` when there is none. */
  function FirstValidIndex(obj: Obj, keys: seq<string>): (r: nat)
    ensures r <= |keys|
    ensures forall j :: 0 <= j < r ==> IsSentinel(Get(obj, keys[j]))
    ensures r < |keys| ==> !IsSentinel(Get(obj, keys[r]))
  {
    if |keys| == 0 then 0
    else if !IsSentinel(Get(obj, keys[0])) then 0
    else 1 + FirstValidIndex(obj, keys[1..])
  }

  /** What `get_first_valid(obj, keys)` returns. */
  function FirstValid(obj: Obj, keys: seq<string>): (r: Value)
    ensures r == VNone <==> forall j :: 0 <= j < |keys| ==> IsSentinel(Get(obj, keys[j]))
    ensures r != VNone ==> !IsSentinel(r)
    ensures r != VNone ==> exists j :: 0 <= j < |keys| && r == Get(obj, keys[j])
  {
    var i := FirstValidIndex(obj, keys);
    if i < |keys| then Get(obj, keys[i]) else VNone
  }

  /** `get_first_valid`: scan the keys in order and return the first value
      that is not `None`, `''`, `'NaN'` or `'-'`. */
  method GetFirstValid(obj: Obj, keys: seq<string>) returns (v: Value)
    ensures v == FirstValid(obj, keys)
  {
    for i := 0 to |keys|
      invariant forall j :: 0 <= j < i ==> IsSentinel(Get(obj, keys[j]))
    {
      var x := Get(obj, keys[i]);
      if !IsSentinel(x) {
        return x;
      }
    }
    return VNone;
  }

  /** Keys listed ahead of every valid one only shift the position found. */
  lemma {:induction false} FirstValidIndexSkips(obj: Obj, pre: seq<string>, keys: seq<string>)
    requires forall j :: 0 <= j < |pre| ==> IsSentinel(Get(obj, pre[j]))
    ensures FirstValidIndex(obj, pre + keys) == |pre| + FirstValidIndex(obj, keys)
  {
    if |pre| > 0 {
      assert (pre + keys)[0] == pre[0];
      assert IsSentinel(Get(obj, pre[0]));
      assert (pre + keys)[1..] == pre[1..] + keys;
      FirstValidIndexSkips(obj, pre[1..], keys);
      assert FirstValidIndex(obj, pre + keys) == 1 + FirstValidIndex(obj, pre[1..] + keys);
    } else {
      assert pre + keys == keys;
    }
  }

  /** Keys listed ahead of every valid one do not change the answer. */
  lemma FirstValidSkips(obj: Obj, pre: seq<string>, keys: seq<string>)
    requires forall j :: 0 <= j < |pre| ==> IsSentinel(Get(obj, pre[j]))
    ensures FirstValid(obj, pre + keys) == FirstValid(obj, keys)
  {
    FirstValidIndexSkips(obj, pre, keys);
    var k := FirstValidIndex(obj, keys);
    if k < |keys| {
      assert (pre + keys)[|pre| + k] == keys[k];
    }
  }

  // ---------------------------------------------------------------------------
  // Dropping None fields before a write
  // ---------------------------------------------------------------------------

  /** `{k: v for k, v in item.items() if v is not None}`. */
  function DropNone(item: Obj): (r: Obj)
    ensures forall k :: k in r <==> k in item && item[k] != VNone
    ensures forall k :: k in r ==> r[k] != VNone
  {
    map k | k in item && item[k] != VNone :: item[k]
  }

  /** Dropping `None` fields changes no lookup: `get` gives `None` either way. */
  lemma DropNoneGet(item: Obj, k: string)
    ensures Get(DropNone(item), k) == Get(item, k)
  {
  }

  lemma DropNoneIdempotent(item: Obj)
    ensures DropNone(DropNone(item)) == DropNone(item)
  {
  }

  // ---------------------------------------------------------------------------
  // construir_id_flexible
  // ---------------------------------------------------------------------------

  /** `str(tipo).lower().rstrip('s')`. */
  function TypeNorm(v: Value): (r: string)
    ensures IsLower(r)
    ensures |r| == 0 || r[|r| - 1] != 's'
    ensures |r| <= |Lower(Str(v))| && r == Lower(Str(v))[..|r|]
  {
    var low := Lower(Str(v));
    LowerIsLower(Str(v));
    RStripChar(low, 's')
  }

  /** Normalising a type a second time changes nothing. */
  lemma TypeNormIdempotent(v: Value)
    ensures TypeNorm(VStr(TypeNorm(v))) == TypeNorm(v)
  {
    var t := TypeNorm(v);
    LowerOfLower(t);
  }

  /** The expiry part of an id: at most ten characters of `str(v)`, or `''`
      for a false value. */
  function ExpiryPart(v: Value): (r: string)
    ensures |r| <= 10
    ensures Truthy(v) ==> |r| == (if |Str(v)| < 10 then |Str(v)| else 10) && r == Str(v)[..|r|]
    ensures !Truthy(v) ==> r == ""
  {
    if Truthy(v) then Take(Str(v), 10) else ""
  }

  /** The type part of an id. */
  function TypePart(v: Value): (r: string)
    ensures !Truthy(v) ==> r == ""
    ensures Truthy(v) ==> r == TypeNorm(v)
  {
    if Truthy(v) then TypeNorm(v) else ""
  }

  /** `str(float(str(strike).replace('.', '').replace(',', '.')))`, or
      `str(strike)` when that conversion raises. */
  function StrikePart(v: Value): (r: string)
    ensures LocaleFloat(Str(v)).None? ==> r == Str(v)
    ensures LocaleFloat(Str(v)).Some? ==> r == FloatRepr(LocaleFloat(Str(v)).value)
  {
    match LocaleFloat(Str(v))
    case Some(x) => FloatRepr(x)
    case None => Str(v)
  }

  const ScrapeKeys: seq<string> := ["scrape_date"]
  const ExpiryKeys: seq<string> := ["date", "fecha", "vencimiento"]
  const TypeKeys: seq<string> := ["type", "tipo"]
  const StrikeKeys: seq<string> := ["strike", "strike_price"]

  /** The segments `construir_id_flexible` joins with `#`, given the first
      valid scrape date, expiry, type and strike: the strike segment is there
      exactly when a strike was found. */
  function IdSegments(scrape: Value, expiry: Value, tipo: Value, strike: Value): (r: seq<string>)
    ensures |r| == if strike == VNone then 3 else 4
    ensures r[0] == Str(scrape) && r[1] == ExpiryPart(expiry) && r[2] == TypePart(tipo)
    ensures |r| == 4 ==> r[3] == StrikePart(strike)
  {
    var a, b, c := Str(scrape), ExpiryPart(expiry), TypePart(tipo);
    if strike != VNone then [a, b, c, StrikePart(strike)] else [a, b, c]
  }

  /** The id built from the four looked-up fields. */
  function IdOf(scrape: Value, expiry: Value, tipo: Value, strike: Value): string {
    Join(IdSegments(scrape, expiry, tipo, strike), '#')
  }

  /** `construir_id_flexible(obj)`. */
  function ConstruirIdFlexible(obj: Obj): string {
    IdOf(FirstValid(obj, ScrapeKeys), FirstValid(obj, ExpiryKeys), FirstValid(obj, TypeKeys), FirstValid(obj, StrikeKeys))
  }

  /** An id splits back into its segments when no segment holds a `#`: four
      with a strike, three without. */
  lemma IdRoundTrip(scrape: Value, expiry: Value, tipo: Value, strike: Value)
    requires var p := IdSegments(scrape, expiry, tipo, strike);
      forall k :: 0 <= k < |p| ==> '#' !in p[k]
    ensures SplitOn(IdOf(scrape, expiry, tipo, strike), '#') == IdSegments(scrape, expiry, tipo, strike)
  {
    SplitJoinParts(IdSegments(scrape, expiry, tipo, strike), '#');
  }

  /** A float strike `x` reaches the id as `str(float(str(x) without its
      point))`: the repr's digits read as an integer, so an integral strike
      comes out ten times too large. */
  lemma FloatStrikePart(d: Decimal)
    ensures StrikePart(VFloat(Finite(d))) == FloatRepr(Finite(Decimal(ReprDecimal(d).mant, 0)))
  {
    LocaleOfRepr(d);
  }

  lemma IntegralStrikePart(n: int)
    ensures StrikePart(VFloat(Finite(Decimal(n, 0)))) == FloatRepr(Finite(Decimal(10 * n, 0)))
  {
    IntegralStrikeTimesTen(n);
  }

  // ---------------------------------------------------------------------------
  // decimal_default
  // ---------------------------------------------------------------------------

  /** A number `json.dumps` can write. */
  datatype Json = JInt(i: int) | JFloat(x: Number)

  /** `obj % 1 == 0` for a finite decimal. */
  predicate IsIntegral(d: Decimal) { d.mant % Pow10(d.scale) == 0 }

  /** `decimal_default`: an integral `Decimal` becomes an `int`, any other
      finite one or a NaN a `float`; `% 1` on an infinity raises, and a
      value that is no `Decimal` raises `TypeError`. */
  function DecimalDefault(v: Value): (r: Result<Json>)
    ensures !v.VDec? ==> r == Err(TypeError)
    ensures v.VDec? && v.n.Infinity? ==> r == Err(InvalidOperation)
    ensures v.VDec? && v.n.NaN? ==> r == Ok(JFloat(NaN))
    ensures v.VDec? && v.n.Finite? ==> r.Ok?
    ensures r.Ok? && r.value.JInt? ==> v.VDec? && v.n.Finite? && IsIntegral(v.n.d) && r.value.i as real == ValueOf(v.n.d)
    ensures r.Ok? && r.value.JFloat? && r.value.x.Finite? ==> v == VDec(r.value.x) && !IsIntegral(r.value.x.d)
  {
    match v
    case VDec(n) =>
      (match n
       case Finite(d) =>
         if IsIntegral(d) then
           IntegralValue(d);
           Ok(JInt(d.mant / Pow10(d.scale)))
         else Ok(JFloat(n))
       case NaN => Ok(JFloat(NaN))
       case Infinity(_) => Err(InvalidOperation))
    case _ => Err(TypeError)
  }

  lemma IntegralValue(d: Decimal)
    requires IsIntegral(d)
    ensures (d.mant / Pow10(d.scale)) as real == ValueOf(d)
  {
    var p := Pow10(d.scale);
    var q := d.mant / p;
    assert d.mant == q * p;
    assert d.mant as real == q as real * p as real;
  }
}
