/** How the raw-data Lambdas and the test script read the expiry drop-down and
    the `data-tipo` code of each options row: the dictionary from option value
    to expiry text, the lookup with its `OPE` to `OCE` retry, and the three
    rules that tell a call from a put. */
module ExpiryCodes {
  import opened Wrappers
  import opened Text
  import opened MeffPage

  /** Option value to the stripped text of its `<option>`. */
  type TextMap = map<string, string>

  // ---------------------------------------------------------------------------
  // The expiry dictionary
  // ---------------------------------------------------------------------------

  /** Whether an option writes an entry: it has a `value`, and, unless empty
      values are kept, a non-empty one. */
  predicate Keeps(o: SelectOption, keepEmpty: bool) {
    o.value.Some? && (keepEmpty || o.value.value != "")
  }

  /** The dictionary the options write, one after another, a later option
      overwriting an earlier one with the same value. */
  function ExpiryTexts(opts: seq<SelectOption>, keepEmpty: bool): TextMap {
    if |opts| == 0 then map[]
    else
      var m := ExpiryTexts(opts[..|opts| - 1], keepEmpty);
      var o := opts[|opts| - 1];
      if Keeps(o, keepEmpty) then m[o.value.value := Strip(o.text)] else m
  }

  /** One more option writes its entry, if it writes one. */
  lemma ExpiryTextsSnoc(opts: seq<SelectOption>, keepEmpty: bool, i: nat)
    requires i < |opts|
    ensures ExpiryTexts(opts[..i + 1], keepEmpty) ==
      if Keeps(opts[i], keepEmpty) then ExpiryTexts(opts[..i], keepEmpty)[opts[i].value.value := Strip(opts[i].text)]
      else ExpiryTexts(opts[..i], keepEmpty)
  {
    assert opts[..i + 1][..i] == opts[..i];
  }

  /** The scraper Lambda's loop: `if opt.get('value'): venc_dict[opt['value']]
      = opt.text.strip()`, so an option with an empty or missing value is
      passed over. */
  method MapTexts(opts: seq<SelectOption>) returns (venc: TextMap)
    ensures venc == ExpiryTexts(opts, false)
  {
    venc := map[];
    for i := 0 to |opts|
      invariant venc == ExpiryTexts(opts[..i], false)
    {
      ExpiryTextsSnoc(opts, false, i);
      var opt := opts[i];
      if opt.value.Some? && opt.value.value != "" {
        venc := venc[opt.value.value := Strip(opt.text)];
      }
    }
    assert opts[..|opts|] == opts;
  }

  /** Every option has a `value` attribute. */
  predicate AllValued(opts: seq<SelectOption>) {
    forall i :: 0 <= i < |opts| ==> opts[i].value.Some?
  }

  /** `{opt['value']: opt.text.strip() for opt in options}`: an option without
      a `value` raises `KeyError`; an empty value is a key like any other. */
  function ComprehensionTexts(opts: seq<SelectOption>): (r: Result<TextMap>)
    ensures r.Err? <==> !AllValued(opts)
    ensures r.Err? ==> r.error == KeyError
    ensures r.Ok? ==> r.value == ExpiryTexts(opts, true)
  {
    if AllValued(opts) then Ok(ExpiryTexts(opts, true)) else Err(KeyError)
  }

  /** The keys are exactly the values some option writes. */
  lemma {:induction false} ExpiryTextsDomain(opts: seq<SelectOption>, keepEmpty: bool, k: string)
    ensures k in ExpiryTexts(opts, keepEmpty) <==>
      exists i :: 0 <= i < |opts| && Keeps(opts[i], keepEmpty) && opts[i].value.value == k
  {
    if |opts| > 0 {
      var n := |opts| - 1;
      ExpiryTextsDomain(opts[..n], keepEmpty, k);
      if exists i :: 0 <= i < n && Keeps(opts[..n][i], keepEmpty) && opts[..n][i].value.value == k {
        var i :| 0 <= i < n && Keeps(opts[..n][i], keepEmpty) && opts[..n][i].value.value == k;
        assert opts[i] == opts[..n][i];
      }
      if exists i :: 0 <= i < |opts| && Keeps(opts[i], keepEmpty) && opts[i].value.value == k {
        var i :| 0 <= i < |opts| && Keeps(opts[i], keepEmpty) && opts[i].value.value == k;
        if i < n {
          assert opts[..n][i] == opts[i];
        }
      }
    }
  }

  /** A key holds the stripped text of the last option that writes it. */
  lemma {:induction false} ExpiryTextsLastWins(opts: seq<SelectOption>, keepEmpty: bool, i: nat)
    requires i < |opts| && Keeps(opts[i], keepEmpty)
    requires forall j :: i < j < |opts| ==> !(Keeps(opts[j], keepEmpty) && opts[j].value == opts[i].value)
    ensures opts[i].value.value in ExpiryTexts(opts, keepEmpty)
    ensures ExpiryTexts(opts, keepEmpty)[opts[i].value.value] == Strip(opts[i].text)
  {
    var n := |opts| - 1;
    LastWrite(opts, keepEmpty, opts[i].value.value);
    if i < n {
      forall j | i < j < n
        ensures !(Keeps(opts[..n][j], keepEmpty) && opts[..n][j].value == opts[..n][i].value)
      {
        assert opts[..n][j] == opts[j];
      }
      assert opts[..n][i] == opts[i];
      ExpiryTextsLastWins(opts[..n], keepEmpty, i);
    }
  }

  /** One key of the dictionary after the last option has had its turn. */
  lemma LastWrite(opts: seq<SelectOption>, keepEmpty: bool, key: string)
    requires |opts| > 0
    ensures var m := ExpiryTexts(opts[..|opts| - 1], keepEmpty);
      var o := opts[|opts| - 1];
      var mine := Keeps(o, keepEmpty) && o.value.value == key;
      && (key in ExpiryTexts(opts, keepEmpty) <==> mine || key in m)
      && (key in ExpiryTexts(opts, keepEmpty) ==> ExpiryTexts(opts, keepEmpty)[key] == if mine then Strip(o.text) else m[key])
  {
  }

  /** The dashboard copy's dictionary has every key of the Lambda's, with the
      same text: the two differ only on options with an empty value. */
  lemma {:induction false} LoopWithinComprehension(opts: seq<SelectOption>, k: string)
    requires k in ExpiryTexts(opts, false)
    ensures k in ExpiryTexts(opts, true) && ExpiryTexts(opts, true)[k] == ExpiryTexts(opts, false)[k]
  {
    ExpiryTextsDomain(opts, false, k);
    assert k != "";
    var n := |opts| - 1;
    var o := opts[n];
    if !(Keeps(o, false) && o.value.value == k) {
      LoopWithinComprehension(opts[..n], k);
    }
  }

  // ---------------------------------------------------------------------------
  // Looking a row's code up
  // ---------------------------------------------------------------------------

  /** `dict.get` on the expiry dictionary. */
  function Lookup(m: TextMap, code: string): Option<string> {
    if code in m then Some(m[code]) else None
  }

  /** The scraper Lambda's lookup: the code itself, then, only when it holds
      `OPE`, the code with every `OPE` turned into `OCE`. */
  function LookupLambda(m: TextMap, code: string): (r: Option<string>)
    ensures r.Some? ==> r.value in m.Values
  {
    var direct := Lookup(m, code);
    if direct.None? && Contains(code, "OPE") then Lookup(m, ReplaceAll(code, "OPE", "OCE")) else direct
  }

  /** The dashboard Lambda's and the test script's lookup: on a miss, the code
      is cleaned (`OPE` to `OCE` when it holds `OPE`, else unchanged) and
      looked up again. */
  function LookupClean(m: TextMap, code: string): (r: Option<string>)
    ensures r.Some? ==> r.value in m.Values
  {
    var direct := Lookup(m, code);
    if direct.None? then
      var clean := if Contains(code, "OPE") then ReplaceAll(code, "OPE", "OCE") else code;
      Lookup(m, clean)
    else direct
  }

  /** The two lookups always agree: retrying with an unchanged code finds
      nothing new. */
  lemma LookupsAgree(m: TextMap, code: string)
    ensures LookupLambda(m, code) == LookupClean(m, code)
  {
  }

  /** A put code `OPE…` that is missing falls back on the call code `OCE…`
      with the same tail. */
  lemma OpeFallsBackOnOce(m: TextMap, rest: string)
    requires !Contains(rest, "OPE") && "OPE" + rest !in m
    ensures LookupLambda(m, "OPE" + rest) == Lookup(m, "OCE" + rest)
  {
    var code := "OPE" + rest;
    assert code[..3] == "OPE";
    assert code[3..] == rest;
    ContainsAt(code, "OPE", 0);
    ReplaceAbsent(rest, "OPE", "OCE");
  }

  // ---------------------------------------------------------------------------
  // Call or put
  // ---------------------------------------------------------------------------

  /** The scraper Lambda: `'call' if 'C' in tipo_raw else 'put'`. */
  function TypeLambda(code: string): (r: string)
    ensures r == "call" <==> 'C' in code
    ensures r == "call" || r == "put"
  {
    if 'C' in code then "call" else "put"
  }

  /** The dashboard Lambda: `'call' if data_tipo[1] == 'C' else 'put'`,
      an `IndexError` for a code shorter than two characters. */
  function TypeApp(code: string): (r: Result<string>)
    ensures r.Err? <==> |code| < 2
    ensures r.Err? ==> r.error == IndexError
    ensures r.Ok? ==> (r.value == "call" <==> code[1] == 'C') && (r.value == "call" || r.value == "put")
  {
    if |code| < 2 then Err(IndexError)
    else if code[1] == 'C' then Ok("call") else Ok("put")
  }

  /** The test script: the same test, spelt `CALL` and `PUT`. */
  function TypeTest(code: string): (r: Result<string>)
    ensures r.Err? <==> |code| < 2
    ensures r.Err? ==> r.error == IndexError
    ensures r.Ok? ==> (r.value == "CALL" <==> code[1] == 'C') && (r.value == "CALL" || r.value == "PUT")
  {
    if |code| < 2 then Err(IndexError)
    else if code[1] == 'C' then Ok("CALL") else Ok("PUT")
  }

  /** On MEFF's codes, `O` then `C` or `P` then `E` then digits, the three
      rules agree; the Lambda's also holds on codes shorter than two. */
  lemma TypeRulesAgree(kind: char, digits: string)
    requires (kind == 'C' || kind == 'P') && AllDigits(digits)
    ensures var code := ['O', kind, 'E'] + digits;
      && TypeApp(code) == Ok(TypeLambda(code))
      && TypeTest(code) == Ok(if kind == 'C' then "CALL" else "PUT")
      && (TypeLambda(code) == "call" <==> kind == 'C')
  {
    var code := ['O', kind, 'E'] + digits;
    assert code[1] == kind;
    if kind == 'P' {
      forall j | 0 <= j < |code|
        ensures code[j] != 'C'
      {
        if j >= 3 {
          assert code[j] == digits[j - 3];
        }
      }
    }
  }
}
