/** The two shapes every scraper loop and DataFrame column in the model takes:
    a scan that turns each row into at most one record, keeping their order,
    and a column conversion that either converts every row or raises. */
module Collect {
  import opened Wrappers

  // ---------------------------------------------------------------------------
  // Searches (`any(...)`, a loop that sets a flag)
  // ---------------------------------------------------------------------------

  /** Some element of `xs` satisfies `p`. */
  predicate Any<A>(xs: seq<A>, p: A -> bool) {
    exists i :: 0 <= i < |xs| && p(xs[i])
  }

  /** One more element is found exactly when it satisfies `p`, unless one
      already was. */
  lemma AnySnoc<A>(xs: seq<A>, p: A -> bool, i: nat)
    requires i < |xs|
    ensures Any(xs[..i + 1], p) == (Any(xs[..i], p) || p(xs[i]))
  {
    var pre, ext := xs[..i], xs[..i + 1];
    assert ext[i] == xs[i];
    if Any(pre, p) {
      var j :| 0 <= j < |pre| && p(pre[j]);
      assert ext[j] == pre[j];
    }
    if Any(ext, p) {
      var j :| 0 <= j < |ext| && p(ext[j]);
      if j < i {
        assert pre[j] == ext[j];
      }
    }
  }

  // ---------------------------------------------------------------------------
  // Row scans that skip rows (`continue`)
  // ---------------------------------------------------------------------------

  /** The records the rows of `xs` yield, in row order; `f` gives `None` for a
      row the scan skips. */
  function FilterMap<A, B>(xs: seq<A>, f: A -> Option<B>): (r: seq<B>)
    ensures |r| <= |xs|
  {
    if |xs| == 0 then []
    else
      var y := f(xs[|xs| - 1]);
      FilterMap(xs[..|xs| - 1], f) + (if y.Some? then [y.value] else [])
  }

  /** One more row appends its record, if it yields one. */
  lemma FilterMapSnoc<A, B>(xs: seq<A>, x: A, f: A -> Option<B>)
    ensures FilterMap(xs + [x], f) == FilterMap(xs, f) + (if f(x).Some? then [f(x).value] else [])
  {
    assert (xs + [x])[..|xs|] == xs;
  }

  /** Each row is scanned on its own: the records of `a + b` are those of `a`
      followed by those of `b`. */
  lemma {:induction false} FilterMapAppend<A, B>(a: seq<A>, b: seq<A>, f: A -> Option<B>)
    ensures FilterMap(a + b, f) == FilterMap(a, f) + FilterMap(b, f)
    decreases |b|
  {
    if |b| == 0 {
      assert a + b == a;
    } else {
      var n := |b| - 1;
      FilterMapAppend(a, b[..n], f);
      assert (a + b)[..|a + b| - 1] == a + b[..n];
      assert (a + b)[|a + b| - 1] == b[n];
    }
  }

  /** A row that yields nothing leaves the records of all the others as they are. */
  lemma SkippedRow<A, B>(a: seq<A>, x: A, b: seq<A>, f: A -> Option<B>)
    requires f(x).None?
    ensures FilterMap(a + [x] + b, f) == FilterMap(a + b, f)
  {
    FilterMapAppend(a + [x], b, f);
    FilterMapSnoc(a, x, f);
    FilterMapAppend(a, b, f);
  }

  /** A record comes out exactly when some row yields it. */
  lemma {:induction false} FilterMapMember<A, B>(xs: seq<A>, f: A -> Option<B>, y: B)
    ensures y in FilterMap(xs, f) <==> exists i :: 0 <= i < |xs| && f(xs[i]) == Some(y)
  {
    if |xs| > 0 {
      var n := |xs| - 1;
      FilterMapMember(xs[..n], f, y);
      if exists i :: 0 <= i < |xs| && f(xs[i]) == Some(y) {
        var i :| 0 <= i < |xs| && f(xs[i]) == Some(y);
        if i < n {
          assert xs[..n][i] == xs[i];
        }
      }
      if exists i :: 0 <= i < n && f(xs[..n][i]) == Some(y) {
        var i :| 0 <= i < n && f(xs[..n][i]) == Some(y);
        assert xs[i] == xs[..n][i];
      }
    }
  }

  /** When every row yields a record, there is one record per row, in order. */
  lemma {:induction false} FilterMapTotal<A, B>(xs: seq<A>, f: A -> Option<B>)
    requires forall i :: 0 <= i < |xs| ==> f(xs[i]).Some?
    ensures |FilterMap(xs, f)| == |xs|
    ensures forall i :: 0 <= i < |xs| ==> FilterMap(xs, f)[i] == f(xs[i]).value
  {
    if |xs| > 0 {
      var n := |xs| - 1;
      assert forall i :: 0 <= i < n ==> xs[..n][i] == xs[i];
      FilterMapTotal(xs[..n], f);
    }
  }

  // ---------------------------------------------------------------------------
  // Row scans that may raise part way
  // ---------------------------------------------------------------------------

  /** What a scan that may raise has produced: the records so far and, once a
      row raised, its error (after which no row is looked at). */
  datatype Scanned<B> = Scanned(kept: seq<B>, stopped: Option<Error>)

  /** The scan of `xs` with `f`, which skips a row (`Ok(None)`), yields one
      record (`Ok(Some(y))`) or raises (`Err(e)`). */
  function ScanRows<A, B>(xs: seq<A>, f: A -> Result<Option<B>>): (r: Scanned<B>)
    ensures |r.kept| <= |xs|
  {
    if |xs| == 0 then Scanned([], None)
    else
      var s := ScanRows(xs[..|xs| - 1], f);
      if s.stopped.Some? then s
      else match f(xs[|xs| - 1])
        case Err(e) => Scanned(s.kept, Some(e))
        case Ok(y) => Scanned(s.kept + (if y.Some? then [y.value] else []), None)
  }

  /** One more row, unless the scan has already stopped. */
  lemma ScanRowsSnoc<A, B>(xs: seq<A>, x: A, f: A -> Result<Option<B>>)
    ensures ScanRows(xs + [x], f) == if ScanRows(xs, f).stopped.Some? then ScanRows(xs, f)
      else match f(x)
        case Err(e) => Scanned(ScanRows(xs, f).kept, Some(e))
        case Ok(y) => Scanned(ScanRows(xs, f).kept + (if y.Some? then [y.value] else []), None)
  {
    assert (xs + [x])[..|xs|] == xs;
  }

  /** Once stopped, a scan stays where it stopped. */
  lemma {:induction false} ScanRowsStays<A, B>(xs: seq<A>, i: nat, f: A -> Result<Option<B>>)
    requires i <= |xs| && ScanRows(xs[..i], f).stopped.Some?
    ensures ScanRows(xs, f) == ScanRows(xs[..i], f)
    decreases |xs| - i
  {
    if i < |xs| {
      assert xs[..i + 1][..i] == xs[..i];
      ScanRowsSnoc(xs[..i], xs[i], f);
      assert xs[..i] + [xs[i]] == xs[..i + 1];
      ScanRowsStays(xs, i + 1, f);
    } else {
      assert xs[..i] == xs;
    }
  }

  /** A scan stops exactly when some row raises, and then with the error of the
      first such row. */
  lemma {:induction false} ScanRowsStops<A, B>(xs: seq<A>, f: A -> Result<Option<B>>)
    ensures ScanRows(xs, f).stopped.None? <==> forall i :: 0 <= i < |xs| ==> f(xs[i]).Ok?
    ensures ScanRows(xs, f).stopped.Some? ==> exists i :: (0 <= i < |xs| && f(xs[i]) == Err(ScanRows(xs, f).stopped.value)
      && forall j :: 0 <= j < i ==> f(xs[j]).Ok?)
  {
    if |xs| > 0 {
      var n := |xs| - 1;
      ScanRowsStops(xs[..n], f);
      assert forall j :: 0 <= j < n ==> xs[..n][j] == xs[j];
      if ScanRows(xs[..n], f).stopped.Some? {
        var i :| 0 <= i < n && f(xs[..n][i]) == Err(ScanRows(xs[..n], f).stopped.value)
          && forall j :: 0 <= j < i ==> f(xs[..n][j]).Ok?;
        assert f(xs[i]) == Err(ScanRows(xs, f).stopped.value);
      }
    }
  }

  /** A scan in which no row raises is the skipping scan with the same records. */
  lemma {:induction false} ScanRowsTotal<A, B>(xs: seq<A>, f: A -> Result<Option<B>>, g: A -> Option<B>)
    requires forall i :: 0 <= i < |xs| ==> f(xs[i]) == Ok(g(xs[i]))
    ensures ScanRows(xs, f) == Scanned(FilterMap(xs, g), None)
  {
    if |xs| > 0 {
      var n := |xs| - 1;
      assert forall j :: 0 <= j < n ==> xs[..n][j] == xs[j];
      ScanRowsTotal(xs[..n], f, g);
    }
  }

  /** Every record a scan keeps comes from a row that yields it. */
  lemma {:induction false} ScanRowsMember<A, B>(xs: seq<A>, f: A -> Result<Option<B>>, y: B)
    requires y in ScanRows(xs, f).kept
    ensures exists i :: 0 <= i < |xs| && f(xs[i]) == Ok(Some(y))
  {
    var n := |xs| - 1;
    var s := ScanRows(xs[..n], f);
    if y in s.kept {
      ScanRowsMember(xs[..n], f, y);
      var i :| 0 <= i < n && f(xs[..n][i]) == Ok(Some(y));
      assert xs[..n][i] == xs[i];
    } else {
      assert f(xs[n]) == Ok(Some(y));
    }
  }

  // ---------------------------------------------------------------------------
  // Column conversions that may raise (`Series.apply`, `astype`)
  // ---------------------------------------------------------------------------

  /** Converting every element of `xs` with `f`; the first element that raises
      decides the error. */
  function TryMap<A, B>(xs: seq<A>, f: A -> Result<B>): (r: Result<seq<B>>)
    ensures r.Ok? <==> forall i :: 0 <= i < |xs| ==> f(xs[i]).Ok?
    ensures r.Ok? ==> |r.value| == |xs| && forall i :: 0 <= i < |xs| ==> r.value[i] == f(xs[i]).value
    ensures r.Err? ==> exists i :: 0 <= i < |xs| && f(xs[i]) == Err(r.error)
  {
    if |xs| == 0 then Ok([])
    else
      var y := f(xs[0]);
      match y
      case Err(e) => Err(e)
      case Ok(v) =>
        var rest := TryMap(xs[1..], f);
        assert forall i :: 1 <= i < |xs| ==> xs[1..][i - 1] == xs[i];
        match rest
        case Err(e) => Err(e)
        case Ok(vs) => Ok([v] + vs)
  }
}
