/** `TryMapExprIter::map_expr`: a loop that maps every item to an expression,
    returning early on the first error. */
module Extensions {
  import opened Results
  import opened Expression

  method MapExpr<T>(items: seq<T>, f: T -> Result<Expr>) returns (r: Result<seq<Expr>>)
    ensures r == TryMap(items, f)
    ensures r.Ok? ==> |r.value| == |items| && forall i :: 0 <= i < |items| ==> f(items[i]) == Ok(r.value[i])
    ensures r.Err? ==> exists k :: FailsFirstAt(items, f, k) && r.error == f(items[k]).error
  {
    var out: seq<Expr> := [];
    for i := 0 to |items|
      invariant |out| == i
      invariant forall j :: 0 <= j < i ==> f(items[j]) == Ok(out[j])
    {
      var e := f(items[i]);
      if e.Err? {
        assert FailsFirstAt(items, f, i);
        TryMapErrorAt(items, f, i);
        return Err(e.error);
      }
      out := out + [e.value];
    }
    assert TryMap(items, f).Ok?;
    assert TryMap(items, f).value == out;
    r := Ok(out);
  }
}
