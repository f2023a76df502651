/** What the printer promises beyond each single `repr`: items are separated
    by `, ` with no trailing separator, and a statement fails to print exactly
    when one of its conditions cannot be translated. */
module ReprLaws {
  import opened Iam
  import opened Results
  import opened Strings
  import opened Values
  import opened Expression
  import opened Conditions
  import opened Repr

  /** Appending an item to a non-empty argument list appends `, ` and its text. */
  lemma {:induction false} JoinedSnocFrom(es: seq<Expr>, e: Expr, k: nat)
    requires 0 < |es| && k <= |es|
    requires RenderJoined(es, k).Ok? && RenderExpr(e).Ok?
    ensures RenderJoined(es + [e], k) == Ok(RenderJoined(es, k).value + ", " + RenderExpr(e).value)
    decreases |es| - k
  {
    var t := RenderExpr(e).value;
    assert (es + [e])[..|es|] == es;
    if k == |es| {
      assert (es + [e])[k] == e;
      assert RenderJoined(es + [e], k + 1) == Ok("");
      assert RenderJoined(es + [e], k) == Ok(", " + t + "");
      assert RenderJoined(es, k).value == "";
      assert ", " + t + "" == "" + ", " + t;
    } else {
      assert (es + [e])[k] == es[k];
      var item := RenderExpr(es[k]).value;
      var sep := if k > 0 then ", " else "";
      JoinedSnocFrom(es, e, k + 1);
      var rest := RenderJoined(es, k + 1).value;
      calc {
        RenderJoined(es + [e], k);
        Ok(sep + item + (rest + ", " + t));
        { AppendAssoc(sep + item, rest + ", ", t); AppendAssoc(sep + item, rest, ", "); }
        Ok(sep + item + rest + ", " + t);
      }
    }
  }

  /** `[a, b]` followed by `c` prints `[a, b, c]`: the separator goes between items only. */
  lemma ListSnoc(es: seq<Expr>, e: Expr)
    requires 0 < |es|
    requires RenderList(es).Ok? && RenderExpr(e).Ok?
    ensures RenderList(es + [e]) == Ok("[" + RenderJoined(es, 0).value + ", " + RenderExpr(e).value + "]")
  {
    var joined := RenderJoined(es, 0).value;
    var t := RenderExpr(e).value;
    JoinedSnocFrom(es, e, 0);
    calc {
      RenderList(es + [e]);
      Ok("[" + (joined + ", " + t) + "]");
      { AppendAssoc("[", joined + ", ", t); AppendAssoc("[", joined, ", "); }
      Ok("[" + joined + ", " + t + "]");
    }
  }

  /** The empty list prints `[]` and a one-item list prints no separator. */
  lemma ListSmall(e: Expr)
    requires RenderExpr(e).Ok?
    ensures RenderList([]) == Ok("[]")
    ensures RenderList([e]) == Ok("[" + RenderExpr(e).value + "]")
  {
    var t := RenderExpr(e).value;
    assert RenderJoined([], 0) == Ok("");
    assert "[" + "" + "]" == "[]";
    assert RenderJoined([e], 1) == Ok("");
    assert RenderJoined([e], 0) == Ok("" + t + "");
    assert "" + t + "" == t;
  }

  /** `build_condition` applied to one condition block. */
  function Translate(block: (ConditionOperator, seq<CondPair>)): Result<seq<Expr>>
  {
    BuildCondition(block.0, block.1)
  }

  /** The condition blocks from `k` on print iff all of them translate, and
      otherwise fail with the error the translation stops at. */
  lemma {:induction false} BlocksAgree(conds: Expression.Conditions, k: nat)
    requires k <= |conds|
    ensures RenderBlocks(conds, k).Ok? == TryMap(conds[k..], Translate).Ok?
    ensures RenderBlocks(conds, k).Err? ==> RenderBlocks(conds, k).error == TryMap(conds[k..], Translate).error
    decreases |conds| - k
  {
    if k < |conds| {
      assert conds[k..][0] == conds[k];
      assert conds[k..][1..] == conds[k + 1..];
      var built := BuildCondition(conds[k].0, conds[k].1);
      if built.Ok? {
        FlatLinesRender(built.value, 0);
        BlocksAgree(conds, k + 1);
      }
    }
  }

  /** A statement whose matcher expressions hold no statement fails to print
      exactly when `build_condition` rejects one of its conditions, and then
      with the error of the first such rejection (`TryMapFirstError`). */
  lemma StatementFailsIff(effect: Effect, exprs: seq<Expr>, conds: Expression.Conditions)
    requires FlatAll(exprs)
    ensures RenderStatement(effect, exprs, conds).Ok? == TryMap(conds, Translate).Ok?
    ensures RenderStatement(effect, exprs, conds).Err? ==>
              RenderStatement(effect, exprs, conds).error == TryMap(conds, Translate).error
  {
    FlatLinesRender(exprs, 0);
    BlocksAgree(conds, 0);
    assert conds[0..] == conds;
  }
}
