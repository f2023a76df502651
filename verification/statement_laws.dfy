/** What the statement compiler promises across calls: when compiling a scope
    fails, the order of the matchers, and that a compiled statement prints
    unless one of its conditions is rejected. */
module StatementLaws {
  import Iam
  import opened Results
  import opened Strings
  import opened Values
  import opened Expression
  import opened Interpolation
  import opened Functions
  import opened Statements
  import opened Repr
  import opened ReprLaws

  /** Compiling a scope fails exactly when it is not a wildcard and one of its
      patterns cannot have its variables substituted. */
  lemma MatcherFails(kind: ScopeType, scope: Scope<string>)
    ensures Matcher(kind, scope).Err? <==>
              !IsWildcard(Inner(scope)) &&
              exists i :: 0 <= i < |Elements(Inner(scope))| && StrExpr(Elements(Inner(scope))[i]).Err?
  {
    var v := Inner(scope);
    var input := Var(InputVar(kind));
    if !IsWildcard(v) {
      match v
      case One(one) =>
        assert Matcher(kind, scope).Err? == MatchOne(scope.Not?, input, one).Err?;
        assert Elements(v) == [one];
        if StrExpr(one).Err? {
          assert StrExpr(Elements(v)[0]).Err?;
        }
      case Many(list) =>
        assert Matcher(kind, scope).Err? == MatchMany(scope.Not?, input, list).Err?;
        assert Elements(v) == list;
    }
  }

  /** The matchers come principal first, then action, then resource, each
      scope contributing at most one. */
  lemma MatchersInOrder(stmt: Statement)
    requires Matchers(Scopes(stmt)).Ok?
    ensures Matcher(Principal, stmt.principals).Ok?
    ensures Matcher(Action, stmt.actions).Ok?
    ensures Matcher(Resource, stmt.resources).Ok?
    ensures Matchers(Scopes(stmt)).value ==
              Present(Matcher(Principal, stmt.principals).value) +
              Present(Matcher(Action, stmt.actions).value) +
              Present(Matcher(Resource, stmt.resources).value)
  {
    var s := Scopes(stmt);
    assert s[1..][1..][1..] == [];
    assert s[1..][0] == s[1] && s[1..][1..][0] == s[2];
    assert Matchers(s[1..]).Ok?;
    assert Matchers(s[1..][1..]).Ok?;
    var a := Present(Matcher(Principal, stmt.principals).value);
    var b := Present(Matcher(Action, stmt.actions).value);
    var c := Present(Matcher(Resource, stmt.resources).value);
    assert Matchers(s[1..][1..]).value == c + [];
    assert c + [] == c;
    AppendAssoc(a, b, c);
  }

  /** A statement whose scopes compile prints exactly when all its conditions
      translate, and otherwise fails with the first rejection. */
  lemma CompiledStatementPrints(stmt: Statement)
    requires Matchers(Scopes(stmt)).Ok?
    ensures var e := Expr.Statement(stmt.effect, Matchers(Scopes(stmt)).value, stmt.conditions);
            (RenderExpr(e).Ok? <==> TryMap(stmt.conditions, Translate).Ok?) &&
            (RenderExpr(e).Err? ==> RenderExpr(e).error == TryMap(stmt.conditions, Translate).error)
  {
    StatementFailsIff(stmt.effect, Matchers(Scopes(stmt)).value, stmt.conditions);
  }
}
