/** The statement compiler: the principal, action and resource scopes of one
    normalised IAM statement become equality, glob or negated matchers on
    `input.principal`, `input.action` and `input.resource`. */
module Statements {
  import Iam
  import opened Results
  import opened Strings
  import opened Values
  import opened Expression
  import opened Interpolation
  import opened Functions

  /** Which request field a scope constrains. */
  datatype ScopeType = Principal | Action | Resource

  /** `ScopeType::input_var`: the variable holding that field of the request. */
  function InputVar(kind: ScopeType): (r: string)
    ensures |r| > |InputPrefix| && r[..|InputPrefix|] == InputPrefix
  {
    match kind
    case Principal => "input.principal"
    case Action => "input.action"
    case Resource => "input.resource"
  }

  /** The three scopes read three different variables. */
  lemma InputVarsDistinct(a: ScopeType, b: ScopeType)
    ensures InputVar(a) == InputVar(b) <==> a == b
  {
    if a != b {
      assert InputVar(a)[6] != InputVar(b)[6];
    }
  }

  /** A normalised IAM statement, before compilation. */
  datatype Statement = Statement(
    effect: Effect,
    principals: Scope<string>,
    actions: Scope<string>,
    resources: Scope<string>,
    conditions: Expression.Conditions)

  /** The scopes in the order `generate` visits them. */
  function Scopes(stmt: Statement): (r: seq<(ScopeType, Scope<string>)>)
    ensures |r| == 3
    ensures r[0] == (Principal, stmt.principals)
    ensures r[1] == (Action, stmt.actions)
    ensures r[2] == (Resource, stmt.resources)
  {
    [(Principal, stmt.principals), (Action, stmt.actions), (Resource, stmt.resources)]
  }

  /** A pattern list that matches anything: every entry is `*` (or there is none). */
  predicate AllWildcards(list: seq<string>)
  {
    forall i :: 0 <= i < |list| ==> list[i] == "*"
  }

  /** Some pattern of the list holds a `*` and so needs glob matching. */
  predicate AnyGlob(list: seq<string>)
  {
    exists i :: 0 <= i < |list| && !Lacks(list[i], '*')
  }

  /** The scope places no constraint at all. */
  predicate IsWildcard(v: Value<string>)
  {
    match v
    case One(one) => one == "*"
    case Many(list) => AllWildcards(list)
  }

  /** `id`: the identity for a positive scope, `Expr::neg` for a negated one. */
  function Polar(negated: bool, e: Expr): (r: Expr)
    ensures negated ==> r == Neg(e)
    ensures !negated ==> r == e
  {
    if negated then Neg(e) else e
  }

  /** `op`: `Expr::Eq` for a positive scope, `Expr::Ne` for a negated one. */
  function Compare(negated: bool, lhs: Expr, rhs: Expr): (r: Expr)
    ensures negated ==> r == Ne(lhs, rhs)
    ensures !negated ==> r == Eq(lhs, rhs)
  {
    if negated then Ne(lhs, rhs) else Eq(lhs, rhs)
  }

  /** A `glob.match` call. */
  predicate IsGlob(e: Expr)
  {
    e.Call? && e.name == "glob.match"
  }

  /** An expression with one `not` removed, if it has one. */
  function Unnegated(e: Expr): Expr
  {
    if e.Neg? then e.inner else e
  }

  /** The matcher for one scope: nothing for a wildcard, otherwise a glob or an
      equality on the scope's variable; a pattern whose variables cannot be
      substituted makes it fail. */
  function Matcher(kind: ScopeType, scope: Scope<string>): (r: Result<Iam.Option<Expr>>)
    ensures r == Ok(Iam.None) <==> IsWildcard(Inner(scope))
    ensures r.Ok? && r.value.Some? ==> Flat(r.value.value)
  {
    var input := Var(InputVar(kind));
    match Inner(scope)
    case One(one) =>
      if one == "*" then Ok(Iam.None)
      else
        var m :- MatchOne(scope.Not?, input, one);
        Ok(Iam.Some(m))
    case Many(list) =>
      if AllWildcards(list) then Ok(Iam.None)
      else
        var m :- MatchMany(scope.Not?, input, list);
        Ok(Iam.Some(m))
  }

  /** A single pattern: a glob when it holds a `*`, under `not` for a negated
      scope; otherwise `==`, or `!=` for a negated scope, with the variable on
      the left. Only a `*` makes a glob. */
  function MatchOne(negated: bool, input: Expr, one: string): (r: Result<Expr>)
    requires input.Var?
    ensures r.Ok? <==> StrExpr(one).Ok?
    ensures r.Ok? && !Lacks(one, '*') ==> r.value == Polar(negated, Glob(StrExpr(one).value, input))
    ensures r.Ok? && Lacks(one, '*') ==> r.value == Compare(negated, input, StrExpr(one).value)
    ensures r.Ok? ==> (IsGlob(Unnegated(r.value)) <==> !Lacks(one, '*'))
    ensures r.Ok? ==> Flat(r.value)
  {
    var p :- StrExpr(one);
    if !Lacks(one, '*') then
      var glob := Call("glob.match", [p, Var("null"), input]);
      assert Flat(glob.args[0]) && Flat(glob.args[1]) && Flat(glob.args[2]);
      assert Flat(glob) && Flat(Neg(glob));
      Ok(Polar(negated, glob))
    else
      Ok(Compare(negated, input, p))
  }

  /** A list of patterns: a positive scope matches when any of them does,
      through `AnyIn`; a negated scope requires, through `every item in list`,
      that none does. A glob is used when any pattern holds a `*`. */
  function MatchMany(negated: bool, input: Expr, list: seq<string>): (r: Result<Expr>)
    requires input.Var?
    ensures r.Ok? <==> TryMap(list, StrExpr).Ok?
    ensures r.Ok? ==>
              var ps := TryMap(list, StrExpr).value;
              var glob := AnyGlob(list);
              r.value == (
                if !negated && glob then Glob(AnyIn(List(ps)), input)
                else if !negated then Eq(AnyIn(List(ps)), input)
                else if glob then Every(Item(), List(ps), Neg(Glob(Item(), input)))
                else Every(Item(), List(ps), Ne(Item(), input)))
    ensures r.Ok? ==> Flat(r.value)
  {
    var ps :- TryMap(list, StrExpr);
    FlatPatterns(list, ps);
    FlatListMatchers(ps, input);
    if AnyGlob(list) then
      if !negated then Ok(Glob(AnyIn(List(ps)), input))
      else EveryItem(ps, e => Ok(Neg(Glob(e, input))))
    else
      if !negated then Ok(Eq(AnyIn(List(ps)), input))
      else EveryItem(ps, e => Ok(Ne(e, input)))
  }

  lemma FlatPatterns(list: seq<string>, ps: seq<Expr>)
    requires TryMap(list, StrExpr) == Ok(ps)
    ensures FlatAll(ps)
  {
    forall i | 0 <= i < |ps| ensures Flat(ps[i]) {
      assert StrExpr(list[i]) == Ok(ps[i]);
    }
  }

  lemma FlatListMatchers(ps: seq<Expr>, input: Expr)
    requires FlatAll(ps) && input.Var?
    ensures Flat(Glob(AnyIn(List(ps)), input)) && Flat(Eq(AnyIn(List(ps)), input))
    ensures Flat(Every(Item(), List(ps), Neg(Glob(Item(), input))))
    ensures Flat(Every(Item(), List(ps), Ne(Item(), input)))
  {
    assert Flat(List(ps));
    assert Flat(Neg(Glob(Item(), input)));
    assert Flat(Ne(Item(), input));
  }

  /** The expressions a matcher contributes: none for a wildcard, else one. */
  function Present(m: Iam.Option<Expr>): (r: seq<Expr>)
    ensures |r| <= 1
    ensures m.Some? ==> r == [m.value]
    ensures m.None? ==> r == []
  {
    match m
    case None => []
    case Some(e) => [e]
  }

  /** The matchers of the scopes, in order, stopping at the first failure. */
  function Matchers(scopes: seq<(ScopeType, Scope<string>)>): (r: Result<seq<Expr>>)
    ensures r.Ok? ==> |r.value| <= |scopes| && FlatAll(r.value)
  {
    if scopes == [] then Ok([])
    else
      var m :- Matcher(scopes[0].0, scopes[0].1);
      var rest :- Matchers(scopes[1..]);
      Ok(Present(m) + rest)
  }

  /** `exprs` in front of a result; an error stays as it is. */
  function PrependAll(exprs: seq<Expr>, r: Result<seq<Expr>>): Result<seq<Expr>>
  {
    if r.Ok? then Ok(exprs + r.value) else r
  }

  lemma PrependAllNothing(r: Result<seq<Expr>>)
    ensures PrependAll([], r) == r
  {
    if r.Ok? {
      EmptyPrefix(r.value);
    }
  }

  lemma PrependAllTwice(a: seq<Expr>, b: seq<Expr>, r: Result<seq<Expr>>)
    ensures PrependAll(a, PrependAll(b, r)) == PrependAll(a + b, r)
  {
    if r.Ok? {
      AppendAssoc(a, b, r.value);
    }
  }

  /** `Statement::generate`: the loop over principal, action and resource. */
  method Generate(stmt: Statement) returns (r: Result<Expr>)
    ensures Matchers(Scopes(stmt)).Err? ==> r == Err(Matchers(Scopes(stmt)).error)
    ensures Matchers(Scopes(stmt)).Ok? ==>
              r == Ok(Expr.Statement(stmt.effect, Matchers(Scopes(stmt)).value, stmt.conditions))
  {
    var scopes := Scopes(stmt);
    var exprs: seq<Expr> := [];
    assert scopes[0..] == scopes;
    PrependAllNothing(Matchers(scopes));
    for i := 0 to 3
      invariant Matchers(scopes) == PrependAll(exprs, Matchers(scopes[i..]))
    {
      assert scopes[i..][0] == scopes[i];
      assert scopes[i..][1..] == scopes[i + 1..];
      var m := Matcher(scopes[i].0, scopes[i].1);
      if m.Err? {
        return Err(m.error);
      }
      PrependAllTwice(exprs, Present(m.value), Matchers(scopes[i + 1..]));
      if m.value.Some? {
        exprs := exprs + [m.value.value];
      } else {
        assert exprs + Present(m.value) == exprs;
      }
    }
    assert scopes[3..] == [];
    assert exprs + [] == exprs;
    return Ok(Expr.Statement(stmt.effect, exprs, stmt.conditions));
  }
}
