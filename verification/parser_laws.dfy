/** What the policy front end and the module printer promise across calls:
    one compiled statement per IAM statement in document order, the wildcard
    meaning of a missing principal, the decisions the prelude declares, and
    the module text as the prelude followed by every statement's rendering. */
module ParserLaws {
  import opened Iam
  import opened Results
  import opened Strings
  import opened Values
  import opened Expression
  import opened Repr
  import opened Statements
  import opened StatementLaws
  import opened Parser

  /** A parsed document holds one `Statement` per IAM statement, in document
      order, each with its statement's effect and normalised conditions. */
  lemma ParsedStatements(doc: PolicyDocument)
    requires AwsKeysPresent(doc)
    requires CompileAll(StatementList(doc), 0).Ok?
    ensures |CompileAll(StatementList(doc), 0).value| == |StatementList(doc)|
    ensures forall j :: 0 <= j < |StatementList(doc)| ==>
              var e := CompileAll(StatementList(doc), 0).value[j];
              e.Statement? && e.effect == EffectOf(StatementList(doc)[j].effect) &&
              e.conditions == ConditionsOf(StatementList(doc)[j].condition)
  {
    var statements := StatementList(doc);
    forall j | 0 <= j < |statements|
      ensures var e := CompileAll(statements, 0).value[j];
              e.Statement? && e.effect == EffectOf(statements[j].effect) &&
              e.conditions == ConditionsOf(statements[j].condition)
    {
      CompiledAt(statements, j);
    }
  }

  lemma CompiledAt(statements: seq<IamStatement>, j: nat)
    requires j < |statements| && AllHaveAwsKey(statements)
    requires CompileAll(statements, 0).Ok?
    ensures var e := CompileAll(statements, 0).value[j];
            e.Statement? && e.effect == EffectOf(statements[j].effect) &&
            e.conditions == ConditionsOf(statements[j].condition)
  {
    CollectAt(Compiled(statements), 0, j);
    assert j - 0 == j;
  }

  /** A statement with no principal places no constraint on `input.principal`:
      its matchers are those of its action and its resource only. */
  lemma MissingPrincipal(st: IamStatement)
    requires st.principal.None?
    requires ActionScope(st.action).Ok? && ResourceScope(st.resource).Ok?
    requires Matcher(ScopeType.Action, ActionScope(st.action).value).Ok?
    requires Matcher(ScopeType.Resource, ResourceScope(st.resource).value).Ok?
    ensures Compile(st).Ok?
    ensures Compile(st).value.exprs ==
              Present(Matcher(ScopeType.Action, ActionScope(st.action).value).value) +
              Present(Matcher(ScopeType.Resource, ResourceScope(st.resource).value).value)
  {
    var s := Normalize(st).value;
    assert s.principals == Scope.Id(Value.One("*"));
    assert Matcher(ScopeType.Principal, s.principals) == Ok(Iam.None);
    var scopes := Scopes(s);
    assert scopes[1..][0] == scopes[1] && scopes[1..][1..][0] == scopes[2];
    assert scopes[1..][1..][1..] == [];
    assert Matchers(scopes[1..][1..]).Ok?;
    assert Matchers(scopes[1..]).Ok?;
    assert Matchers(scopes).Ok?;
    MatchersInOrder(s);
    EmptyPrefix(Present(Matcher(ScopeType.Action, s.actions).value) + Present(Matcher(ScopeType.Resource, s.resources).value));
  }

  /** The statements from `k` on print exactly when each of them does, one
      after another, and otherwise fail with the first failure. */
  lemma {:induction false} RenderAllAgrees(policy: seq<Expr>, k: nat)
    requires k <= |policy|
    ensures RenderAll(policy, k).Ok? == TryMap(policy[k..], RenderExpr).Ok?
    ensures RenderAll(policy, k).Ok? ==> RenderAll(policy, k).value == Concat(TryMap(policy[k..], RenderExpr).value)
    ensures RenderAll(policy, k).Err? ==> RenderAll(policy, k).error == TryMap(policy[k..], RenderExpr).error
    decreases |policy| - k
  {
    if k < |policy| {
      assert policy[k..][0] == policy[k];
      assert policy[k..][1..] == policy[k + 1..];
      RenderAllAgrees(policy, k + 1);
    }
  }

  /** The module text: the prelude, a newline, and the statements' renderings
      concatenated in order. */
  lemma SerializedText(policy: seq<Expr>)
    ensures Prepend(Base + "\n", RenderAll(policy, 0)).Ok? == TryMap(policy, RenderExpr).Ok?
    ensures TryMap(policy, RenderExpr).Ok? ==>
              Prepend(Base + "\n", RenderAll(policy, 0)) == Ok(Base + "\n" + Concat(TryMap(policy, RenderExpr).value))
  {
    RenderAllAgrees(policy, 0);
    assert policy[0..] == policy;
  }

  /** `line` occurs somewhere in `text`. */
  predicate Declares(text: string, line: string)
  {
    exists i :: 0 <= i <= |text| && line <= text[i..]
  }

  /** A text declares its own last piece. */
  lemma DeclaresLast(a: string, line: string)
    ensures Declares(a + line, line)
  {
    assert (a + line)[|a|..] == line;
  }

  /** Appending text keeps every piece already declared. */
  lemma DeclaresMore(text: string, more: string, line: string)
    requires Declares(text, line)
    ensures Declares(text + more, line)
  {
    var i :| 0 <= i <= |text| && line <= text[i..];
    assert (text + more)[i..] == text[i..] + more;
  }

  /** The prelude makes `allow`, `deny` and `permit` false by default, and
      derives `allow` from `permit` and the absence of `deny`. */
  lemma PreludeDecisions()
    ensures Declares(Base, DefaultAllow) && Declares(Base, DefaultDeny) && Declares(Base, DefaultPermit)
    ensures Declares(Base, AllowRule)
  {
    var t1 := "package main\n" + DefaultAllow;
    var t2 := t1 + DefaultDeny;
    var t3 := t2 + DefaultPermit;
    var t4 := t3 + Helpers;
    assert Base == t4 + AllowRule;
    DeclaresLast("package main\n", DefaultAllow);
    DeclaresMore(t1, DefaultDeny, DefaultAllow);
    DeclaresLast(t1, DefaultDeny);
    DeclaresMore(t2, DefaultPermit, DefaultAllow);
    DeclaresMore(t2, DefaultPermit, DefaultDeny);
    DeclaresLast(t2, DefaultPermit);
    DeclaresMore(t3, Helpers, DefaultAllow);
    DeclaresMore(t3, Helpers, DefaultDeny);
    DeclaresMore(t3, Helpers, DefaultPermit);
    DeclaresMore(t4, AllowRule, DefaultAllow);
    DeclaresMore(t4, AllowRule, DefaultDeny);
    DeclaresMore(t4, AllowRule, DefaultPermit);
    DeclaresLast(t4, AllowRule);
  }

  /** Whatever the statements, a module that prints declares the three false
      defaults and the `allow` rule, so a request no `permit` rule matches is
      not allowed. */
  lemma ModuleDecisions(policy: seq<Expr>)
    requires TryMap(policy, RenderExpr).Ok?
    ensures Prepend(Base + "\n", RenderAll(policy, 0)).Ok?
    ensures var text := Prepend(Base + "\n", RenderAll(policy, 0)).value;
            Declares(text, DefaultAllow) && Declares(text, DefaultDeny) &&
            Declares(text, DefaultPermit) && Declares(text, AllowRule)
  {
    SerializedText(policy);
    PreludeDecisions();
    var rendered := Concat(TryMap(policy, RenderExpr).value);
    var more := "\n" + rendered;
    AppendAssoc(Base, "\n", rendered);
    DeclaresMore(Base, more, DefaultAllow);
    DeclaresMore(Base, more, DefaultDeny);
    DeclaresMore(Base, more, DefaultPermit);
    DeclaresMore(Base, more, AllowRule);
  }
}
