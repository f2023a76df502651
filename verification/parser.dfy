/** The policy front end and the module printer: decoded IAM statements are
    normalised into one-or-many scopes and condition blocks, compiled into
    `Statement` expressions, and printed after the fixed Rego prelude. */
module Parser {
  import opened Iam
  import opened Results
  import opened Strings
  import opened Values
  import opened Expression
  import opened Repr
  import Statements

  /** The three decisions of the module, each false unless a rule fires. */
  const DefaultAllow: string := "default allow = false\n"
  const DefaultDeny: string := "default deny = false\n"
  const DefaultPermit: string := "default permit = false\n"

  /** `to_array` wraps a non-array in a one-element array; `arn_like` globs two
      six-field ARNs. */
  const Helpers: string :=
    "to_array(x) := x if { is_array(x) }\n" +
    "to_array(x) := [x] if { not is_array(x) }\n" +
    "arn_like(lhs, rhs) if {\n" +
    "  count(indexof_n(lhs, \":\")) == 5\n" +
    "  count(indexof_n(rhs, \":\")) == 5\n" +
    "  glob.match(lhs, [\":\"], rhs)\n" +
    "}\n"

  /** `allow` holds when some statement permits and none denies. */
  const AllowRule: string := "allow if {\n  permit\n  not deny\n}"

  /** `BASE`: the package line, the three defaults, the helpers and the
      `allow` rule. */
  const Base: string := "package main\n" + DefaultAllow + DefaultDeny + DefaultPermit + Helpers + AllowRule

  /** The statements of the document: `statement.all().unwrap_or_default()`.
      `all()` is taken to give the list for a list of statements and nothing
      for a single statement object. */
  function StatementList(doc: PolicyDocument): (r: seq<IamStatement>)
    ensures doc.statement.All? ==> r == doc.statement.all
    ensures doc.statement.Single? ==> r == []
  {
    match doc.statement
    case All(list) => list
    case Single(_) => []
  }

  /** The decoder's effect, one to one. */
  function EffectOf(e: AwsEffect): (r: Effect)
    ensures r == Allow <==> e == AwsAllow
  {
    match e
    case AwsAllow => Allow
    case AwsDeny => Deny
  }

  /** The principal entry has the `AWS` key the transpiler reads. */
  predicate HasAwsKey(p: Option<Principal>)
  {
    p.Some? && p.value.Principal? ==> AWS in p.value.kinds
  }

  /** Every statement of the document has a principal with the `AWS` key. */
  predicate AwsKeysPresent(doc: PolicyDocument)
  {
    AllHaveAwsKey(StatementList(doc))
  }

  /** A one-or-any field as a scope of the given polarity; `Any` is refused. */
  function FieldScope(negated: bool, field: OneOrAny<string>): (r: Result<Scope<string>>)
    ensures r.Err? <==> field.Any?
    ensures r.Err? ==> r.error == UnsupportedWildcard
    ensures r.Ok? ==> r.value.Not? == negated
    ensures field.One? ==> r.Ok? && Inner(r.value) == Value.One(field.one)
    ensures field.AnyOf? ==> r.Ok? && Inner(r.value) == Value.Many(field.list)
  {
    var v :- match field
      case AnyOf(list) => Ok(Value.Many(list))
      case One(one) => Ok(Value.One(one))
      case Any => Err(UnsupportedWildcard);
    Ok(if negated then Scope.Not(v) else Scope.Id(v))
  }

  /** Qualified names in their `qualifier:value` text form. */
  function QStringTexts(field: OneOrAny<QString>): (r: OneOrAny<string>)
    ensures field.Any? <==> r.Any?
    ensures field.One? ==> r == OneOrAny.One(QStringText(field.one))
    ensures field.AnyOf? ==>
              r.AnyOf? && |r.list| == |field.list| &&
              forall i :: 0 <= i < |field.list| ==> r.list[i] == QStringText(field.list[i])
  {
    match field
    case AnyOf(list) => AnyOf(seq(|list|, i requires 0 <= i < |list| => QStringText(list[i])))
    case One(one) => OneOrAny.One(QStringText(one))
    case Any => Any
  }

  /** The principal scope: a missing principal matches everyone, an `AWS`
      principal list or item is matched, the `AWS` wildcard and `NotPrincipal`
      are refused. */
  function PrincipalScope(p: Option<Principal>): (r: Result<Scope<string>>)
    requires HasAwsKey(p)
    ensures p.None? ==> r == Ok(Scope.Id(Value.One("*")))
    ensures p.Some? && p.value.NotPrincipal? ==> r == Err(UnsupportedNegation)
    ensures p.Some? && p.value.Principal? && p.value.kinds[AWS].Any? ==> r == Err(UnsupportedPrincipalType)
    ensures r.Ok? ==> r.value.Id?
  {
    match p
    case None => Ok(Scope.Id(Value.One("*")))
    case Some(Principal(kinds)) =>
      (match kinds[AWS]
       case AnyOf(list) => Ok(Scope.Id(Value.Many(list)))
       case One(one) => Ok(Scope.Id(Value.One(one)))
       case Any => Err(UnsupportedPrincipalType))
    case Some(NotPrincipal(_)) => Err(UnsupportedNegation)
  }

  /** `Action` is matched and `NotAction` negated. */
  function ActionScope(a: Action): (r: Result<Scope<string>>)
    ensures r.Err? <==> a.actions.Any?
    ensures r.Err? ==> r.error == UnsupportedWildcard
    ensures r.Ok? ==> r.value.Not? == a.NotAction?
    ensures a.actions.One? ==> r.Ok? && Inner(r.value) == Value.One(QStringText(a.actions.one))
    ensures a.actions.AnyOf? ==>
              r.Ok? && Inner(r.value).Many? && |Inner(r.value).list| == |a.actions.list| &&
              forall i :: 0 <= i < |a.actions.list| ==> Inner(r.value).list[i] == QStringText(a.actions.list[i])
  {
    FieldScope(a.NotAction?, QStringTexts(a.actions))
  }

  /** `Resource` is matched and `NotResource` negated. */
  function ResourceScope(res: Resource): (r: Result<Scope<string>>)
    ensures r.Err? <==> res.resources.Any?
    ensures r.Err? ==> r.error == UnsupportedWildcard
    ensures r.Ok? ==> r.value.Not? == res.NotResource?
    ensures res.resources.One? ==> r.Ok? && Inner(r.value) == Value.One(res.resources.one)
    ensures res.resources.AnyOf? ==> r.Ok? && Inner(r.value) == Value.Many(res.resources.list)
  {
    FieldScope(res.NotResource?, res.resources)
  }

  /** A condition's values: a list becomes `Many`, a single value `One`. */
  function ValuesOf(v: OneOrAll<ConditionValue>): (r: Value<ConditionValue>)
    ensures v.Single? ==> r == Value.One(v.single)
    ensures v.All? ==> r == Value.Many(v.all)
  {
    match v
    case Single(one) => Value.One(one)
    case All(list) => Value.Many(list)
  }

  /** The keys of one operator, in order, with their values normalised. */
  function Attributes(vars: seq<(QString, OneOrAll<ConditionValue>)>): (r: seq<CondPair>)
    ensures |r| == |vars|
    ensures forall j :: 0 <= j < |vars| ==> r[j] == (vars[j].0, ValuesOf(vars[j].1))
  {
    if vars == [] then []
    else [(vars[0].0, ValuesOf(vars[0].1))] + Attributes(vars[1..])
  }

  /** The condition blocks, in order, each operator with its normalised keys;
      no `Condition` is no blocks. */
  function ConditionsOf(c: Option<Condition>): (r: Expression.Conditions)
    ensures c.None? ==> r == []
    ensures c.Some? ==>
              |r| == |c.value| &&
              forall i :: 0 <= i < |c.value| ==> r[i] == (c.value[i].0, Attributes(c.value[i].1))
  {
    match c
    case None => []
    case Some(blocks) => Blocks(blocks)
  }

  function Blocks(blocks: Condition): (r: Expression.Conditions)
    ensures |r| == |blocks|
    ensures forall i :: 0 <= i < |blocks| ==> r[i] == (blocks[i].0, Attributes(blocks[i].1))
  {
    if blocks == [] then []
    else [(blocks[0].0, Attributes(blocks[0].1))] + Blocks(blocks[1..])
  }

  /** The inner condition loop of `parse_iam_policy`: one attribute per key. */
  method NormalizeAttributes(vars: seq<(QString, OneOrAll<ConditionValue>)>) returns (attributes: seq<CondPair>)
    ensures attributes == Attributes(vars)
  {
    attributes := [];
    for j := 0 to |vars|
      invariant attributes == Attributes(vars)[..j]
    {
      attributes := attributes + [(vars[j].0, ValuesOf(vars[j].1))];
    }
  }

  /** The outer condition loop of `parse_iam_policy`: one block per operator. */
  method NormalizeConditions(c: Option<Condition>) returns (conditions: Expression.Conditions)
    ensures conditions == ConditionsOf(c)
  {
    conditions := [];
    var blocks := if c.Some? then c.value else [];
    for i := 0 to |blocks|
      invariant |conditions| == i
      invariant forall k :: 0 <= k < i ==> conditions[k] == (blocks[k].0, Attributes(blocks[k].1))
    {
      var attributes := NormalizeAttributes(blocks[i].1);
      conditions := conditions + [(blocks[i].0, attributes)];
    }
  }

  /** One IAM statement normalised: principal, then action, then resource,
      each possibly refused, and the conditions. */
  function Normalize(st: IamStatement): (r: Result<Statements.Statement>)
    requires HasAwsKey(st.principal)
    ensures r.Ok? ==> r.value.effect == EffectOf(st.effect) && r.value.conditions == ConditionsOf(st.condition)
    ensures r.Ok? <==> PrincipalScope(st.principal).Ok? && ActionScope(st.action).Ok? && ResourceScope(st.resource).Ok?
    ensures r.Ok? ==>
              r.value.principals == PrincipalScope(st.principal).value &&
              r.value.actions == ActionScope(st.action).value &&
              r.value.resources == ResourceScope(st.resource).value
    ensures PrincipalScope(st.principal).Err? ==> r == Err(PrincipalScope(st.principal).error)
    ensures PrincipalScope(st.principal).Ok? && st.action.actions.Any? ==> r == Err(UnsupportedWildcard)
    ensures PrincipalScope(st.principal).Ok? && ActionScope(st.action).Ok? && st.resource.resources.Any? ==>
              r == Err(UnsupportedWildcard)
  {
    var principals :- PrincipalScope(st.principal);
    var actions :- ActionScope(st.action);
    var resources :- ResourceScope(st.resource);
    Ok(Statements.Statement(EffectOf(st.effect), principals, actions, resources, ConditionsOf(st.condition)))
  }

  /** One IAM statement normalised and compiled. */
  function Compile(st: IamStatement): (r: Result<Expr>)
    requires HasAwsKey(st.principal)
    ensures r.Ok? ==> r.value.Statement? && r.value.effect == EffectOf(st.effect) &&
                      r.value.conditions == ConditionsOf(st.condition) && FlatAll(r.value.exprs)
  {
    var s :- Normalize(st);
    var exprs :- Statements.Matchers(Statements.Scopes(s));
    Ok(Expr.Statement(s.effect, exprs, s.conditions))
  }

  /** Every statement's principal has the `AWS` key. */
  predicate AllHaveAwsKey(statements: seq<IamStatement>)
  {
    forall i :: 0 <= i < |statements| ==> HasAwsKey(statements[i].principal)
  }

  /** Each statement compiled on its own, in document order. */
  function Compiled(statements: seq<IamStatement>): (r: seq<Result<Expr>>)
    requires AllHaveAwsKey(statements)
    ensures |r| == |statements|
    ensures forall i {:trigger r[i]} :: 0 <= i < |statements| ==> r[i] == Compile(statements[i])
  {
    seq(|statements|, i requires 0 <= i < |statements| => Compile(statements[i]))
  }

  /** The statements from index `k` on, compiled in order, stopping at the
      first that is refused. */
  function CompileAll(statements: seq<IamStatement>, k: nat): Result<seq<Expr>>
    requires k <= |statements| && AllHaveAwsKey(statements)
  {
    Collect(Compiled(statements), k)
  }

  /** `parse_iam_policy` after decoding: every statement in document order. */
  method ParseIamPolicy(doc: PolicyDocument) returns (r: Result<seq<Expr>>)
    requires AwsKeysPresent(doc)
    ensures r == CompileAll(StatementList(doc), 0)
  {
    var statements := StatementList(doc);
    var out: seq<Expr> := [];
    Statements.PrependAllNothing(CompileAll(statements, 0));
    for i := 0 to |statements|
      invariant CompileAll(statements, 0) == Statements.PrependAll(out, CompileAll(statements, i))
    {
      var st := statements[i];
      var principals := PrincipalScope(st.principal);
      if principals.Err? {
        return Err(principals.error);
      }
      var actions := ActionScope(st.action);
      if actions.Err? {
        return Err(actions.error);
      }
      var resources := ResourceScope(st.resource);
      if resources.Err? {
        return Err(resources.error);
      }
      var conditions := NormalizeConditions(st.condition);
      var s := Statements.Statement(EffectOf(st.effect), principals.value, actions.value, resources.value, conditions);
      assert Normalize(st) == Ok(s);
      var e := Statements.Generate(s);
      if e.Err? {
        return Err(e.error);
      }
      Statements.PrependAllTwice(out, [e.value], CompileAll(statements, i + 1));
      out := out + [e.value];
    }
    assert out + [] == out;
    r := Ok(out);
  }

  /** The statements from index `k` on, printed one after another. */
  function RenderAll(policy: seq<Expr>, k: nat): Result<string>
    requires k <= |policy|
    decreases |policy| - k
  {
    if k == |policy| then Ok("")
    else
      var text :- RenderExpr(policy[k]);
      var rest :- RenderAll(policy, k + 1);
      Ok(text + rest)
  }

  /** `Policy::serialize`: the prelude and a newline, then every statement. */
  method Serialize(policy: seq<Expr>) returns (r: Result<string>)
    ensures r == Prepend(Base + "\n", RenderAll(policy, 0))
  {
    var buf := new Buffer();
    buf.PushStr(Base);
    buf.Push('\n');
    ghost var acc := "";
    PrependNothing(RenderAll(policy, 0));
    for i := 0 to |policy|
      invariant buf.text == Base + "\n" + acc
      invariant RenderAll(policy, 0) == Prepend(acc, RenderAll(policy, i))
    {
      var o := ReprExpr(policy[i], buf);
      if o.Fail? {
        assert RenderAll(policy, i) == Err(o.error);
        return Err(o.error);
      }
      ghost var text := RenderExpr(policy[i]).value;
      AppendAssoc(Base + "\n", acc, text);
      PrependPrepend(acc, text, RenderAll(policy, i + 1));
      acc := acc + text;
    }
    assert RenderAll(policy, |policy|) == Ok("");
    assert acc + "" == acc;
    r := Ok(buf.text);
  }
}
