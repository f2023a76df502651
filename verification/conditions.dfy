/** The condition translator: one IAM condition operator with its keys and
    policy values becomes one Rego expression per key. */
module Conditions {
  import opened Iam
  import opened Results
  import opened Strings
  import opened Values
  import opened Expression
  import opened Interpolation
  import opened Functions

  /** `Negatable::is_neg`: the operators whose match is a negation. */
  predicate IsNeg(op: ConditionOperator)
  {
    match op.operator
    case StringNotEquals | StringNotEqualsIgnoreCase | NumericNotEquals | StringNotLike | NotIpAddress | DateNotEquals => true
    case _ => false
  }

  /** The operators `build_condition` hands to `compare`; `Bool` has its own
      translation and every other operator is unsupported. */
  predicate Compared(op: GlobalOperator)
  {
    match op
    case StringEquals | StringNotEquals | StringEqualsIgnoreCase | StringNotEqualsIgnoreCase
       | StringLike | StringNotLike
       | NumericEquals | NumericNotEquals | NumericLessThan | NumericLessThanEquals
       | NumericGreaterThan | NumericGreaterThanEquals
       | DateEquals | DateNotEquals | DateGreaterThan | DateGreaterThanEquals
       | DateLessThan | DateLessThanEquals
       | IpAddress | NotIpAddress => true
    case _ => false
  }

  /** The numeric operators read their policy values with `to_int`, the others with `to_str`. */
  predicate IsNumeric(op: GlobalOperator)
  {
    match op
    case NumericEquals | NumericNotEquals | NumericLessThan | NumericLessThanEquals
       | NumericGreaterThan | NumericGreaterThanEquals => true
    case _ => false
  }

  /** The ordering operators: numeric and date `<`, `<=`, `>`, `>=`. */
  predicate IsOrdering(op: GlobalOperator)
  {
    match op
    case NumericLessThan | NumericLessThanEquals | NumericGreaterThan | NumericGreaterThanEquals
       | DateLessThan | DateLessThanEquals | DateGreaterThan | DateGreaterThanEquals => true
    case _ => false
  }

  /** The closure `build_condition` passes to `compare` for `op`: the comparison
      of a policy value `p` with a context value `c`. */
  function Build(op: GlobalOperator, p: Expr, c: Expr): (r: Expr)
    requires Compared(op)
    ensures Flat(p) && Flat(c) ==> Flat(r)
  {
    match op
    case StringEquals => Eq(p, c)
    case StringNotEquals => Ne(p, c)
    case StringEqualsIgnoreCase => Eq(Lower(p), Lower(c))
    case StringNotEqualsIgnoreCase => Ne(Lower(p), Lower(c))
    case StringLike => Glob(p, c)
    case StringNotLike => Neg(Glob(p, c))
    case NumericEquals => Eq(p, c)
    case NumericNotEquals => Ne(p, c)
    case NumericLessThan => Lt(c, p)
    case NumericLessThanEquals => Lte(c, p)
    case NumericGreaterThan => Gt(c, p)
    case NumericGreaterThanEquals => Gte(c, p)
    case DateEquals => Eq(Datetime(p), Datetime(c))
    case DateNotEquals => Ne(Datetime(p), Datetime(c))
    case DateGreaterThan => Gt(Datetime(c), Datetime(p))
    case DateGreaterThanEquals => Gte(Datetime(c), Datetime(p))
    case DateLessThan => Lt(Datetime(c), Datetime(p))
    case DateLessThanEquals => Lte(Datetime(c), Datetime(p))
    case IpAddress => CidrContains(p, c)
    case NotIpAddress => Neg(CidrContains(p, c))
  }

  /** The positive operator a negative one negates. */
  function Positive(op: GlobalOperator): (r: GlobalOperator)
    requires IsNeg(ConditionOperator(None, op))
    ensures Compared(r) && !IsNeg(ConditionOperator(None, r))
  {
    match op
    case StringNotEquals => StringEquals
    case StringNotEqualsIgnoreCase => StringEqualsIgnoreCase
    case NumericNotEquals => NumericEquals
    case StringNotLike => StringLike
    case NotIpAddress => IpAddress
    case DateNotEquals => DateEquals
  }

  /** `a` is the negation of `b`: `!=` for `==`, or `not b`. */
  predicate Negates(a: Expr, b: Expr)
  {
    (a.Ne? && b == Eq(a.lhs, a.rhs)) || a == Neg(b)
  }

  /** Every negative operator builds exactly the negation of its positive partner. */
  lemma NegativeNegatesPositive(op: GlobalOperator, p: Expr, c: Expr)
    requires IsNeg(ConditionOperator(None, op))
    ensures Negates(Build(op, p, c), Build(Positive(op), p, c))
  {
    match op
    case StringNotEquals =>
    case StringNotEqualsIgnoreCase =>
    case NumericNotEquals =>
    case StringNotLike =>
    case NotIpAddress =>
    case DateNotEquals =>
  }

  /** What both sides of a comparison are wrapped in: `lower` for the
      case-insensitive operators, a datetime parse for the date operators. */
  function Wrap(op: GlobalOperator, e: Expr): Expr
  {
    match op
    case StringEqualsIgnoreCase | StringNotEqualsIgnoreCase => Lower(e)
    case DateEquals | DateNotEquals | DateGreaterThan | DateGreaterThanEquals
       | DateLessThan | DateLessThanEquals => Datetime(e)
    case _ => e
  }

  /** The two compared sides of a comparison, under any negation: the operands
      of a binary node, or the first and last arguments of a built-in call. */
  function Operands(e: Expr): (Expr, Expr)
  {
    match e
    case Neg(x) => Operands(x)
    case Call(_, args) => if |args| >= 2 then (args[0], args[|args| - 1]) else (e, e)
    case Eq(l, r) => (l, r)
    case Ne(l, r) => (l, r)
    case Gt(l, r) => (l, r)
    case Gte(l, r) => (l, r)
    case Lt(l, r) => (l, r)
    case Lte(l, r) => (l, r)
    case _ => (e, e)
  }

  /** Ordering operators test the context value against the policy value
      (`input.x < 5` for `NumericLessThan: {x: 5}`); every other operator puts
      the policy value first, as `glob.match` and `net.cidr_contains` expect. */
  lemma OperandOrder(op: GlobalOperator, p: Expr, c: Expr)
    requires Compared(op)
    ensures IsOrdering(op) ==> Operands(Build(op, p, c)) == (Wrap(op, c), Wrap(op, p))
    ensures !IsOrdering(op) ==> Operands(Build(op, p, c)) == (Wrap(op, p), Wrap(op, c))
  {
  }

  /** `to_bool`: a boolean, or the strings `true` and `false`. */
  function ToBool(v: ConditionValue): (r: Result<Expr>)
    ensures r.Ok? <==> v.BoolValue? || v == StringValue("true") || v == StringValue("false")
    ensures r.Ok? ==> r.value == Expr.Bool(if v.BoolValue? then v.b else v.s == "true")
    ensures r.Err? ==> r.error == InvalidType("bool", v)
  {
    match v
    case BoolValue(b) => Ok(Expr.Bool(b))
    case StringValue(s) =>
      if s == "true" then Ok(Expr.Bool(true))
      else if s == "false" then Ok(Expr.Bool(false))
      else Err(InvalidType("bool", v))
    case _ => Err(InvalidType("bool", v))
  }

  /** `to_str`: only strings, with their policy variables substituted. */
  function ToStr(v: ConditionValue): (r: Result<Expr>)
    ensures !v.StringValue? ==> r == Err(InvalidType("string", v))
    ensures v.StringValue? ==> r == StrExpr(v.s)
    ensures r.Ok? ==> Flat(r.value)
  {
    match v
    case StringValue(s) => StrExpr(s)
    case _ => Err(InvalidType("string", v))
  }

  /** `to_int`: an integer, or a string that parses as an `i64`. */
  function ToInt(v: ConditionValue): (r: Result<Expr>)
    ensures r.Ok? <==> v.IntegerValue? || (v.StringValue? && ParseI64(v.s).Some?)
    ensures r.Ok? ==> r.value == Int(if v.IntegerValue? then v.i else ParseI64(v.s).value)
    ensures r.Err? ==> r.error == InvalidType("integer", v)
  {
    match v
    case IntegerValue(i) => Ok(Int(i))
    case StringValue(s) =>
      (match ParseI64(s)
       case Some(i) => Ok(Int(i))
       case None => Err(InvalidType("integer", v)))
    case _ => Err(InvalidType("integer", v))
  }

  /** The decimal text of an integer is read back as that integer. */
  lemma ToIntOfText(i: i64)
    ensures ToInt(StringValue(IntText(i))) == Ok(Int(i))
  {
    ParseIntText(i);
  }

  /** The converter `build_condition` hands to `compare` for `op`: `to_int`
      for the numeric operators, `to_str` for the others. */
  function Converter(op: GlobalOperator): ConditionValue -> Result<Expr>
  {
    if IsNumeric(op) then ToInt else ToStr
  }

  /** Whatever a converter accepts becomes a statement-free expression. */
  lemma ConvertedFlat(op: GlobalOperator, v: Value<ConditionValue>)
    requires Map(v, Converter(op)).Ok?
    ensures FlatAll(Elements(Map(v, Converter(op)).value))
  {
    var out := Elements(Map(v, Converter(op)).value);
    forall i | 0 <= i < |out|
      ensures Flat(out[i])
    {
      var x := Elements(v)[i];
      if IsNumeric(op) {
        assert out[i] == ToInt(x).value;
      } else {
        assert out[i] == ToStr(x).value;
      }
    }
  }

  /** `resolve`: the input path a condition key reads, `input.` + qualifier +
      `.` + key with `/` turned into `.`. */
  function Resolve(key: QString): (r: Expr)
    ensures r.Var? && |r.path| >= |InputPrefix| && r.path[..|InputPrefix|] == InputPrefix
  {
    match key.qualifier
    case Some(q) => Var(InputPrefix + q + "." + SlashesToDots(key.value))
    case None => Var(InputPrefix + SlashesToDots(QStringText(key)))
  }

  /** A condition key reads the same input path as the policy variable that
      names it: `aws:userid` and `${aws:userid}` both read `input.aws.userid`. */
  lemma ResolveAgreesWithVariables(key: QString)
    requires Lacks(key.value, ':')
    requires key.qualifier.Some? ==> Lacks(key.qualifier.value, ':') && Lacks(key.qualifier.value, '/')
    ensures Resolve(key) == Var(VariablePath(QStringText(key)))
  {
    var name := QStringText(key);
    var dotted := DotSeparated(name);
    match key.qualifier
    case None =>
      assert dotted == SlashesToDots(key.value);
    case Some(q) =>
      var expected := q + "." + SlashesToDots(key.value);
      assert |dotted| == |expected|;
      forall i | 0 <= i < |dotted|
        ensures dotted[i] == expected[i]
      {
        if i < |q| {
          assert name[i] == q[i];
        } else if i > |q| {
          assert name[i] == key.value[i - |q| - 1];
        }
      }
      assert dotted == expected;
      assert InputPrefix + q + "." + SlashesToDots(key.value) == InputPrefix + expected;
  }

  /** `Negatable::apply`, for a qualified operator (`ForAnyValue:` or
      `ForAllValues:`); the context value is read as an array. */
  function Apply(op: ConditionOperator, ctx: Expr, pols: seq<Expr>, negative: bool): (r: Expr)
    requires op.quantifier.Some? && Compared(op.operator)
    ensures Flat(ctx) && FlatAll(pols) ==> Flat(r)
  {
    assert FlatAll(pols) ==> Flat(List(pols)) && Flat(AnyIn(List(pols))) && Flat(Item());
    if negative then
      var inner := Every(Var("val"), List(pols), Build(op.operator, Var("val"), Item()));
      assert FlatAll(pols) ==> Flat(inner);
      Every(Item(), ToArray(ctx), inner)
    else if op.quantifier.value.ForAnyValue? then
      Build(op.operator, AnyIn(List(pols)), AnyIn(ToArray(ctx)))
    else
      Every(Item(), ToArray(ctx), Build(op.operator, AnyIn(List(pols)), Item()))
  }

  /** One step of `compare`'s fold: the expression for one key and its values. */
  function CompareEntry(op: ConditionOperator, pair: CondPair): (r: Result<Expr>)
    requires Compared(op.operator)
    ensures r.Ok? <==> Map(pair.1, Converter(op.operator)).Ok?
    ensures r.Err? ==> r.error == Map(pair.1, Converter(op.operator)).error
    ensures r.Ok? ==> Flat(r.value)
  {
    var ctx := Resolve(pair.0);
    var converted :- Map(pair.1, Converter(op.operator));
    ConvertedFlat(op.operator, pair.1);
    assert Flat(ctx);
    match converted
    case One(p) =>
      if op.quantifier.Some? then Ok(Apply(op, ctx, [p], IsNeg(op)))
      else Ok(Build(op.operator, p, ctx))
    case Many(ps) =>
      assert FlatAll(ps);
      assert Flat(AnyIn(List(ps)));
      if op.quantifier.Some? then Ok(Apply(op, ctx, ps, IsNeg(op)))
      else if !IsNeg(op) then Ok(Build(op.operator, AnyIn(List(ps)), ctx))
      else
        var every := EveryItem(ps, e => Ok(Build(op.operator, e, ctx)));
        assert Flat(Item());
        Ok(every.value)
  }

  /** Without a quantifier, one policy value is compared directly; several are
      matched by any of them (`["a", "b"][_] == input.k`), or, for a negative
      operator, by none of them (`every item in ["a", "b"] { item != input.k }`). */
  lemma CompareUnqualified(op: ConditionOperator, key: QString, v: Value<ConditionValue>, pols: Value<Expr>)
    requires Compared(op.operator) && op.quantifier.None?
    requires Map(v, Converter(op.operator)) == Ok(pols)
    ensures pols.One? ==> CompareEntry(op, (key, v)) == Ok(Build(op.operator, pols.one, Resolve(key)))
    ensures pols.Many? && !IsNeg(op) ==>
              CompareEntry(op, (key, v)) == Ok(Build(op.operator, AnyIn(List(pols.list)), Resolve(key)))
    ensures pols.Many? && IsNeg(op) ==>
              CompareEntry(op, (key, v)) == Ok(Every(Item(), List(pols.list), Build(op.operator, Item(), Resolve(key))))
  {
  }

  /** With a quantifier, a single policy value is treated as a one-element list
      (`["production"][_] == to_array(...)[_]`). */
  lemma QualifiedSingleIsList(op: ConditionOperator, key: QString, v: ConditionValue)
    requires Compared(op.operator) && op.quantifier.Some?
    ensures CompareEntry(op, (key, Value.One(v))) == CompareEntry(op, (key, Value.Many([v])))
  {
    var f := Converter(op.operator);
    if f(v).Err? {
      assert FailsFirstAt([v], f, 0);
      TryMapErrorAt([v], f, 0);
    } else {
      var p := f(v).value;
      assert Map(Value.One(v), f) == Ok(Value.One(p));
      assert Elements(Map(Value.Many([v]), f).value) == [p];
      assert Map(Value.Many([v]), f) == Ok(Value.Many([p]));
    }
  }

  /** With a quantifier the context value is read as an array: the policy list
      is matched against any element (`ForAnyValue`), or every element must
      match some policy value (`ForAllValues`), or, for a negative operator,
      no pair of context element and policy value may match. */
  lemma CompareQualified(op: ConditionOperator, key: QString, v: Value<ConditionValue>, pols: Value<Expr>)
    requires Compared(op.operator) && op.quantifier.Some?
    requires Map(v, Converter(op.operator)) == Ok(pols)
    ensures var ctx := ToArray(Resolve(key));
            var list := List(Elements(pols));
            CompareEntry(op, (key, v)) == Ok(
              if IsNeg(op) then Every(Item(), ctx, Every(Var("val"), list, Build(op.operator, Var("val"), Item())))
              else if op.quantifier.value.ForAnyValue? then Build(op.operator, AnyIn(list), AnyIn(ctx))
              else Every(Item(), ctx, Build(op.operator, AnyIn(list), Item())))
  {
  }

  /** An unqualified key without dots or slashes is read as an array through
      `object.get(input, key, [])`. */
  lemma ContextArray(key: QString)
    requires key.qualifier.None? && Lacks(key.value, '.') && Lacks(key.value, '/')
    ensures ToArray(Resolve(key)) == Call("to_array", [FieldOrEmpty("input", key.value)])
  {
    assert SlashesToDots(key.value) == key.value;
    assert InputPrefix + key.value == "input" + "." + key.value;
    ToArrayDotted("input", key.value);
  }

  /** One step of the `Bool` fold. */
  function BoolEntry(pair: CondPair): (r: Result<Expr>)
    ensures r.Ok? <==> Map(pair.1, ToBool).Ok?
    ensures r.Err? ==> r.error == Map(pair.1, ToBool).error
    ensures r.Ok? ==> r.value.Eq? && Resolve(pair.0) in {r.value.lhs, r.value.rhs}
    ensures r.Ok? ==> Flat(r.value)
  {
    var converted :- Map(pair.1, ToBool);
    match converted
    case One(b) => Ok(Eq(Resolve(pair.0), b))
    case Many(bs) =>
      assert FlatAll(bs) by {
        assert forall i :: 0 <= i < |bs| ==> Elements(converted)[i] == ToBool(Elements(pair.1)[i]).value;
      }
      assert Flat(AnyIn(List(bs)));
      Ok(Eq(AnyIn(List(bs)), Resolve(pair.0)))
  }

  /** `build_condition`: one expression per key, in order, or the first error;
      operators outside the handled list are unsupported. */
  function BuildCondition(op: ConditionOperator, pairs: seq<CondPair>): (r: Result<seq<Expr>>)
    ensures !Compared(op.operator) && op.operator != GlobalOperator.Bool ==>
              r == Err(UnsupportedFunction(op.operator))
    ensures Compared(op.operator) ==> r == TryMap(pairs, pair => CompareEntry(op, pair))
    ensures op.operator == GlobalOperator.Bool ==> r == TryMap(pairs, BoolEntry)
    ensures r.Ok? ==> |r.value| == |pairs| && FlatAll(r.value)
  {
    if op.operator == GlobalOperator.Bool then
      TryMap(pairs, BoolEntry)
    else if Compared(op.operator) then
      TryMap(pairs, pair => CompareEntry(op, pair))
    else
      Err(UnsupportedFunction(op.operator))
  }

  /** `Bool` ignores the quantifier: `ForAnyValue:Bool` reads like `Bool`. */
  lemma BoolIgnoresQuantifier(q: Option<Quantifier>, pairs: seq<CondPair>)
    ensures BuildCondition(ConditionOperator(q, GlobalOperator.Bool), pairs)
         == BuildCondition(ConditionOperator(None, GlobalOperator.Bool), pairs)
  {
  }

  /** A condition fails exactly when one of its policy values cannot be
      converted, and then with the error of the first such key. */
  lemma {:induction false} ConditionErrors(op: ConditionOperator, pairs: seq<CondPair>)
    requires Compared(op.operator)
    ensures BuildCondition(op, pairs).Err? <==>
              exists i :: 0 <= i < |pairs| && Map(pairs[i].1, Converter(op.operator)).Err?
  {
    var f := (pair: CondPair) => CompareEntry(op, pair);
    assert BuildCondition(op, pairs) == TryMap(pairs, f);
    if BuildCondition(op, pairs).Err? {
      TryMapFirstError(pairs, f);
    } else {
      forall i | 0 <= i < |pairs|
        ensures Map(pairs[i].1, Converter(op.operator)).Ok?
      {
        assert f(pairs[i]).Ok?;
      }
    }
  }
}
