/** The Rego expression tree the transpiler builds (`Expr`, `Str`), its small
    constructors, and the size measures the printer's termination rests on.
    The printer itself (the `Repr` impls) is module `Repr`, because printing a
    statement calls the condition translator, which builds `Expr`s. */
module Expression {
  import opened Iam
  import opened Results
  import opened Values

  /** One condition key with its normalised policy values. */
  type CondPair = (QString, Value<ConditionValue>)

  /** A statement's condition block: operators in order, each with its keys. */
  type Conditions = seq<(ConditionOperator, seq<CondPair>)>

  datatype Expr =
    | Statement(effect: Effect, exprs: seq<Expr>, conditions: Conditions)
    | Call(name: string, args: seq<Expr>)
    | Var(path: string)
    | List(items: seq<Expr>)
    | AnyIn(inner: Expr)
    | Bool(b: bool)
    | Str(s: Str)
    | Int(i: i64)
    | Neg(inner: Expr)
    | Eq(lhs: Expr, rhs: Expr)
    | Ne(lhs: Expr, rhs: Expr)
    | Gt(lhs: Expr, rhs: Expr)
    | Gte(lhs: Expr, rhs: Expr)
    | Lt(lhs: Expr, rhs: Expr)
    | Lte(lhs: Expr, rhs: Expr)
    | Every(binder: Expr, domain: Expr, body: Expr)

  /** A string literal, or a `sprintf` format with `%s` holes and their arguments. */
  datatype Str = Plain(text: string) | Template(format: string, args: seq<Expr>)

  /** `Expr::item()`: the variable `every` binds. */
  function Item(): Expr
  {
    Var("item")
  }

  /** `Expr::every(list, f)`: `every item in [list] { f(item) }`; the body is `f`
      applied to the very variable the quantifier binds. */
  function EveryItem(list: seq<Expr>, f: Expr -> Result<Expr>): (r: Result<Expr>)
    ensures r.Ok? <==> f(Item()).Ok?
    ensures r.Ok? ==> r.value.Every? && r.value.binder == Var("item") && r.value.domain == List(list)
                      && f(r.value.binder) == Ok(r.value.body)
  {
    var body :- f(Item());
    Ok(Every(Item(), List(list), body))
  }

  /** No `Statement` node occurs anywhere in the tree. */
  ghost predicate Flat(e: Expr)
  {
    match e
    case Statement(_, _, _) => false
    case Call(_, args) => FlatAll(args)
    case Var(_) => true
    case List(items) => FlatAll(items)
    case AnyIn(x) => Flat(x)
    case Bool(_) => true
    case Str(s) => FlatStr(s)
    case Int(_) => true
    case Neg(x) => Flat(x)
    case Eq(l, r) => Flat(l) && Flat(r)
    case Ne(l, r) => Flat(l) && Flat(r)
    case Gt(l, r) => Flat(l) && Flat(r)
    case Gte(l, r) => Flat(l) && Flat(r)
    case Lt(l, r) => Flat(l) && Flat(r)
    case Lte(l, r) => Flat(l) && Flat(r)
    case Every(v, d, b) => Flat(v) && Flat(d) && Flat(b)
  }

  ghost predicate FlatAll(es: seq<Expr>)
  {
    forall i :: 0 <= i < |es| ==> Flat(es[i])
  }

  ghost predicate FlatStr(s: Str)
  {
    match s
    case Plain(_) => true
    case Template(_, args) => FlatAll(args)
  }

  /** 0 for a statement-free tree, 1 otherwise: the first component of the printer's measure. */
  ghost function Rank(e: Expr): nat
  {
    if Flat(e) then 0 else 1
  }

  ghost function RankAll(es: seq<Expr>): nat
  {
    if FlatAll(es) then 0 else 1
  }

  ghost function Size(e: Expr): (n: nat)
    ensures n >= 1
  {
    match e
    case Statement(_, exprs, _) => 1 + SizeAll(exprs)
    case Call(_, args) => 1 + SizeAll(args)
    case Var(_) => 1
    case List(items) => 1 + SizeAll(items)
    case AnyIn(x) => 1 + Size(x)
    case Bool(_) => 1
    case Str(s) => 1 + StrSize(s)
    case Int(_) => 1
    case Neg(x) => 1 + Size(x)
    case Eq(l, r) => 1 + Size(l) + Size(r)
    case Ne(l, r) => 1 + Size(l) + Size(r)
    case Gt(l, r) => 1 + Size(l) + Size(r)
    case Gte(l, r) => 1 + Size(l) + Size(r)
    case Lt(l, r) => 1 + Size(l) + Size(r)
    case Lte(l, r) => 1 + Size(l) + Size(r)
    case Every(v, d, b) => 1 + Size(v) + Size(d) + Size(b)
  }

  /** One more than the sum of the element sizes, so that every element is strictly smaller. */
  ghost function SizeAll(es: seq<Expr>): (n: nat)
    ensures n >= 1
  {
    if es == [] then 1 else Size(es[0]) + SizeAll(es[1..])
  }

  ghost function StrSize(s: Str): nat
  {
    match s
    case Plain(_) => 1
    case Template(_, args) => 2 + SizeAll(args)
  }

  lemma {:induction false} SizeAllBounds(es: seq<Expr>, i: nat)
    requires i < |es|
    ensures Size(es[i]) < SizeAll(es)
    ensures SizeAll(es[i..]) <= SizeAll(es)
  {
    if i > 0 {
      SizeAllBounds(es[1..], i - 1);
      assert es[1..][i - 1..] == es[i..];
    }
  }
}
