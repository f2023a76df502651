/** The one-or-many normal form every IAM field is brought into. */
module Values {
  import opened Iam
  import opened Results

  datatype Effect = Allow | Deny

  /** A field after normalisation: a single value or a list of values. */
  datatype Value<T> = One(one: T) | Many(list: seq<T>)

  /** A matched field (`Action`, `Resource`, ...) or its negated form (`NotAction`, ...). */
  datatype Scope<T> = Id(value: Value<T>) | Not(value: Value<T>)

  /** The values a `Value` holds, in order. */
  function Elements<T>(v: Value<T>): (r: seq<T>)
    ensures v.One? ==> r == [v.one]
    ensures v.Many? ==> r == v.list
  {
    match v
    case One(x) => [x]
    case Many(xs) => xs
  }

  /** Dereferencing a scope: the value it wraps, whatever its polarity. */
  function Inner<T>(s: Scope<T>): (r: Value<T>)
    ensures s == Scope.Id(r) || s == Scope.Not(r)
  {
    match s
    case Id(v) => v
    case Not(v) => v
  }

  /** Converting a value into a scope gives the positive scope. */
  function ScopeOf<T>(v: Value<T>): (r: Scope<T>)
    ensures r.Id? && Inner(r) == v
  {
    Id(v)
  }

  /** `Value::map`: applies `f` to every held value, left to right, keeping the
      one-or-many shape; the first error `f` raises is the result. */
  function Map<T, O>(v: Value<T>, f: T -> Result<O>): (r: Result<Value<O>>)
    ensures r.Ok? <==> forall i :: 0 <= i < |Elements(v)| ==> f(Elements(v)[i]).Ok?
    ensures r.Ok? ==> (r.value.One? <==> v.One?)
    ensures r.Ok? ==> |Elements(r.value)| == |Elements(v)|
    ensures r.Ok? ==> forall i :: 0 <= i < |Elements(v)| ==> Elements(r.value)[i] == f(Elements(v)[i]).value
  {
    match v
    case One(x) =>
      (match f(x)
       case Err(e) =>
         assert f(Elements(v)[0]).Err?;
         Err(e)
       case Ok(y) => Ok(Value.One(y)))
    case Many(xs) =>
      assert Elements(v) == xs;
      var ys :- TryMap(xs, f);
      Ok(Value.Many(ys))
  }

  /** A failing `Map` reports the error of the first value `f` rejects. */
  lemma MapFirstError<T, O>(v: Value<T>, f: T -> Result<O>)
    requires Map(v, f).Err?
    ensures exists k :: FailsFirstAt(Elements(v), f, k) && Map(v, f).error == f(Elements(v)[k]).error
  {
    if v.One? {
      assert FailsFirstAt(Elements(v), f, 0);
    } else {
      TryMapFirstError(v.list, f);
    }
  }

  /** Equality of condition literals: same kind and same payload. */
  predicate ConditionValueEq(a: ConditionValue, b: ConditionValue)
    ensures ConditionValueEq(a, b) <==> a == b
  {
    match (a, b)
    case (StringValue(x), StringValue(y)) => x == y
    case (IntegerValue(x), IntegerValue(y)) => x == y
    case (BoolValue(x), BoolValue(y)) => x == y
    case _ => false
  }
}
