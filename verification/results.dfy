/** The transpiler's error type and the fallible element-wise map that every
    `try_fold` / `?`-loop of the source reduces to. */
module Results {
  import opened Iam

  /** Why a `${...}` policy variable was rejected. */
  datatype SubstitutionError =
    | NestedInterpolation(expr: string)
    | InvalidCharacters(expr: string)
    | TooManySlashes(expr: string)
    | EmptyExpression

  datatype Error =
    | GenericError(message: string)
    | UnsupportedPrincipalType
    | UnsupportedWildcard
    | UnsupportedNegation
    | InvalidType(expected: string, found: ConditionValue)
    | UnsupportedFunction(operator: GlobalOperator)
    | InvalidStringInterpolation(cause: SubstitutionError)
    | FmtError

  datatype Result<T> = Ok(value: T) | Err(error: Error) {
    predicate IsFailure() { Err? }

    function PropagateFailure<U>(): Result<U>
      requires Err?
    {
      Err(error)
    }

    function Extract(): T
      requires Ok?
    {
      value
    }
  }

  /** The outcome of an operation that returns nothing on success (`Result<(), Error>`). */
  datatype Outcome = Pass | Fail(error: Error) {
    predicate IsFailure() { Fail? }

    function PropagateFailure(): Outcome
      requires Fail?
    {
      this
    }
  }

  /** `k` is the first index at which `f` fails: everything before it succeeds. */
  ghost predicate FailsFirstAt<T, U>(xs: seq<T>, f: T -> Result<U>, k: int)
  {
    0 <= k < |xs| && f(xs[k]).Err? && forall i :: 0 <= i < k ==> f(xs[i]).Ok?
  }

  /** Applies `f` to every element, left to right, stopping at the first error. */
  function TryMap<T, U>(xs: seq<T>, f: T -> Result<U>): (r: Result<seq<U>>)
    ensures r.Ok? <==> forall i :: 0 <= i < |xs| ==> f(xs[i]).Ok?
    ensures r.Ok? ==> |r.value| == |xs| && forall i :: 0 <= i < |xs| ==> r.value[i] == f(xs[i]).value
  {
    if xs == [] then Ok([])
    else
      match f(xs[0])
      case Err(e) => Err(e)
      case Ok(y) =>
        match TryMap(xs[1..], f)
        case Err(e) => Err(e)
        case Ok(ys) => Ok([y] + ys)
  }

  /** The values of `rs` from index `k` on, in order, or the first error among them. */
  function Collect<T>(rs: seq<Result<T>>, k: nat): (r: Result<seq<T>>)
    requires k <= |rs|
    ensures r.Ok? ==> |r.value| == |rs| - k
    decreases |rs| - k
  {
    if k == |rs| then Ok([])
    else
      var x :- rs[k];
      var rest :- Collect(rs, k + 1);
      Ok([x] + rest)
  }

  /** Collecting succeeds exactly when every result from `k` on is a value. */
  lemma {:induction false} CollectOk<T>(rs: seq<Result<T>>, k: nat)
    requires k <= |rs|
    ensures Collect(rs, k).Ok? <==> forall j :: k <= j < |rs| ==> rs[j].Ok?
    decreases |rs| - k
  {
    if k < |rs| {
      CollectOk(rs, k + 1);
    }
  }

  /** The collected values keep their positions, shifted by `k`. */
  lemma {:induction false} CollectAt<T>(rs: seq<Result<T>>, k: nat, j: nat)
    requires k <= j < |rs| && Collect(rs, k).Ok?
    ensures rs[j].Ok? && Collect(rs, k).value[j - k] == rs[j].value
    decreases j - k
  {
    if k < j {
      CollectAt(rs, k + 1, j);
      assert Collect(rs, k).value == [rs[k].value] + Collect(rs, k + 1).value;
    }
  }

  /** A failed collection reports the first error from `k` on. */
  lemma {:induction false} CollectFirstError<T>(rs: seq<Result<T>>, k: nat)
    requires k <= |rs| && Collect(rs, k).Err?
    ensures exists j :: k <= j < |rs| && rs[j].Err? && Collect(rs, k).error == rs[j].error &&
                        forall i :: k <= i < j ==> rs[i].Ok?
    decreases |rs| - k
  {
    if rs[k].Err? {
      assert rs[k].Err? && Collect(rs, k).error == rs[k].error;
    } else {
      CollectFirstError(rs, k + 1);
      var j :| k + 1 <= j < |rs| && rs[j].Err? && Collect(rs, k + 1).error == rs[j].error &&
                forall i :: k + 1 <= i < j ==> rs[i].Ok?;
      assert Collect(rs, k).error == rs[j].error;
    }
  }

  /** A failing map reports the error of the first failing element. */
  lemma {:induction false} TryMapFirstError<T, U>(xs: seq<T>, f: T -> Result<U>)
    requires TryMap(xs, f).Err?
    ensures exists k :: FailsFirstAt(xs, f, k) && TryMap(xs, f).error == f(xs[k]).error
  {
    if f(xs[0]).Err? {
      assert FailsFirstAt(xs, f, 0);
    } else {
      TryMapFirstError(xs[1..], f);
      var k :| FailsFirstAt(xs[1..], f, k) && TryMap(xs[1..], f).error == f(xs[1..][k]).error;
      assert FailsFirstAt(xs, f, k + 1);
    }
  }

  /** The map fails with the error of element `k` when every earlier element succeeds. */
  lemma {:induction false} TryMapErrorAt<T, U>(xs: seq<T>, f: T -> Result<U>, k: nat)
    requires FailsFirstAt(xs, f, k)
    ensures TryMap(xs, f) == Err(f(xs[k]).error)
  {
    if k > 0 {
      TryMapErrorAt(xs[1..], f, k - 1);
    }
  }
}
