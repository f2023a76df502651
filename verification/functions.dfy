/** `Func`: constructors for the Rego built-ins the generated code calls. The
    built-ins themselves (`glob.match`, `net.cidr_contains`, ...) are names
    only; what they compute belongs to the Rego engine. */
module Functions {
  import opened Iam
  import opened Strings
  import opened Expression

  /** `glob.match(lhs, null, rhs)`: the pattern first, the subject last. */
  function Glob(lhs: Expr, rhs: Expr): (r: Expr)
    ensures r.Call? && r.name == "glob.match" && |r.args| == 3
    ensures r.args[0] == lhs && r.args[2] == rhs
    ensures Flat(lhs) && Flat(rhs) ==> Flat(r)
  {
    var args := [lhs, Var("null"), rhs];
    assert Flat(args[1]);
    Call("glob.match", args)
  }

  function Lower(e: Expr): (r: Expr)
    ensures r.Call? && r.name == "lower" && r.args == [e]
    ensures Flat(e) ==> Flat(r)
  {
    Call("lower", [e])
  }

  function CidrContains(cidr: Expr, ip: Expr): (r: Expr)
    ensures r.Call? && r.name == "net.cidr_contains" && r.args == [cidr, ip]
    ensures Flat(cidr) && Flat(ip) ==> Flat(r)
  {
    Call("net.cidr_contains", [cidr, ip])
  }

  function Datetime(dt: Expr): (r: Expr)
    ensures r.Call? && r.name == "time.parse_rfc3339_ns" && r.args == [dt]
    ensures Flat(dt) ==> Flat(r)
  {
    Call("time.parse_rfc3339_ns", [dt])
  }

  function ArnLike(lhs: Expr, rhs: Expr): (r: Expr)
    ensures r.Call? && r.name == "arn_like" && r.args == [lhs, rhs]
    ensures Flat(lhs) && Flat(rhs) ==> Flat(r)
  {
    Call("arn_like", [lhs, rhs])
  }

  /** The lookup `to_array` performs on a dotted variable: the field `key` of
      the object `obj`, or `[]` when it is missing. */
  function FieldOrEmpty(obj: string, key: string): (r: Expr)
    ensures Flat(r)
  {
    var args := [Var(obj), Var("\"" + key + "\""), List([])];
    assert Flat(args[0]) && Flat(args[1]) && Flat(args[2]);
    Call("object.get", args)
  }

  /** `Func::to_array`: a variable is wrapped in `to_array`, reading its last
      path component with `object.get` so that a missing field is `[]`; any
      other expression is returned as it is. */
  function ToArray(e: Expr): (r: Expr)
    ensures !e.Var? ==> r == e
    ensures e.Var? ==> r.Call? && r.name == "to_array" && |r.args| == 1
    ensures e.Var? && Lacks(e.path, '.') ==> r.args[0] == e
    ensures Flat(e) ==> Flat(r)
  {
    match e
    case Var(path) =>
      var inner :=
        match FindLastChar(path, '.')
        case Some(dot) => FieldOrEmpty(path[..dot], path[dot + 1..])
        case None => e;
      assert Flat(inner);
      Call("to_array", [inner])
    case _ => e
  }

  /** The last `.` of `object.key`, when `key` has none, is the one before `key`. */
  lemma LastDot(obj: string, key: string)
    requires Lacks(key, '.')
    ensures FindLastChar(obj + "." + key, '.') == Some(|obj|)
  {
    assert "." == ['.'];
    FindLastCharJoin(obj, '.', key);
  }

  /** `a.b.c` becomes `to_array(object.get(a.b, "c", []))`: the path is split
      at its last dot. */
  lemma ToArrayDotted(obj: string, key: string)
    requires Lacks(key, '.')
    ensures ToArray(Var(obj + "." + key)) == Call("to_array", [FieldOrEmpty(obj, key)])
  {
    var path := obj + "." + key;
    LastDot(obj, key);
    assert path[..|obj|] == obj;
    assert path[|obj| + 1..] == key;
  }
}
