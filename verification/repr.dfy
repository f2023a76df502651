/** The Rego printer: the `Repr` impls for `Expr`, `Str`, `Var`, `Call` and
    slices, writing into a growing `String`. Each `Repr...` method is proved
    against a `Render...` function: on success it appends exactly the rendered
    text, on failure it reports the rendered error and has only appended. */
module Repr {
  import opened Iam
  import opened Results
  import opened Strings
  import opened Values
  import opened Expression
  import opened Conditions

  /** The `String` every `repr` writes into. */
  class Buffer {
    var text: string

    constructor()
      ensures text == ""
    {
      text := "";
    }

    /** `String::push_str`. */
    method PushStr(s: string)
      modifies this
      ensures text == old(text) + s
    {
      text := text + s;
    }

    /** `String::push`. */
    method Push(c: char)
      modifies this
      ensures text == old(text) + [c]
    {
      text := text + [c];
    }
  }

  /** The first line of a statement's rule. */
  function Header(effect: Effect): string
  {
    if effect == Allow then "permit if {\n" else "deny if {\n"
  }

  /** A string literal: the text between double quotes, as written. */
  function Quoted(text: string): string
  {
    "\"" + text + "\""
  }

  /** `s` in front of a rendering; an error stays as it is. */
  function Prepend(s: string, r: Result<string>): Result<string>
  {
    if r.Ok? then Ok(s + r.value) else r
  }

  lemma PrependNothing(r: Result<string>)
    ensures Prepend("", r) == r
  {
    if r.Ok? {
      EmptyPrefix(r.value);
    }
  }

  lemma PrependPrepend(a: string, b: string, r: Result<string>)
    ensures Prepend(a, Prepend(b, r)) == Prepend(a + b, r)
  {
    if r.Ok? {
      AppendAssoc(a, b, r.value);
    }
  }

  /** The text of an expression, or the error its conditions raise. */
  function RenderExpr(e: Expr): Result<string>
    decreases Rank(e), Size(e), 1, 0
  {
    match e
    case Statement(effect, exprs, conds) => RenderStatement(effect, exprs, conds)
    case Call(name, args) =>
      var joined :- RenderJoined(args, 0);
      Ok(name + "(" + joined + ")")
    case Var(path) => Ok(path)
    case List(items) => RenderList(items)
    case AnyIn(x) =>
      var s :- RenderExpr(x);
      Ok(s + "[_]")
    case Bool(b) => Ok(BoolText(b))
    case Str(s) => RenderStr(s)
    case Int(i) => Ok(IntText(i))
    case Neg(x) =>
      var s :- RenderExpr(x);
      Ok("not " + s)
    case Eq(lhs, rhs) => RenderBinary(lhs, " == ", rhs)
    case Ne(lhs, rhs) => RenderBinary(lhs, " != ", rhs)
    case Gt(lhs, rhs) => RenderBinary(lhs, " > ", rhs)
    case Gte(lhs, rhs) => RenderBinary(lhs, " >= ", rhs)
    case Lt(lhs, rhs) => RenderBinary(lhs, " < ", rhs)
    case Lte(lhs, rhs) => RenderBinary(lhs, " <= ", rhs)
    case Every(v, domain, body) => RenderEvery(v, domain, body)
  }

  /** A universal quantifier: `every v in domain { body }`. */
  function RenderEvery(v: Expr, domain: Expr, body: Expr): Result<string>
    decreases Rank(Every(v, domain, body)), Size(Every(v, domain, body)), 0, 0
  {
    var vs :- RenderExpr(v);
    var rest :- RenderRange(domain, body);
    Ok("every " + vs + rest)
  }

  /** What follows the bound variable of a quantifier: ` in domain { body }`. */
  function RenderRange(domain: Expr, body: Expr): Result<string>
    decreases Rank(Eq(domain, body)), Size(Eq(domain, body)), 0, 0
  {
    var ds :- RenderExpr(domain);
    var bs :- RenderExpr(body);
    Ok(" in " + ds + " { " + bs + " }")
  }

  /** A statement: the rule header, one line per expression, one line per
      translated condition, and the closing brace. */
  function RenderStatement(effect: Effect, exprs: seq<Expr>, conds: Expression.Conditions): Result<string>
    decreases Rank(Statement(effect, exprs, conds)), Size(Statement(effect, exprs, conds)), 0, 0
  {
    var lines :- RenderLines(exprs, 0);
    var blocks :- RenderBlocks(conds, 0);
    Ok(Header(effect) + lines + blocks + "}\n")
  }

  /** A comparison: both operands around the operator symbol. */
  function RenderBinary(lhs: Expr, symbol: string, rhs: Expr): Result<string>
    decreases Rank(Eq(lhs, rhs)), Size(Eq(lhs, rhs)), 0, 0
  {
    var l :- RenderExpr(lhs);
    var r :- RenderExpr(rhs);
    Ok(l + symbol + r)
  }

  /** The expressions from index `k` on, each after a `, ` except the very first. */
  function RenderJoined(es: seq<Expr>, k: nat): Result<string>
    requires k <= |es|
    decreases RankAll(es), SizeAll(es), 2, |es| - k
  {
    if k == |es| then Ok("")
    else
      SizeAllBounds(es, k);
      var item :- RenderExpr(es[k]);
      var rest :- RenderJoined(es, k + 1);
      Ok((if k > 0 then ", " else "") + item + rest)
  }

  /** A slice: `[a, b, c]`. */
  function RenderList(es: seq<Expr>): Result<string>
    decreases RankAll(es), SizeAll(es), 3, 0
  {
    var joined :- RenderJoined(es, 0);
    Ok("[" + joined + "]")
  }

  /** A string literal, or a `sprintf` call for a template. */
  function RenderStr(s: Str): Result<string>
    decreases Rank(Str(s)), StrSize(s), 1, 0
  {
    match s
    case Plain(text) => Ok(Quoted(text))
    case Template(format, args) =>
      assert Flat(Str(s)) == FlatAll(args);
      var vars :- RenderList(args);
      Ok("sprintf(" + Quoted(format) + ", " + vars + ")")
  }

  /** The expressions from index `k` on, one per line, indented by two spaces. */
  function RenderLines(es: seq<Expr>, k: nat): Result<string>
    requires k <= |es|
    decreases RankAll(es), SizeAll(es), 2, |es| - k
  {
    if k == |es| then Ok("")
    else
      SizeAllBounds(es, k);
      var line :- RenderExpr(es[k]);
      var rest :- RenderLines(es, k + 1);
      Ok("  " + line + "\n" + rest)
  }

  /** The condition blocks from index `k` on, each translated by
      `build_condition` and printed one expression per line. */
  function RenderBlocks(conds: Expression.Conditions, k: nat): Result<string>
    requires k <= |conds|
    decreases 1, 0, 4, |conds| - k
  {
    if k == |conds| then Ok("")
    else
      var built :- BuildCondition(conds[k].0, conds[k].1);
      var lines :- RenderLines(built, 0);
      var rest :- RenderBlocks(conds, k + 1);
      Ok(lines + rest)
  }

  /** `o` is what a `repr` into a buffer holding `before`, and now `after`,
      reports for the rendering `r`. */
  ghost predicate Emitted(o: Outcome, r: Result<string>, before: string, after: string)
  {
    (o.Pass? <==> r.Ok?) &&
    (o.Pass? ==> after == before + r.value) &&
    (o.Fail? ==> o.error == r.error && before <= after)
  }

  /** `Expr::repr`. */
  method ReprExpr(e: Expr, buf: Buffer) returns (o: Outcome)
    modifies buf
    ensures Emitted(o, RenderExpr(e), old(buf.text), buf.text)
    decreases Rank(e), Size(e), 1, 0
  {
    match e
    case Statement(effect, exprs, conds) =>
      o := ReprStatement(effect, exprs, conds, buf);
    case Call(name, args) =>
      o := ReprCall(name, args, buf);
    case Var(path) =>
      buf.PushStr(path);
      o := Pass;
    case List(items) =>
      o := ReprList(items, buf);
    case AnyIn(x) =>
      o := ReprAnyIn(x, buf);
    case Bool(b) =>
      buf.PushStr(BoolText(b));
      o := Pass;
    case Str(s) =>
      o := ReprStr(s, buf);
    case Int(i) =>
      buf.PushStr(IntText(i));
      o := Pass;
    case Neg(x) =>
      o := ReprNeg(x, buf);
    case Eq(lhs, rhs) =>
      o := ReprBinary(lhs, " == ", rhs, buf);
    case Ne(lhs, rhs) =>
      o := ReprBinary(lhs, " != ", rhs, buf);
    case Gt(lhs, rhs) =>
      o := ReprBinary(lhs, " > ", rhs, buf);
    case Gte(lhs, rhs) =>
      o := ReprBinary(lhs, " >= ", rhs, buf);
    case Lt(lhs, rhs) =>
      o := ReprBinary(lhs, " < ", rhs, buf);
    case Lte(lhs, rhs) =>
      o := ReprBinary(lhs, " <= ", rhs, buf);
    case Every(v, domain, body) =>
      o := ReprEvery(v, domain, body, buf);
  }

  /** `emit!(buf, e, "[_]")`. */
  method ReprAnyIn(x: Expr, buf: Buffer) returns (o: Outcome)
    modifies buf
    ensures Emitted(o, RenderExpr(AnyIn(x)), old(buf.text), buf.text)
    decreases Rank(AnyIn(x)), Size(AnyIn(x)), 0, 0
  {
    ghost var before := buf.text;
    o := ReprExpr(x, buf);
    if o.Fail? {
      return;
    }
    ghost var s := RenderExpr(x).value;
    buf.PushStr("[_]");
    AppendAssoc(before, s, "[_]");
  }

  /** `emit!(buf, "not ", e)`. */
  method ReprNeg(x: Expr, buf: Buffer) returns (o: Outcome)
    modifies buf
    ensures Emitted(o, RenderExpr(Neg(x)), old(buf.text), buf.text)
    decreases Rank(Neg(x)), Size(Neg(x)), 0, 0
  {
    ghost var before := buf.text;
    buf.PushStr("not ");
    o := ReprExpr(x, buf);
    if o.Fail? {
      PrefixGrows(before, "not ", buf.text);
      return;
    }
    AppendAssoc(before, "not ", RenderExpr(x).value);
  }

  /** `emit!(buf, lhs, symbol, rhs)`. */
  method ReprBinary(lhs: Expr, symbol: string, rhs: Expr, buf: Buffer) returns (o: Outcome)
    modifies buf
    ensures Emitted(o, RenderBinary(lhs, symbol, rhs), old(buf.text), buf.text)
    decreases Rank(Eq(lhs, rhs)), Size(Eq(lhs, rhs)), 0, 0
  {
    ghost var before := buf.text;
    o := ReprExpr(lhs, buf);
    if o.Fail? {
      return;
    }
    ghost var acc := RenderExpr(lhs).value;
    buf.PushStr(symbol);
    AppendAssoc(before, acc, symbol);
    acc := acc + symbol;
    o := ReprExpr(rhs, buf);
    if o.Fail? {
      PrefixGrows(before, acc, buf.text);
      return;
    }
    AppendAssoc(before, acc, RenderExpr(rhs).value);
  }

  /** `emit!(buf, "every ", var, " in ", lhs, " { ", rhs, " }")`: the
      prefix up to the bound variable. */
  method ReprEvery(v: Expr, domain: Expr, body: Expr, buf: Buffer) returns (o: Outcome)
    modifies buf
    ensures Emitted(o, RenderEvery(v, domain, body), old(buf.text), buf.text)
    decreases Rank(Every(v, domain, body)), Size(Every(v, domain, body)), 0, 0
  {
    ghost var before := buf.text;
    buf.PushStr("every ");
    o := ReprExpr(v, buf);
    if o.Fail? {
      PrefixGrows(before, "every ", buf.text);
      return;
    }
    ghost var acc := "every " + RenderExpr(v).value;
    AppendAssoc(before, "every ", RenderExpr(v).value);
    o := ReprRange(domain, body, buf);
    if o.Fail? {
      PrefixGrows(before, acc, buf.text);
      return;
    }
    AppendAssoc(before, acc, RenderRange(domain, body).value);
  }

  /** The rest of the quantifier: ` in `, the domain, ` { `, the body, ` }`. */
  method ReprRange(domain: Expr, body: Expr, buf: Buffer) returns (o: Outcome)
    modifies buf
    ensures Emitted(o, RenderRange(domain, body), old(buf.text), buf.text)
    decreases Rank(Eq(domain, body)), Size(Eq(domain, body)), 0, 0
  {
    ghost var before := buf.text;
    buf.PushStr(" in ");
    o := ReprExpr(domain, buf);
    if o.Fail? {
      PrefixGrows(before, " in ", buf.text);
      return;
    }
    ghost var acc := " in " + RenderExpr(domain).value;
    AppendAssoc(before, " in ", RenderExpr(domain).value);
    buf.PushStr(" { ");
    AppendAssoc(before, acc, " { ");
    acc := acc + " { ";
    o := ReprExpr(body, buf);
    if o.Fail? {
      PrefixGrows(before, acc, buf.text);
      return;
    }
    AppendAssoc(before, acc, RenderExpr(body).value);
    acc := acc + RenderExpr(body).value;
    buf.PushStr(" }");
    AppendAssoc(before, acc, " }");
  }

  /** The loop shared by `Call::repr` and the slice `repr`: the items separated by `, `. */
  method ReprItems(es: seq<Expr>, buf: Buffer) returns (o: Outcome)
    modifies buf
    ensures Emitted(o, RenderJoined(es, 0), old(buf.text), buf.text)
    decreases RankAll(es), SizeAll(es), 3, 0
  {
    ghost var before := buf.text;
    ghost var acc := "";
    PrependNothing(RenderJoined(es, 0));
    for i := 0 to |es|
      invariant buf.text == before + acc
      invariant RenderJoined(es, 0) == Prepend(acc, RenderJoined(es, i))
    {
      ghost var sep := if i > 0 then ", " else "";
      if i > 0 {
        buf.PushStr(", ");
      }
      AppendAssoc(before, acc, sep);
      SizeAllBounds(es, i);
      var item := ReprExpr(es[i], buf);
      if item.Fail? {
        PrefixGrows(before, acc + sep, buf.text);
        return item;
      }
      ghost var s := RenderExpr(es[i]).value;
      AppendAssoc(before, acc + sep, s);
      ghost var rest := RenderJoined(es, i + 1);
      if rest.Ok? {
        AppendAssoc(acc, sep + s, rest.value);
        AppendAssoc(acc, sep, s);
      }
      acc := acc + sep + s;
    }
    o := Pass;
  }

  /** `Call::repr`: `name(arg, ...)`. */
  method ReprCall(name: string, args: seq<Expr>, buf: Buffer) returns (o: Outcome)
    modifies buf
    ensures Emitted(o, RenderExpr(Call(name, args)), old(buf.text), buf.text)
    decreases RankAll(args), SizeAll(args), 4, 0
  {
    ghost var before := buf.text;
    buf.PushStr(name);
    buf.Push('(');
    ghost var acc := name + "(";
    o := ReprItems(args, buf);
    if o.Fail? {
      PrefixGrows(before, acc, buf.text);
      return;
    }
    AppendAssoc(before, acc, RenderJoined(args, 0).value);
    acc := acc + RenderJoined(args, 0).value;
    buf.Push(')');
    AppendAssoc(before, acc, ")");
  }

  /** The slice `repr`: `[item, ...]`. */
  method ReprList(es: seq<Expr>, buf: Buffer) returns (o: Outcome)
    modifies buf
    ensures Emitted(o, RenderList(es), old(buf.text), buf.text)
    decreases RankAll(es), SizeAll(es), 4, 0
  {
    ghost var before := buf.text;
    buf.Push('[');
    o := ReprItems(es, buf);
    if o.Fail? {
      PrefixGrows(before, "[", buf.text);
      return;
    }
    ghost var joined := RenderJoined(es, 0).value;
    AppendAssoc(before, "[", joined);
    buf.Push(']');
    AppendAssoc(before, "[" + joined, "]");
  }

  /** `Str::repr`: a quoted literal, or `sprintf("format", [args])`. The
      format is emitted as the plain literal it is, which cannot fail. */
  method ReprStr(s: Str, buf: Buffer) returns (o: Outcome)
    modifies buf
    ensures Emitted(o, RenderStr(s), old(buf.text), buf.text)
    decreases Rank(Str(s)), StrSize(s), 1, 0
  {
    match s
    case Plain(text) =>
      buf.PushStr(Quoted(text));
      o := Pass;
    case Template(format, args) =>
      assert Flat(Str(s)) == FlatAll(args);
      ghost var before := buf.text;
      buf.PushStr("sprintf(");
      buf.PushStr(Quoted(format));
      AppendAssoc(before, "sprintf(", Quoted(format));
      ghost var acc := "sprintf(" + Quoted(format);
      buf.PushStr(", ");
      AppendAssoc(before, acc, ", ");
      acc := acc + ", ";
      o := ReprList(args, buf);
      if o.Fail? {
        PrefixGrows(before, acc, buf.text);
        return;
      }
      AppendAssoc(before, acc, RenderList(args).value);
      acc := acc + RenderList(args).value;
      buf.PushStr(")");
      AppendAssoc(before, acc, ")");
  }

  /** The `Statement` arm of `Expr::repr`. */
  method ReprStatement(effect: Effect, exprs: seq<Expr>, conds: Expression.Conditions, buf: Buffer) returns (o: Outcome)
    modifies buf
    ensures Emitted(o, RenderStatement(effect, exprs, conds), old(buf.text), buf.text)
    decreases Rank(Statement(effect, exprs, conds)), Size(Statement(effect, exprs, conds)), 0, 0
  {
    ghost var before := buf.text;
    buf.PushStr(Header(effect));
    ghost var acc := Header(effect);
    o := ReprLines(exprs, buf);
    if o.Fail? {
      PrefixGrows(before, acc, buf.text);
      return;
    }
    AppendAssoc(before, acc, RenderLines(exprs, 0).value);
    acc := acc + RenderLines(exprs, 0).value;
    o := ReprBlocks(conds, buf);
    if o.Fail? {
      PrefixGrows(before, acc, buf.text);
      return;
    }
    AppendAssoc(before, acc, RenderBlocks(conds, 0).value);
    acc := acc + RenderBlocks(conds, 0).value;
    buf.PushStr("}\n");
    AppendAssoc(before, acc, "}\n");
  }

  /** `for expr in exprs { emit!(buf, "  ", expr, '\n') }`. */
  method ReprLines(es: seq<Expr>, buf: Buffer) returns (o: Outcome)
    modifies buf
    ensures Emitted(o, RenderLines(es, 0), old(buf.text), buf.text)
    decreases RankAll(es), SizeAll(es), 3, 0
  {
    ghost var before := buf.text;
    ghost var acc := "";
    PrependNothing(RenderLines(es, 0));
    for i := 0 to |es|
      invariant buf.text == before + acc
      invariant RenderLines(es, 0) == Prepend(acc, RenderLines(es, i))
    {
      buf.PushStr("  ");
      AppendAssoc(before, acc, "  ");
      SizeAllBounds(es, i);
      var line := ReprExpr(es[i], buf);
      if line.Fail? {
        PrefixGrows(before, acc + "  ", buf.text);
        return line;
      }
      ghost var s := RenderExpr(es[i]).value;
      AppendAssoc(before, acc + "  ", s);
      buf.Push('\n');
      AppendAssoc(before, acc + "  " + s, "\n");
      ghost var rest := RenderLines(es, i + 1);
      if rest.Ok? {
        AppendAssoc(acc, "  " + s + "\n", rest.value);
        AppendAssoc(acc, "  " + s, "\n");
        AppendAssoc(acc, "  ", s);
      }
      acc := acc + "  " + s + "\n";
    }
    o := Pass;
  }

  /** The condition loop of the `Statement` arm: each block is translated by
      `build_condition` and its expressions printed one per line. */
  method ReprBlocks(conds: Expression.Conditions, buf: Buffer) returns (o: Outcome)
    modifies buf
    ensures Emitted(o, RenderBlocks(conds, 0), old(buf.text), buf.text)
    decreases 1, 0, 5, 0
  {
    ghost var before := buf.text;
    ghost var acc := "";
    PrependNothing(RenderBlocks(conds, 0));
    for k := 0 to |conds|
      invariant buf.text == before + acc
      invariant RenderBlocks(conds, 0) == Prepend(acc, RenderBlocks(conds, k))
    {
      var built := BuildCondition(conds[k].0, conds[k].1);
      if built.Err? {
        return Fail(built.error);
      }
      FlatLinesRender(built.value, 0);
      // A translated condition holds no statement, so its lines always render.
      var _ := ReprLines(built.value, buf);
      ghost var lines := RenderLines(built.value, 0).value;
      AppendAssoc(before, acc, lines);
      PrependPrepend(acc, lines, RenderBlocks(conds, k + 1));
      acc := acc + lines;
    }
    o := Pass;
  }

  /** A statement-free expression always renders: only `build_condition` can
      make the printer fail. */
  lemma {:induction false} FlatExprRenders(e: Expr)
    requires Flat(e)
    ensures RenderExpr(e).Ok?
    decreases Rank(e), Size(e), 1, 0
  {
    match e
    case Call(_, args) => FlatJoinedRenders(args, 0);
    case List(items) => FlatJoinedRenders(items, 0);
    case AnyIn(x) => FlatExprRenders(x);
    case Str(s) =>
      if s.Template? {
        assert FlatAll(s.args) && Size(e) > SizeAll(s.args);
        FlatJoinedRenders(s.args, 0);
        assert RenderList(s.args).Ok?;
      }
    case Neg(x) => FlatExprRenders(x);
    case Eq(l, r) => FlatExprRenders(l); FlatExprRenders(r);
    case Ne(l, r) => FlatExprRenders(l); FlatExprRenders(r);
    case Gt(l, r) => FlatExprRenders(l); FlatExprRenders(r);
    case Gte(l, r) => FlatExprRenders(l); FlatExprRenders(r);
    case Lt(l, r) => FlatExprRenders(l); FlatExprRenders(r);
    case Lte(l, r) => FlatExprRenders(l); FlatExprRenders(r);
    case Every(v, d, b) =>
      FlatExprRenders(v); FlatExprRenders(d); FlatExprRenders(b);
      assert RenderRange(d, b).Ok?;
    case _ =>
  }

  lemma {:induction false} FlatJoinedRenders(es: seq<Expr>, k: nat)
    requires FlatAll(es) && k <= |es|
    ensures RenderJoined(es, k).Ok?
    decreases RankAll(es), SizeAll(es), 2, |es| - k
  {
    if k < |es| {
      SizeAllBounds(es, k);
      FlatExprRenders(es[k]);
      FlatJoinedRenders(es, k + 1);
    }
  }

  /** The lines of statement-free expressions always render. */
  lemma {:induction false} FlatLinesRender(es: seq<Expr>, k: nat)
    requires FlatAll(es) && k <= |es|
    ensures RenderLines(es, k).Ok?
    decreases |es| - k
  {
    if k < |es| {
      FlatExprRenders(es[k]);
      FlatLinesRender(es, k + 1);
    }
  }
}
