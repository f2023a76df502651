/** Policy-variable interpolation (`substitute_variables`): `${ns:key}`
    references in a pattern become `%s` holes of a `sprintf` template whose
    arguments read the request input at run time; `${*}`, `${?}` and `${$}`
    stand for the literal characters; `${path, 'default'}` reads with a
    fallback value. Malformed references are rejected. */
module Interpolation {
  import opened Iam
  import opened Results
  import opened Strings
  import opened Expression
  import Extensions

  const InputPrefix: string := "input."

  /** The characters a reference may escape. */
  predicate IsEscape(c: char)
  {
    c == '*' || c == '?' || c == '$'
  }

  /** `handle_special_variable`: `*`, `?` or `$`, surrounded by optional whitespace,
      stands for that character; the three one-character texts are compared as
      one-character strings. */
  function Special(expr: string): Option<char>
  {
    var t := Trim(expr);
    if |t| == 1 && IsEscape(t[0]) then Some(t[0]) else None
  }

  /** A reference is special exactly when its trimmed text is one escape
      character, and then it stands for that character. */
  lemma SpecialIsEscape(expr: string)
    ensures Special(expr).Some? <==> |Trim(expr)| == 1 && IsEscape(Trim(expr)[0])
    ensures Special(expr).Some? ==> Trim(expr) == [Special(expr).value]
  {
  }

  /** `extract_quoted_string`: the text between matching single or double quotes. */
  function ExtractQuoted(s: string): Option<string>
  {
    var t := Trim(s);
    if |t| >= 2 && t[0] == '\'' && t[|t| - 1] == '\'' then Some(t[1..|t| - 1])
    else if |t| >= 2 && t[0] == '"' && t[|t| - 1] == '"' then Some(t[1..|t| - 1])
    else None
  }

  /** `parse_variable_with_default`: splits `path, 'default'` at the first comma;
      without a quoted default the whole expression is the path. */
  function ParseVariableWithDefault(expr: string): (string, Option<string>)
  {
    match FindChar(expr, ',')
    case None => (expr, None)
    case Some(comma) =>
      var varPart := Trim(expr[..comma]);
      var defaultPart := Trim(expr[comma + 1..]);
      match ExtractQuoted(defaultPart)
      case Some(d) => (varPart, Some(d))
      case None => (expr, None)
  }

  /** Quoted text is the trimmed text without its first and last character,
      which are the same quote. */
  lemma ExtractQuotedSpec(s: string)
    ensures var t := Trim(s);
            ExtractQuoted(s).Some? <==> |t| >= 2 && t[0] == t[|t| - 1] && (t[0] == '\'' || t[0] == '"')
    ensures ExtractQuoted(s).Some? ==> |Trim(s)| >= 2 && ExtractQuoted(s).value == Trim(s)[1..|Trim(s)| - 1]
  {
  }

  /** The characters a variable name may use. */
  predicate IsNameChar(c: char)
  {
    IsAlphanumeric(c) || c == '_' || c == '-' || c == ':' || c == '.' || c == '/'
  }

  /** A well-formed variable name: non-empty, at most one `/`, only name characters. */
  predicate ValidName(name: string)
  {
    name != [] && Count(name, '/') <= 1 && forall i :: 0 <= i < |name| ==> IsNameChar(name[i])
  }

  /** Without a comma there is no default: the whole text is the path. */
  lemma NoCommaNoDefault(expr: string)
    requires Lacks(expr, ',')
    ensures ParseVariableWithDefault(expr) == (expr, None)
  {
    FindCharNone(expr, ',');
  }

  /** A default is the quoted text after the first comma. */
  lemma DefaultAfterComma(expr: string)
    ensures var parsed := ParseVariableWithDefault(expr);
            parsed.1.Some? ==> FindChar(expr, ',').Some? &&
                               ExtractQuoted(Trim(expr[FindChar(expr, ',').value + 1..])) == parsed.1
  {
  }

  /** Quoted text cut from `expr` holds only characters of `expr`. */
  lemma QuotedAvoids(expr: string, from: nat, d: string, c: char)
    requires from <= |expr| && Lacks(expr, c)
    requires ExtractQuoted(Trim(expr[from..])) == Some(d)
    ensures Lacks(d, c)
  {
    var rest := Trim(expr[from..]);
    var quoted := Trim(rest);
    assert Lacks(quoted, c) by {
      SliceAvoids(expr, from, |expr|, c);
      TrimAvoids(expr[from..], c);
      TrimAvoids(rest, c);
    }
    SliceAvoids(quoted, 1, |quoted| - 1, c);
  }

  /** The default holds only characters of the reference text. */
  lemma ParseVariableAvoids(expr: string, c: char)
    requires Lacks(expr, c)
    ensures ParseVariableWithDefault(expr).1.Some? ==> Lacks(ParseVariableWithDefault(expr).1.value, c)
  {
    DefaultAfterComma(expr);
    var parsed := ParseVariableWithDefault(expr);
    if parsed.1.Some? {
      QuotedAvoids(expr, FindChar(expr, ',').value + 1, parsed.1.value, c);
    }
  }

  datatype Validity = Valid | Invalid(error: SubstitutionError)

  /** `validate_variable_expr`: the checks run in the source's order, so an empty
      name, a nested `${` and a `}` are reported before slashes and characters. */
  function Validate(expr: string): (r: Validity)
    ensures r.Invalid? && expr != [] ==> !r.error.EmptyExpression? && r.error.expr == expr
    ensures r == Invalid(EmptyExpression) <==> expr == []
  {
    if expr == [] then Invalid(EmptyExpression)
    else if HasOpen(expr) then Invalid(NestedInterpolation(expr))
    else if !Lacks(expr, '}') then Invalid(InvalidCharacters(expr))
    else if Count(expr, '/') > 1 then Invalid(TooManySlashes(expr))
    else if exists i :: 0 <= i < |expr| && !IsNameChar(expr[i]) then Invalid(InvalidCharacters(expr))
    else Valid
  }

  /** Which error `Validate` reports, check by check in the source's order: an
      empty name is `EmptyExpression`; then a nested `${` is
      `NestedInterpolation`, a `}` is `InvalidCharacters`, more than one `/` is
      `TooManySlashes`, and any other character outside a name is
      `InvalidCharacters`. */
  lemma ValidateErrors(expr: string)
    ensures expr == [] ==> Validate(expr) == Invalid(EmptyExpression)
    ensures expr != [] && HasOpen(expr) ==> Validate(expr) == Invalid(NestedInterpolation(expr))
    ensures expr != [] && !HasOpen(expr) && !Lacks(expr, '}') ==> Validate(expr) == Invalid(InvalidCharacters(expr))
    ensures expr != [] && !HasOpen(expr) && Lacks(expr, '}') && Count(expr, '/') > 1 ==> Validate(expr) == Invalid(TooManySlashes(expr))
    ensures expr != [] && !HasOpen(expr) && Lacks(expr, '}') && Count(expr, '/') <= 1 && !ValidName(expr) ==> Validate(expr) == Invalid(InvalidCharacters(expr))
  {
  }

  /** `Validate` accepts exactly the well-formed names. */
  lemma ValidateAccepts(expr: string)
    ensures Validate(expr).Valid? <==> ValidName(expr)
  {
    FindOpenSpec(expr);
  }

  /** The input path a variable name reads: `input.` followed by the name with
      every `:` and `/` turned into `.`. */
  function VariablePath(name: string): (r: string)
    ensures |r| == |InputPrefix| + |name| && r[..|InputPrefix|] == InputPrefix
    ensures r[|InputPrefix|..] == DotSeparated(name)
  {
    InputPrefix + DotSeparated(name)
  }

  /** The result once scanning stops: a template when a variable was collected. */
  function Assemble(result: string, vars: seq<Expr>): (r: Result<Str>)
    ensures r.Ok? && (r.value.Template? <==> vars != [])
  {
    if vars != [] then Ok(Template(result, vars)) else Ok(Plain(result))
  }

  /** `substitute_variables`. */
  function Substitute(t: string): (r: Result<Str>)
    ensures r.Ok? ==> FlatStr(r.value)
    ensures r.Ok? && r.value.Template? ==> r.value.args != []
    ensures r.Err? ==> r.error.InvalidStringInterpolation?
    ensures !HasOpen(t) ==> r == Ok(Plain(t))
  {
    if !HasOpen(t) then Ok(Plain(t))
    else
      HoleOfResolves();
      ScanShape(t, 0, "", [], HoleOf);
      Scan(t, 0, "", [], HoleOf)
  }

  /** `Expr::str`: a string expression with its variables substituted. */
  function StrExpr(s: string): (r: Result<Expr>)
    ensures r.Ok? ==> r.value.Str? && Flat(r.value)
    ensures r.Err? ==> r.error.InvalidStringInterpolation?
  {
    var str :- Substitute(s);
    Ok(Str(str))
  }

  /** The loop of `substitute_variables` from position `pos`, with the text and
      variables collected so far: find the next `${`, or copy the rest. The
      text of each reference is resolved by `resolve`, which is `HoleOf` for
      the transpiler; keeping it a parameter lets the laws of the scan be
      stated for any resolution. */
  function Scan(t: string, pos: nat, result: string, vars: seq<Expr>, resolve: string -> Result<Hole>): Result<Str>
    requires pos <= |t|
    decreases |t| - pos, 2
  {
    if pos == |t| then Assemble(result, vars)
    else
      match FindOpen(t[pos..])
      case None => Assemble(result + t[pos..], vars)
      case Some(offset) => ScanOpen(t, pos, pos + offset, result, vars, resolve)
  }

  /** A `${` at `start`: find the `}` that closes it, or copy the rest. */
  function ScanOpen(t: string, pos: nat, start: nat, result: string, vars: seq<Expr>, resolve: string -> Result<Hole>): Result<Str>
    requires pos <= start && start + 2 <= |t|
    decreases |t| - pos, 1
  {
    match FindChar(t[start + 2..], '}')
    case None => Assemble(result + t[pos..], vars)
    case Some(relative) => ScanReference(t, pos, start, start + 2 + relative, result, vars, resolve)
  }

  /** The reference `${...}` spanning `start` to the `}` at `end`: scanning
      resumes past the `}` with the replacement appended, or stops at an error. */
  function ScanReference(t: string, pos: nat, start: nat, end: nat, result: string, vars: seq<Expr>,
                         resolve: string -> Result<Hole>): Result<Str>
    requires pos <= start && start + 2 <= end < |t|
    decreases |t| - pos, 0
  {
    match resolve(t[start + 2..end])
    case Err(e) => Err(e)
    case Ok(Literal(c)) => Scan(t, end + 1, result + t[pos..start] + [c], vars, resolve)
    case Ok(Variable(v)) => Scan(t, end + 1, result + t[pos..start] + "%s", vars + [v], resolve)
  }

  /** A resolution that only yields flat variables and interpolation errors. */
  ghost predicate Resolves(resolve: string -> Result<Hole>)
  {
    forall x :: (resolve(x).Ok? && resolve(x).value.Variable? ==> Flat(resolve(x).value.e)) &&
                (resolve(x).Err? ==> resolve(x).error.InvalidStringInterpolation?)
  }

  lemma HoleOfResolves()
    ensures Resolves(HoleOf)
  {
    forall x
      ensures (HoleOf(x).Ok? && HoleOf(x).value.Variable? ==> Flat(HoleOf(x).value.e)) &&
              (HoleOf(x).Err? ==> HoleOf(x).error.InvalidStringInterpolation?)
    {
    }
  }

  /** Whatever the scan returns is flat, a template holds at least one
      variable, and an error is an interpolation error. */
  lemma {:induction false} ScanShape(t: string, pos: nat, result: string, vars: seq<Expr>, resolve: string -> Result<Hole>)
    requires pos <= |t| && FlatAll(vars) && Resolves(resolve)
    ensures var r := Scan(t, pos, result, vars, resolve);
            (r.Ok? ==> FlatStr(r.value)) &&
            (r.Ok? && r.value.Template? ==> r.value.args != []) &&
            (r.Err? ==> r.error.InvalidStringInterpolation?)
    decreases |t| - pos, 1
  {
    if pos < |t| {
      match FindOpen(t[pos..])
      case None =>
      case Some(offset) =>
        var start := pos + offset;
        ScanFindsOpen(t, pos, offset, start, result, vars, resolve);
        match FindChar(t[start + 2..], '}')
        case None =>
        case Some(relative) =>
          var end := start + 2 + relative;
          var next := end + 1;
          ScanFindsClose(t, pos, start, relative, end, result, vars, resolve);
          ShapeStep(t, pos, start, end, next, result, vars, resolve);
    }
  }

  /** One reference of `ScanShape`: the scan resumes with flat variables. */
  lemma {:induction false} ShapeStep(t: string, pos: nat, start: nat, end: nat, next: nat, result: string,
                                     vars: seq<Expr>, resolve: string -> Result<Hole>)
    requires pos <= start && start + 2 <= end < |t| && next == end + 1 && FlatAll(vars) && Resolves(resolve)
    ensures var r := ScanReference(t, pos, start, end, result, vars, resolve);
            (r.Ok? ==> FlatStr(r.value)) &&
            (r.Ok? && r.value.Template? ==> r.value.args != []) &&
            (r.Err? ==> r.error.InvalidStringInterpolation?)
    decreases |t| - pos, 0
  {
    var hole := resolve(t[start + 2..end]);
    if hole.Ok? {
      var text := result + t[pos..start];
      match hole.value
      case Literal(c) =>
        ScanAdvance(t, pos, start, end, next, result, vars, text + [c], vars, resolve);
        ScanShape(t, next, text + [c], vars, resolve);
      case Variable(v) =>
        FlatPush(vars, v);
        ScanAdvance(t, pos, start, end, next, result, vars, text + "%s", vars + [v], resolve);
        ScanShape(t, next, text + "%s", vars + [v], resolve);
    }
  }

  /** What a reference contributes: a literal character for `${*}`, `${?}` and
      `${$}`, or a `%s` hole filled by a variable's expression. */
  datatype Hole = Literal(c: char) | Variable(e: Expr)

  /** The replacement of the reference whose text between `${` and `}` is `varExpr`. */
  function HoleOf(varExpr: string): (r: Result<Hole>)
    ensures r.Ok? && r.value.Literal? ==> IsEscape(r.value.c)
    ensures r.Ok? && r.value.Variable? ==> Flat(r.value.e)
    ensures r.Err? ==> r.error.InvalidStringInterpolation?
  {
    match Special(varExpr)
    case Some(c) => Ok(Literal(c))
    case None =>
      var v :- Reference(varExpr);
      Ok(Variable(v))
  }

  /** The expression one (non-special) `${...}` reference reads: the validated
      name as an input path, or an `object.get` when a default is given. */
  function Reference(varExpr: string): (r: Result<Expr>)
    ensures r.Ok? ==> Flat(r.value)
    ensures r.Err? ==> r.error.InvalidStringInterpolation?
  {
    var parsed := ParseVariableWithDefault(varExpr);
    var varPart := parsed.0;
    var default := parsed.1;
    match Validate(varPart)
    case Invalid(e) => Err(InvalidStringInterpolation(e))
    case Valid =>
      match default
      case None => Ok(Var(VariablePath(varPart)))
      case Some(d) => Ok(Defaulted(varPart, d))
  }

  /** `Expr::str` of text that holds no `}`: a `${` in it is never closed, so the
      text comes back unchanged as a plain string (`UnclosedStrExpr`). Inside a
      reference every path segment and the default are such texts. */
  function UnclosedStrs(segments: seq<string>): (r: seq<Expr>)
    ensures |r| == |segments|
    ensures forall i :: 0 <= i < |segments| ==> r[i] == Str(Plain(segments[i]))
  {
    seq(|segments|, i requires 0 <= i < |segments| => Str(Plain(segments[i])))
  }

  /** A variable with a default value: `object.get(input, [segments...], default)`,
      reading the dotted path below `input` and falling back to the default text. */
  function Defaulted(varPart: string, d: string): (r: Expr)
    ensures Flat(r)
  {
    SplitVariablePath(varPart);
    var parts := Split(VariablePath(varPart), '.');
    var args := [Var(parts[0]), List(UnclosedStrs(parts[1..])), Str(Plain(d))];
    assert FlatAll(args) by {
      assert Flat(args[0]) && Flat(args[2]);
      assert Flat(args[1]) by {
        assert FlatAll(UnclosedStrs(parts[1..]));
      }
    }
    Call("object.get", args)
  }

  /** `object.get` as the source builds it: every path segment and the default
      run through `Expr::str`, the first error returned. */
  function DefaultedAsWritten(varPart: string, d: string): (r: Result<Expr>)
    ensures r.Ok? ==> r.value.Call? && r.value.name == "object.get" && |r.value.args| == 3
  {
    var parts := Split(VariablePath(varPart), '.');
    var path :- TryMap(parts[1..], StrExpr);
    var fallback :- StrExpr(d);
    Ok(Call("object.get", [Var(parts[0]), List(path), fallback]))
  }

  /** The dotted path splits into `input` and the segments of the name. */
  lemma SplitVariablePath(name: string)
    ensures Split(VariablePath(name), '.') == ["input"] + Split(DotSeparated(name), '.')
  {
    assert VariablePath(name) == "input" + ['.'] + DotSeparated(name);
    SplitAfterPrefix("input", '.', DotSeparated(name));
  }

  /** Text without a `}` from `pos` on is copied to the end: a `${` in it is
      never closed. */
  lemma ScanUnclosed(t: string, pos: nat, result: string, vars: seq<Expr>, resolve: string -> Result<Hole>)
    requires pos <= |t| && Lacks(t[pos..], '}')
    ensures Scan(t, pos, result, vars, resolve) == Assemble(result + t[pos..], vars)
  {
    if pos == |t| {
      assert result + t[pos..] == result;
    } else {
      match FindOpen(t[pos..])
      case None =>
      case Some(offset) =>
        var start := pos + offset;
        ScanFindsOpen(t, pos, offset, start, result, vars, resolve);
        assert t[start + 2..] == t[pos..][offset + 2..];
        SliceAvoids(t[pos..], offset + 2, |t| - pos, '}');
        FindCharNone(t[start + 2..], '}');
    }
  }

  /** `Expr::str` returns text without a `}` unchanged. */
  lemma UnclosedStrExpr(s: string)
    requires Lacks(s, '}')
    ensures StrExpr(s) == Ok(Str(Plain(s)))
  {
    if HasOpen(s) {
      assert s[0..] == s;
      ScanUnclosed(s, 0, "", [], HoleOf);
      assert "" + s[0..] == s;
    }
  }

  lemma {:induction false} UnclosedStrsMap(segments: seq<string>)
    requires forall i :: 0 <= i < |segments| ==> Lacks(segments[i], '}')
    ensures TryMap(segments, StrExpr) == Ok(UnclosedStrs(segments))
    decreases |segments|
  {
    if segments != [] {
      UnclosedStrExpr(segments[0]);
      UnclosedStrsMap(segments[1..]);
      assert UnclosedStrs(segments) == [Str(Plain(segments[0]))] + UnclosedStrs(segments[1..]);
    }
  }

  /** Inside a reference the source's `object.get` never fails: its segments
      and default hold no `}`, so `Expr::str` keeps them as they are. */
  lemma DefaultedAgrees(varPart: string, d: string)
    requires ValidName(varPart) && Lacks(d, '}')
    ensures DefaultedAsWritten(varPart, d) == Ok(Defaulted(varPart, d))
  {
    SplitVariablePath(varPart);
    var dotted := DotSeparated(varPart);
    assert Lacks(dotted, '}') by {
      forall i | 0 <= i < |dotted|
        ensures dotted[i] != '}'
      {
        assert IsNameChar(varPart[i]);
      }
    }
    SplitAvoids(dotted, '.', '}');
    UnclosedStrsMap(Split(dotted, '.'));
    UnclosedStrExpr(d);
  }

  /** The scanning loop of `substitute_variables`, as written. The source keeps
      `last_end` beside `pos`, but both are reset together past every reference,
      so one index serves for both. */
  method SubstituteVariables(t: string) returns (r: Result<Str>)
    ensures r == Substitute(t)
  {
    if !HasOpen(t) {
      return Ok(Plain(t));
    }
    var result: string := "";
    var vars: seq<Expr> := [];
    var pos: nat := 0;
    while pos < |t|
      invariant pos <= |t|
      invariant Scan(t, pos, result, vars, HoleOf) == Substitute(t)
      decreases |t| - pos
    {
      var step := Step(t, pos, result, vars);
      if step.Copied? {
        result := step.text;
        break;
      }
      if step.Rejected? {
        return Err(step.error);
      }
      result, vars, pos := step.text, step.found, step.next;
    }
    ScanEnds(t, result, vars, HoleOf);
    if vars != [] {
      r := Ok(Template(result, vars));
    } else {
      r := Ok(Plain(result));
    }
  }

  /** At the end of the template the scan assembles what it has collected. */
  lemma ScanEnds(t: string, result: string, vars: seq<Expr>, resolve: string -> Result<Hole>)
    ensures Scan(t, |t|, result, vars, resolve) == Assemble(result, vars)
  {
  }

  /** What one pass of the loop does: copies the rest of the template and stops,
      replaces one reference and resumes at `next`, or rejects a reference. */
  datatype Progress =
    | Copied(text: string)
    | Replaced(next: nat, text: string, found: seq<Expr>)
    | Rejected(error: Error)

  /** One pass of the loop from `pos`, in terms of the scan it performs. */
  method Step(t: string, pos: nat, result: string, vars: seq<Expr>) returns (p: Progress)
    requires pos < |t|
    ensures p.Copied? ==> Scan(t, pos, result, vars, HoleOf) == Assemble(p.text, vars)
    ensures p.Replaced? ==> pos < p.next <= |t| &&
                            Scan(t, pos, result, vars, HoleOf) == Scan(t, p.next, p.text, p.found, HoleOf)
    ensures p.Rejected? ==> Scan(t, pos, result, vars, HoleOf) == Err(p.error)
  {
    var found := NextReference(t, pos, result, vars);
    if found.None? {
      return Copied(result + t[pos..]);
    }
    var start, relative, end := found.value.0, found.value.1, found.value.2;
    var next := end + 1;
    var replaced := ReplaceReference(t, pos, start, relative, end, next, result, vars);
    if replaced.Err? {
      return Rejected(replaced.error);
    }
    return Replaced(next, replaced.value.0, replaced.value.1);
  }

  /** The search of the loop: the next `${` from `pos` on and the first `}`
      after it, or nothing when either is missing and the rest is copied. */
  method NextReference(t: string, pos: nat, ghost result: string, ghost vars: seq<Expr>)
    returns (found: Option<(nat, nat, nat)>)
    requires pos < |t|
    ensures found.None? ==> Scan(t, pos, result, vars, HoleOf) == Assemble(result + t[pos..], vars)
    ensures found.Some? ==>
              var (start, relative, end) := found.value;
              pos <= start && start + 2 <= end < |t| &&
              FindChar(t[start + 2..], '}') == Some(relative) && end == start + 2 + relative &&
              Scan(t, pos, result, vars, HoleOf) == ScanReference(t, pos, start, end, result, vars, HoleOf)
  {
    var startOffset := FindOpen(t[pos..]);
    if startOffset.None? {
      ScanStops(t, pos, result, vars, HoleOf);
      return None;
    }
    var start := pos + startOffset.value;
    var relativeEnd := FindChar(t[start + 2..], '}');
    if relativeEnd.None? {
      ScanStops(t, pos, result, vars, HoleOf);
      return None;
    }
    var end := start + 2 + relativeEnd.value;
    ReferenceFound(t, pos, startOffset.value, start, relativeEnd.value, end, result, vars, HoleOf);
    return Some((start, relativeEnd.value, end));
  }

  /** A `${` at `start` closed by the first `}` after it, at `end`, is the
      reference the scan from `pos` handles next. */
  lemma ReferenceFound(t: string, pos: nat, offset: nat, start: nat, relative: nat, end: nat,
                       result: string, vars: seq<Expr>, resolve: string -> Result<Hole>)
    requires pos < |t|
    requires FindOpen(t[pos..]) == Some(offset) && start == pos + offset
    requires FindChar(t[start + 2..], '}') == Some(relative) && end == start + 2 + relative
    ensures pos <= start && start + 2 <= end < |t|
    ensures Scan(t, pos, result, vars, resolve) == ScanReference(t, pos, start, end, result, vars, resolve)
  {
    ScanFindsOpen(t, pos, offset, start, result, vars, resolve);
    ScanFindsClose(t, pos, start, relative, end, result, vars, resolve);
  }

  /** One reference of the loop: the text since the last reference and the
      reference's replacement are appended, or the reference is rejected. */
  method ReplaceReference(t: string, lastEnd: nat, start: nat, relative: nat, end: nat, next: nat,
                          result: string, vars: seq<Expr>)
    returns (r: Result<(string, seq<Expr>)>)
    requires lastEnd <= start && start + 2 <= end < |t| && next == end + 1
    requires FindChar(t[start + 2..], '}') == Some(relative) && end == start + 2 + relative
    ensures r.Err? ==> ScanReference(t, lastEnd, start, end, result, vars, HoleOf) == Err(r.error)
    ensures r.Ok? ==> ScanReference(t, lastEnd, start, end, result, vars, HoleOf) ==
                      Scan(t, next, r.value.0, r.value.1, HoleOf)
  {
    var text := result + t[lastEnd..start];
    ReferenceText(t, start + 2, relative, end);
    var hole := ResolveHole(t[start + 2..end]);
    if hole.Err? {
      ScanRejects(t, lastEnd, start, end, result, vars, HoleOf);
      return Err(hole.error);
    }
    var found := vars;
    match hole.value {
      case Literal(c) =>
        text := text + [c];
      case Variable(v) =>
        text := text + "%s";
        found := found + [v];
    }
    ScanAdvance(t, lastEnd, start, end, next, result, vars, text, found, HoleOf);
    return Ok((text, found));
  }

  /** The text of a reference stops before the first `}`. */
  lemma ReferenceText(t: string, searchStart: nat, relative: nat, end: nat)
    requires searchStart <= |t| && FindChar(t[searchStart..], '}') == Some(relative)
    requires end == searchStart + relative
    ensures end < |t| && Lacks(t[searchStart..end], '}')
  {
    FindCharSpec(t[searchStart..], '}');
    forall j | 0 <= j < relative
      ensures t[searchStart..end][j] != '}'
    {
      assert !CharAt(t[searchStart..], j, '}');
    }
  }

  /** The loop stops when no `${` follows `pos`, or no `}` follows the `${`:
      the rest of the template is copied as is. */
  lemma ScanStops(t: string, pos: nat, result: string, vars: seq<Expr>, resolve: string -> Result<Hole>)
    requires pos < |t|
    requires FindOpen(t[pos..]).None? ||
             FindChar(t[pos + FindOpen(t[pos..]).value + 2..], '}').None?
    ensures Scan(t, pos, result, vars, resolve) == Assemble(result + t[pos..], vars)
  {
  }

  /** The `${` found `offset` characters after `pos`, at `start`, is where the
      scan goes next. */
  lemma ScanFindsOpen(t: string, pos: nat, offset: nat, start: nat, result: string, vars: seq<Expr>,
                      resolve: string -> Result<Hole>)
    requires pos < |t| && pos <= start && start + 2 <= |t|
    requires FindOpen(t[pos..]) == Some(offset) && start == pos + offset
    ensures Scan(t, pos, result, vars, resolve) == ScanOpen(t, pos, start, result, vars, resolve)
  {
    assert start == pos + FindOpen(t[pos..]).value;
  }

  /** The `}` found `relative` characters after the `${`, at `end`, closes the
      reference. */
  lemma ScanFindsClose(t: string, pos: nat, start: nat, relative: nat, end: nat, result: string, vars: seq<Expr>,
                       resolve: string -> Result<Hole>)
    requires pos <= start && start + 2 <= |t|
    requires FindChar(t[start + 2..], '}') == Some(relative) && end == start + 2 + relative
    ensures ScanOpen(t, pos, start, result, vars, resolve) == ScanReference(t, pos, start, end, result, vars, resolve)
  {
    assert end == start + 2 + FindChar(t[start + 2..], '}').value;
  }

  /** A rejected reference fails the scan with its error. */
  lemma ScanRejects(t: string, pos: nat, start: nat, end: nat, result: string, vars: seq<Expr>,
                    resolve: string -> Result<Hole>)
    requires pos <= start && start + 2 <= end < |t|
    requires resolve(t[start + 2..end]).Err?
    ensures ScanReference(t, pos, start, end, result, vars, resolve) == Err(resolve(t[start + 2..end]).error)
  {
  }

  lemma FlatPush(vars: seq<Expr>, e: Expr)
    requires FlatAll(vars) && Flat(e)
    ensures FlatAll(vars + [e])
  {
    forall i | 0 <= i < |vars + [e]|
      ensures Flat((vars + [e])[i])
    {
      if i < |vars| {
        assert (vars + [e])[i] == vars[i];
      }
    }
  }

  /** After an accepted reference the scan resumes at `next`, just past the `}`,
      with the text before the `${` and the replacement appended. */
  lemma ScanAdvance(t: string, pos: nat, start: nat, end: nat, next: nat,
                    result: string, vars: seq<Expr>, result': string, vars': seq<Expr>,
                    resolve: string -> Result<Hole>)
    requires pos <= start && start + 2 <= end < |t| && next == end + 1
    requires resolve(t[start + 2..end]).Ok?
    requires var hole := resolve(t[start + 2..end]).value;
             if hole.Literal? then result' == result + t[pos..start] + [hole.c] && vars' == vars
             else result' == result + t[pos..start] + "%s" && vars' == vars + [hole.e]
    ensures ScanReference(t, pos, start, end, result, vars, resolve) == Scan(t, next, result', vars', resolve)
  {
    var hole := resolve(t[start + 2..end]).value;
    if hole.Literal? {
      assert ScanReference(t, pos, start, end, result, vars, resolve) ==
             Scan(t, end + 1, result + t[pos..start] + [hole.c], vars, resolve);
    } else {
      assert ScanReference(t, pos, start, end, result, vars, resolve) ==
             Scan(t, end + 1, result + t[pos..start] + "%s", vars + [hole.e], resolve);
    }
  }

  /** The body of the loop for one reference: a special character, or a
      validated variable with its optional default. */
  method ResolveHole(varExpr: string) returns (r: Result<Hole>)
    requires Lacks(varExpr, '}')
    ensures r == HoleOf(varExpr)
  {
    var special := Special(varExpr);
    if special.Some? {
      return Ok(Literal(special.value));
    }
    var parsed := ParseVariableWithDefault(varExpr);
    var validity := Validate(parsed.0);
    if validity.Invalid? {
      return Err(InvalidStringInterpolation(validity.error));
    }
    var variable := BuildVariable(parsed.0, parsed.1);
    if parsed.1.Some? {
      ValidateAccepts(parsed.0);
      ParseVariableAvoids(varExpr, '}');
      DefaultedAgrees(parsed.0, parsed.1.value);
    }
    // The `?` after building cannot fire: the path segments and the default
    // hold no `}`, so `Expr::str` keeps them as plain strings.
    return Ok(Variable(variable.value));
  }

  /** The expression of a validated variable: the name spelled as an input path,
      character by character, then wrapped in `object.get` when a default is given. */
  method BuildVariable(varPart: string, defaultValue: Option<string>) returns (r: Result<Expr>)
    ensures defaultValue.None? ==> r == Ok(Var(VariablePath(varPart)))
    ensures defaultValue.Some? ==> r == DefaultedAsWritten(varPart, defaultValue.value)
  {
    var variable := InputPrefix;
    for k := 0 to |varPart|
      invariant |variable| == |InputPrefix| + k && variable[..|InputPrefix|] == InputPrefix
      invariant forall j :: 0 <= j < k ==>
                  variable[|InputPrefix| + j] == if varPart[j] == ':' || varPart[j] == '/' then '.' else varPart[j]
    {
      variable := variable + [if varPart[k] == ':' || varPart[k] == '/' then '.' else varPart[k]];
    }
    assert variable == VariablePath(varPart);
    if defaultValue.None? {
      return Ok(Var(variable));
    }
    var parts := Split(variable, '.');
    var objectName := parts[0];
    var path := Extensions.MapExpr(parts[1..], StrExpr);
    if path.Err? {
      return Err(path.error);
    }
    var fallback := StrExpr(defaultValue.value);
    if fallback.Err? {
      return Err(fallback.error);
    }
    r := Ok(Call("object.get", [Var(objectName), List(path.value), fallback.value]));
  }
}
