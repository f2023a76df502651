/** What `substitute_variables` computes, stated over templates built from
    pieces: literal text, `${name}` references, references with a quoted
    default and `${*}`-style escapes. */
module InterpolationLaws {
  import opened Iam
  import opened Results
  import opened Strings
  import opened Expression
  import opened Interpolation

  /** One piece of a template as a policy author writes it: text, a
      reference `${name}`, a reference with a default `${name, 'd'}` (or with
      double quotes), or an escape `${*}`. */
  datatype Piece = Text(text: string) | Ref(name: string) | Default(name: string, q: char, d: string) | Escape(c: char)

  /** Text holds no `$`, a reference names a valid variable, a default is
      quoted and holds no `}`, an escape is `*`, `?` or `$`. */
  predicate WellFormed(p: Piece)
  {
    match p
    case Text(s) => Lacks(s, '$')
    case Ref(name) => ValidName(name)
    case Default(name, q, d) => ValidName(name) && (q == '\'' || q == '"') && Lacks(d, '}')
    case Escape(c) => IsEscape(c)
  }

  /** The text of a reference with a default: a name, a comma, a space and the
      default between quotes `q`. */
  function DefaultText(name: string, q: char, d: string): string
  {
    name + ", " + [q] + d + [q]
  }

  /** The `object.get` a default builds: the object `input`, the segments of
      the name split at `:`, `/` and `.`, each a plain string, and the default
      as a plain string. */
  function DefaultRead(name: string, d: string): Expr
  {
    Call("object.get", [Var("input"), List(UnclosedStrs(Split(DotSeparated(name), '.'))), Str(Plain(d))])
  }

  predicate AllWellFormed(ps: seq<Piece>)
  {
    forall i :: 0 <= i < |ps| ==> WellFormed(ps[i])
  }

  /** The source text of a piece. */
  function Source(p: Piece): string
  {
    match p
    case Text(s) => s
    case Ref(name) => "${" + name + "}"
    case Default(name, q, d) => "${" + DefaultText(name, q, d) + "}"
    case Escape(c) => "${" + [c] + "}"
  }

  /** What a piece contributes to the `sprintf` format. */
  function FormatOf(p: Piece): string
  {
    match p
    case Text(s) => s
    case Ref(_) => "%s"
    case Default(_, _, _) => "%s"
    case Escape(c) => [c]
  }

  /** What a piece contributes to the `sprintf` arguments. */
  function ArgsOf(p: Piece): seq<Expr>
  {
    match p
    case Ref(name) => [Var(VariablePath(name))]
    case Default(name, _, d) => [DefaultRead(name, d)]
    case _ => []
  }

  function Render(ps: seq<Piece>): string
  {
    if ps == [] then "" else Source(ps[0]) + Render(ps[1..])
  }

  function Format(ps: seq<Piece>): string
  {
    if ps == [] then "" else FormatOf(ps[0]) + Format(ps[1..])
  }

  function Args(ps: seq<Piece>): seq<Expr>
  {
    if ps == [] then [] else ArgsOf(ps[0]) + Args(ps[1..])
  }

  /** The two halves of a slice that spells `x + y`. */
  lemma SliceSplit(t: string, i: nat, x: string, y: string)
    requires i + |x| + |y| <= |t| && t[i..i + |x| + |y|] == x + y
    ensures t[i..i + |x|] == x && t[i + |x|..i + |x| + |y|] == y
  {
    assert t[i..i + |x|] == t[i..i + |x| + |y|][..|x|];
    assert t[i + |x|..i + |x| + |y|] == t[i..i + |x| + |y|][|x|..];
  }

  /** Skipping text without `$` shifts where `${` is found. */
  lemma {:induction false} FindOpenSkip(s: string, x: string)
    requires Lacks(s, '$')
    ensures FindOpen(s + x) == if FindOpen(x).Some? then Some(|s| + FindOpen(x).value) else None
    decreases |s|
  {
    if s != [] {
      FindOpenSkip(s[1..], x);
      assert (s + x)[1..] == s[1..] + x;
    } else {
      assert s + x == x;
    }
  }

  /** A `$`-free stretch `t[pos..next]` is copied to the output unchanged. */
  lemma ScanShift(t: string, pos: nat, next: nat, result: string, vars: seq<Expr>, resolve: string -> Result<Hole>)
    requires pos <= next <= |t|
    requires Lacks(t[pos..next], '$')
    ensures Scan(t, pos, result, vars, resolve) == Scan(t, next, result + t[pos..next], vars, resolve)
  {
    if pos == next {
      assert result + t[pos..next] == result;
    } else if next == |t| {
      assert t[pos..next] == t[pos..];
      FindOpenSkip(t[pos..], []);
      assert t[pos..] + [] == t[pos..];
    } else {
      assert t[pos..] == t[pos..next] + t[next..];
      FindOpenSkip(t[pos..next], t[next..]);
      var shifted := result + t[pos..next];
      assert result + t[pos..] == shifted + t[next..];
      match FindOpen(t[next..])
      case None =>
      case Some(offset) =>
        var start := next + offset;
        ScanFindsOpen(t, pos, next - pos + offset, start, result, vars, resolve);
        ScanFindsOpen(t, next, offset, start, shifted, vars, resolve);
        ScanOpenShift(t, pos, next, start, result, vars, resolve);
    }
  }

  /** Where the scan resumes before a `${` does not matter once the skipped
      text has been appended. */
  lemma ScanOpenShift(t: string, pos: nat, next: nat, start: nat, result: string, vars: seq<Expr>, resolve: string -> Result<Hole>)
    requires pos <= next <= start && start + 2 <= |t|
    ensures ScanOpen(t, pos, start, result, vars, resolve) == ScanOpen(t, next, start, result + t[pos..next], vars, resolve)
  {
    var shifted := result + t[pos..next];
    assert t[pos..] == t[pos..next] + t[next..];
    assert result + t[pos..] == shifted + t[next..];
    assert t[pos..start] == t[pos..next] + t[next..start];
    assert result + t[pos..start] == shifted + t[next..start];
    match FindChar(t[start + 2..], '}')
    case None =>
    case Some(relative) =>
      var end := start + 2 + relative;
      ScanFindsClose(t, pos, start, relative, end, result, vars, resolve);
      ScanFindsClose(t, next, start, relative, end, shifted, vars, resolve);
  }

  /** No name character is whitespace, an escape, a `,` or a `}`. */
  lemma NameCharIsPlain(c: char)
    requires IsNameChar(c)
    ensures !IsWhitespace(c) && !IsEscape(c) && c != ',' && c != '}'
  {
  }

  /** A valid name is not an escape and has no default: it reads `input.` + name. */
  lemma HoleOfName(name: string)
    requires ValidName(name)
    ensures HoleOf(name) == Ok(Variable(Var(VariablePath(name))))
  {
    NameIsNotSpecial(name);
    NameHasNoDefault(name);
    ValidateAccepts(name);
  }

  lemma NameIsNotSpecial(name: string)
    requires ValidName(name)
    ensures Special(name).None?
  {
    forall i | 0 <= i < |name|
      ensures !IsWhitespace(name[i])
    {
      NameCharIsPlain(name[i]);
    }
    TrimNoWhitespace(name);
    NameCharIsPlain(name[0]);
  }

  lemma NameHasNoDefault(name: string)
    requires ValidName(name)
    ensures ParseVariableWithDefault(name) == (name, None)
  {
    forall i | 0 <= i < |name|
      ensures name[i] != ','
    {
      NameCharIsPlain(name[i]);
    }
    NoCommaNoDefault(name);
  }

  /** An escape's text is the escaped character itself. */
  lemma HoleOfEscape(c: char)
    requires IsEscape(c)
    ensures HoleOf([c]) == Ok(Literal(c))
  {
    assert TrimStart([c]) == [c];
    assert TrimEnd([c]) == [c];
  }

  /** What the text of a reference `${inner}` at `pos` consists of. */
  lemma Braces(t: string, pos: nat, inner: string)
    requires pos + |inner| + 3 <= |t|
    requires t[pos..pos + |inner| + 3] == "${" + inner + "}"
    ensures t[pos] == '$' && t[pos + 1] == '{'
    ensures t[pos + 2..pos + 2 + |inner|] == inner && t[pos + 2 + |inner|] == '}'
  {
    SliceSplit(t, pos, "${" + inner, "}");
    SliceSplit(t, pos, "${", inner);
    assert t[pos] == t[pos..pos + 2][0] && t[pos + 1] == t[pos..pos + 2][1];
    assert t[pos + 2 + |inner|] == t[pos + 2 + |inner|..pos + |inner| + 3][0];
  }

  /** The scan finds the `${` at `pos` and the `}` just after `inner`. */
  lemma FindsBraces(t: string, pos: nat, inner: string)
    requires pos + |inner| + 3 <= |t|
    requires t[pos..pos + |inner| + 3] == "${" + inner + "}" && Lacks(inner, '}')
    ensures FindOpen(t[pos..]) == Some(0)
    ensures FindChar(t[pos + 2..], '}') == Some(|inner|)
  {
    Braces(t, pos, inner);
    FindOpenAt(t[pos..], 0);
    var rest := t[pos + 2..];
    forall j | 0 <= j < |inner|
      ensures !CharAt(rest, j, '}')
    {
      assert rest[j] == t[pos + 2..pos + 2 + |inner|][j];
    }
    FindCharAt(rest, '}', |inner|);
  }

  /** The scan finds the reference `${inner}` at `pos` and resolves it. */
  lemma ScanOverReference(t: string, pos: nat, inner: string, end: nat, result: string, vars: seq<Expr>, resolve: string -> Result<Hole>)
    requires pos + |inner| + 3 <= |t| && end == pos + 2 + |inner|
    requires t[pos..pos + |inner| + 3] == "${" + inner + "}" && Lacks(inner, '}')
    ensures Scan(t, pos, result, vars, resolve) == ScanReference(t, pos, pos, end, result, vars, resolve)
  {
    FindsBraces(t, pos, inner);
    ScanFindsOpen(t, pos, 0, pos, result, vars, resolve);
    ScanFindsClose(t, pos, pos, |inner|, end, result, vars, resolve);
  }

  /** The resolution the transpiler uses: an escape stands for its character
      and a valid name reads `input.` followed by the name. */
  ghost predicate Standard(resolve: string -> Result<Hole>)
  {
    && (forall c :: IsEscape(c) ==> resolve([c]) == Ok(Literal(c)))
    && (forall name :: ValidName(name) ==> resolve(name) == Ok(Variable(Var(VariablePath(name)))))
    && (forall name, q, d :: ValidName(name) && (q == '\'' || q == '"') ==>
          resolve(DefaultText(name, q, d)) == Ok(Variable(DefaultRead(name, d))))
  }

  /** `HoleOf` is that resolution. */
  lemma HoleOfStandard()
    ensures Standard(HoleOf)
  {
    forall c | IsEscape(c)
      ensures HoleOf([c]) == Ok(Literal(c))
    {
      HoleOfEscape(c);
    }
    forall name | ValidName(name)
      ensures HoleOf(name) == Ok(Variable(Var(VariablePath(name))))
    {
      HoleOfName(name);
    }
    forall name, q, d | ValidName(name) && (q == '\'' || q == '"')
      ensures HoleOf(DefaultText(name, q, d)) == Ok(Variable(DefaultRead(name, d)))
    {
      HoleOfDefault(name, q, d);
    }
  }

  /** An escape `${c}` at `pos` appends `c`. */
  lemma ScanOverEscape(t: string, pos: nat, c: char, next: nat, result: string, vars: seq<Expr>, resolve: string -> Result<Hole>)
    requires next == pos + 4 && next <= |t| && IsEscape(c)
    requires t[pos..pos + 4] == "${" + [c] + "}" && resolve([c]) == Ok(Literal(c))
    ensures Scan(t, pos, result, vars, resolve) == Scan(t, next, result + [c], vars, resolve)
  {
    var end := pos + 3;
    assert Scan(t, pos, result, vars, resolve) == ScanReference(t, pos, pos, end, result, vars, resolve) by {
      ScanOverReference(t, pos, [c], end, result, vars, resolve);
    }
    assert t[pos + 2..end] == [c] by {
      Braces(t, pos, [c]);
    }
    assert result + [c] == result + t[pos..pos] + [c] by {
      assert t[pos..pos] == [];
    }
    ScanAdvance(t, pos, pos, end, next, result, vars, result + [c], vars, resolve);
  }

  /** A reference `${inner}` at `pos` that reads `e` appends a `%s` hole and `e`. */
  lemma ScanOverVariable(t: string, pos: nat, inner: string, e: Expr, next: nat, result: string, vars: seq<Expr>,
                         resolve: string -> Result<Hole>)
    requires next == pos + |inner| + 3 && next <= |t|
    requires t[pos..pos + |inner| + 3] == "${" + inner + "}" && Lacks(inner, '}')
    requires resolve(inner) == Ok(Variable(e))
    ensures Scan(t, pos, result, vars, resolve) == Scan(t, next, result + "%s", vars + [e], resolve)
  {
    var end := pos + 2 + |inner|;
    ScanOverReference(t, pos, inner, end, result, vars, resolve);
    assert t[pos + 2..end] == inner by {
      Braces(t, pos, inner);
    }
    VariableStep(t, pos, end, next, inner, e, result, vars, resolve);
  }

  /** The reference `inner` ending at `end` reads `e`: a `%s` hole is appended. */
  lemma VariableStep(t: string, pos: nat, end: nat, next: nat, inner: string, e: Expr, result: string, vars: seq<Expr>,
                     resolve: string -> Result<Hole>)
    requires pos + 2 <= end < |t| && next == end + 1
    requires t[pos + 2..end] == inner && resolve(inner) == Ok(Variable(e))
    ensures ScanReference(t, pos, pos, end, result, vars, resolve) == Scan(t, next, result + "%s", vars + [e], resolve)
  {
    assert result + "%s" == result + t[pos..pos] + "%s" by {
      assert t[pos..pos] == [];
    }
    ScanAdvance(t, pos, pos, end, next, result, vars, result + "%s", vars + [e], resolve);
  }

  /** A reference `${name}` to a valid name appends a hole reading `input.` + name. */
  lemma ScanOverName(t: string, pos: nat, name: string, next: nat, result: string, vars: seq<Expr>, resolve: string -> Result<Hole>)
    requires next == pos + |name| + 3 && next <= |t| && ValidName(name) && Standard(resolve)
    requires t[pos..pos + |name| + 3] == "${" + name + "}"
    ensures Scan(t, pos, result, vars, resolve) ==
            Scan(t, next, result + "%s", vars + [Var(VariablePath(name))], resolve)
  {
    NameHasNoBrace(name);
    ScanOverVariable(t, pos, name, Var(VariablePath(name)), next, result, vars, resolve);
  }

  /** A reference `${name, 'd'}` appends a hole reading the name with the default. */
  lemma ScanOverDefault(t: string, pos: nat, name: string, q: char, d: string, next: nat, result: string,
                        vars: seq<Expr>, resolve: string -> Result<Hole>)
    requires ValidName(name) && (q == '\'' || q == '"') && Lacks(d, '}') && Standard(resolve)
    requires next == pos + |DefaultText(name, q, d)| + 3 && next <= |t|
    requires t[pos..next] == "${" + DefaultText(name, q, d) + "}"
    ensures Scan(t, pos, result, vars, resolve) == Scan(t, next, result + "%s", vars + [DefaultRead(name, d)], resolve)
  {
    DefaultTextNoBrace(name, q, d);
    ScanOverVariable(t, pos, DefaultText(name, q, d), DefaultRead(name, d), next, result, vars, resolve);
  }

  lemma DefaultTextNoBrace(name: string, q: char, d: string)
    requires ValidName(name) && (q == '\'' || q == '"') && Lacks(d, '}')
    ensures Lacks(DefaultText(name, q, d), '}')
  {
    var text := DefaultText(name, q, d);
    forall i | 0 <= i < |text|
      ensures text[i] != '}'
    {
      if i < |name| {
        assert text[i] == name[i];
        NameCharIsPlain(name[i]);
      } else if |name| + 3 <= i < |name| + 3 + |d| {
        assert text[i] == d[i - |name| - 3];
      }
    }
  }

  lemma NameHasNoBrace(name: string)
    requires ValidName(name)
    ensures Lacks(name, '}')
  {
    forall i | 0 <= i < |name|
      ensures name[i] != '}'
    {
      NameCharIsPlain(name[i]);
    }
  }

  /** Scanning one well-formed piece appends its format and its arguments. */
  lemma ScanPiece(t: string, pos: nat, p: Piece, next: nat, result: string, vars: seq<Expr>, resolve: string -> Result<Hole>)
    requires WellFormed(p) && Standard(resolve)
    requires next == pos + |Source(p)| && next <= |t| && t[pos..next] == Source(p)
    ensures Scan(t, pos, result, vars, resolve) == Scan(t, next, result + FormatOf(p), vars + ArgsOf(p), resolve)
  {
    match p
    case Text(s) =>
      ScanShift(t, pos, next, result, vars, resolve);
      assert vars + ArgsOf(p) == vars;
    case Ref(name) =>
      ScanOverName(t, pos, name, next, result, vars, resolve);
    case Default(name, q, d) =>
      ScanOverDefault(t, pos, name, q, d, next, result, vars, resolve);
    case Escape(c) =>
      ScanOverEscape(t, pos, c, next, result, vars, resolve);
      assert vars + ArgsOf(p) == vars;
  }

  /** Scanning well-formed pieces appends their format and their arguments. */
  lemma {:induction false} ScanPieces(t: string, pos: nat, ps: seq<Piece>, end: nat, result: string, vars: seq<Expr>,
                                      resolve: string -> Result<Hole>)
    requires AllWellFormed(ps) && Standard(resolve)
    requires end == pos + |Render(ps)| && end <= |t| && t[pos..end] == Render(ps)
    ensures Scan(t, pos, result, vars, resolve) == Scan(t, end, result + Format(ps), vars + Args(ps), resolve)
    decreases |ps|
  {
    if ps == [] {
      assert result + Format(ps) == result && vars + Args(ps) == vars;
    } else {
      var next := pos + |Source(ps[0])|;
      PiecesHead(t, pos, ps, next, end, result, vars, resolve);
      ScanPieces(t, next, ps[1..], end, result + FormatOf(ps[0]), vars + ArgsOf(ps[0]), resolve);
      FirstPiece(ps, result, vars);
    }
  }

  /** The first piece is scanned, and the others follow it in the template. */
  lemma PiecesHead(t: string, pos: nat, ps: seq<Piece>, next: nat, end: nat, result: string, vars: seq<Expr>,
                   resolve: string -> Result<Hole>)
    requires ps != [] && AllWellFormed(ps) && Standard(resolve)
    requires end == pos + |Render(ps)| && end <= |t| && t[pos..end] == Render(ps)
    requires next == pos + |Source(ps[0])|
    ensures AllWellFormed(ps[1..])
    ensures end == next + |Render(ps[1..])| && t[next..end] == Render(ps[1..])
    ensures Scan(t, pos, result, vars, resolve) == Scan(t, next, result + FormatOf(ps[0]), vars + ArgsOf(ps[0]), resolve)
  {
    PiecesSplit(t, pos, ps, next, end);
    ScanPiece(t, pos, ps[0], next, result, vars, resolve);
  }

  /** The first piece's source, then the others', in the template. */
  lemma PiecesSplit(t: string, pos: nat, ps: seq<Piece>, next: nat, end: nat)
    requires ps != [] && AllWellFormed(ps)
    requires end == pos + |Render(ps)| && end <= |t| && t[pos..end] == Render(ps)
    requires next == pos + |Source(ps[0])|
    ensures WellFormed(ps[0]) && AllWellFormed(ps[1..])
    ensures next <= |t| && t[pos..next] == Source(ps[0])
    ensures end == next + |Render(ps[1..])| && t[next..end] == Render(ps[1..])
  {
    assert Render(ps) == Source(ps[0]) + Render(ps[1..]);
    SliceSplit(t, pos, Source(ps[0]), Render(ps[1..]));
  }

  /** The format and the arguments of the first piece come before the others'. */
  lemma FirstPiece(ps: seq<Piece>, result: string, vars: seq<Expr>)
    requires ps != []
    ensures result + FormatOf(ps[0]) + Format(ps[1..]) == result + Format(ps)
    ensures vars + ArgsOf(ps[0]) + Args(ps[1..]) == vars + Args(ps)
  {
    AppendAssoc(result, FormatOf(ps[0]), Format(ps[1..]));
    AppendAssoc(vars, ArgsOf(ps[0]), Args(ps[1..]));
  }

  /** Without `${` the scan copies the whole template, as the early return does. */
  lemma SubstituteIsScan(t: string)
    ensures Substitute(t) == Scan(t, 0, "", [], HoleOf)
  {
    if !HasOpen(t) && t != [] {
      assert "" + t[0..] == t;
    }
  }

  /** The template `t` up to `pos` is made of the pieces `ps`. */
  lemma ScanPrefix(t: string, ps: seq<Piece>, pos: nat, resolve: string -> Result<Hole>)
    requires AllWellFormed(ps) && Standard(resolve) && pos == |Render(ps)| <= |t| && t[..pos] == Render(ps)
    ensures Scan(t, 0, "", [], resolve) == Scan(t, pos, Format(ps), Args(ps), resolve)
  {
    assert t[0..pos] == Render(ps);
    ScanPieces(t, 0, ps, pos, "", [], resolve);
    EmptyPrefix(Format(ps));
    EmptyPrefix(Args(ps));
  }

  /** Pieces followed by text with no `}`: the pieces' format and arguments. */
  lemma ScanRendered(ps: seq<Piece>, tail: string, resolve: string -> Result<Hole>)
    requires AllWellFormed(ps) && Lacks(tail, '}') && Standard(resolve)
    ensures Scan(Render(ps) + tail, 0, "", [], resolve) == Assemble(Format(ps) + tail, Args(ps))
  {
    var t := Render(ps) + tail;
    var pos := |Render(ps)|;
    assert t[..pos] == Render(ps) && t[pos..] == tail;
    ScanPrefix(t, ps, pos, resolve);
    ScanUnclosed(t, pos, Format(ps), Args(ps), resolve);
  }

  /** The main law: a template made of well-formed pieces, followed by text with
      no `}`, becomes the pieces' format with their variables as arguments, and
      a plain string exactly when it references no variable. */
  lemma SubstituteRendered(ps: seq<Piece>, tail: string)
    requires AllWellFormed(ps) && Lacks(tail, '}')
    ensures Substitute(Render(ps) + tail) ==
            if Args(ps) == [] then Ok(Plain(Format(ps) + tail)) else Ok(Template(Format(ps) + tail, Args(ps)))
  {
    SubstituteIsScan(Render(ps) + tail);
    HoleOfStandard();
    ScanRendered(ps, tail, HoleOf);
  }

  /** A reference rejected by validation is rejected as a hole. */
  lemma HoleOfRejected(name: string)
    requires Lacks(name, ',') && Special(name).None? && Validate(name).Invalid?
    ensures HoleOf(name) == Err(InvalidStringInterpolation(Validate(name).error))
  {
    NoCommaNoDefault(name);
  }

  /** A rejected reference `${inner}` at `pos` fails the scan with its error. */
  lemma ScanOverRejected(t: string, pos: nat, inner: string, result: string, vars: seq<Expr>, resolve: string -> Result<Hole>)
    requires pos + |inner| + 3 <= |t|
    requires t[pos..pos + |inner| + 3] == "${" + inner + "}" && Lacks(inner, '}')
    requires resolve(inner).Err?
    ensures Scan(t, pos, result, vars, resolve) == Err(resolve(inner).error)
  {
    var end := pos + 2 + |inner|;
    ScanOverReference(t, pos, inner, end, result, vars, resolve);
    Braces(t, pos, inner);
    RejectStep(t, pos, end, inner, result, vars, resolve);
  }

  /** The rejected reference `inner` ending at `end` fails the scan. */
  lemma RejectStep(t: string, pos: nat, end: nat, inner: string, result: string, vars: seq<Expr>, resolve: string -> Result<Hole>)
    requires pos + 2 <= end < |t|
    requires t[pos + 2..end] == inner && resolve(inner).Err?
    ensures ScanReference(t, pos, pos, end, result, vars, resolve) == Err(resolve(inner).error)
  {
    ScanRejects(t, pos, pos, end, result, vars, resolve);
  }

  /** Pieces followed by a reference that `resolve` rejects: the scan fails
      with that rejection. */
  lemma ScanRejected(ps: seq<Piece>, name: string, rest: string, resolve: string -> Result<Hole>)
    requires AllWellFormed(ps) && Standard(resolve)
    requires Lacks(name, '}') && resolve(name).Err?
    ensures Scan(Render(ps) + "${" + name + "}" + rest, 0, "", [], resolve) == Err(resolve(name).error)
  {
    var reference := "${" + name + "}";
    var t := Render(ps) + reference + rest;
    var pos := |Render(ps)|;
    SliceMiddle(Render(ps), reference, rest);
    ScanPrefix(t, ps, pos, resolve);
    ScanOverRejected(t, pos, name, Format(ps), Args(ps), resolve);
    assert t == Render(ps) + "${" + name + "}" + rest by {
      AppendAssoc(Render(ps), "${" + name, "}");
      AppendAssoc(Render(ps), "${", name);
    }
  }

  /** A reference whose name is rejected fails the whole template with the
      validation error, whatever follows it. */
  lemma SubstituteRejects(ps: seq<Piece>, name: string, rest: string)
    requires AllWellFormed(ps)
    requires Lacks(name, '}') && Lacks(name, ',') && Special(name).None?
    requires Validate(name).Invalid?
    ensures Substitute(Render(ps) + "${" + name + "}" + rest) == Err(InvalidStringInterpolation(Validate(name).error))
  {
    SubstituteIsScan(Render(ps) + "${" + name + "}" + rest);
    HoleOfStandard();
    HoleOfRejected(name);
    ScanRejected(ps, name, rest, HoleOf);
  }

  /** The quoted part after the comma trims to the quotes and what they hold. */
  lemma QuotedTail(q: char, d: string)
    requires q == '\'' || q == '"'
    ensures Trim(" " + [q] + d + [q]) == [q] + d + [q]
    ensures ExtractQuoted([q] + d + [q]) == Some(d)
  {
    var quoted := [q] + d + [q];
    var spaced := " " + [q] + d + [q];
    assert spaced == " " + quoted && spaced[1..] == quoted;
    TrimKeeps(quoted);
    assert TrimStart(spaced) == quoted;
    assert quoted[1..|quoted| - 1] == d;
  }

  /** A name followed by a quoted default splits into the name and the default. */
  lemma DefaultParsed(name: string, q: char, d: string)
    requires ValidName(name) && (q == '\'' || q == '"')
    ensures ParseVariableWithDefault(DefaultText(name, q, d)) == (name, Some(d))
  {
    var expr := DefaultText(name, q, d);
    forall j | 0 <= j < |name|
      ensures !CharAt(expr, j, ',')
    {
      assert expr[j] == name[j];
      NameCharIsPlain(name[j]);
    }
    FindCharAt(expr, ',', |name|);
    assert expr[..|name|] == name;
    assert expr[|name| + 1..] == " " + [q] + d + [q];
    NameHasNoDefault(name);
    NameIsNotSpecial(name);
    forall i | 0 <= i < |name|
      ensures !IsWhitespace(name[i])
    {
      NameCharIsPlain(name[i]);
    }
    TrimNoWhitespace(name);
    QuotedTail(q, d);
  }

  /** A reference with a default is not one of the escapes. */
  lemma DefaultNotSpecial(name: string, q: char, d: string)
    requires ValidName(name) && (q == '\'' || q == '"')
    ensures Special(DefaultText(name, q, d)).None?
  {
    var expr := DefaultText(name, q, d);
    assert expr[0] == name[0];
    NameCharIsPlain(name[0]);
    TrimKeeps(expr);
  }

  /** `${name, 'd'}` and `${name, "d"}` read the input path of `name` with the
      default `d`. */
  lemma HoleOfDefault(name: string, q: char, d: string)
    requires ValidName(name) && (q == '\'' || q == '"')
    ensures HoleOf(DefaultText(name, q, d)) == Ok(Variable(DefaultRead(name, d)))
  {
    DefaultNotSpecial(name, q, d);
    DefaultParsed(name, q, d);
    ValidateAccepts(name);
    SplitVariablePath(name);
  }

  /** A comma not followed by a quoted default leaves the whole reference text
      as the name, whose comma is then an invalid character. */
  lemma UnquotedDefaultRejected(expr: string)
    requires FindChar(expr, ',').Some? && ExtractQuoted(Trim(expr[FindChar(expr, ',').value + 1..])).None?
    requires Special(expr).None? && !HasOpen(expr) && Lacks(expr, '}') && Count(expr, '/') <= 1
    ensures HoleOf(expr) == Err(InvalidStringInterpolation(InvalidCharacters(expr)))
  {
    UnquotedNoDefault(expr);
    FindCharNone(expr, ',');
    CommaIsInvalid(expr);
  }

  lemma UnquotedNoDefault(expr: string)
    requires FindChar(expr, ',').Some? && ExtractQuoted(Trim(expr[FindChar(expr, ',').value + 1..])).None?
    ensures ParseVariableWithDefault(expr) == (expr, None)
  {
  }

  /** A comma is not a name character: it fails the last check of validation. */
  lemma CommaIsInvalid(expr: string)
    requires !Lacks(expr, ',') && !HasOpen(expr) && Lacks(expr, '}') && Count(expr, '/') <= 1
    ensures Validate(expr) == Invalid(InvalidCharacters(expr))
  {
    var k :| 0 <= k < |expr| && expr[k] == ',';
    assert !IsNameChar(expr[k]);
  }

  /** A template whose reference has an unquoted default fails with
      `InvalidCharacters`, whatever follows it. */
  lemma SubstituteRejectsUnquoted(ps: seq<Piece>, expr: string, rest: string)
    requires AllWellFormed(ps)
    requires FindChar(expr, ',').Some? && ExtractQuoted(Trim(expr[FindChar(expr, ',').value + 1..])).None?
    requires Special(expr).None? && !HasOpen(expr) && Lacks(expr, '}') && Count(expr, '/') <= 1
    ensures Substitute(Render(ps) + "${" + expr + "}" + rest) == Err(InvalidStringInterpolation(InvalidCharacters(expr)))
  {
    SubstituteIsScan(Render(ps) + "${" + expr + "}" + rest);
    HoleOfStandard();
    UnquotedDefaultRejected(expr);
    ScanRejected(ps, expr, rest, HoleOf);
  }

  /** A reference holding `${`, after `$`-free text, fails the template with
      `NestedInterpolation`. */
  lemma NestedAfterText(text: string, name: string, rest: string)
    requires Lacks(text, '$') && Lacks(name, '}') && Lacks(name, ',') && Special(name).None?
    requires HasOpen(name)
    ensures Substitute(text + "${" + name + "}" + rest) == Err(InvalidStringInterpolation(NestedInterpolation(name)))
  {
    ValidateErrors(name);
    RejectedAfterText(text, name, rest);
  }

  /** A `$`-free reference with a `/` at `i` and another at `j`, after
      `$`-free text, fails the template with `TooManySlashes`. */
  lemma SlashesAfterText(text: string, name: string, rest: string, i: nat, j: nat)
    requires Lacks(text, '$') && Lacks(name, '}') && Lacks(name, ',') && Special(name).None?
    requires Lacks(name, '$') && i < j < |name| && name[i] == '/' && name[j] == '/'
    ensures Substitute(text + "${" + name + "}" + rest) == Err(InvalidStringInterpolation(TooManySlashes(name)))
  {
    CountTwo(name, '/', i, j);
    FindOpenSpec(name);
    ValidateErrors(name);
    RejectedAfterText(text, name, rest);
  }

  /** A `$`-free reference with at most one `/` and a character at `i` outside
      a name, after `$`-free text, fails the template with `InvalidCharacters`. */
  lemma CharactersAfterText(text: string, name: string, rest: string, i: nat)
    requires Lacks(text, '$') && Lacks(name, '}') && Lacks(name, ',') && Special(name).None?
    requires Lacks(name, '$') && Count(name, '/') <= 1 && i < |name| && !IsNameChar(name[i])
    ensures Substitute(text + "${" + name + "}" + rest) == Err(InvalidStringInterpolation(InvalidCharacters(name)))
  {
    FindOpenSpec(name);
    ValidateErrors(name);
    RejectedAfterText(text, name, rest);
  }

  /** `Hello ${${username}}`: the reference runs to the first `}` and holds `${`.
      The reference text is a parameter fixed by the precondition, which keeps the
      template from being evaluated character by character. */
  lemma NestedRejected(name: string)
    requires name == "${username"
    ensures Substitute("Hello " + "${" + name + "}" + "}") == Err(InvalidStringInterpolation(NestedInterpolation(name)))
  {
    NestedName(name);
    NestedAfterText("Hello ", name, "}");
  }

  lemma NestedName(name: string)
    requires name == "${username"
    ensures Lacks(name, '}') && Lacks(name, ',') && Special(name).None? && HasOpen(name)
  {
    assert HasOpen("${username");
  }

  /** `Test ${other${username}}`: a `${` after other text is also nested. */
  lemma NestedInsideRejected(name: string)
    requires name == "other${username"
    ensures Substitute("Test " + "${" + name + "}" + "}") == Err(InvalidStringInterpolation(NestedInterpolation(name)))
  {
    NestedInsideName(name);
    NestedAfterText("Test ", name, "}");
  }

  lemma NestedInsideName(name: string)
    requires name == "other${username"
    ensures Lacks(name, '}') && Lacks(name, ',') && Special(name).None? && HasOpen(name)
  {
    FindOpenAt(name, 5);
  }

  /** `Clean ${${var}text}`: the text after the first `}` does not matter. */
  lemma NestedBeforeTextRejected(name: string)
    requires name == "${var"
    ensures Substitute("Clean " + "${" + name + "}" + "text}") == Err(InvalidStringInterpolation(NestedInterpolation(name)))
  {
    NestedBeforeTextName(name);
    NestedAfterText("Clean ", name, "text}");
  }

  lemma NestedBeforeTextName(name: string)
    requires name == "${var"
    ensures Lacks(name, '}') && Lacks(name, ',') && Special(name).None? && HasOpen(name)
  {
    assert HasOpen("${var");
  }

  /** `${aws/user/name}` has two `/`. */
  lemma SlashesRejected(name: string)
    requires name == "aws/user/name"
    ensures Substitute("${" + name + "}") == Err(InvalidStringInterpolation(TooManySlashes(name)))
  {
    SlashesName(name);
    SlashesAfterText("", name, "", 3, 8);
    assert "" + "${" + name + "}" + "" == "${" + name + "}";
  }

  lemma SlashesName(name: string)
    requires name == "aws/user/name"
    ensures Lacks(name, '}') && Lacks(name, ',') && Special(name).None?
    ensures Lacks(name, '$') && |name| > 8 && name[3] == '/' && name[8] == '/'
  {
  }

  /** `${user@name}`: `@` is not a name character. */
  lemma AtSignRejected(name: string)
    requires name == "user@name"
    ensures Substitute("${" + name + "}") == Err(InvalidStringInterpolation(InvalidCharacters(name)))
  {
    AtSignName(name);
    CharactersAfterText("", name, "", 4);
    assert "" + "${" + name + "}" + "" == "${" + name + "}";
  }

  lemma AtSignName(name: string)
    requires name == "user@name"
    ensures Lacks(name, '}') && Lacks(name, ',') && Special(name).None?
    ensures Lacks(name, '$') && Count(name, '/') <= 1 && |name| > 4 && !IsNameChar(name[4])
  {
    LacksCount(name, '/');
  }

  /** `${user name}`: a space is not a name character. */
  lemma SpaceRejected(name: string)
    requires name == "user name"
    ensures Substitute("${" + name + "}") == Err(InvalidStringInterpolation(InvalidCharacters(name)))
  {
    SpaceName(name);
    CharactersAfterText("", name, "", 4);
    assert "" + "${" + name + "}" + "" == "${" + name + "}";
  }

  lemma SpaceName(name: string)
    requires name == "user name"
    ensures Lacks(name, '}') && Lacks(name, ',') && Special(name).None?
    ensures Lacks(name, '$') && Count(name, '/') <= 1 && |name| > 4 && !IsNameChar(name[4])
  {
    LacksCount(name, '/');
  }

  /** `${}`: an empty reference. */
  lemma EmptyRejected()
    ensures Substitute("${}") == Err(InvalidStringInterpolation(EmptyExpression))
  {
    RejectedAfterText("", "", "");
    assert "" + "${" + "" + "}" + "" == "${}";
  }

  /** A rejected reference after `$`-free text fails the template with its
      validation error. */
  lemma RejectedAfterText(text: string, name: string, rest: string)
    requires Lacks(text, '$')
    requires Lacks(name, '}') && Lacks(name, ',') && Special(name).None?
    requires Validate(name).Invalid?
    ensures Substitute(text + "${" + name + "}" + rest) == Err(InvalidStringInterpolation(Validate(name).error))
  {
    var ps := if text == [] then [] else [Text(text)];
    assert Render(ps) == text by {
      if text != [] {
        assert Render(ps) == Source(Text(text)) + Render([]);
      }
    }
    SubstituteRejects(ps, name, rest);
  }
}
