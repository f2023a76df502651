# regoer core in Dafny

A model of the IAM-to-Rego transpiler at the heart of `regoer`, with proofs
about it. The transpiler takes a decoded AWS IAM policy document. It turns
every statement into an `Expr` tree: a `permit if { ... }` or
`deny if { ... }` rule whose lines match `input.principal`, `input.action`,
`input.resource` and the condition keys. It then prints the tree as Rego
source after a fixed prelude.

The model follows the program's structure, leaf first:

- `iam.dfy` (module `Iam`): the decoded input as the `aws_iam` crate hands it over.
  Its parts are `OneOrAny`, `OneOrAll`, `QString`, `ConditionValue`, the condition
  operators with their optional `ForAnyValue:`/`ForAllValues:` quantifier, and
  `Principal`, `Action`, `Resource`, statements and documents.
- `results.dfy` (`Results`): the transpiler's error type and the fallible
  element-wise map that every `try_fold` and `?`-loop of the source comes down to.
- `values.dfy` (`Values`): `Effect`, the one-or-many `Value`, the polarised `Scope`
  and `Value::map`.
- `extensions.dfy` (`Extensions`): `map_expr`, kept as the loop it is.
- `strings.dfy` (`Strings`): the Rust string operations the core relies on. These
  are `find`, `rfind`, `trim`, `split`, character replacement and `i64` parsing.
- `expression.dfy` (`Expression`): the `Expr` and `Str` trees, their
  constructors, and the size measure the printer terminates on.
- `interpolation.dfy` (`Interpolation`): `substitute_variables` and its helpers.
  The scanning loop is a method proved equal to a functional scan.
- `interpolation_laws.dfy` (`InterpolationLaws`): what the scan does on any
  template assembled from text, references, defaulted references and escapes,
  and on rejected references.
- `functions.dfy` (`Functions`): the `Func` constructors, including the `to_array`
  path rewrite.
- `conditions.dfy` (`Conditions`): `build_condition`, `compare`, `Negatable` and
  the value converters.
- `repr.dfy` and `repr_laws.dfy` (`Repr`, `ReprLaws`): the printer. A `Buffer`
  class holds the `String` that every `repr` appends to. Each `repr` is a method
  proved against a rendering function; `emit!` sequences are written out in the
  methods.
- `statement.dfy` and `statement_laws.dfy` (`Statements`, `StatementLaws`):
  `Statement::generate`.
- `parser.dfy` and `parser_laws.dfy` (`Parser`, `ParserLaws`): the normalisation
  inside `parse_iam_policy` after decoding, the `BASE` prelude and
  `Policy::serialize`.

Where the system's specification differs from the code, the model follows the
code:

- Only the `AWS` principal kind is read; other kinds are ignored.
- There are no statement identifiers. Every rule is named `permit` or `deny`.
- A statement with both `Action` and `NotAction` cannot be expressed, because
  the decoder has one field for both.
- Only `*` makes a pattern a glob; a `?` does not.
- The `Arn*`, `BinaryEquals` and `Null` operators are rejected as unsupported
  functions.
- A document whose `Statement` is a single object rather than a list is
  modelled as yielding no rules. The loop reads `statement.all().unwrap_or_default()`,
  and the model takes `all()` to be `None` for a single object, as its name
  suggests; `aws_iam` is not part of this model, so this rests on that
  assumption.

## Model

| member | source | states |
|---|---|---|
| Values.Elements | src/values.rs:13-17 | A `One` holds exactly its value and a `Many` its list, in order |
| Values.Inner | src/values.rs:31-49 | Dereferencing a scope gives the wrapped value whether the scope is `Id` or `Not` |
| Values.ScopeOf | src/values.rs:25-29 | Converting a value gives the positive scope `Id`, which dereferences back to that value |
| Values.Map | src/values.rs:51-66 | Succeeds iff `f` accepts every held value; keeps the `One`/`Many` shape and the length; the i-th result is `f` of the i-th value |
| Values.MapFirstError | src/values.rs:59-63 | A failing map reports the error of the first value `f` rejects; every earlier value is accepted |
| Values.ConditionValueEq | src/values.rs:71-83 | Two condition literals are equal iff they are the same variant with the same payload; mixed variants are never equal |
| Results.TryMap | src/values.rs:59-63 | The fold succeeds iff every element is accepted; the result has the input's length and holds `f` of each element in order |
| Results.TryMapFirstError | src/conditions.rs:114-133 | A failing fold stops at the first rejected element and reports its error |
| Results.TryMapErrorAt | src/extensions.rs:23-25 | When element `k` is the first rejected one, the fold's result is exactly its error |
| Results.Collect | src/parser.rs:80-155 | The statements compiled from index `k` on, when all succeed, are one per statement |
| Results.CollectOk | src/parser.rs:80-155 | Collecting succeeds iff every compiled statement from `k` on succeeds |
| Results.CollectAt | src/parser.rs:152 | The j-th collected value is the j-th compiled statement: document order is kept |
| Results.CollectFirstError | src/parser.rs:152 | A failed collection reports the error of the first failing statement, all earlier ones succeeding |
| Extensions.MapExpr | src/extensions.rs:17-28 | The loop equals the fold; on success the output has the input's length, so `[]` for `[]`, with `f(items[i])` at index i; on failure it returns the first failing element's error, all earlier elements having succeeded |
| Strings.FindOpenSpec | src/interpolation.rs:32 | `find("${")` returns the first position where `${` starts, and nothing only when none does |
| Strings.FindCharSpec | src/interpolation.rs:36 | `find('}')` returns the first position holding the character, and nothing only when it does not occur |
| Strings.FindLastChar | src/functions.rs:32 | `rsplit_once('.')` splits at the last `.`: the position holds a `.` with none after it; nothing means no `.` at all |
| Strings.FindLastCharJoin | src/functions.rs:32 | In `a.b` where `b` has no `.`, the last `.` is the one after `a` |
| Strings.DotSeparated | src/interpolation.rs:57-59 | Same length; every `:` and `/` becomes `.` and every other character is kept |
| Strings.SlashesToDots | src/conditions.rs:168-169 | Same length; every `/` becomes `.` and every other character is kept |
| Strings.SplitAfterPrefix | src/interpolation.rs:63-64 | Splitting `p` + separator + rest, when `p` has no separator, gives `p` followed by the pieces of the rest |
| Strings.ParseIntText | src/conditions.rs:161 | Parsing the decimal text of any `i64` gives that integer back |
| Expression.EveryItem | src/expression.rs:67-76 | `Expr::every` succeeds iff `f(item)` does; it binds `item` over `List(list)` with body `f` applied to that bound variable |
| Interpolation.SpecialIsEscape | src/interpolation.rs:93-100 | A reference is special iff its trimmed text is one of `*`, `?`, `$`, and then it stands for that character |
| Interpolation.ExtractQuotedSpec | src/interpolation.rs:115-127 | A quoted string is recognised iff the trimmed text has at least two characters and starts and ends with the same quote, `'` or `"`; the value is what lies between |
| Interpolation.NoCommaNoDefault | src/interpolation.rs:102-113 | Without a comma the whole text is the path and there is no default |
| Interpolation.DefaultAfterComma | src/interpolation.rs:103-109 | A default, when one is found, is the quoted text after the first comma |
| Interpolation.Validate | src/interpolation.rs:129-152 | `EmptyExpression` exactly for the empty text; every other rejection carries the rejected text |
| Interpolation.ValidateErrors | src/interpolation.rs:129-149 | The checks run in the source's order: an empty name is `EmptyExpression`; otherwise a `${` is `NestedInterpolation`, then a `}` is `InvalidCharacters`, then more than one `/` is `TooManySlashes`, then any other character outside a name is `InvalidCharacters` |
| Interpolation.ValidateAccepts | src/interpolation.rs:129-152 | Validation accepts exactly the names that are non-empty, hold at most one `/` and use only alphanumerics, `_`, `-`, `:`, `.`, `/` |
| Interpolation.VariablePath | src/interpolation.rs:53-59 | The path is `input.` followed by the name with every `:` and `/` turned into `.` |
| Interpolation.Assemble | src/interpolation.rs:90 | The result is a template exactly when some variable was collected, otherwise plain text |
| Interpolation.Substitute | src/interpolation.rs:21-91 | A template without `${` comes back unchanged as plain text; a template result holds at least one variable; every error is an interpolation error |
| Interpolation.StrExpr | src/expression.rs:59-61 | `Expr::str` yields a string expression free of statements, or an interpolation error |
| Interpolation.HoleOf | src/interpolation.rs:42-76 | A reference becomes a literal escape character, a statement-free variable read, or an interpolation error |
| Interpolation.ScanShape | src/interpolation.rs:31-88 | From any position, the loop's result is statement-free, a template holds a variable, and an error is an interpolation error |
| Interpolation.DefaultedAsWritten | src/interpolation.rs:61-70 | A defaulted variable is the call `object.get` with three arguments: the object, the path segments and the default |
| Interpolation.SplitVariablePath | src/interpolation.rs:63-64 | The first part of the split path is `input` and the rest are the name's segments |
| Interpolation.DefaultedAgrees | src/interpolation.rs:61-70 | For a valid name and a default without `}`, the two `?`s in building `object.get` never fire; the segments and the default stay plain strings |
| Interpolation.ScanUnclosed | src/interpolation.rs:80-83 | When no `}` follows a position, the rest of the template is copied verbatim, an unclosed `${` included |
| Interpolation.UnclosedStrExpr | src/expression.rs:59-61 | `Expr::str` of text without `}` is that text as a plain string |
| Interpolation.SubstituteVariables | src/interpolation.rs:21-91 | The scanning loop returns exactly the functional `Substitute` of the template |
| Interpolation.Step | src/interpolation.rs:31-88 | One pass of the loop either copies the rest and stops, or replaces one reference and moves strictly forward, or rejects the reference, each agreeing with the scan |
| Interpolation.NextReference | src/interpolation.rs:32-38 | The next `${` and the first `}` after it delimit the reference the scan handles next; without either, the rest is copied |
| Interpolation.ReferenceFound | src/interpolation.rs:32-38 | The `${` found from `pos` and the first `}` after it are in bounds and are the reference the scan handles next |
| Interpolation.ReplaceReference | src/interpolation.rs:40-79 | The text since the last reference and the replacement are appended, resuming past the `}`, or the reference's error is returned |
| Interpolation.ReferenceText | src/interpolation.rs:36-38 | The reference text ends before the first `}` and holds no `}` |
| Interpolation.ScanStops | src/interpolation.rs:80-87 | With no `${` ahead, or no `}` after it, the rest of the template is copied and scanning stops |
| Interpolation.ScanRejects | src/interpolation.rs:51 | A rejected reference ends the scan with its error |
| Interpolation.ScanAdvance | src/interpolation.rs:75-79 | An accepted reference appends the text before it and its replacement, and the scan resumes just past the `}` |
| Interpolation.ResolveHole | src/interpolation.rs:42-73 | The loop body for one reference computes exactly `HoleOf` |
| Interpolation.BuildVariable | src/interpolation.rs:53-73 | The character loop builds `VariablePath(name)`; without a default the result is that variable, with one it is the source's `object.get` |
| InterpolationLaws.HoleOfName | src/interpolation.rs:49-72 | A valid name reads the variable `input.` + dotted name |
| InterpolationLaws.NameIsNotSpecial | src/interpolation.rs:42-47 | A valid name is never taken for an escape |
| InterpolationLaws.NameHasNoDefault | src/interpolation.rs:102-113 | A valid name has no default and is its own path |
| InterpolationLaws.HoleOfEscape | src/interpolation.rs:93-100 | `${*}`, `${?}` and `${$}` stand for their character |
| InterpolationLaws.HoleOfStandard | src/interpolation.rs:42-76 | The transpiler's resolution maps escapes to their character, valid names to their input path, and quoted defaults to `object.get` |
| InterpolationLaws.ScanOverEscape | src/interpolation.rs:42-47 | An escape appends its character and no variable |
| InterpolationLaws.ScanOverVariable | src/interpolation.rs:75-79 | A reference that reads `e` appends `%s` to the text and `e` to the variables |
| InterpolationLaws.ScanOverName | src/interpolation.rs:40-79 | A reference to a valid name appends `%s` and the variable `input.` + dotted name |
| InterpolationLaws.ScanOverDefault | src/interpolation.rs:61-79 | A reference with a quoted default appends `%s` and the `object.get` with that default |
| InterpolationLaws.ScanShift | src/interpolation.rs:40 | Text without `$` is copied verbatim into the output |
| InterpolationLaws.ScanPiece | src/interpolation.rs:31-88 | Scanning one well-formed piece appends its format and its arguments |
| InterpolationLaws.ScanPieces | src/interpolation.rs:31-88 | Scanning well-formed pieces appends their formats and their arguments left to right |
| InterpolationLaws.ScanPrefix | src/interpolation.rs:31-88 | A template that starts with well-formed pieces reaches the end of them with their format and their variables collected |
| InterpolationLaws.ScanRendered | src/interpolation.rs:21-91 | For any resolution obeying the transpiler's laws, pieces followed by text without `}` give the pieces' format and variables |
| InterpolationLaws.SubstituteRendered | src/interpolation.rs:21-91 | Text, references, defaulted references and escapes, then text without `}`, become one `%s` per variable with the text between copied verbatim; the result is a template iff some variable was collected |
| InterpolationLaws.HoleOfRejected | src/interpolation.rs:49-51 | A reference without comma that validation rejects is rejected with that validation error |
| InterpolationLaws.ScanOverRejected | src/interpolation.rs:51 | A rejected reference fails the scan with its error |
| InterpolationLaws.ScanRejected | src/interpolation.rs:51 | After any well-formed prefix, a rejected reference fails the whole template whatever follows |
| InterpolationLaws.SubstituteRejects | src/interpolation.rs:129-152 | A reference rejected by validation fails the whole template with that validation error, whatever precedes or follows it |
| InterpolationLaws.QuotedTail | src/interpolation.rs:115-127 | A quoted default after a space trims to the quoted text and yields the text between the quotes |
| InterpolationLaws.DefaultParsed | src/interpolation.rs:102-113 | `name, 'd'` and `name, "d"` parse as the name with default `d` |
| InterpolationLaws.DefaultNotSpecial | src/interpolation.rs:42-47 | A defaulted reference is never taken for an escape |
| InterpolationLaws.HoleOfDefault | src/interpolation.rs:61-70 | `${name, 'd'}` reads `object.get(input, [segments of name], "d")` |
| InterpolationLaws.UnquotedNoDefault | src/interpolation.rs:107-112 | A comma not followed by a quoted default gives no default: the whole text is the path |
| InterpolationLaws.CommaIsInvalid | src/interpolation.rs:147-149 | A path with a comma, no `${`, no `}` and at most one `/` fails with `InvalidCharacters` |
| InterpolationLaws.UnquotedDefaultRejected | src/interpolation.rs:102-152 | An unquoted or mismatched-quote default is not recognised, and the reference fails with `InvalidCharacters` |
| InterpolationLaws.SubstituteRejectsUnquoted | src/interpolation.rs:21-152 | A template with such a reference fails with `InvalidCharacters` whatever precedes or follows it |
| InterpolationLaws.NestedAfterText | src/interpolation.rs:21-152 | A reference holding `${`, after `$`-free text, fails the whole template with `NestedInterpolation` of the reference text |
| InterpolationLaws.SlashesAfterText | src/interpolation.rs:21-152 | A `$`-free reference with more than one `/`, after `$`-free text, fails the whole template with `TooManySlashes` |
| InterpolationLaws.CharactersAfterText | src/interpolation.rs:21-152 | A `$`-free reference with at most one `/` and a character outside a name, after `$`-free text, fails the whole template with `InvalidCharacters` |
| InterpolationLaws.NestedRejected | src/interpolation.rs:201-205 | `Hello ${${username}}` fails with `NestedInterpolation("${username")` |
| InterpolationLaws.NestedInsideRejected | src/interpolation.rs:207-210 | `Test ${other${username}}` fails with `NestedInterpolation("other${username")` |
| InterpolationLaws.NestedBeforeTextRejected | src/interpolation.rs:212-215 | `Clean ${${var}text}` fails with `NestedInterpolation("${var")` |
| InterpolationLaws.SlashesRejected | src/interpolation.rs:219-224 | `${aws/user/name}` fails with `TooManySlashes` |
| InterpolationLaws.AtSignRejected | src/interpolation.rs:227-231 | `${user@name}` fails with `InvalidCharacters` |
| InterpolationLaws.SpaceRejected | src/interpolation.rs:233-236 | `${user name}` fails with `InvalidCharacters` |
| InterpolationLaws.EmptyRejected | src/interpolation.rs:240-245 | `${}` fails with `EmptyExpression` |
| Functions.Glob | src/functions.rs:6-8 | The call `glob.match(lhs, null, rhs)`, with the pattern first and the subject last |
| Functions.Lower | src/functions.rs:10-12 | The call `lower(e)` |
| Functions.CidrContains | src/functions.rs:14-16 | The call `net.cidr_contains(cidr, ip)`, with arguments in that order |
| Functions.Datetime | src/functions.rs:18-20 | The call `time.parse_rfc3339_ns(dt)` |
| Functions.ArnLike | src/functions.rs:22-24 | The call `arn_like(lhs, rhs)` |
| Functions.ToArray | src/functions.rs:26-38 | A non-variable comes back unchanged and unwrapped; a variable is wrapped in a one-argument `to_array`, and a variable without `.` is itself that argument |
| Functions.LastDot | src/functions.rs:32 | In `obj.key`, with no `.` in `key`, the last `.` is the one after `obj` |
| Functions.ToArrayDotted | src/functions.rs:32-37 | `a.b.c` becomes `to_array(object.get(a.b, "c", []))`: the path splits at its last dot |
| Conditions.Positive | src/conditions.rs:21-28 | Every negative operator has a positive partner that is handled by `compare` and is not negative |
| Conditions.NegativeNegatesPositive | src/conditions.rs:67-101 | Every negative operator builds exactly the negation of its positive partner: `!=` for `==`, or `not` of the same call |
| Conditions.OperandOrder | src/conditions.rs:67-101 | Ordering operators put the context value on the left; every other operator puts the policy value first |
| Conditions.ToBool | src/conditions.rs:136-145 | Accepts exactly booleans and the strings `true` and `false`, reading them as that boolean; anything else is `InvalidType("bool", v)` |
| Conditions.ToStr | src/conditions.rs:147-154 | Accepts only strings, substituting their variables; anything else is `InvalidType("string", v)` |
| Conditions.ToInt | src/conditions.rs:156-164 | Accepts exactly integers and strings that parse as `i64`, reading that integer; anything else is `InvalidType("integer", v)` |
| Conditions.ToIntOfText | src/conditions.rs:156-164 | The decimal text of an integer converts to that integer |
| Conditions.Resolve | src/conditions.rs:166-171 | A condition key reads a variable under `input.` |
| Conditions.ResolveAgreesWithVariables | src/conditions.rs:166-171 | `q:v` reads `input.q.v` and `k` reads `input.k`, with `/` as `.`: the same path as the policy variable `${q:v}` |
| Conditions.CompareEntry | src/conditions.rs:114-131 | One key translates iff the converter accepts all its values, and otherwise fails with the converter's first error; the result is statement-free |
| Conditions.CompareUnqualified | src/conditions.rs:118-128 | Without a quantifier: one value is compared directly; several match through `AnyIn(list)`, or for a negative operator through `every item in list` |
| Conditions.QualifiedSingleIsList | src/conditions.rs:118-126 | With a quantifier, a single value is treated as a one-element list |
| Conditions.CompareQualified | src/conditions.rs:30-51 | With a quantifier: a negative operator nests `every item in to_array(ctx) { every val in list {...} }`; `ForAnyValue` pairs `AnyIn(list)` with `AnyIn(to_array(ctx))`; `ForAllValues` is `every item in to_array(ctx)` over `AnyIn(list)` |
| Conditions.ContextArray | src/functions.rs:32-37 | An unqualified key without dots or slashes is read as an array through `object.get(input, key, [])` |
| Conditions.BoolEntry | src/conditions.rs:58-65 | A `Bool` key translates iff all its values are booleans, to an equality with the key's input path |
| Conditions.BuildCondition | src/conditions.rs:54-105 | One expression per key in input order or the first error; operators outside the handled list fail with `UnsupportedFunction` |
| Conditions.BoolIgnoresQuantifier | src/conditions.rs:58-65 | `Bool` translates the same with or without a quantifier |
| Conditions.ConditionErrors | src/conditions.rs:107-134 | A condition fails iff one of its keys has a value the converter rejects |
| Repr.Buffer.constructor | src/parser.rs:61 | A new buffer is empty |
| Repr.Buffer.PushStr | src/emit.rs:28-34 | Emitting a `&str` appends exactly that string |
| Repr.Buffer.Push | src/emit.rs:36-42 | Emitting a `char` appends exactly that character |
| Repr.ReprExpr | src/expression.rs:94-156 | `repr` only appends. On success the buffer gains exactly the expression's rendering; on failure it reports the rendering's error and the old text is still a prefix |
| Repr.ReprAnyIn | src/expression.rs:122-124 | Appends `e[_]` |
| Repr.ReprNeg | src/expression.rs:128-130 | Appends `not e` |
| Repr.ReprBinary | src/expression.rs:131-148 | Appends `lhs`, the operator symbol between spaces, then `rhs` |
| Repr.ReprEvery | src/expression.rs:149-151 | Appends `every v in domain { body }` |
| Repr.ReprRange | src/expression.rs:149-151 | Appends ` in domain { body }` |
| Repr.ReprItems | src/expression.rs:211-216 | Appends the items separated by `, ` |
| Repr.ReprCall | src/expression.rs:206-222 | Appends `name(a, b, ...)` |
| Repr.ReprList | src/expression.rs:224-239 | Appends `[a, b, ...]` |
| Repr.ReprStr | src/expression.rs:180-191 | A plain string is appended between double quotes, verbatim; a template is appended as `sprintf("format", [args])` |
| Repr.ReprStatement | src/expression.rs:98-117 | Appends the `permit if {` or `deny if {` header, one indented line per matcher, one per translated condition, then `}` |
| Repr.ReprLines | src/expression.rs:104-106 | Appends one two-space-indented line per expression |
| Repr.ReprBlocks | src/expression.rs:108-114 | Appends one indented line per translated condition, block by block, or stops at the first rejected condition |
| Repr.FlatExprRenders | src/expression.rs:94-156 | An expression without a statement node always prints: only `build_condition` can fail |
| ReprLaws.JoinedSnocFrom | src/expression.rs:211-216 | Appending an item to a non-empty list appends `, ` and its text: the separator goes between items only |
| ReprLaws.ListSnoc | src/expression.rs:224-239 | `[a, b]` extended with `c` prints `[a, b, c]` |
| ReprLaws.ListSmall | src/expression.rs:224-239 | The empty list prints `[]`; a one-item list prints no separator |
| ReprLaws.BlocksAgree | src/expression.rs:108-114 | The condition blocks print iff all of them translate, and otherwise fail with the first translation error |
| ReprLaws.StatementFailsIff | src/expression.rs:98-117 | A statement prints iff `build_condition` accepts all its conditions, and otherwise fails with the first rejection |
| Statements.InputVar | src/statement.rs:20-26 | Each scope reads a variable under `input.` |
| Statements.InputVarsDistinct | src/statement.rs:20-26 | The three scopes read three different variables |
| Statements.Scopes | src/statement.rs:42 | The scopes are visited principal, then action, then resource |
| Statements.Matcher | src/statement.rs:50-65 | A scope gives no matcher iff it is `*` or a list of only `*`, whether `Id` or `Not`; any matcher is statement-free |
| Statements.MatchOne | src/statement.rs:54-55 | A single pattern with `*` is a `glob.match`, under `not` when negated; without `*` it is `var == p`, or `var != p` when negated; only `*` makes a glob; it fails iff substitution fails |
| Statements.MatchMany | src/statement.rs:57-64 | A list with a `*`: a positive scope globs `AnyIn(list)` and a negated one is `every item in list { not glob }`. Without `*`: `AnyIn(list) == var`, or `every item in list { item != var }`. It fails iff some pattern's substitution fails |
| Statements.Present | src/statement.rs:67-69 | A matcher contributes one expression, and no matcher none |
| Statements.Matchers | src/statement.rs:42-70 | The matchers of the scopes, at most one per scope, all statement-free |
| Statements.Generate | src/statement.rs:39-73 | The loop fails with the first scope's error, or yields the statement with the matchers in scope order and the effect and conditions unchanged |
| StatementLaws.MatcherFails | src/statement.rs:50-64 | A scope fails iff it is not a wildcard and one of its patterns cannot have its variables substituted |
| StatementLaws.MatchersInOrder | src/statement.rs:42-69 | The matchers are the principal's, then the action's, then the resource's |
| StatementLaws.CompiledStatementPrints | src/statement.rs:72 | A compiled statement prints iff all its conditions translate, and otherwise fails with the first rejection |
| Parser.StatementList | src/parser.rs:80 | A list of statements is taken as it is; a single statement object gives none, on the assumption about `all()` stated below |
| Parser.EffectOf | src/parser.rs:81-84 | `Allow` and `Deny` map one to one |
| Parser.FieldScope | src/parser.rs:113-124 | `Any` is refused with `UnsupportedWildcard`; one item becomes `One`, a list `Many` in order, with the requested polarity |
| Parser.QStringTexts | src/parser.rs:101-108 | Qualified names become their `qualifier:value` text, element by element |
| Parser.PrincipalScope | src/parser.rs:86-97 | A missing principal is `Id(One("*"))`; `NotPrincipal` is `UnsupportedNegation`; an `AWS` wildcard is `UnsupportedPrincipalType`; otherwise a positive scope |
| Parser.ActionScope | src/parser.rs:99-111 | `Action` is positive and `NotAction` negated; `Any` is refused; one item is `One` and a list is `Many` of the names' text, in order |
| Parser.ResourceScope | src/parser.rs:113-125 | `Resource` is positive and `NotResource` negated; `Any` is refused; one item is `One` and a list is `Many`, in order |
| Parser.ValuesOf | src/parser.rs:133-138 | A list of condition values becomes `Many` and a single value `One` |
| Parser.Attributes | src/parser.rs:130-139 | One entry per condition key, in key order, with its values normalised |
| Parser.ConditionsOf | src/parser.rs:127-142 | One block per operator, in order, each with its keys; no condition means no blocks |
| Parser.NormalizeAttributes | src/parser.rs:130-139 | The inner loop computes exactly `Attributes` |
| Parser.NormalizeConditions | src/parser.rs:127-142 | The outer loop computes exactly `ConditionsOf` |
| Parser.Normalize | src/parser.rs:86-150 | Succeeds iff principal, action and resource are all accepted, checked in that order with the first refusal returned; the effect and conditions are carried over |
| Parser.Compile | src/parser.rs:144-152 | A compiled statement keeps its effect and conditions, and its matchers are statement-free |
| Parser.ParseIamPolicy | src/parser.rs:78-155 | The statement loop returns exactly the in-order compilation of all statements, or the first failure |
| Parser.Serialize | src/parser.rs:58-71 | The output is the prelude, a newline, then each statement's rendering, or the first rendering error |
| ParserLaws.ParsedStatements | src/parser.rs:80-155 | A parsed document has one `Statement` per IAM statement, in document order, each with its statement's effect and normalised conditions |
| ParserLaws.MissingPrincipal | src/parser.rs:86-87 | A statement with no principal places no constraint on `input.principal`: its matchers are the action's and the resource's only |
| ParserLaws.RenderAllAgrees | src/parser.rs:65-67 | The statements print iff each one does, concatenated in order, and otherwise fail with the first error |
| ParserLaws.SerializedText | src/parser.rs:58-71 | The module text is the prelude, a newline and the statements' renderings concatenated, exactly when all of them print |
| ParserLaws.ModuleDecisions | src/parser.rs:12-26 | For any statements, a module that prints declares `allow`, `deny` and `permit` false by default and the rule that `allow` needs `permit` and `not deny` |

## Left out

- JSON decoding (`aws_iam::io::read_from_reader`) and its `PolicyError` and `JsonError`: the model starts from the decoded datatypes in `Iam`. `aws_iam` is not part of this model.
- src/lib.rs, the `regorus` engine wrappers: the model has no evaluator. It does not prove what a generated rule means at run time, so the "any value matches" and "no value matches" semantics of the quantified shapes are not proved.
- The meaning of the Rego built-ins `glob.match`, `net.cidr_contains`, `time.parse_rfc3339_ns`, `lower`, `to_array` and `arn_like`: they are call names only.
- `Float` condition values: they are floating point, and no translation path reads them.
- Conditions.ToBool: `InvalidType` carries the rejected value itself rather than its `Debug` text, since the text is formatting only.
- Conditions.ToStr: `InvalidType` carries the rejected value itself rather than its `Debug` text.
- Conditions.ToInt: `InvalidType` carries the rejected value itself rather than its `Debug` text, or the raw string for a string that does not parse.
- Strings.IsAlphanumeric: Unicode `is_alphanumeric` is restricted to ASCII letters and digits, so non-ASCII letters are refused in variable names where Rust accepts them.
- Strings.IsWhitespace: the Unicode White_Space set is written out; no other Unicode property is modelled.
- Strings are sequences of characters. Rust's byte offsets agree with character positions here because `${`, `}` and `,` are ASCII.
- Panicking `unwrap`s become preconditions. `Parser.PrincipalScope` and everything above it require the `AWS` key in a principal entry. `From<String> for Str` is not modelled.
- `FmtError` from `write!`/`writeln!` into a `String`: it cannot occur, and the model never raises it.
- Repr.ReprExpr and the other `repr` methods: on failure, the buffer's partial contents are only said to extend the old text; the caller drops them.
- Interpolation.SubstituteVariables: the source keeps `last_end` beside `pos`, but both are set together past every reference, so the model uses one index for both.
- The `Emit` trait and `emit!` macro are folded into the `repr` methods as sequences of appends; `Emit` for `Expr` and `&[Expr]` is the `repr` call itself.
- Extensions.MapExpr: that `f` is not applied after the first failure is visible only as the early return; a pure model cannot observe the calls.
- Condition operators and keys are taken in the order the decoder yields them.
- Parser.StatementList: assumes that `aws_iam`'s `OneOrAll::all` is `None` for a single statement object, so such a document gives no rules. `aws_iam` is not part of this model; if `all()` instead wraps the single statement, that document would give one rule.
