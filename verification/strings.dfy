/** The handful of `str` operations the transpiler relies on, over `seq<char>`.
    The needles the source searches for (`${`, `}`, `.`, `,`) are ASCII, so
    character positions here stand for the byte offsets of the source. */
module Strings {
  import opened Iam

  /** `${` starts at position `i` of `s`. */
  predicate OpensAt(s: string, i: int)
  {
    0 <= i && i + 1 < |s| && s[i] == '$' && s[i + 1] == '{'
  }

  /** `s.find("${")`: the first position where `${` starts. */
  function FindOpen(s: string): (r: Option<nat>)
    ensures r.Some? ==> r.value + 2 <= |s|
    decreases |s|
  {
    if |s| < 2 then None
    else if s[0] == '$' && s[1] == '{' then Some(0)
    else
      match FindOpen(s[1..])
      case None => None
      case Some(i) => Some(i + 1)
  }

  /** `FindOpen` finds the first `${`, and finds nothing only when there is none. */
  lemma {:induction false} FindOpenSpec(s: string)
    ensures FindOpen(s).Some? ==>
              OpensAt(s, FindOpen(s).value) && forall j :: 0 <= j < FindOpen(s).value ==> !OpensAt(s, j)
    ensures FindOpen(s).None? ==> forall j :: !OpensAt(s, j)
    decreases |s|
  {
    if |s| >= 2 && !(s[0] == '$' && s[1] == '{') {
      FindOpenSpec(s[1..]);
      forall j | 1 <= j
        ensures OpensAt(s, j) == OpensAt(s[1..], j - 1)
      {
      }
    }
  }

  /** Where `${` first starts is what `FindOpen` returns. */
  lemma FindOpenAt(s: string, i: nat)
    requires OpensAt(s, i) && forall j :: 0 <= j < i ==> !OpensAt(s, j)
    ensures FindOpen(s) == Some(i)
  {
    FindOpenSpec(s);
  }

  /** `s.contains("${")`. */
  predicate HasOpen(s: string)
  {
    FindOpen(s).Some?
  }

  /** `s` holds `c` at position `i`. */
  predicate CharAt(s: string, i: int, c: char)
  {
    0 <= i < |s| && s[i] == c
  }

  /** `c` occurs nowhere in `s`. */
  predicate Lacks(s: string, c: char)
  {
    forall i :: 0 <= i < |s| ==> s[i] != c
  }

  /** `s.find(c)`: the first position holding `c`. */
  function FindChar(s: string, c: char): (r: Option<nat>)
    ensures r.Some? ==> r.value < |s|
    decreases |s|
  {
    if s == [] then None
    else if s[0] == c then Some(0)
    else
      match FindChar(s[1..], c)
      case None => None
      case Some(i) => Some(i + 1)
  }

  /** `FindChar` finds the first `c`, and finds nothing only when there is none. */
  lemma {:induction false} FindCharSpec(s: string, c: char)
    ensures FindChar(s, c).Some? ==>
              CharAt(s, FindChar(s, c).value, c) && forall j :: 0 <= j < FindChar(s, c).value ==> !CharAt(s, j, c)
    ensures FindChar(s, c).None? ==> forall j :: !CharAt(s, j, c)
    decreases |s|
  {
    if s != [] && s[0] != c {
      FindCharSpec(s[1..], c);
      forall j | 1 <= j
        ensures CharAt(s, j, c) == CharAt(s[1..], j - 1, c)
      {
      }
    }
  }

  /** Where `c` first occurs is what `FindChar` returns. */
  lemma FindCharAt(s: string, c: char, i: nat)
    requires CharAt(s, i, c) && forall j :: 0 <= j < i ==> !CharAt(s, j, c)
    ensures FindChar(s, c) == Some(i)
  {
    FindCharSpec(s, c);
  }

  /** `FindChar` finds nothing exactly when `c` does not occur. */
  lemma FindCharNone(s: string, c: char)
    ensures FindChar(s, c).None? <==> Lacks(s, c)
  {
    FindCharSpec(s, c);
    if !Lacks(s, c) {
      var k :| 0 <= k < |s| && s[k] == c;
      assert CharAt(s, k, c);
    }
  }

  /** Last position holding `c` (`rfind`). */
  function FindLastChar(s: string, c: char): (r: Option<nat>)
    ensures r.Some? ==> r.value < |s| && s[r.value] == c && forall j :: r.value < j < |s| ==> s[j] != c
    ensures r.None? ==> Lacks(s, c)
  {
    if s == [] then None
    else if s[|s| - 1] == c then Some(|s| - 1)
    else FindLastChar(s[..|s| - 1], c)
  }

  /** The last position holding `c` is what `FindLastChar` returns. */
  lemma {:induction false} FindLastCharAt(s: string, c: char, i: nat)
    requires i < |s| && s[i] == c && forall j :: i < j < |s| ==> s[j] != c
    ensures FindLastChar(s, c) == Some(i)
    decreases |s|
  {
    if i < |s| - 1 {
      var init := s[..|s| - 1];
      forall j | i < j < |init|
        ensures init[j] != c
      {
        assert init[j] == s[j];
      }
      FindLastCharAt(init, c, i);
    }
  }

  /** The last `c` of `a`, `c`, `b` is the one between them when `b` has none. */
  lemma {:induction false} FindLastCharJoin(a: string, c: char, b: string)
    requires Lacks(b, c)
    ensures FindLastChar(a + [c] + b, c) == Some(|a|)
    decreases |b|
  {
    var s := a + [c] + b;
    if b == [] {
      assert s == a + [c];
    } else {
      var init := b[..|b| - 1];
      assert s[|s| - 1] == b[|b| - 1];
      assert s[..|s| - 1] == a + [c] + init;
      FindLastCharJoin(a, c, init);
    }
  }

  /** `char::is_whitespace`: the Unicode White_Space property. */
  predicate IsWhitespace(c: char)
  {
    || ('\t' <= c <= '\r') || c == ' ' || c == '\U{85}' || c == '\U{A0}' || c == '\U{1680}'
    || ('\U{2000}' <= c <= '\U{200A}') || c == '\U{2028}' || c == '\U{2029}' || c == '\U{202F}'
    || c == '\U{205F}' || c == '\U{3000}'
  }

  function TrimStart(s: string): (r: string)
    ensures |r| <= |s|
    ensures r != [] ==> !IsWhitespace(r[0])
  {
    if s != [] && IsWhitespace(s[0]) then TrimStart(s[1..]) else s
  }

  function TrimEnd(s: string): (r: string)
    ensures |r| <= |s|
    ensures r != [] ==> !IsWhitespace(r[|r| - 1])
  {
    if s != [] && IsWhitespace(s[|s| - 1]) then TrimEnd(s[..|s| - 1]) else s
  }

  /** `str::trim`. */
  function Trim(s: string): (r: string)
    ensures |r| <= |s|
  {
    TrimEnd(TrimStart(s))
  }

  lemma {:induction false} TrimNoWhitespace(s: string)
    requires forall i :: 0 <= i < |s| ==> !IsWhitespace(s[i])
    ensures Trim(s) == s
  {
  }

  /** Text that neither starts nor ends with whitespace is its own trimmed form. */
  lemma TrimKeeps(s: string)
    requires s != [] && !IsWhitespace(s[0]) && !IsWhitespace(s[|s| - 1])
    ensures TrimStart(s) == s && Trim(s) == s
  {
    assert TrimStart(s) == s;
  }

  /** `s.split(c)`: the pieces between occurrences of `c`. */
  function Split(s: string, c: char): (r: seq<string>)
    ensures |r| >= 1
    ensures forall i :: 0 <= i < |r| ==> |r[i]| <= |s|
    decreases |s|
  {
    match FindChar(s, c)
    case None => [s]
    case Some(i) => [s[..i]] + Split(s[i + 1..], c)
  }

  /** A character absent from `s` is absent from every piece of it. */
  lemma {:induction false} SplitAvoids(s: string, sep: char, c: char)
    requires Lacks(s, c)
    ensures forall i :: 0 <= i < |Split(s, sep)| ==> Lacks(Split(s, sep)[i], c)
    decreases |s|
  {
    match FindChar(s, sep)
    case None =>
    case Some(k) =>
      SliceAvoids(s, 0, k, c);
      SliceAvoids(s, k + 1, |s|, c);
      SplitAvoids(s[k + 1..], sep, c);
  }

  /** A character absent from `s` is absent from every slice of it. */
  lemma SliceAvoids(s: string, i: nat, j: nat, c: char)
    requires i <= j <= |s| && Lacks(s, c)
    ensures Lacks(s[i..j], c)
  {
    forall k | 0 <= k < j - i
      ensures s[i..j][k] != c
    {
      assert s[i..j][k] == s[i + k];
    }
  }

  /** Trimming the start leaves a suffix. */
  lemma {:induction false} TrimStartSuffix(s: string)
    ensures TrimStart(s) == s[|s| - |TrimStart(s)|..]
    decreases |s|
  {
    if s != [] && IsWhitespace(s[0]) {
      TrimStartSuffix(s[1..]);
    }
  }

  /** Trimming the end leaves a prefix. */
  lemma {:induction false} TrimEndPrefix(s: string)
    ensures TrimEnd(s) == s[..|TrimEnd(s)|]
    decreases |s|
  {
    if s != [] && IsWhitespace(s[|s| - 1]) {
      TrimEndPrefix(s[..|s| - 1]);
    }
  }

  /** A character absent from `s` is absent from its trimmed form. */
  lemma TrimAvoids(s: string, c: char)
    requires Lacks(s, c)
    ensures Lacks(Trim(s), c)
  {
    var start := TrimStart(s);
    TrimStartSuffix(s);
    TrimEndPrefix(start);
    SliceAvoids(s, |s| - |start|, |s|, c);
    SliceAvoids(start, 0, |TrimEnd(start)|, c);
  }

  /** Splitting after a first piece that does not hold the separator. */
  lemma SplitAfterPrefix(p: string, c: char, rest: string)
    requires Lacks(p, c)
    ensures Split(p + [c] + rest, c) == [p] + Split(rest, c)
  {
    var s := p + [c] + rest;
    forall j | 0 <= j < |p|
      ensures !CharAt(s, j, c)
    {
      assert s[j] == p[j];
    }
    FindCharAt(s, c, |p|);
    assert s[..|p|] == p;
    assert s[|p| + 1..] == rest;
  }

  /** Every character of `s` that is `:` or `/` replaced by `.`. */
  function DotSeparated(s: string): (r: string)
    ensures |r| == |s|
    ensures forall i :: 0 <= i < |s| ==> r[i] == if s[i] == ':' || s[i] == '/' then '.' else s[i]
  {
    seq(|s|, i requires 0 <= i < |s| => if s[i] == ':' || s[i] == '/' then '.' else s[i])
  }

  /** `s.replace('/', ".")`. */
  function SlashesToDots(s: string): (r: string)
    ensures |r| == |s|
    ensures forall i :: 0 <= i < |s| ==> r[i] == if s[i] == '/' then '.' else s[i]
  {
    seq(|s|, i requires 0 <= i < |s| => if s[i] == '/' then '.' else s[i])
  }

  /** Number of occurrences of `c` in `s`. */
  function Count(s: string, c: char): nat
  {
    if s == [] then 0 else (if s[0] == c then 1 else 0) + Count(s[1..], c)
  }

  /** Occurrences add up over a concatenation. */
  lemma {:induction false} CountAppend(a: string, b: string, c: char)
    ensures Count(a + b, c) == Count(a, c) + Count(b, c)
    decreases |a|
  {
    if a == [] {
      assert a + b == b;
    } else {
      assert (a + b)[1..] == a[1..] + b;
      CountAppend(a[1..], b, c);
    }
  }

  /** A text without `c` counts none. */
  lemma {:induction false} LacksCount(s: string, c: char)
    requires Lacks(s, c)
    ensures Count(s, c) == 0
    decreases |s|
  {
    if s != [] {
      LacksCount(s[1..], c);
    }
  }

  /** A position holding `c` is counted. */
  lemma {:induction false} CountAt(s: string, c: char, i: nat)
    requires i < |s| && s[i] == c
    ensures Count(s, c) >= 1
    decreases i
  {
    if i > 0 {
      CountAt(s[1..], c, i - 1);
    }
  }

  /** Two positions holding `c` are both counted. */
  lemma CountTwo(s: string, c: char, i: nat, j: nat)
    requires i < j < |s| && s[i] == c && s[j] == c
    ensures Count(s, c) >= 2
  {
    assert s == s[..j] + s[j..];
    CountAppend(s[..j], s[j..], c);
    CountAt(s[..j], c, i);
    CountAt(s[j..], c, 0);
  }

  /** `char::is_alphanumeric`, restricted to ASCII letters and digits. */
  predicate IsAlphanumeric(c: char)
  {
    ('a' <= c <= 'z') || ('A' <= c <= 'Z') || ('0' <= c <= '9')
  }

  predicate IsDigit(c: char) { '0' <= c <= '9' }

  function Digits(s: string): (r: nat)
    requires forall i :: 0 <= i < |s| ==> IsDigit(s[i])
  {
    if s == [] then 0
    else
      assert IsDigit(s[|s| - 1]);
      Digits(s[..|s| - 1]) * 10 + (s[|s| - 1] as int - '0' as int)
  }

  /** `str::parse::<i64>`: an optional sign, at least one ASCII digit, and a value in range. */
  function ParseI64(s: string): (r: Option<i64>)
  {
    var (negative, body) :=
      if |s| > 0 && (s[0] == '-' || s[0] == '+') then (s[0] == '-', s[1..]) else (false, s);
    if body == [] || exists i :: 0 <= i < |body| && !IsDigit(body[i]) then None
    else
      var n: int := if negative then 0 - Digits(body) else Digits(body);
      if -0x8000_0000_0000_0000 <= n < 0x8000_0000_0000_0000 then Some(n as i64) else None
  }

  function DigitText(n: nat): (r: string)
    ensures |r| >= 1 && forall i :: 0 <= i < |r| ==> IsDigit(r[i])
  {
    var d := [(('0' as int) + n % 10) as char];
    if n < 10 then d else DigitText(n / 10) + d
  }

  /** Decimal text of an integer (`{}` formatting of an `i64`). */
  function IntText(i: int): string
  {
    if i < 0 then "-" + DigitText(-i) else DigitText(i)
  }

  lemma {:induction false} DigitsOfText(n: nat)
    ensures Digits(DigitText(n)) == n
    decreases n
  {
    if n >= 10 {
      var s := DigitText(n);
      DigitsOfText(n / 10);
      assert s[..|s| - 1] == DigitText(n / 10);
    }
  }

  /** Parsing the decimal text of an `i64` gives it back. */
  lemma ParseIntText(i: i64)
    ensures ParseI64(IntText(i)) == Some(i)
  {
    var n: int := i;
    var magnitude: nat := if n < 0 then -n else n;
    var text := IntText(i);
    DigitsOfText(magnitude);
    if n < 0 {
      assert text[0] == '-' && text[1..] == DigitText(magnitude);
    } else {
      assert text == DigitText(magnitude) && IsDigit(text[0]);
    }
  }

  /** Decimal text of a boolean (`{}` formatting of a `bool`). */
  function BoolText(b: bool): string
  {
    if b then "true" else "false"
  }

  /** The elements of `pieces` concatenated. */
  function Concat(pieces: seq<string>): string
  {
    if pieces == [] then "" else pieces[0] + Concat(pieces[1..])
  }

  /** Regrouping a concatenation. */
  lemma AppendAssoc<T>(a: seq<T>, b: seq<T>, c: seq<T>)
    ensures a + b + c == a + (b + c)
  {
  }

  lemma EmptyPrefix<T>(s: seq<T>)
    ensures [] + s == s
  {
  }

  /** The two leading parts of a three-part concatenation, sliced back out. */
  lemma SliceMiddle<T>(a: seq<T>, mid: seq<T>, rest: seq<T>)
    ensures (a + mid + rest)[..|a|] == a
    ensures (a + mid + rest)[|a|..|a| + |mid|] == mid
  {
    assert (a + mid + rest)[..|a|] == a;
    assert (a + mid + rest)[|a|..|a| + |mid|] == mid;
  }

  /** A prefix of a prefix is a prefix. */
  lemma PrefixGrows<T>(before: seq<T>, x: seq<T>, after: seq<T>)
    requires before + x <= after
    ensures before <= after
  {
    assert after[..|before|] == (before + x)[..|before|];
  }
}
