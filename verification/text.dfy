/** The handful of Python string operations the calendar relies on: decimal
    rendering (`str(n)`, `f"{n:02d}"`), parsing of digit strings (`int(s)` on
    ASCII digits), `strip()`, `lower()` and `capitalize()`. */
module Text {

  predicate IsDigit(c: char) {
    '0' <= c <= '9'
  }

  predicate AllDigits(s: string) {
    forall i :: 0 <= i < |s| ==> IsDigit(s[i])
  }

  function DigitChar(n: int): (c: char)
    requires 0 <= n < 10
    ensures IsDigit(c)
  {
    ('0' as int + n) as char
  }

  function DigitValue(c: char): (n: int)
    requires IsDigit(c)
    ensures 0 <= n < 10 && DigitChar(n) == c
  {
    c as int - '0' as int
  }

  /** `int(s)` for a string of ASCII digits (leading zeros allowed, as in Python). */
  function ParseDigits(s: string): nat
    requires AllDigits(s)
  {
    if s == [] then 0 else ParseDigits(s[..|s| - 1]) * 10 + DigitValue(s[|s| - 1])
  }

  /** `str(n)` for a non-negative integer: shortest decimal form. */
  function NatToString(n: nat): (s: string)
    ensures |s| >= 1 && AllDigits(s)
    ensures ParseDigits(s) == n
    ensures s[0] == '0' ==> s == "0"
  {
    if n < 10 then [DigitChar(n)]
    else
      var prefix := NatToString(n / 10);
      var s := prefix + [DigitChar(n % 10)];
      assert s[..|s| - 1] == prefix;
      s
  }

  /** Rendering is injective: the decimal text of a number determines it. */
  lemma NatToStringInjective(a: nat, b: nat)
    requires NatToString(a) == NatToString(b)
    ensures a == b
  {
  }

  /** `f"{n:02d}"` for 0 <= n < 100. */
  function Pad2(n: int): (s: string)
    requires 0 <= n < 100
    ensures |s| == 2 && AllDigits(s)
    ensures DigitValue(s[0]) * 10 + DigitValue(s[1]) == n
  {
    [DigitChar(n / 10), DigitChar(n % 10)]
  }

  /** Python's `str.isspace()`: Unicode Zs characters and the bidi classes WS, B and S. */
  predicate IsSpace(c: char) {
    || '\t' <= c <= '\r'
    || '\U{1C}' <= c <= '\U{1F}'
    || c == ' ' || c == '\U{85}' || c == '\U{A0}' || c == '\U{1680}'
    || '\U{2000}' <= c <= '\U{200A}'
    || c == '\U{2028}' || c == '\U{2029}' || c == '\U{202F}' || c == '\U{205F}' || c == '\U{3000}'
  }

  predicate AllSpace(s: string) {
    forall i :: 0 <= i < |s| ==> IsSpace(s[i])
  }

  /** Neither starts nor ends with whitespace. */
  predicate Trimmed(s: string) {
    s == [] || (!IsSpace(s[0]) && !IsSpace(s[|s| - 1]))
  }

  function StripLeading(s: string): (r: string)
    ensures |r| <= |s| && r == s[|s| - |r|..]
    ensures AllSpace(s[..|s| - |r|])
    ensures r == [] || !IsSpace(r[0])
  {
    if s != [] && IsSpace(s[0]) then StripLeading(s[1..]) else s
  }

  function StripTrailing(s: string): (r: string)
    ensures |r| <= |s| && r == s[..|r|]
    ensures AllSpace(s[|r|..])
    ensures r == [] || !IsSpace(r[|r| - 1])
  {
    if s != [] && IsSpace(s[|s| - 1]) then
      var r := StripTrailing(s[..|s| - 1]);
      assert s[|r|..] == s[..|s| - 1][|r|..] + [s[|s| - 1]];
      r
    else s
  }

  /** `str.strip()` with no argument. */
  function Strip(s: string): (r: string)
    ensures Trimmed(r)
    ensures r == [] <==> AllSpace(s)
  {
    var l := StripLeading(s);
    var r := StripTrailing(l);
    assert r != [] ==> r[0] == l[0];
    assert l == [] ==> s == s[..|s| - |l|];
    r
  }

  lemma {:induction false} StripLeadingSpaces(w: string, t: string)
    requires AllSpace(w) && (t == [] || !IsSpace(t[0]))
    ensures StripLeading(w + t) == t
    decreases |w|
  {
    if w != [] {
      assert (w + t)[1..] == w[1..] + t;
      StripLeadingSpaces(w[1..], t);
    } else {
      assert w + t == t;
    }
  }

  lemma {:induction false} StripTrailingSpaces(t: string, w: string)
    requires AllSpace(w) && (t == [] || !IsSpace(t[|t| - 1]))
    ensures StripTrailing(t + w) == t
    decreases |w|
  {
    if w != [] {
      assert (t + w)[..|t + w| - 1] == t + w[..|w| - 1];
      StripTrailingSpaces(t, w[..|w| - 1]);
    } else {
      assert t + w == t;
    }
  }

  /** Stripping removes exactly the surrounding whitespace of a trimmed text. */
  lemma StripSurrounded(lead: string, t: string, trail: string)
    requires AllSpace(lead) && AllSpace(trail) && Trimmed(t)
    ensures Strip(lead + t + trail) == t
  {
    if t == [] {
      assert AllSpace(lead + t + trail);
    } else {
      assert lead + t + trail == lead + (t + trail);
      assert (t + trail)[0] == t[0];
      StripLeadingSpaces(lead, t + trail);
      StripTrailingSpaces(t, trail);
    }
  }

  /** A trimmed text is its own stripped form. */
  lemma StripTrimmed(t: string)
    requires Trimmed(t)
    ensures Strip(t) == t
  {
    if t != [] {
      assert [] + t == t && t + [] == t;
      StripLeadingSpaces([], t);
      StripTrailingSpaces(t, []);
    }
  }

  lemma TrimmedJoin(a: string, b: string)
    requires a != [] && b != [] && !IsSpace(a[0]) && !IsSpace(b[|b| - 1])
    ensures Trimmed(a + b)
  {
    assert (a + b)[0] == a[0];
    assert (a + b)[|a + b| - 1] == b[|b| - 1];
  }

  function LowerChar(c: char): char {
    if 'A' <= c <= 'Z' then (c as int + 32) as char else c
  }

  function UpperChar(c: char): char {
    if 'a' <= c <= 'z' then (c as int - 32) as char else c
  }

  /** `str.lower()` restricted to ASCII letters. */
  function Lower(s: string): (r: string)
    ensures |r| == |s|
    ensures forall i :: 0 <= i < |s| ==> r[i] == LowerChar(s[i])
  {
    if s == [] then [] else [LowerChar(s[0])] + Lower(s[1..])
  }

  /** `str.capitalize()` restricted to ASCII letters: first letter upper, the rest lower. */
  function Capitalize(s: string): (r: string)
    ensures |r| == |s|
    ensures s != [] ==> r[0] == UpperChar(s[0]) && r[1..] == Lower(s[1..])
  {
    if s == [] then [] else [UpperChar(s[0])] + Lower(s[1..])
  }

  /** Position of the first `sep` in `s`, or |s| when there is none. */
  function FirstIndex(s: string, sep: char): (i: nat)
    ensures i <= |s|
  {
    if s == [] then 0 else if s[0] == sep then 0 else 1 + FirstIndex(s[1..], sep)
  }

  lemma {:induction false} FirstIndexAfter(u: string, x: string, sep: char)
    requires sep !in u
    ensures FirstIndex(u + [sep] + x, sep) == |u|
    decreases |u|
  {
    if u != [] {
      assert (u + [sep] + x)[1..] == u[1..] + [sep] + x;
      FirstIndexAfter(u[1..], x, sep);
    }
  }

  /** Splitting at the first separator: a separator-free prefix is determined. */
  lemma SplitAtSeparator(u: string, x: string, v: string, y: string, sep: char)
    requires sep !in u && sep !in v
    requires u + [sep] + x == v + [sep] + y
    ensures u == v && x == y
  {
    FirstIndexAfter(u, x, sep);
    FirstIndexAfter(v, y, sep);
    assert u == (u + [sep] + x)[..|u|];
    assert v == (v + [sep] + y)[..|v|];
    assert x == (u + [sep] + x)[|u| + 1..];
    assert y == (v + [sep] + y)[|v| + 1..];
  }

  /** Length of the run of ASCII digits that starts `s`. */
  function DigitRun(s: string): (n: nat)
    ensures n <= |s|
  {
    if s != [] && IsDigit(s[0]) then 1 + DigitRun(s[1..]) else 0
  }

  lemma {:induction false} DigitRunAfter(y: string, rest: string)
    requires AllDigits(y) && (rest == [] || !IsDigit(rest[0]))
    ensures DigitRun(y + rest) == |y|
    decreases |y|
  {
    if y != [] {
      assert (y + rest)[1..] == y[1..] + rest;
      DigitRunAfter(y[1..], rest);
    } else {
      assert y + rest == rest;
    }
  }

  /** A digit string followed by text that does not start with a digit splits back uniquely. */
  lemma SplitAfterDigits(y: string, rest: string, y': string, rest': string)
    requires AllDigits(y) && (rest == [] || !IsDigit(rest[0]))
    requires AllDigits(y') && (rest' == [] || !IsDigit(rest'[0]))
    requires y + rest == y' + rest'
    ensures y == y' && rest == rest'
  {
    DigitRunAfter(y, rest);
    DigitRunAfter(y', rest');
    assert y == (y + rest)[..|y|] && y' == (y' + rest')[..|y'|];
    assert rest == (y + rest)[|y|..] && rest' == (y' + rest')[|y'|..];
  }

  /** Four space-separated fields, the last one digits, followed by a tail
      that does not start with a digit, split back uniquely. */
  lemma SplitFields(a: string, b: string, c: string, y: string, rest: string,
                    a': string, b': string, c': string, y': string, rest': string)
    requires ' ' !in a && ' ' !in b && ' ' !in c && ' ' !in a' && ' ' !in b' && ' ' !in c'
    requires AllDigits(y) && (rest == [] || !IsDigit(rest[0]))
    requires AllDigits(y') && (rest' == [] || !IsDigit(rest'[0]))
    requires a + " " + b + " " + c + " " + y + rest == a' + " " + b' + " " + c' + " " + y' + rest'
    ensures a == a' && b == b' && c == c' && y == y' && rest == rest'
  {
    assert a + " " + b + " " + c + " " + y + rest == a + [' '] + (b + [' '] + (c + [' '] + (y + rest)));
    assert a' + " " + b' + " " + c' + " " + y' + rest' == a' + [' '] + (b' + [' '] + (c' + [' '] + (y' + rest')));
    SplitAtSeparator(a, b + [' '] + (c + [' '] + (y + rest)), a', b' + [' '] + (c' + [' '] + (y' + rest')), ' ');
    SplitAtSeparator(b, c + [' '] + (y + rest), b', c' + [' '] + (y' + rest'), ' ');
    SplitAtSeparator(c, y + rest, c', y' + rest', ' ');
    SplitAfterDigits(y, rest, y', rest');
  }

  lemma DropPrefix(p: string, x: string, y: string)
    requires p + x == p + y
    ensures x == y
  {
    assert x == (p + x)[|p|..] && y == (p + y)[|p|..];
  }
}
