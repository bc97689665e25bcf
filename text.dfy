/** String primitives of the JavaScript runtime that the data-access layer and
    the upload handler rely on: `toUpperCase` (ASCII part), `trim`, `startsWith`,
    `includes`, `indexOf`, first-match `replace` with a string pattern, and the
    decimal rendering of a non-negative integer inside a template literal. */
module Text {
  import opened Wrappers

  // ---------------------------------------------------------------------------
  // Upper-casing (ASCII letters only)

  function UpperChar(c: char): char
  {
    if 'a' <= c <= 'z' then (c as int - 32) as char else c
  }

  /** `s.toUpperCase()` restricted to ASCII letters; every other character is kept. */
  function Upper(s: string): string
  {
    seq(|s|, i requires 0 <= i < |s| => UpperChar(s[i]))
  }

  lemma UpperConcat(a: string, b: string)
    ensures Upper(a + b) == Upper(a) + Upper(b)
  {
  }

  // ---------------------------------------------------------------------------
  // Whitespace and trim

  /** The characters ECMAScript's `String.prototype.trim` strips: the WhiteSpace
      production (TAB, VT, FF, ZWNBSP and the Zs category) and LineTerminator. */
  predicate IsJsWhitespace(c: char)
  {
    var n := c as int;
    n == 0x09 || n == 0x0B || n == 0x0C || n == 0x20 || n == 0xA0 || n == 0xFEFF ||
    n == 0x1680 || (0x2000 <= n <= 0x200A) || n == 0x202F || n == 0x205F || n == 0x3000 ||
    n == 0x0A || n == 0x0D || n == 0x2028 || n == 0x2029
  }

  lemma UpperCharOfWhitespace(c: char)
    requires IsJsWhitespace(c)
    ensures UpperChar(c) == c
  {
  }

  function TrimStart(s: string): string
  {
    if s != [] && IsJsWhitespace(s[0]) then TrimStart(s[1..]) else s
  }

  function TrimEnd(s: string): string
  {
    if s != [] && IsJsWhitespace(s[|s| - 1]) then TrimEnd(s[..|s| - 1]) else s
  }

  /** `s.trim()`. */
  function Trim(s: string): string
  {
    TrimEnd(TrimStart(s))
  }

  /** Trimming the end keeps a prefix of the input, and it keeps every
      position up to and including the last non-whitespace character. */
  lemma {:induction false} TrimEndIsPrefix(s: string, j: nat)
    ensures |TrimEnd(s)| <= |s| && s[..|TrimEnd(s)|] == TrimEnd(s)
    ensures j < |s| && !IsJsWhitespace(s[j]) ==> j < |TrimEnd(s)|
  {
    if s != [] && IsJsWhitespace(s[|s| - 1]) {
      TrimEndIsPrefix(s[..|s| - 1], j);
      assert s[..|s| - 1][..|TrimEnd(s)|] == s[..|TrimEnd(s)|];
    }
  }

  // ---------------------------------------------------------------------------
  // startsWith / includes / indexOf / replace

  /** `s.startsWith(p)`. */
  predicate StartsWith(s: string, p: string)
  {
    |p| <= |s| && s[..|p|] == p
  }

  /** `s.includes(p)`: some suffix of `s` starts with `p`. */
  predicate Contains(s: string, p: string)
  {
    StartsWith(s, p) || (s != [] && Contains(s[1..], p))
  }

  /** Contains agrees with the position-wise reading "p occurs at some index". */
  lemma {:induction false} ContainsAt(s: string, p: string, i: nat)
    requires i <= |s| && StartsWith(s[i..], p)
    ensures Contains(s, p)
  {
    if i > 0 {
      assert s[1..][i - 1..] == s[i..];
      ContainsAt(s[1..], p, i - 1);
    }
  }

  /** A prefix none of whose characters can start `p` adds no occurrence of `p`. */
  lemma {:induction false} ContainsSkip(d: string, x: string, p: string)
    requires p != [] && forall i :: 0 <= i < |d| ==> d[i] != p[0]
    ensures Contains(d + x, p) <==> Contains(x, p)
  {
    if d != [] {
      assert |p| <= |d + x| ==> (d + x)[..|p|][0] == d[0];
      assert (d + x)[1..] == d[1..] + x;
      ContainsSkip(d[1..], x, p);
    } else {
      assert d + x == x;
    }
  }

  /** `s.indexOf(p)` as an option: the first index at which `p` occurs. */
  function IndexOf(s: string, p: string): (r: Option<nat>)
    ensures r.Some? <==> Contains(s, p)
    ensures r.Some? ==> r.value + |p| <= |s| && s[r.value..r.value + |p|] == p
    ensures r.Some? ==> forall j :: 0 <= j < r.value ==> !StartsWith(s[j..], p)
  {
    if StartsWith(s, p) then Some(0)
    else if s == [] then None
    else
      var r := IndexOf(s[1..], p);
      if r.None? then None
      else
        assert forall j :: 1 <= j <= r.value ==> s[j..] == s[1..][j - 1..];
        Some(r.value + 1)
  }

  /** `s.replace(p, q)` with a string pattern and a replacement `q` without `$`
      patterns (`$&`, `$$`, ... are not expanded here): only the first occurrence
      of `p` is replaced; without one the string is returned as it is. */
  function ReplaceFirst(s: string, p: string, q: string): string
  {
    match IndexOf(s, p)
    case None => s
    case Some(i) => s[..i] + q + s[i + |p|..]
  }

  // ---------------------------------------------------------------------------
  // Decimal numerals

  predicate IsDigit(c: char)
  {
    '0' <= c <= '9'
  }

  function DigitChar(d: nat): (c: char)
    requires d < 10
    ensures IsDigit(c)
  {
    ('0' as int + d) as char
  }

  /** The text `${n}` produces for a non-negative integer: its decimal numeral,
      non-empty, digits only, and without a leading zero. */
  function Decimal(n: nat): (r: string)
    ensures r != []
    ensures forall i :: 0 <= i < |r| ==> IsDigit(r[i])
    ensures r[0] == '0' ==> n == 0 && r == "0"
    decreases n
  {
    if n < 10 then [DigitChar(n)] else Decimal(n / 10) + [DigitChar(n % 10)]
  }

  /** Reads a string of digits back as a number (the inverse of Decimal). */
  function ParseDecimal(s: string): nat
    requires forall i :: 0 <= i < |s| ==> IsDigit(s[i])
  {
    if s == [] then 0
    else
      var c := s[|s| - 1];
      assert IsDigit(c);
      ParseDecimal(s[..|s| - 1]) * 10 + (c as int - '0' as int)
  }

  lemma {:induction false} DecimalRoundTrip(n: nat)
    ensures ParseDecimal(Decimal(n)) == n
    decreases n
  {
    if n >= 10 {
      var d := Decimal(n);
      assert d[..|d| - 1] == Decimal(n / 10);
      DecimalRoundTrip(n / 10);
    }
  }

  /** Distinct numbers get distinct numerals. */
  lemma DecimalInjective(m: nat, n: nat)
    requires Decimal(m) == Decimal(n)
    ensures m == n
  {
    DecimalRoundTrip(m);
    DecimalRoundTrip(n);
  }

  lemma UpperOfDigits(s: string)
    requires forall i :: 0 <= i < |s| ==> IsDigit(s[i])
    ensures Upper(s) == s
  {
  }
}
