/**
 * The pieces of JavaScript's string behaviour that the game relies on:
 * the character classes of its regular expressions (`\d`, `\w`, `\s`,
 * `.`), `String(n)` and `Number(s)` for integers, `indexOf`/`includes`, `startsWith`
 * and `trim`.  Strings are sequences of characters; JavaScript counts
 * UTF-16 code units, which agrees for every character of the Basic
 * Multilingual Plane.
 */
module JsText {
  import opened Wrappers

  /** `\d` */
  predicate IsDigit(c: char) {
    '0' <= c <= '9'
  }

  predicate IsAsciiLetter(c: char) {
    'a' <= c <= 'z' || 'A' <= c <= 'Z'
  }

  /** `\w` (and the word characters behind `\b`) of a regular expression without the `u` flag */
  predicate IsWordChar(c: char) {
    IsAsciiLetter(c) || IsDigit(c) || c == '_'
  }

  /** The characters that `.` does not match */
  predicate IsLineTerminator(c: char) {
    c == '\n' || c == '\r' || c == '\U{2028}' || c == '\U{2029}'
  }

  /** `\s`, which is also the set that `String.prototype.trim` removes */
  predicate IsJsSpace(c: char) {
    || c == '\t' || c == '\n' || c == '\U{B}' || c == '\U{C}' || c == '\r' || c == ' '
    || c == '\U{A0}' || c == '\U{1680}' || ('\U{2000}' <= c <= '\U{200A}')
    || c == '\U{2028}' || c == '\U{2029}' || c == '\U{202F}' || c == '\U{205F}'
    || c == '\U{3000}' || c == '\U{FEFF}'
  }

  function DigitChar(d: nat): (c: char)
    requires d < 10
    ensures IsDigit(c)
  {
    ['0', '1', '2', '3', '4', '5', '6', '7', '8', '9'][d]
  }

  function DigitValue(c: char): (d: nat)
    requires IsDigit(c)
    ensures d < 10 && DigitChar(d) == c
  {
    (c as int) - ('0' as int)
  }

  predicate AllDigits(s: string) {
    forall i :: 0 <= i < |s| ==> IsDigit(s[i])
  }

  /** The value of a run of decimal digits, most significant first */
  function DigitsValue(s: string): nat
    requires AllDigits(s)
  {
    if s == [] then 0 else 10 * DigitsValue(s[..|s| - 1]) + DigitValue(s[|s| - 1])
  }

  /** `String(n)` for a non-negative integer */
  function NatText(n: nat): (s: string)
    ensures |s| >= 1 && AllDigits(s)
    ensures s[0] == '0' ==> n == 0 && |s| == 1
  {
    if n < 10 then [DigitChar(n)] else NatText(n / 10) + [DigitChar(n % 10)]
  }

  /** `String(n)` for an integer: a minus sign for negative values, then the digits */
  function NumText(n: int): (s: string)
    ensures |s| >= 1
    ensures n >= 0 ==> s == NatText(n)
    ensures n < 0 ==> s == "-" + NatText(-n)
  {
    if n < 0 then "-" + NatText(-n) else NatText(n)
  }

  /** Reading back what `NatText` wrote gives the number again. */
  lemma {:induction false} NatTextRoundTrip(n: nat)
    ensures DigitsValue(NatText(n)) == n
  {
    if n >= 10 {
      var s := NatText(n);
      assert s[..|s| - 1] == NatText(n / 10);
      NatTextRoundTrip(n / 10);
    }
  }

  lemma NatTextInjective(a: nat, b: nat)
    requires NatText(a) == NatText(b)
    ensures a == b
  {
    NatTextRoundTrip(a);
    NatTextRoundTrip(b);
  }

  /** The text of a number starts with a minus sign exactly when the number is negative. */
  lemma NumTextSign(n: int)
    ensures NumText(n)[0] == '-' <==> n < 0
  {
    if n >= 0 {
      assert IsDigit(NatText(n)[0]);
    }
  }

  /** Different numbers never print the same. */
  lemma NumTextInjective(a: int, b: int)
    requires NumText(a) == NumText(b)
    ensures a == b
  {
    NumTextSign(a);
    NumTextSign(b);
    if a < 0 {
      var x, y := NumText(a), NumText(b);
      assert NatText(-a) == x[1..];
      assert NatText(-b) == y[1..];
      NatTextInjective(-a, -b);
    } else {
      NatTextInjective(a, b);
    }
  }

  /**
   * `Number(s)` for text, on integers: white space around it is ignored,
   * blank text is 0, and an optional sign followed by decimal digits is
   * their value.  Anything else gives nothing here: text JavaScript reads
   * as another number (`1.5`, `1e3`, `0x10`, `Infinity`) as well as text
   * it reads as `NaN`.
   */
  function StringNumber(s: string): Option<int> {
    TrimmedNumber(Trim(s))
  }

  /** The value of text already trimmed */
  function TrimmedNumber(t: string): Option<int> {
    if t == [] then Some(0)
    else if (t[0] == '-' || t[0] == '+') && |t| >= 2 && AllDigits(t[1..]) then
      var v: int := DigitsValue(t[1..]);
      Some(if t[0] == '-' then -v else v)
    else if AllDigits(t) then Some(DigitsValue(t))
    else None
  }

  /** What `String(n)` writes, `Number` reads back. */
  lemma NumTextNumber(n: int)
    ensures StringNumber(NumText(n)) == Some(n)
  {
    NumTextNoSpace(n);
    NumberNoSpace(NumText(n));
    TrimmedNumText(n);
  }

  lemma NumberNoSpace(s: string)
    requires forall i :: 0 <= i < |s| ==> !IsJsSpace(s[i])
    ensures StringNumber(s) == TrimmedNumber(s)
  {
    TrimNoSpace(s);
  }

  lemma TrimmedNumText(n: int)
    ensures TrimmedNumber(NumText(n)) == Some(n)
  {
    if n < 0 {
      TrimmedNegative(-n, NumText(n));
    } else {
      TrimmedNat(n, NumText(n));
    }
  }

  lemma TrimmedNat(m: nat, t: string)
    requires t == NatText(m)
    ensures TrimmedNumber(t) == Some(m)
  {
    assert t[0] != '-' && t[0] != '+' by { assert IsDigit(t[0]); }
    NatTextRoundTrip(m);
  }

  lemma TrimmedNegative(m: nat, t: string)
    requires t == "-" + NatText(m)
    ensures TrimmedNumber(t) == Some(0 - m)
  {
    assert t[0] == '-' && t[1..] == NatText(m);
    NatTextRoundTrip(m);
  }

  lemma NumTextNoSpace(n: int)
    ensures forall i :: 0 <= i < |NumText(n)| ==> !IsJsSpace(NumText(n)[i])
  {
    var t := NumText(n);
    var d := NatText(if n < 0 then -n else n);
    forall i | 0 <= i < |t| ensures !IsJsSpace(t[i]) {
      if n < 0 && i > 0 {
        assert t[i] == d[i - 1];
      } else if n >= 0 {
        assert IsDigit(t[i]);
      }
    }
  }

  /** Text without white space trims to itself. */
  lemma TrimNoSpace(s: string)
    requires forall i :: 0 <= i < |s| ==> !IsJsSpace(s[i])
    ensures Trim(s) == s
  {
    assert TrimStart(s) == s;
    assert TrimEnd(s) == s;
  }

  /** `\b` before a word that starts at `i` */
  predicate BoundaryBefore(s: string, i: nat)
    requires i <= |s|
  {
    i == 0 || !IsWordChar(s[i - 1])
  }

  /** `\b` after a word that ends just before `j` */
  predicate BoundaryAfter(s: string, j: nat)
    requires j <= |s|
  {
    j == |s| || !IsWordChar(s[j])
  }

  predicate StartsWith(s: string, prefix: string) {
    |prefix| <= |s| && s[..|prefix|] == prefix
  }

  predicate OccursAt(s: string, t: string, i: nat) {
    i + |t| <= |s| && s[i..i + |t|] == t
  }

  /** `s.indexOf(t, from)`: the first position at or after `from` where `t` occurs, or -1 */
  function IndexOfFrom(s: string, t: string, from: nat): (r: int)
    requires from <= |s|
    decreases |s| - from
    ensures r == -1 || (from <= r <= |s| && OccursAt(s, t, r))
    ensures r == -1 ==> forall i :: from <= i <= |s| ==> !OccursAt(s, t, i)
    ensures r >= 0 ==> forall i :: from <= i < r ==> !OccursAt(s, t, i)
  {
    if OccursAt(s, t, from) then from
    else if from == |s| then -1
    else IndexOfFrom(s, t, from + 1)
  }

  function IndexOf(s: string, t: string): int {
    IndexOfFrom(s, t, 0)
  }

  /** `s.includes(t)` */
  predicate Contains(s: string, t: string) {
    IndexOf(s, t) >= 0
  }

  lemma ContainsAt(s: string, t: string, i: nat)
    requires OccursAt(s, t, i)
    ensures Contains(s, t)
  {
  }

  lemma ContainsWitness(s: string, t: string) returns (i: nat)
    requires Contains(s, t)
    ensures OccursAt(s, t, i)
  {
    i := IndexOf(s, t);
  }

  /** `s.trim()`: leading and trailing `\s` characters removed */
  function Trim(s: string): (r: string)
    ensures |r| <= |s|
    ensures r != [] ==> !IsJsSpace(r[0]) && !IsJsSpace(r[|r| - 1])
  {
    TrimEnd(TrimStart(s))
  }

  function TrimStart(s: string): (r: string)
    ensures |r| <= |s|
    ensures r != [] ==> !IsJsSpace(r[0])
    ensures r == s[|s| - |r|..]
  {
    if s != [] && IsJsSpace(s[0]) then TrimStart(s[1..]) else s
  }

  function TrimEnd(s: string): (r: string)
    ensures |r| <= |s|
    ensures r != [] ==> !IsJsSpace(r[|r| - 1])
    ensures r == s[..|r|]
  {
    if s != [] && IsJsSpace(s[|s| - 1]) then TrimEnd(s[..|s| - 1]) else s
  }

  /** A string trims to nothing exactly when every character of it is white space. */
  lemma {:induction false} TrimEmptyIffBlank(s: string)
    ensures Trim(s) == [] <==> forall i :: 0 <= i < |s| ==> IsJsSpace(s[i])
  {
    TrimStartEmptyIffBlank(s);
    var t := TrimStart(s);
    if t != [] {
      assert !IsJsSpace(t[0]);
      TrimEndKeepsFirst(t);
      assert !IsJsSpace(s[|s| - |t|]);
    }
  }

  lemma {:induction false} TrimStartEmptyIffBlank(s: string)
    ensures TrimStart(s) == [] <==> forall i :: 0 <= i < |s| ==> IsJsSpace(s[i])
  {
    if s != [] && IsJsSpace(s[0]) {
      TrimStartEmptyIffBlank(s[1..]);
      if TrimStart(s) == [] {
        forall i | 0 <= i < |s| ensures IsJsSpace(s[i]) {
          if i > 0 { assert s[i] == s[1..][i - 1]; }
        }
      }
    }
  }

  lemma {:induction false} TrimEndKeepsFirst(s: string)
    requires s != [] && !IsJsSpace(s[0])
    ensures TrimEnd(s) != []
  {
    if IsJsSpace(s[|s| - 1]) {
      assert |s| > 1;
      TrimEndKeepsFirst(s[..|s| - 1]);
    }
  }
}
