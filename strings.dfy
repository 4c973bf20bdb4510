/**
 * The string operations the dispatcher relies on: `toLowerCase` (ASCII part),
 * `startsWith`, `trim`, the first piece of `split(' ')`, and the decimal
 * rendering of an integer that a template literal performs.
 */
module Strings {

  /** Lower-cases one character; only the ASCII letters A-Z are mapped. */
  function LowerChar(c: char): (r: char)
    ensures 'A' <= c <= 'Z' ==> r as int == c as int + 32
    ensures !('A' <= c <= 'Z') ==> r == c
  {
    if 'A' <= c <= 'Z' then (c as int + 32) as char else c
  }

  /** `s.toLowerCase()`, restricted to the ASCII letters; length-preserving. */
  function ToLower(s: string): (r: string)
    ensures |r| == |s|
    ensures forall i :: 0 <= i < |s| ==> r[i] == LowerChar(s[i])
  {
    seq(|s|, i requires 0 <= i < |s| => LowerChar(s[i]))
  }

  /** `s.startsWith(p)`. */
  predicate StartsWith(s: string, p: string) {
    |p| <= |s| && s[..|p|] == p
  }

  /** The characters JavaScript's `trim` removes: WhiteSpace and LineTerminator (ECMA-262 section 12.2 and 12.3). */
  predicate IsSpace(c: char) {
    c == '\t' || c == '\n' || c == '\U{000B}' || c == '\U{000C}' || c == '\r' || c == ' '
    || c == '\U{00A0}' || c == '\U{1680}' || ('\U{2000}' <= c <= '\U{200A}')
    || c == '\U{2028}' || c == '\U{2029}' || c == '\U{202F}' || c == '\U{205F}'
    || c == '\U{3000}' || c == '\U{FEFF}'
  }

  /** Number of leading space characters of `s`. */
  function LeadingSpaces(s: string): (n: nat)
    ensures n <= |s|
    ensures forall i :: 0 <= i < n ==> IsSpace(s[i])
    ensures n < |s| ==> !IsSpace(s[n])
  {
    if |s| > 0 && IsSpace(s[0]) then 1 + LeadingSpaces(s[1..]) else 0
  }

  /** Number of trailing space characters of `s`. */
  function TrailingSpaces(s: string): (n: nat)
    ensures n <= |s|
    ensures forall i :: |s| - n <= i < |s| ==> IsSpace(s[i])
    ensures n < |s| ==> !IsSpace(s[|s| - n - 1])
  {
    if |s| > 0 && IsSpace(s[|s| - 1]) then 1 + TrailingSpaces(s[..|s| - 1]) else 0
  }

  /** `s.trim()`: drops the leading and the trailing space characters. */
  function Trim(s: string): string {
    var i := LeadingSpaces(s);
    s[i..|s| - TrailingSpaces(s[i..])]
  }

  /**
   * The trimmed text is an infix of `s` with only space characters around it;
   * it neither starts nor ends with one, and it is empty exactly when `s` is
   * all spaces.
   */
  lemma TrimIsInfix(s: string)
    ensures var r := Trim(s);
      && (exists i, j ::
            && 0 <= i <= j <= |s| && r == s[i..j]
            && (forall k :: 0 <= k < i ==> IsSpace(s[k]))
            && (forall k :: j <= k < |s| ==> IsSpace(s[k])))
      && (r != [] ==> !IsSpace(r[0]) && !IsSpace(r[|r| - 1]))
      && ((forall k :: 0 <= k < |s| ==> IsSpace(s[k])) <==> r == [])
  {
    var i, j := TrimBounds(s);
    var r := Trim(s);
    if r != [] {
      assert r[0] == s[i] && r[|r| - 1] == s[j - 1];
    } else {
      assert forall k :: 0 <= k < |s| ==> IsSpace(s[k]);
    }
  }

  /** Where `Trim` cuts `s`: after the leading spaces and before the trailing ones. */
  lemma TrimBounds(s: string) returns (i: nat, j: nat)
    ensures 0 <= i <= j <= |s| && Trim(s) == s[i..j]
    ensures forall k :: 0 <= k < i ==> IsSpace(s[k])
    ensures forall k :: j <= k < |s| ==> IsSpace(s[k])
    ensures i < j ==> !IsSpace(s[i]) && !IsSpace(s[j - 1])
    ensures i == j ==> j == |s|
  {
    i := LeadingSpaces(s);
    var rest := s[i..];
    j := |s| - TrailingSpaces(rest);
    forall k | j <= k < |s| ensures IsSpace(s[k]) { assert s[k] == rest[k - i]; }
    if i < j { assert s[j - 1] == rest[|rest| - TrailingSpaces(rest) - 1]; }
    if i < |s| { assert !IsSpace(rest[0]); }
  }

  /** A text with no space character trims to itself. */
  lemma TrimNoSpaces(s: string)
    requires forall k :: 0 <= k < |s| ==> !IsSpace(s[k])
    ensures Trim(s) == s
  {
    assert LeadingSpaces(s) == 0;
    assert s[0..] == s;
  }

  /** `s.split(sep)[0]`: everything before the first occurrence of the separator character. */
  function FirstPiece(s: string, sep: char): (r: string)
    ensures |r| <= |s| && r == s[..|r|]
    ensures sep !in r
    ensures |r| < |s| ==> s[|r|] == sep
  {
    if |s| == 0 || s[0] == sep then [] else [s[0]] + FirstPiece(s[1..], sep)
  }
  /** A text without the separator is its own first piece. */
  lemma FirstPieceWhole(s: string, sep: char)
    requires sep !in s
    ensures FirstPiece(s, sep) == s
  {
  }


  /** One decimal digit. */
  function DigitChar(d: nat): (c: char)
    requires d < 10
    ensures '0' <= c <= '9'
  {
    ('0' as int + d) as char
  }

  /** Decimal rendering of a natural number, without leading zeros. */
  function NatToString(n: nat): (r: string)
    ensures |r| >= 1
    ensures forall i :: 0 <= i < |r| ==> '0' <= r[i] <= '9'
    decreases n
  {
    if n < 10 then [DigitChar(n)] else NatToString(n / 10) + [DigitChar(n % 10)]
  }

  /** `String(n)` / `${n}` for an integer-valued number. */
  function IntToString(n: int): (r: string)
    ensures |r| >= 1
    ensures n >= 0 ==> r == NatToString(n)
    ensures n < 0 ==> r == "-" + NatToString(-n)
  {
    if n >= 0 then NatToString(n) else "-" + NatToString(-n)
  }

  /** The number a string of decimal digits spells, most significant digit first. */
  function DecimalValue(s: string): (v: int)
    decreases |s|
  {
    if s == [] then 0 else 10 * DecimalValue(s[..|s| - 1]) + (s[|s| - 1] as int - '0' as int)
  }

  /** Reading the rendering back as decimal digits gives the number. */
  lemma {:induction false} NatToStringValue(n: nat)
    ensures DecimalValue(NatToString(n)) == n
    decreases n
  {
    var r := NatToString(n);
    if n < 10 {
      assert r[..0] == [];
    } else {
      NatToStringValue(n / 10);
      assert r[..|r| - 1] == NatToString(n / 10);
    }
  }

  /** Distinct numbers render differently: the rendering can be read back. */
  lemma NatToStringInjective(n: nat, m: nat)
    requires NatToString(n) == NatToString(m)
    ensures n == m
  {
    NatToStringValue(n);
    NatToStringValue(m);
  }

  /** A rendering starts with `-` exactly when the number is negative. */
  lemma IntToStringSign(n: int)
    ensures IntToString(n)[0] == '-' <==> n < 0
  {
    if n >= 0 {
      assert '0' <= NatToString(n)[0] <= '9';
    }
  }

  /** Distinct integers render differently; a negative rendering starts with `-`, which no digit is. */
  lemma IntToStringInjective(n: int, m: int)
    requires IntToString(n) == IntToString(m)
    ensures n == m
  {
    IntToStringSign(n);
    IntToStringSign(m);
    var r := IntToString(n);
    if n >= 0 && m >= 0 {
      NatToStringInjective(n, m);
    } else if n < 0 && m < 0 {
      assert NatToString(-n) == r[1..] == NatToString(-m);
      NatToStringInjective(-n, -m);
    }
  }
}
