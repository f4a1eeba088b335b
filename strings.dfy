/** String primitives of JavaScript that the client code relies on:
    `String.prototype.trim`, the regular-expression class `\s`, `split` on one
    character, number-to-string conversion and ASCII upper-casing. */
module Strings {

  /** The characters JavaScript counts as white space for `trim()` and for `\s`:
      WhiteSpace (TAB, VT, FF, ZWNBSP and every Zs space) and LineTerminator
      (LF, CR, LS, PS). */
  predicate IsWhitespace(c: char)
  {
    var n := c as int;
    n == 0x09 || n == 0x0A || n == 0x0B || n == 0x0C || n == 0x0D || n == 0x20 ||
    n == 0xA0 || n == 0x1680 || (0x2000 <= n <= 0x200A) || n == 0x2028 || n == 0x2029 ||
    n == 0x202F || n == 0x205F || n == 0x3000 || n == 0xFEFF
  }

  /** Every character of `s` is white space (this includes the empty string). */
  predicate IsBlank(s: string)
  {
    forall i :: 0 <= i < |s| ==> IsWhitespace(s[i])
  }

  /** No character of `s` is white space. */
  predicate NoWhitespace(s: string)
  {
    forall i :: 0 <= i < |s| ==> !IsWhitespace(s[i])
  }

  /** `s` with its leading white space removed. */
  function TrimStart(s: string): (r: string)
    ensures |r| <= |s| && r == s[|s| - |r|..]
    ensures IsBlank(s[..|s| - |r|])
    ensures r == [] || !IsWhitespace(r[0])
  {
    if s != [] && IsWhitespace(s[0]) then
      var r := TrimStart(s[1..]);
      assert s[..|s| - |r|] == [s[0]] + s[1..][..|s| - 1 - |r|];
      r
    else s
  }

  /** `s` with its trailing white space removed. */
  function TrimEnd(s: string): (r: string)
    ensures |r| <= |s| && r == s[..|r|]
    ensures IsBlank(s[|r|..])
    ensures r == [] || !IsWhitespace(r[|r| - 1])
  {
    if s != [] && IsWhitespace(s[|s| - 1]) then
      var r := TrimEnd(s[..|s| - 1]);
      assert s[|r|..] == s[..|s| - 1][|r|..] + [s[|s| - 1]];
      r
    else s
  }

  /** JavaScript's `s.trim()`. */
  function Trim(s: string): string
  {
    TrimEnd(TrimStart(s))
  }

  /** `s.trim()` is falsy exactly when `s` consists of white space only. */
  lemma TrimEmptyIffBlank(s: string)
    ensures Trim(s) == "" <==> IsBlank(s)
  {
    var t := TrimStart(s);
    if Trim(s) == "" {
      assert IsBlank(t[0..]);
      assert t == [];
      assert s[..|s|] == s;
    } else {
      assert t != [] && !IsWhitespace(t[0]);
      assert s[|s| - |t|] == t[0];
    }
  }

  /** Trimming keeps a contiguous piece of the input that starts and ends with a non-space. */
  lemma TrimIsInfix(s: string)
    ensures exists i, j :: 0 <= i <= j <= |s| && Trim(s) == s[i..j]
    ensures Trim(s) == [] || (!IsWhitespace(Trim(s)[0]) && !IsWhitespace(Trim(s)[|Trim(s)| - 1]))
  {
    var t := TrimStart(s);
    var r := TrimEnd(t);
    assert r == Trim(s);
    var i := |s| - |t|;
    assert t == s[i..] && r == t[..|r|];
    assert s[i..][..|r|] == s[i..i + |r|];
    assert r == s[i..i + |r|];
    if r != [] {
      assert r[0] == t[0];
      assert !IsWhitespace(r[0]) && !IsWhitespace(r[|r| - 1]);
    }
  }

  /** `c` occurs in `s`. */
  predicate Contains(s: string, c: char)
  {
    exists i :: 0 <= i < |s| && s[i] == c
  }

  /** The index of the first occurrence of `c` in `s`, as `indexOf` returns it when it is found. */
  function IndexOf(s: string, c: char): (i: nat)
    requires Contains(s, c)
    ensures i < |s| && s[i] == c
    ensures forall j :: 0 <= j < i ==> s[j] != c
  {
    if s[0] == c then 0
    else
      assert Contains(s[1..], c) by {
        var k :| 0 <= k < |s| && s[k] == c;
        assert s[1..][k - 1] == c;
      }
      1 + IndexOf(s[1..], c)
  }

  /** JavaScript's `s.split(sep)` for a one-character separator. */
  function Split(s: string, sep: char): (parts: seq<string>)
    ensures |parts| >= 1
    decreases |s|
  {
    if Contains(s, sep) then
      var i := IndexOf(s, sep);
      [s[..i]] + Split(s[i + 1..], sep)
    else [s]
  }

  /** Splitting `a + sep + b`, where `a` has no separator, yields `a` followed by the pieces of `b`. */
  lemma {:induction false} SplitPrefix(a: string, sep: char, b: string)
    requires !Contains(a, sep)
    ensures Split(a + [sep] + b, sep) == [a] + Split(b, sep)
  {
    var s := a + [sep] + b;
    assert s[|a|] == sep;
    assert Contains(s, sep);
    assert forall j :: 0 <= j < |a| ==> s[j] == a[j];
    var i := IndexOf(s, sep);
    assert i == |a|;
    assert s[..i] == a;
    assert s[i + 1..] == b;
  }

  /** A string without the separator splits into itself alone. */
  lemma SplitWhole(s: string, sep: char)
    requires !Contains(s, sep)
    ensures Split(s, sep) == [s]
  {
  }

  /** The decimal digit `d` as a character. */
  function DigitChar(d: nat): (c: char)
    requires d < 10
    ensures '0' <= c <= '9'
  {
    ((('0' as int) + d) as char)
  }

  /** Every character of `s` is a decimal digit. */
  predicate IsDigits(s: string)
  {
    forall i :: 0 <= i < |s| ==> '0' <= s[i] <= '9'
  }

  /** The number a string of decimal digits denotes, most significant digit first
      (the empty string denotes 0). */
  function DigitsValue(s: string): nat
    requires IsDigits(s)
  {
    if s == [] then 0
    else DigitsValue(s[..|s| - 1]) * 10 + (s[|s| - 1] as int - '0' as int)
  }

  /** `String(n)` for a natural number: its decimal digits, most significant first. */
  function NatToString(n: nat): (r: string)
    ensures |r| >= 1 && IsDigits(r)
    ensures n < 10 <==> |r| == 1
    ensures r[0] == '0' <==> n == 0
  {
    if n < 10 then [DigitChar(n)] else NatToString(n / 10) + [DigitChar(n % 10)]
  }

  /** The digits `NatToString` writes denote the number written. */
  lemma {:induction false} NatToStringValue(n: nat)
    ensures DigitsValue(NatToString(n)) == n
  {
    var r := NatToString(n);
    if n >= 10 {
      NatToStringValue(n / 10);
      assert r[..|r| - 1] == NatToString(n / 10);
    }
  }

  /** Two numbers are written alike only if they are equal. */
  lemma NatToStringInjective(m: nat, n: nat)
    requires NatToString(m) == NatToString(n)
    ensures m == n
  {
    NatToStringValue(m);
    NatToStringValue(n);
  }

  /** Leading zeros do not change the number a digit string denotes. */
  lemma {:induction false} LeadingZerosValue(k: nat, d: string)
    requires IsDigits(d)
    ensures IsDigits(seq(k, _ => '0') + d)
    ensures DigitsValue(seq(k, _ => '0') + d) == DigitsValue(d)
    decreases k + |d|
  {
    var z: string := seq(k, _ => '0');
    var s := z + d;
    if d != [] {
      var d' := d[..|d| - 1];
      LeadingZerosValue(k, d');
      assert s[..|s| - 1] == z + d';
    } else if k > 0 {
      LeadingZerosValue(k - 1, d);
      assert s[..|s| - 1] == seq(k - 1, _ => '0') + d;
    }
  }

  /** A string of decimal digits contains no white space, no space and no separator other than a digit. */
  lemma DigitsHaveNo(s: string, c: char)
    requires IsDigits(s)
    requires !('0' <= c <= '9')
    ensures !Contains(s, c)
  {
  }

  /** `n` written with at least `width` digits, padded on the left with zeros. */
  function PadZero(n: nat, width: nat): (r: string)
    ensures IsDigits(r)
    ensures |r| == if |NatToString(n)| >= width then |NatToString(n)| else width
  {
    var d := NatToString(n);
    if |d| >= width then d else seq(width - |d|, _ => '0') + d
  }

  /** The padded string is zeros followed by the digits of `n`, and still
      denotes `n`. */
  lemma PadZeroValue(n: nat, width: nat)
    ensures var r := PadZero(n, width);
      && r[|r| - |NatToString(n)|..] == NatToString(n)
      && (forall i :: 0 <= i < |r| - |NatToString(n)| ==> r[i] == '0')
      && DigitsValue(r) == n
  {
    var d := NatToString(n);
    NatToStringValue(n);
    if |d| < width {
      LeadingZerosValue(width - |d|, d);
    }
  }

  /** ASCII upper-casing of one character; every other character is unchanged. */
  function ToUpperAscii(c: char): (u: char)
    ensures 'a' <= c <= 'z' ==> 'A' <= u <= 'Z' && u as int == c as int - 32
    ensures !('a' <= c <= 'z') ==> u == c
  {
    if 'a' <= c <= 'z' then ((c as int) - 32) as char else c
  }
}
