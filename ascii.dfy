/**
 * ASCII character classes, ASCII case mapping and decimal integer text.
 *
 * The host runtime is Ruby 1.9, whose `upcase`, `capitalize`, `split` and
 * regular-expression `\d` only know ASCII; this module states those character
 * rules once for the rest of the model.
 */
module Ascii {

  predicate IsDigit(c: char) { '0' <= c <= '9' }

  predicate IsLower(c: char) { 'a' <= c <= 'z' }

  predicate IsUpper(c: char) { 'A' <= c <= 'Z' }

  /** Ruby's whitespace for `split`: space, tab, line feed, vertical tab, form feed, carriage return. */
  predicate IsSpace(c: char) { c == ' ' || 9 <= c as int <= 13 }

  /** ASCII upcase of one character: only `a`..`z` change. */
  function Upper(c: char): (u: char)
    ensures IsLower(c) ==> IsUpper(u) && u as int == c as int - 32
    ensures !IsLower(c) ==> u == c
  {
    if IsLower(c) then (c as int - 32) as char else c
  }

  /** ASCII downcase of one character: only `A`..`Z` change. */
  function Lower(c: char): (l: char)
    ensures IsUpper(c) ==> IsLower(l) && l as int == c as int + 32
    ensures !IsUpper(c) ==> l == c
  {
    if IsUpper(c) then (c as int + 32) as char else c
  }

  /** Two characters with the same upcase are equal when one of them is not a letter. */
  lemma UpperFixesNonLetter(a: char, b: char)
    requires Upper(a) == Upper(b)
    requires !IsLower(a) && !IsUpper(a)
    ensures a == b
  {
  }

  function UpperString(s: string): (u: string)
    ensures |u| == |s|
    ensures forall k :: 0 <= k < |s| ==> u[k] == Upper(s[k])
  {
    seq(|s|, k requires 0 <= k < |s| => Upper(s[k]))
  }

  function LowerString(s: string): (l: string)
    ensures |l| == |s|
    ensures forall k :: 0 <= k < |s| ==> l[k] == Lower(s[k])
  {
    seq(|s|, k requires 0 <= k < |s| => Lower(s[k]))
  }

  predicate AllDigits(s: string) { forall k :: 0 <= k < |s| ==> IsDigit(s[k]) }

  function DigitChar(d: nat): (c: char)
    requires d < 10
    ensures IsDigit(c)
  {
    ('0' as int + d) as char
  }

  function DigitValue(c: char): (d: nat)
    requires IsDigit(c)
    ensures d < 10 && DigitChar(d) == c
  {
    c as int - '0' as int
  }

  /** The decimal text of a natural number, most significant digit first, no leading zeros. */
  function NatText(n: nat): (s: string)
    ensures |s| > 0 && AllDigits(s)
    ensures |s| > 1 ==> s[0] != '0'
    decreases n
  {
    if n < 10 then [DigitChar(n)] else NatText(n / 10) + [DigitChar(n % 10)]
  }

  /** The value of a run of decimal digits (leading zeros allowed, as Ruby's `to_i` reads them). */
  function ParseNat(s: string): nat
    requires AllDigits(s)
    decreases |s|
  {
    if s == [] then 0 else ParseNat(s[..|s| - 1]) * 10 + DigitValue(s[|s| - 1])
  }

  lemma {:induction false} ParseNatText(n: nat)
    ensures ParseNat(NatText(n)) == n
    decreases n
  {
    if n >= 10 {
      var s := NatText(n);
      assert s[..|s| - 1] == NatText(n / 10);
      ParseNatText(n / 10);
    }
  }

  /** Ruby's `Integer#to_s` in base 10: a minus sign for negative numbers, then the digits. */
  function IntText(i: int): (s: string)
    ensures |s| > 0
    ensures forall k :: 0 <= k < |s| ==> IsDigit(s[k]) || s[k] == '-'
  {
    if i < 0 then "-" + NatText(-i) else NatText(i)
  }

  /** A signed decimal numeral as the pattern `[+-]?\d+` describes it. */
  predicate IsSignedDecimal(s: string)
  {
    |s| > 0 &&
    if s[0] == '+' || s[0] == '-' then |s| > 1 && AllDigits(s[1..]) else AllDigits(s)
  }

  /** Ruby's `String#to_i` on a string of the form `[+-]?\d+`. */
  function ToI(s: string): int
    requires IsSignedDecimal(s)
  {
    if s[0] == '-' then -(ParseNat(s[1..]) as int)
    else if s[0] == '+' then ParseNat(s[1..])
    else ParseNat(s)
  }

  /** Decimal text round-trips: reading back what `IntText` wrote gives the number. */
  lemma IntTextRoundTrip(i: int)
    ensures IsSignedDecimal(IntText(i)) && ToI(IntText(i)) == i
  {
    var s := IntText(i);
    if i < 0 {
      assert s[1..] == NatText(-i);
      ParseNatText(-i);
    } else {
      assert s[0] != '-' && s[0] != '+';
      ParseNatText(i);
    }
  }

  /** Different numbers have different decimal texts. */
  lemma IntTextInjective(i: int, j: int)
    requires IntText(i) == IntText(j)
    ensures i == j
  {
    IntTextRoundTrip(i);
    IntTextRoundTrip(j);
  }
}
