/**
 * Decimal digit strings, as produced by JavaScript's number-to-string
 * conversion for integers (`String(n)`, `n + ""`) and read back by JSON.parse.
 */
module Decimal {

  predicate IsDigit(c: char) {
    '0' <= c <= '9'
  }

  function DigitChar(d: nat): (c: char)
    requires d < 10
    ensures IsDigit(c) && c as int - '0' as int == d
  {
    ('0' as int + d) as char
  }

  function DigitOf(c: char): (d: nat)
    requires IsDigit(c)
    ensures d < 10 && DigitChar(d) == c
  {
    c as int - '0' as int
  }

  /** The decimal text of a natural number, without leading zeros. */
  function NatText(n: nat): (s: string)
    ensures |s| > 0
    ensures forall i :: 0 <= i < |s| ==> IsDigit(s[i])
    ensures s[0] == '0' <==> n == 0
    ensures n == 0 ==> s == "0"
  {
    if n < 10 then [DigitChar(n)] else NatText(n / 10) + [DigitChar(n % 10)]
  }

  /** The decimal text of an integer: a minus sign for negative numbers. */
  function IntText(n: int): (s: string)
    ensures |s| > 0 && (n < 0 <==> s[0] == '-')
  {
    if n < 0 then "-" + NatText(-n) else NatText(n)
  }

  /** The value of a string of digits, read left to right. */
  function DigitsValue(s: string): nat
    requires forall i :: 0 <= i < |s| ==> IsDigit(s[i])
  {
    if s == [] then 0 else DigitsValue(s[..|s| - 1]) * 10 + DigitOf(s[|s| - 1])
  }

  /** Number of leading digits of `s`. */
  function LeadingDigits(s: string): (k: nat)
    ensures k <= |s|
    ensures forall i :: 0 <= i < k ==> IsDigit(s[i])
    ensures k < |s| ==> !IsDigit(s[k])
  {
    if s != [] && IsDigit(s[0]) then 1 + LeadingDigits(s[1..]) else 0
  }

  /** Reading back the decimal text of `n` gives `n`. */
  lemma {:induction false} NatTextValue(n: nat)
    ensures DigitsValue(NatText(n)) == n
  {
    if n >= 10 {
      var s := NatText(n);
      assert s[..|s| - 1] == NatText(n / 10);
      NatTextValue(n / 10);
    }
  }

  /** A run of digits is read back whole when a non-digit follows it. */
  lemma {:induction false} LeadingDigitsOfRun(s: string, rest: string)
    requires forall i :: 0 <= i < |s| ==> IsDigit(s[i])
    requires rest == [] || !IsDigit(rest[0])
    ensures LeadingDigits(s + rest) == |s|
  {
    if s != [] {
      assert (s + rest)[1..] == s[1..] + rest;
      LeadingDigitsOfRun(s[1..], rest);
    } else {
      assert s + rest == rest;
    }
  }

  /** Distinct numbers have distinct decimal texts. */
  lemma {:induction false} NatTextInjective(a: nat, b: nat)
    requires NatText(a) == NatText(b)
    ensures a == b
  {
    NatTextValue(a);
    NatTextValue(b);
  }

  /** A decimal text never holds a line break. */
  lemma {:induction false} NatTextHasNoNewline(n: nat)
    ensures '\n' !in NatText(n)
  {
    var s := NatText(n);
    assert forall i :: 0 <= i < |s| ==> s[i] != '\n';
  }
}
