/**
 * Java's conversion of an `int` to its decimal text (what `"..." + id` produces), and a reader
 * for such text, so that a redirect URL can be shown to carry the id it was built from.
 */
module Decimal {
  import opened Wrappers

  predicate IsDigit(c: char) {
    '0' <= c <= '9'
  }

  predicate AllDigits(s: string) {
    forall i :: 0 <= i < |s| ==> IsDigit(s[i])
  }

  function DigitValue(c: char): (d: nat)
    requires IsDigit(c)
    ensures d < 10
  {
    c as int - '0' as int
  }

  function DigitChar(d: nat): (c: char)
    requires d < 10
    ensures IsDigit(c) && DigitValue(c) == d
  {
    ('0' as int + d) as char
  }

  /** The digits of n, most significant first, with no leading zero. */
  function NatToDecimal(n: nat): (s: string)
    ensures 0 < |s| && AllDigits(s)
    ensures s[0] == '0' <==> n == 0
    decreases n
  {
    if n < 10 then [DigitChar(n)] else NatToDecimal(n / 10) + [DigitChar(n % 10)]
  }

  /** Integer.toString: a minus sign for negative values, then the digits of the magnitude. */
  function IntToDecimal(n: int): (s: string)
    ensures 0 < |s|
    ensures s[0] == '-' <==> n < 0
    ensures n < 0 ==> 1 < |s| && AllDigits(s[1..])
    ensures n >= 0 ==> AllDigits(s)
    ensures n >= 0 ==> (s[0] == '0' <==> n == 0)
    ensures n < 0 ==> s[1] != '0'
  {
    if n < 0 then "-" + NatToDecimal(-n) else NatToDecimal(n)
  }

  /** The value of a run of digits. */
  function ParseNat(s: string): nat
    requires AllDigits(s)
    decreases |s|
  {
    if s == [] then 0 else 10 * ParseNat(s[..|s| - 1]) + DigitValue(s[|s| - 1])
  }

  /** The longest run of digits at the front of s. */
  function LeadingDigits(s: string): (d: string)
    ensures |d| <= |s| && d == s[..|d|] && AllDigits(d)
    ensures |d| < |s| ==> !IsDigit(s[|d|])
  {
    if s != [] && IsDigit(s[0]) then [s[0]] + LeadingDigits(s[1..]) else []
  }

  /** Reads an optionally signed decimal number at the front of s; None when no digit follows. */
  function ReadInt(s: string): Option<int> {
    if s != [] && s[0] == '-' then
      var d := LeadingDigits(s[1..]);
      if d == [] then None else Some(-(ParseNat(d) as int))
    else
      var d := LeadingDigits(s);
      if d == [] then None else Some(ParseNat(d))
  }

  lemma {:induction false} ParseNatRoundTrip(n: nat)
    ensures ParseNat(NatToDecimal(n)) == n
    decreases n
  {
    var s := NatToDecimal(n);
    if n < 10 {
      assert s[..|s| - 1] == [];
    } else {
      assert s[..|s| - 1] == NatToDecimal(n / 10);
      ParseNatRoundTrip(n / 10);
    }
  }

  /** A run of digits followed by a non-digit (or nothing) is read back as exactly that run. */
  lemma LeadingDigitsOf(d: string, rest: string)
    requires AllDigits(d)
    requires rest == [] || !IsDigit(rest[0])
    ensures LeadingDigits(d + rest) == d
  {
    var e := LeadingDigits(d + rest);
    assert e == (d + rest)[..|d|] == d;
  }

  /** The digits of m, followed by anything that does not start with a digit, are those digits, valued m. */
  lemma DigitsRoundTrip(m: nat, rest: string)
    requires rest == [] || !IsDigit(rest[0])
    ensures LeadingDigits(NatToDecimal(m) + rest) == NatToDecimal(m)
    ensures ParseNat(NatToDecimal(m)) == m
  {
    ParseNatRoundTrip(m);
    LeadingDigitsOf(NatToDecimal(m), rest);
  }

  lemma ReadNegativeRoundTrip(m: nat, rest: string)
    requires 0 < m
    requires rest == [] || !IsDigit(rest[0])
    ensures ReadInt("-" + NatToDecimal(m) + rest) == Some(-(m as int))
  {
    var d := NatToDecimal(m);
    DigitsRoundTrip(m, rest);
    var s := "-" + d + rest;
    assert s[0] == '-';
    assert s[1..] == d + rest;
  }

  lemma ReadNonNegativeRoundTrip(m: nat, rest: string)
    requires rest == [] || !IsDigit(rest[0])
    ensures ReadInt(NatToDecimal(m) + rest) == Some(m)
  {
    var d := NatToDecimal(m);
    DigitsRoundTrip(m, rest);
    assert (d + rest)[0] == d[0];
    assert IsDigit(d[0]);
  }

  /** The decimal text of n, followed by anything that does not start with a digit, reads back as n. */
  lemma ReadIntRoundTrip(n: int, rest: string)
    requires rest == [] || !IsDigit(rest[0])
    ensures ReadInt(IntToDecimal(n) + rest) == Some(n)
  {
    if n < 0 {
      ReadNegativeRoundTrip(-n, rest);
    } else {
      ReadNonNegativeRoundTrip(n, rest);
    }
  }

  /** Distinct ints have distinct decimal texts. */
  lemma IntToDecimalInjective(a: int, b: int)
    requires IntToDecimal(a) == IntToDecimal(b)
    ensures a == b
  {
    ReadIntRoundTrip(a, []);
    ReadIntRoundTrip(b, []);
    assert IntToDecimal(a) + [] == IntToDecimal(a);
    assert IntToDecimal(b) + [] == IntToDecimal(b);
  }
}
