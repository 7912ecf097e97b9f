/**
 * Decimal text of integers, as PHP writes an integer into a string, and the
 * parsers that read it back. The parsers are the independent partners of the
 * renderers: every rendering is proved to parse back to the number it came from.
 */
module Decimal {

  predicate IsDigit(c: char) {
    '0' <= c <= '9'
  }

  predicate AllDigits(s: string) {
    forall i :: 0 <= i < |s| ==> IsDigit(s[i])
  }

  function DigitChar(d: nat): (c: char)
    requires d < 10
    ensures IsDigit(c)
  {
    (('0' as int) + d) as char
  }

  function DigitValue(c: char): (d: nat)
    requires IsDigit(c)
    ensures d < 10
  {
    (c as int) - ('0' as int)
  }

  /** The decimal digits of `n`: no leading zero, and "0" for zero. */
  function NatString(n: nat): (s: string)
    ensures |s| >= 1 && AllDigits(s)
    ensures |s| > 1 ==> s[0] != '0'
    ensures (n < 10) == (|s| == 1)
    decreases n
  {
    if n < 10 then [DigitChar(n)] else NatString(n / 10) + [DigitChar(n % 10)]
  }

  /** Reads a string of digits as a natural number; leading zeros are allowed. */
  function ParseNat(s: string): nat
    requires AllDigits(s)
    decreases |s|
  {
    if s == [] then 0 else 10 * ParseNat(s[..|s| - 1]) + DigitValue(s[|s| - 1])
  }

  lemma {:induction false} NatStringRoundTrip(n: nat)
    ensures ParseNat(NatString(n)) == n
    decreases n
  {
    if n >= 10 {
      var s := NatString(n / 10);
      var t := s + [DigitChar(n % 10)];
      assert t[..|t| - 1] == s;
      NatStringRoundTrip(n / 10);
    }
  }

  lemma {:induction false} ParseNatLeadingZero(s: string)
    requires AllDigits(s)
    ensures AllDigits("0" + s) && ParseNat("0" + s) == ParseNat(s)
    decreases |s|
  {
    var t := "0" + s;
    assert AllDigits(t) by {
      forall i | 0 <= i < |t| ensures IsDigit(t[i]) {
        if i > 0 { assert t[i] == s[i - 1]; }
      }
    }
    if s != [] {
      var p := s[..|s| - 1];
      assert t[..|t| - 1] == "0" + p;
      ParseNatLeadingZero(p);
    }
  }

  /**
   * The decimal text of an integer, with a leading '-' for a negative one
   * (the text sprintf("%.0f", …) gives for a whole number).
   */
  function IntString(i: int): string {
    if i < 0 then "-" + NatString(-i) else NatString(i)
  }

  /** The text starts with '-' exactly for a negative number; the rest is digits. */
  lemma IntStringShape(i: int)
    ensures |IntString(i)| >= 1
    ensures (i < 0) == (IntString(i)[0] == '-')
    ensures AllDigits(if i < 0 then IntString(i)[1..] else IntString(i))
  {
    if i < 0 {
      assert IntString(i)[1..] == NatString(-i);
    }
  }

  predicate IsIntText(s: string) {
    if |s| > 0 && s[0] == '-' then AllDigits(s[1..]) else AllDigits(s)
  }

  function ParseInt(s: string): int
    requires IsIntText(s)
  {
    if |s| > 0 && s[0] == '-' then 0 - ParseNat(s[1..]) as int else ParseNat(s) as int
  }

  lemma IntStringRoundTrip(i: int)
    ensures IsIntText(IntString(i)) && ParseInt(IntString(i)) == i
  {
    var s := IntString(i);
    if i < 0 {
      var digits := NatString(-i);
      assert s == "-" + digits;
      assert s[1..] == digits;
      NatStringRoundTrip(-i);
    } else {
      assert s == NatString(i);
      NatStringRoundTrip(i);
    }
  }
}
