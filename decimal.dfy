/**
 * Decimal text of integers, as Java's Integer.toString and JavaScript's
 * Number-to-String conversion produce it for integral values: an optional
 * '-' followed by digits without leading zeros.  ParseDecimal accepts exactly
 * these canonical texts.
 */
module Decimal {
  import opened Wrappers

  predicate IsDigit(c: char) {
    '0' <= c <= '9'
  }

  function DigitChar(d: nat): (c: char)
    requires d < 10
    ensures IsDigit(c) && DigitValue(c) == d
  {
    (('0' as int) + d) as char
  }

  function DigitValue(c: char): nat
    requires IsDigit(c)
  {
    (c as int) - ('0' as int)
  }

  predicate AllDigits(s: string) {
    forall i :: 0 <= i < |s| ==> IsDigit(s[i])
  }

  /** A non-empty digit string without a leading zero (other than "0" itself). */
  predicate IsCanonicalNat(s: string) {
    |s| >= 1 && AllDigits(s) && (|s| > 1 ==> s[0] != '0')
  }

  /** The digits of n, most significant first. */
  function NatText(n: nat): (s: string)
    ensures IsCanonicalNat(s)
    ensures n > 0 ==> s[0] != '0'
    decreases n
  {
    if n < 10 then [DigitChar(n)] else NatText(n / 10) + [DigitChar(n % 10)]
  }

  /** Decimal text of an integer, with '-' for negative values. */
  function DecimalText(n: int): (s: string)
    ensures |s| >= 1
    ensures forall i :: 0 <= i < |s| ==> IsDigit(s[i]) || (i == 0 && s[i] == '-')
  {
    if n < 0 then "-" + NatText(-n) else NatText(n)
  }

  /** The value of a digit string read most significant first. */
  function DigitsValue(s: string): nat
    requires AllDigits(s)
    decreases |s|
  {
    if s == [] then 0 else DigitsValue(s[..|s| - 1]) * 10 + DigitValue(s[|s| - 1])
  }

  /** Reads a canonical decimal integer; anything else is rejected. */
  function ParseDecimal(s: string): Option<int> {
    if |s| >= 2 && s[0] == '-' && IsCanonicalNat(s[1..]) && s[1] != '0' then
      Some(-(DigitsValue(s[1..]) as int))
    else if IsCanonicalNat(s) then
      Some(DigitsValue(s) as int)
    else
      None
  }

  lemma {:induction false} NatTextValue(n: nat)
    ensures DigitsValue(NatText(n)) == n
    decreases n
  {
    if n >= 10 {
      NatTextValue(n / 10);
      var s := NatText(n);
      assert s[..|s| - 1] == NatText(n / 10);
    }
  }

  lemma {:induction false} CanonicalPositive(s: string)
    requires IsCanonicalNat(s) && s[0] != '0'
    ensures DigitsValue(s) > 0
    decreases |s|
  {
    if |s| > 1 {
      var init := s[..|s| - 1];
      assert init[0] == s[0];
      CanonicalPositive(init);
    }
  }

  lemma {:induction false} ValueNatText(s: string)
    requires IsCanonicalNat(s)
    ensures NatText(DigitsValue(s)) == s
    decreases |s|
  {
    if |s| == 1 {
      assert s == [DigitChar(DigitValue(s[0]))];
    } else {
      var init := s[..|s| - 1];
      assert init[0] == s[0];
      CanonicalPositive(init);
      ValueNatText(init);
      var v := DigitsValue(s);
      assert v / 10 == DigitsValue(init) && v % 10 == DigitValue(s[|s| - 1]);
      assert s == init + [DigitChar(v % 10)];
    }
  }

  /** Printing then reading gives the integer back. */
  lemma DecimalRoundTrip(n: int)
    ensures ParseDecimal(DecimalText(n)) == Some(n)
  {
    if n < 0 {
      NatTextValue(-n);
      assert DecimalText(n)[1..] == NatText(-n);
    } else {
      NatTextValue(n);
    }
  }

  /** A text is read as n exactly when it is the decimal text of n. */
  lemma ParseDecimalIff(s: string, n: int)
    ensures ParseDecimal(s) == Some(n) <==> s == DecimalText(n)
  {
    if s == DecimalText(n) {
      DecimalRoundTrip(n);
    }
    if ParseDecimal(s) == Some(n) {
      if |s| >= 2 && s[0] == '-' && IsCanonicalNat(s[1..]) && s[1] != '0' {
        CanonicalPositive(s[1..]);
        ValueNatText(s[1..]);
        assert s == "-" + s[1..];
      } else {
        ValueNatText(s);
      }
    }
  }
}
