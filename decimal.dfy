/** Decimal rendering of the integer overloads value(int) and value(long),
    which write through the stream's default integer formatting: an optional
    minus sign followed by the decimal digits, without leading zeros. */
module Decimal {

  /** C++ int and long (64-bit platform) value ranges. */
  type Int32 = x: int | -0x8000_0000 <= x < 0x8000_0000
  type Int64 = x: int | -0x8000_0000_0000_0000 <= x < 0x8000_0000_0000_0000

  predicate IsDigit(c: char) { '0' <= c <= '9' }

  function DigitChar(d: nat): (c: char)
    requires d < 10
    ensures IsDigit(c)
  {
    ('0' as int + d) as char
  }

  function DigitValue(c: char): (d: nat)
    requires IsDigit(c)
    ensures d < 10
  {
    c as int - '0' as int
  }

  predicate AllDigits(s: string) {
    forall i :: 0 <= i < |s| ==> IsDigit(s[i])
  }

  /** Canonical decimal text of a natural number: nonempty, digits only, no
      leading zero unless the number is zero. */
  predicate IsNatText(s: string) {
    |s| >= 1 && AllDigits(s) && (s[0] == '0' ==> |s| == 1)
  }

  /** Canonical decimal text of an integer: a natural number's text, with a
      leading '-' for negative values ("-0" is not canonical). */
  predicate IsIntText(s: string) {
    if |s| >= 1 && s[0] == '-' then IsNatText(s[1..]) && s[1..] != "0" else IsNatText(s)
  }

  function NatToDecimal(n: nat): string
    decreases n
  {
    if n < 10 then [DigitChar(n)] else NatToDecimal(n / 10) + [DigitChar(n % 10)]
  }

  function IntToDecimal(n: int): string
  {
    if n < 0 then "-" + NatToDecimal(-n) else NatToDecimal(n)
  }

  /** The reference reading of a string of digits. */
  function DecimalValue(s: string): nat
    requires AllDigits(s)
    decreases |s|
  {
    if s == [] then 0 else DecimalValue(s[..|s| - 1]) * 10 + DigitValue(s[|s| - 1])
  }

  function ParseInt(s: string): int
    requires IsIntText(s)
  {
    if s[0] == '-' then 0 - DecimalValue(s[1..]) else DecimalValue(s)
  }

  lemma LeadingZero(s: string)
    requires IsNatText(s)
    ensures s[0] == '0' ==> DecimalValue(s) == 0
  {
    if s[0] == '0' {
      assert s[..|s| - 1] == [];
    }
  }

  lemma {:induction false} NatToDecimalCorrect(n: nat)
    ensures IsNatText(NatToDecimal(n))
    ensures DecimalValue(NatToDecimal(n)) == n
    ensures NatToDecimal(n)[0] != '-'
    decreases n
  {
    var s := NatToDecimal(n);
    if n < 10 {
      assert s == [DigitChar(n)];
      assert s[..0] == [];
    } else {
      var p := NatToDecimal(n / 10);
      NatToDecimalCorrect(n / 10);
      assert s == p + [DigitChar(n % 10)];
      assert s[..|s| - 1] == p;
      assert s[0] == p[0];
      assert AllDigits(s) by {
        forall i | 0 <= i < |s| ensures IsDigit(s[i]) {
          if i < |p| { assert s[i] == p[i]; }
        }
      }
      LeadingZero(p);
    }
  }

  /** Parsing undoes value(int)/value(long) rendering, and the rendering is
      canonical. */
  lemma IntRoundTrip(n: int)
    ensures IsIntText(IntToDecimal(n))
    ensures ParseInt(IntToDecimal(n)) == n
  {
    var s := IntToDecimal(n);
    if n < 0 {
      NatToDecimalCorrect(-n);
      assert s[1..] == NatToDecimal(-n);
      LeadingZero(s[1..]);
    } else {
      NatToDecimalCorrect(n);
    }
  }

  /** Distinct integers are written as distinct texts. */
  lemma IntToDecimalInjective(m: int, n: int)
    requires IntToDecimal(m) == IntToDecimal(n)
    ensures m == n
  {
    IntRoundTrip(m);
    IntRoundTrip(n);
  }
}
