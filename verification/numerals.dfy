/**
 Decimal numerals: the digits `0`-`9`, reading a run of digits as a
 number and writing a number in the shortest form `String(n)` gives.
 */
module Numerals {

  predicate IsDigit(c: char) {
    '0' <= c <= '9'
  }

  /** Every character is a digit (vacuously so for the empty string). */
  predicate AllDigits(s: string) {
    forall i :: 0 <= i < |s| ==> IsDigit(s[i])
  }

  function DigitValue(c: char): (d: nat)
    requires IsDigit(c)
    ensures d < 10
  {
    c as int - '0' as int
  }

  function DigitChar(d: nat): (c: char)
    requires d < 10
    ensures IsDigit(c) && DigitValue(c) == d
  {
    ('0' as int + d) as char
  }

  /** The value of a run of decimal digits, most significant first; leading zeros are allowed. */
  function ReadNat(s: string): nat
    requires AllDigits(s)
  {
    if |s| == 0 then 0
    else ReadNat(s[..|s| - 1]) * 10 + DigitValue(s[|s| - 1])
  }

  /** `n` in decimal without leading zeros: the JavaScript `String(n)` of a non-negative integer. */
  function ShowNat(n: nat): (r: string)
    ensures AllDigits(r)
    ensures 0 < |r|
  {
    if n < 10 then [DigitChar(n)]
    else ShowNat(n / 10) + [DigitChar(n % 10)]
  }

  /** Reading back what was written gives the number. */
  lemma {:induction false} ReadShow(n: nat)
    ensures ReadNat(ShowNat(n)) == n
  {
    var r := ShowNat(n);
    if n < 10 {
      assert r[..0] == [];
    } else {
      ReadShow(n / 10);
      assert r[..|r| - 1] == ShowNat(n / 10);
    }
  }
}
