/** Decimal numerals: Python's `str(n)` on an integer and the digit part of
    `int(s)`. */
module Numerals {

  predicate IsDigit(c: char) {
    '0' <= c <= '9'
  }

  predicate AllDigits(s: string) {
    forall i :: 0 <= i < |s| ==> IsDigit(s[i])
  }

  function DigitChar(d: nat): (c: char)
    requires d < 10
    ensures IsDigit(c) && (c as int) - ('0' as int) == d
  {
    (('0' as int) + d) as char
  }

  /** The value of a string of decimal digits, most significant first. */
  function DigitsValue(s: string): nat
    requires AllDigits(s)
  {
    if |s| == 0 then 0
    else DigitsValue(s[..|s| - 1]) * 10 + ((s[|s| - 1] as int) - ('0' as int))
  }

  /** `str(n)` for a non-negative integer: no leading zeros, at least one digit. */
  function NatStr(n: nat): (s: string)
    ensures 0 < |s| && AllDigits(s)
    ensures |s| > 1 ==> s[0] != '0'
  {
    if n < 10 then [DigitChar(n)] else NatStr(n / 10) + [DigitChar(n % 10)]
  }

  /** `str(n)` for any integer. */
  function IntStr(n: int): (s: string)
    ensures 0 < |s|
  {
    if n < 0 then "-" + NatStr(-n) else NatStr(n)
  }

  /** A printed integer starts with a minus sign exactly when it is negative,
      and the digits after it read back as its absolute value. */
  lemma IntStrValue(n: int)
    ensures var s := IntStr(n);
            && (s[0] == '-') == (n < 0)
            && (n >= 0 ==> AllDigits(s) && DigitsValue(s) == n)
            && (n < 0 ==> AllDigits(s[1..]) && DigitsValue(s[1..]) == -n)
  {
    if n < 0 {
      NatStrValue(-n);
      assert IntStr(n)[1..] == NatStr(-n);
    } else {
      NatStrValue(n);
    }
  }

  /** Reading back a printed numeral gives the number. */
  lemma {:induction false} NatStrValue(n: nat)
    ensures DigitsValue(NatStr(n)) == n
  {
    if n >= 10 {
      NatStrValue(n / 10);
      var s := NatStr(n);
      assert s[..|s| - 1] == NatStr(n / 10);
    }
  }
}
