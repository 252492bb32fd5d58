/** Decimal numerals as `to_string` prints them. */
module Decimal {
  import opened Wrappers

  predicate IsDigit(c: char) { '0' <= c <= '9' }

  function Digit(d: nat): (c: char)
    requires d < 10
    ensures IsDigit(c) && DigitValue(c) == d
  {
    '0' + d as char
  }

  function DigitValue(c: char): nat
    requires IsDigit(c)
  {
    (c - '0') as nat
  }

  function Numeral(n: nat): (s: string)
    ensures s != [] && AllDigits(s)
  {
    if n < 10 then [Digit(n)] else Numeral(n / 10) + [Digit(n % 10)]
  }

  lemma DigitIsListed(d: nat)
    requires d < 10
    ensures Digit(d) == "0123456789"[d]
  {}

  /** Nothing stands in front of the first digit. */
  lemma NoLeadingZero(n: nat)
    ensures n > 0 ==> Numeral(n)[0] != '0'
    ensures n < 10 ==> |Numeral(n)| == 1
  {}

  predicate AllDigits(s: string) { forall c :: c in s ==> IsDigit(c) }

  function Value(s: string): nat
    requires AllDigits(s)
  {
    if s == [] then 0 else Value(s[..|s| - 1]) * 10 + DigitValue(s[|s| - 1])
  }

  lemma {:induction false} ValueOfNumeral(n: nat)
    ensures Value(Numeral(n)) == n
  {
    if n < 10 {
      assert Value([]) == 0;
    } else {
      ValueOfNumeral(n / 10);
      assert Numeral(n)[..|Numeral(n)| - 1] == Numeral(n / 10);
    }
  }
}
