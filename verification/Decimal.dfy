// Decimal numerals.
module Decimal {
  predicate IsDigit(c: char) {
    '0' <= c <= '9'
  }

  function Digit(d: nat): (c: char)
    requires d < 10
    ensures IsDigit(c) && DigitValue(c) == d
  {
    '0' + d as char
  }

  function DigitValue(c: char): nat
    requires IsDigit(c)
  {
    (c - '0') as nat
  }

  predicate AllDigits(s: string) {
    forall i | 0 <= i < |s| :: IsDigit(s[i])
  }

  // A number in decimal.
  function Itoa(n: nat): (s: string)
    ensures s != [] && AllDigits(s)
  {
    if n < 10 then [Digit(n)] else Itoa(n / 10) + [Digit(n % 10)]
  }

  function ValueOf(s: string): nat
    requires AllDigits(s)
  {
    if s == [] then 0 else 10 * ValueOf(s[..|s| - 1]) + DigitValue(s[|s| - 1])
  }

  // A numeral without a leading zero.
  predicate IsNumeral(s: string) {
    s != [] && AllDigits(s) && (|s| == 1 || s[0] != '0')
  }

  lemma {:induction false} ItoaBack(n: nat)
    ensures ValueOf(Itoa(n)) == n
  {
    var s := Itoa(n);
    if n >= 10 {
      ItoaBack(n / 10);
      assert s[..|s| - 1] == Itoa(n / 10);
    } else {
      assert s[..0] == [];
    }
  }

  lemma {:induction false} ItoaInjective(m: nat, n: nat)
    requires Itoa(m) == Itoa(n)
    ensures m == n
  {
    ItoaBack(m);
    ItoaBack(n);
  }

  lemma {:induction false} NumeralPositive(s: string)
    requires IsNumeral(s) && s[0] != '0'
    ensures ValueOf(s) >= 1
    decreases |s|
  {
    if |s| > 1 {
      NumeralPositive(s[..|s| - 1]);
    }
  }

  // A numeral is what its number prints as.
  lemma {:induction false} NumeralBack(s: string)
    requires IsNumeral(s)
    ensures Itoa(ValueOf(s)) == s
    decreases |s|
  {
    var front, last := s[..|s| - 1], s[|s| - 1];
    if |s| == 1 {
      assert ValueOf(front) == 0 && s == [last];
      assert Digit(DigitValue(last)) == last;
    } else {
      NumeralPositive(front);
      NumeralBack(front);
      assert ValueOf(s) / 10 == ValueOf(front) && ValueOf(s) % 10 == DigitValue(last);
      assert s == front + [last] && Digit(DigitValue(last)) == last;
    }
  }
}
