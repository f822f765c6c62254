/** Decimal numerals, as Python's `str(n)` writes a natural number and as
    `int(s, 10)` reads a string of ASCII digits. */
module Numerals {

  predicate IsDigit(c: char) {
    '0' <= c <= '9'
  }

  predicate AllDigits(s: string) {
    forall i :: 0 <= i < |s| ==> IsDigit(s[i])
  }

  /** A numeral without a superfluous leading zero: "0", or digits starting with 1-9. */
  predicate Canonical(s: string) {
    s != [] && AllDigits(s) && (s[0] == '0' ==> |s| == 1)
  }

  function DigitChar(d: nat): (c: char)
    requires d < 10
    ensures IsDigit(c)
  {
    ('0' as int + d) as char
  }

  function DigitValue(c: char): (d: nat)
    requires IsDigit(c)
    ensures d < 10 && DigitChar(d) == c
  {
    c as int - '0' as int
  }

  /** The numeral of `n`, most significant digit first. */
  function Decimal(n: nat): (s: string)
    ensures Canonical(s)
    ensures (s[0] == '0') == (n == 0)
    ensures (|s| == 1) == (n < 10)
    decreases n
  {
    if n < 10 then [DigitChar(n)] else Decimal(n / 10) + [DigitChar(n % 10)]
  }

  /** The number a string of digits denotes. */
  function DecValue(s: string): nat
    requires AllDigits(s)
    decreases |s|
  {
    if s == [] then 0 else 10 * DecValue(s[..|s| - 1]) + DigitValue(s[|s| - 1])
  }

  /** Reading back what `Decimal` wrote gives the number. */
  lemma {:induction false} DecValueOfDecimal(n: nat)
    ensures DecValue(Decimal(n)) == n
  {
    if n >= 10 {
      DecValueOfDecimal(n / 10);
      var s := Decimal(n);
      assert s[..|s| - 1] == Decimal(n / 10);
    }
  }

  /** A numeral that starts with a non-zero digit denotes a positive number. */
  lemma {:induction false} DecValuePositive(s: string)
    requires AllDigits(s) && s != [] && s[0] != '0'
    ensures DecValue(s) > 0
  {
    if |s| > 1 {
      DecValuePositive(s[..|s| - 1]);
    } else {
      assert DigitChar(DigitValue(s[0])) == s[0];
    }
  }

  /** Writing out what a canonical numeral denotes gives the numeral back. */
  lemma {:induction false} DecimalOfDecValue(s: string)
    requires Canonical(s)
    ensures Decimal(DecValue(s)) == s
  {
    var v := DecValue(s);
    var init, last := s[..|s| - 1], s[|s| - 1];
    if |s| == 1 {
      assert init == [] && DecValue(init) == 0;
      assert s == [last];
    } else {
      assert init[0] == s[0] != '0';
      DecValuePositive(init);
      DecimalOfDecValue(init);
      assert v / 10 == DecValue(init) && v % 10 == DigitValue(last);
      assert s == init + [last];
    }
  }

  lemma DecimalInjective(a: nat, b: nat)
    ensures Decimal(a) == Decimal(b) ==> a == b
  {
    DecValueOfDecimal(a);
    DecValueOfDecimal(b);
  }

  /** Numbers below 1000 take at most three digits. */
  lemma {:induction false} DecimalLength(n: nat)
    requires n < 1000
    ensures |Decimal(n)| <= 3
  {
    if n >= 10 {
      DecimalLength(n / 10);
      if n >= 100 {
        assert n / 10 >= 10;
        assert |Decimal(n / 10)| == 2 by {
          assert n / 10 / 10 < 10;
        }
      }
    }
  }
}
