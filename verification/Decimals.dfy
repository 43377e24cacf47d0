/** The decimal(p,s) check of contract fields, on an exactly parsed decimal. */
module Decimals {
  import opened Texts

  /** A finite decimal.Decimal up to sign: coefficient * 10^exponent. */
  datatype Decimal = Decimal(coefficient: nat, exponent: int)

  /** Length of the digit tuple; zero has one digit. */
  function Digits(n: nat): (d: nat)
    ensures d >= 1
  {
    if n < 10 then 1 else 1 + Digits(n / 10)
  }

  predicate FitsDecimal(d: Decimal, precision: int, scale: int) {
    var fractionDigits := if d.exponent < 0 then -d.exponent else 0;
    var integerDigits := if Digits(d.coefficient) > fractionDigits then Digits(d.coefficient) - fractionDigits else 0;
    fractionDigits <= scale && integerDigits <= precision - scale
  }

  /** |d| * 10^scale, when no written fraction digit has to be dropped. */
  function Scaled(d: Decimal, scale: nat): nat
    requires d.exponent + scale >= 0
  {
    d.coefficient * Pow10(d.exponent + scale)
  }

  /** A decimal(p,s) column holds the number with every digit as written: an integer below 10^p counted in 10^-s. */
  predicate Storable(d: Decimal, precision: nat, scale: nat) {
    d.exponent + scale >= 0 && Scaled(d, scale) < Pow10(precision)
  }

  lemma {:induction false} Pow10Add(a: nat, b: nat)
    ensures Pow10(a + b) == Pow10(a) * Pow10(b)
  {
    if a > 0 {
      Pow10Add(a - 1, b);
      assert Pow10(a + b) == 10 * (Pow10(a - 1) * Pow10(b)) == Pow10(a) * Pow10(b);
    }
  }

  lemma Pow10Monotone(a: nat, b: nat)
    ensures a < b ==> Pow10(a) < Pow10(b)
    ensures a <= b <==> Pow10(a) <= Pow10(b)
  {
    if a < b { Pow10Grows(a, b); }
    if b < a { Pow10Grows(b, a); }
  }

  lemma {:induction false} Pow10Grows(a: nat, b: nat)
    requires a < b
    ensures Pow10(a) < Pow10(b)
  {
    if a + 1 < b { Pow10Grows(a, b - 1); }
  }

  lemma {:induction false} DigitsBound(n: nat)
    requires n > 0
    ensures Pow10(Digits(n) - 1) <= n < Pow10(Digits(n))
  {
    if n >= 10 {
      DigitsBound(n / 10);
      assert Pow10(Digits(n) - 1) == 10 * Pow10(Digits(n / 10) - 1);
      assert Pow10(Digits(n)) == 10 * Pow10(Digits(n / 10));
    } else {
      assert Pow10(1) == 10 * Pow10(0);
    }
  }

  /** Scaling by 10^k adds k digits: n * 10^k < 10^m exactly when the digits of n and the k zeros fit m places. */
  lemma ScaledBelow(n: nat, k: nat, m: nat)
    requires n > 0
    ensures n * Pow10(k) < Pow10(m) <==> Digits(n) + k <= m
  {
    hide Pow10;
    var d := Digits(n);
    DigitsBound(n);
    if d + k <= m {
      Pow10Add(d, k);
      Pow10Monotone(d + k, m);
      TimesLess(n, Pow10(d), Pow10(k));
    } else {
      Pow10Add(d - 1, k);
      Pow10Monotone(m, d - 1 + k);
      TimesLeq(Pow10(d - 1), n, Pow10(k));
    }
  }

  lemma TimesLess(a: nat, b: nat, c: nat)
    requires a < b && c > 0
    ensures a * c < b * c
  {
  }

  lemma TimesLeq(a: nat, b: nat, c: nat)
    requires a <= b
    ensures a * c <= b * c
  {
  }

  /** Exactly what the check accepts. Besides the storable numbers it accepts those with a positive exponent whose
      zeros it does not count, and it rejects a zero without fraction digits when decimal(p,p) leaves no integer
      place for it. */
  lemma DecimalExact(d: Decimal, precision: nat, scale: nat)
    requires scale <= precision
    ensures FitsDecimal(d, precision, scale) <==>
              || (Storable(d, precision, scale) && !(d.coefficient == 0 && d.exponent >= 0 && precision == scale))
              || (d.coefficient > 0 && d.exponent > 0 &&
                  Digits(d.coefficient) <= precision - scale < Digits(d.coefficient) + d.exponent)
  {
    if d.exponent + scale >= 0 && d.coefficient > 0 {
      ScaledBelow(d.coefficient, d.exponent + scale, precision);
    }
  }

  /** Without exponent notation, every accepted number is storable. */
  lemma AcceptedIsStorable(d: Decimal, precision: nat, scale: nat)
    requires scale <= precision && FitsDecimal(d, precision, scale)
    ensures Storable(d, precision, scale) <==>
            d.exponent <= 0 || d.coefficient == 0 || Digits(d.coefficient) + d.exponent <= precision - scale
  {
    if d.exponent + scale >= 0 && d.coefficient > 0 {
      ScaledBelow(d.coefficient, d.exponent + scale, precision);
    }
  }

  /** "1E+5" passes for decimal(5,2), whose largest value is 999.99; "0" fails for decimal(2,2). */
  lemma DecimalEdges()
    ensures FitsDecimal(Decimal(1, 5), 5, 2) && !Storable(Decimal(1, 5), 5, 2)
    ensures !FitsDecimal(Decimal(0, 0), 2, 2) && Storable(Decimal(0, 0), 2, 2)
  {
    AcceptedIsStorable(Decimal(1, 5), 5, 2);
  }

  /** A wider precision at the same scale accepts everything the narrower one does. */
  lemma FitsMonotone(d: Decimal, p: int, p': int, scale: int)
    requires p <= p' && FitsDecimal(d, p, scale)
    ensures FitsDecimal(d, p', scale)
  {
  }
}
