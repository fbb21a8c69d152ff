/** Encodings that carry their own size in decimal: a constant part and the digits of the size field. */
module Decimal {

  function Digits(n: nat): (d: nat)
    ensures d >= 1
  {
    if n < 10 then 1 else 1 + Digits(n / 10)
  }

  lemma {:induction false} DigitsAreMonotone(m: nat, n: nat)
    requires m <= n
    ensures Digits(m) <= Digits(n)
    decreases n
  {
    if m >= 10 {
      DigitsAreMonotone(m / 10, n / 10);
    }
  }

  lemma {:induction false} FewDigits(n: nat)
    requires n > 0
    ensures Digits(n) <= n
  {
    if n >= 10 {
      FewDigits(n / 10);
    }
  }

  /** A number at most ten times as large has at most one digit more. */
  lemma AtMostOneMoreDigit(m: nat, n: nat)
    requires m <= 10 * n && n > 0
    ensures Digits(m) <= Digits(n) + 1
  {
    DigitsAreMonotone(m, 10 * n);
    assert 10 * n / 10 == n;
  }

  /** The size that an encoding with constant part `base` settles at. */
  function Settled(base: nat): nat {
    base + Digits(base + Digits(base + 1))
  }

  /** It describes itself, no smaller size does, and three rounds from an empty field reach it. */
  lemma SettledDescribesItself(base: nat)
    ensures Settled(base) == base + Digits(Settled(base))
    ensures forall n: nat | n == base + Digits(n) :: n >= Settled(base)
    ensures Settled(base) >= base + 1
  {
    var n1, d := base + 1, Digits(base + 1);
    FewDigits(n1);
    AtMostOneMoreDigit(base + d, n1);
    AtMostOneMoreDigit(base + d + 1, n1);
    DigitsAreMonotone(n1, base + d);
    DigitsAreMonotone(base + d, base + d + 1);
    forall n: nat | n == base + Digits(n) ensures n >= Settled(base) {
      DigitsAreMonotone(n1, n);
      DigitsAreMonotone(base + d, n);
    }
  }

  /** The size without its own digits never falls as the size grows. */
  lemma {:induction false} DigitsGrowSlower(m: nat, n: nat)
    requires m <= n
    ensures m - Digits(m) <= n - Digits(n)
    decreases n
  {
    if m < n {
      DigitsGrowSlower(m, n - 1);
      if n > 1 { AtMostOneMoreDigit(n, n - 1); }
    }
  }

  /** It fits a bound exactly if the constant part leaves room for the digits of the bound. */
  lemma SettledFitsIff(base: nat, max: nat)
    ensures Settled(base) <= max <==> base + Digits(max) <= max
  {
    SettledDescribesItself(base);
    if Settled(base) <= max {
      DigitsGrowSlower(Settled(base), max);
    }
    if base + Digits(max) <= max {
      DigitsAreMonotone(base + 1, max);
      DigitsAreMonotone(base + Digits(base + 1), max);
    }
  }

  /** Up to the bound of the service a size field takes at most seven bytes. */
  lemma SettledIsClose(base: nat)
    requires base + 7 < 10000000
    ensures Settled(base) <= base + 7
  {
    DigitsAreMonotone(base + 1, 9999999);
    DigitsAreMonotone(base + Digits(base + 1), 9999999);
    assert Digits(9999999) == 7;
  }
}
