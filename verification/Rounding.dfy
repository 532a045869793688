/** Rounding a fraction to the nearest whole number, halves to the even one. */
module Rounding {
  function HalfEven(n: nat, d: nat): nat
    requires d > 0
  {
    var q, r := n / d, n % d;
    if 2 * r > d || (2 * r == d && q % 2 == 1) then q + 1 else q
  }

  lemma HalfEvenExact(n: nat, d: nat)
    requires d > 0
    ensures HalfEven(n, d) * d == n <==> n % d == 0
  {
    var q, r := n / d, n % d;
    assert n == q * d + r;
    assert (q + 1) * d == q * d + d;
  }

  /** `n` tenths, rounded. */
  function Tenths(n: nat): nat {
    HalfEven(n, 10)
  }

  lemma TenthsAscend(a: nat, b: nat)
    requires a <= b
    ensures Tenths(a) <= Tenths(b)
  {
  }
}
