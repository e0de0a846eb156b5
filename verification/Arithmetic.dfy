/** Multiplication and division of integers. */
module Arithmetic {

  lemma TimesLe(a: int, b: int, c: nat)
    requires a <= b
    ensures a * c <= b * c
  {
  }

  lemma Divided(x: int, d: int)
    requires d > 0
    ensures d * (x / d) <= x < d * (x / d) + d && x == d * (x / d) + x % d
    ensures d * (x / d + 1) == d * (x / d) + d
  {
  }

  lemma QuotientNotNegative(x: nat, d: int)
    requires d > 0
    ensures x / d >= 0
  {
  }
}
