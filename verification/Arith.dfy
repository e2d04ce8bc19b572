// Facts about products that the solver is told one at a time.
module Arith {

  function Min(a: int, b: int): int {
    if a <= b then a else b
  }

  lemma MulMonotone(a: nat, i: int, j: int)
    requires i <= j
    ensures a * i <= a * j
  {}

  lemma MulAntitone(a: int, i: int, j: int)
    requires a <= 0 && i <= j
    ensures a * i >= a * j
  {}

  lemma MulDistributes(a: int, i: int, j: int)
    ensures a * (i + j) == a * i + a * j
  {}

  lemma QuotientBounds(a: nat, b: nat)
    requires b > 0
    ensures b * (a / b) <= a < b * (a / b + 1)
  {}

  /** Twice a times the triangle number of t, from that of t - 1. */
  lemma TriangleStep(a: nat, t: nat)
    requires t > 0
    ensures a * (t * (t + 1)) == a * ((t - 1) * t) + 2 * (a * t)
  {}
}
