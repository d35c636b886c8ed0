/** Small facts about natural-number multiplication and floor division that
    the square-root and liquidity proofs rely on. */
module Arith {

  /** Multiplying both sides of `a <= b` by the same natural number. */
  lemma MulMonotone(a: nat, b: nat, c: nat)
    requires a <= b
    ensures a * c <= b * c
  {
    assert b * c == a * c + (b - a) * c;
  }

  /** Squaring is monotone on the naturals. */
  lemma SquareMonotone(a: nat, b: nat)
    requires a <= b
    ensures a * a <= b * b
  {
    MulMonotone(a, b, a);
    MulMonotone(a, b, b);
  }

  /** Floor division brackets its dividend: `(p / d) * d <= p < (p / d + 1) * d`. */
  lemma FloorDivBounds(p: nat, d: nat)
    requires d > 0
    ensures (p / d) * d <= p < (p / d + 1) * d
  {
    assert p == (p / d) * d + p % d;
    assert (p / d + 1) * d == (p / d) * d + d;
  }
}
