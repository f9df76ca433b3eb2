/** Facts about products and quotients that the solver is better told. */
module Arithmetic {
  lemma Scale(a: nat, b: nat, d: nat)
    requires a <= b
    ensures a * d <= b * d
  {
  }

  lemma DivFloor(x: nat, d: nat)
    requires d > 0
    ensures x == x / d * d + x % d && x / d * d <= x < x / d * d + d
  {
  }

  lemma DivUnique(x: nat, d: nat, q: nat, r: nat)
    requires d > 0 && r < d && x == q * d + r
    ensures x / d == q && x % d == r
  {
    DivFloor(x, d);
    if q < x / d {
      Scale(q + 1, x / d, d);
    } else if x / d < q {
      Scale(x / d + 1, q, d);
    }
  }
}
