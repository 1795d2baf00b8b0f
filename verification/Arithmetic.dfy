/** Products and quotients of natural numbers. */
module Arithmetic {

  lemma MulMono(a: nat, b: nat, c: nat)
    requires a <= b
    ensures a * c <= b * c
  {
    assert b * c == a * c + (b - a) * c;
  }

  lemma MulLess(a: nat, b: nat, c: nat)
    requires a * c < b * c
    ensures a < b
  {
    if b <= a {
      MulMono(b, a, c);
    }
  }

  /** Quotient and remainder are determined. */
  lemma DivUnique(x: nat, d: nat, q: nat, r: nat)
    requires d >= 1 && r < d && x == r + q * d
    ensures q == x / d && r == x % d
  {
    var p := x / d;
    assert x == p * d + x % d;
    assert (q + 1) * d == q * d + d && (p + 1) * d == p * d + d;
    MulLess(p, q + 1, d);
    MulLess(q, p + 1, d);
  }
}
