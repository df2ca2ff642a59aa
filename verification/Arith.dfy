/** Facts about multiplication and division of naturals, each proved in isolation. */
module Arith {

  lemma MulMono(a: int, b: int, c: nat)
    requires a <= b
    ensures a * c <= b * c
  {
  }

  lemma MulNonNeg(a: nat, b: nat)
    ensures 0 <= a * b
  {
  }

  lemma MulPositive(a: nat, b: nat)
    requires a > 0 && b > 0
    ensures a * b >= a && a * b >= b
  {
  }

  lemma MulSwap(a: int, b: int, c: int)
    ensures (a * b) * c == (a * c) * b
  {
  }

  lemma MulDistributes(a: int, b: int, c: int)
    ensures (a + b) * c == a * c + b * c
    ensures (a - b) * c == a * c - b * c
    ensures c * (a + b) == c * a + c * b
    ensures c * (a - b) == c * a - c * b
  {
  }

  /** Cancel a positive factor. */
  lemma MulCancel(a: int, b: int, c: nat)
    requires c > 0
    requires a * c <= b * c
    ensures a <= b
  {
    if b + 1 <= a { MulMono(b + 1, a, c); }
  }

  lemma DivMod(a: nat, b: nat)
    requires b > 0
    ensures a == a / b * b + a % b
    ensures 0 <= a % b < b
  {
  }

  lemma DivNonNeg(a: nat, b: nat)
    requires b > 0
    ensures a / b >= 0
  {
  }

  lemma DivLeq(a: nat, b: nat)
    requires b > 0
    ensures 0 <= a / b <= a
  {
    DivMod(a, b);
    DivNonNeg(a, b);
    MulMono(1, b, a / b);
  }

  lemma DivAtLeast(a: nat, b: nat, q: nat)
    requires b > 0
    requires q * b <= a
    ensures q <= a / b
  {
    DivMod(a, b);
    DivNonNeg(a, b);
    if a / b + 1 <= q { MulMono(a / b + 1, q, b); }
  }

  lemma DivAtMost(a: nat, b: nat, q: nat)
    requires b > 0
    requires a < (q + 1) * b
    ensures a / b <= q
  {
    DivMod(a, b);
    DivNonNeg(a, b);
    if q + 1 <= a / b { MulMono(q + 1, a / b, b); }
  }

  lemma DivUnique(a: nat, b: nat, q: nat, r: nat)
    requires r < b
    requires a == q * b + r
    ensures a / b == q && a % b == r
  {
    assert (q + 1) * b == q * b + b;
    DivAtLeast(a, b, q);
    DivAtMost(a, b, q);
    DivMod(a, b);
  }
}
