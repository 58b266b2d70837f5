/** The few nonlinear facts that the schedules and the device shardings rest on. */
module Arithmetic {

  lemma MulLe(a: int, b: int, c: int)
    ensures a <= b && 0 <= c ==> a * c <= b * c
  {
  }

  lemma MulDistributes(a: int, b: int, c: int)
    ensures (a + b) * c == a * c + b * c
  {
  }

  lemma DivMod(x: int, d: int)
    requires d > 0
    ensures x == x / d * d + x % d && 0 <= x % d < d
  {
  }

  /** Quotient and remainder are determined by the equation they solve. */
  lemma DivModUnique(q: int, r: int, d: int)
    requires 0 <= r < d
    ensures (q * d + r) / d == q && (q * d + r) % d == r
  {
    var x := q * d + r;
    DivMod(x, d);
    MulLe(x / d + 1, q, d);
    MulLe(q + 1, x / d, d);
    MulDistributes(x / d, 1, d);
    MulDistributes(q, 1, d);
  }

  lemma DivMonotone(x: int, y: int, d: int)
    requires d > 0 && x <= y
    ensures x / d <= y / d
  {
    DivMod(x, d);
    DivMod(y, d);
    MulLe(y / d + 1, x / d, d);
    MulDistributes(y / d, 1, d);
  }
}
