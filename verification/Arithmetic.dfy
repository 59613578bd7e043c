/** Products and quotients the solver needs spelled out. */
module Arithmetic {

  function MinInt(a: int, b: int): int { if a <= b then a else b }

  function MinReal(x: real, y: real): real { if x <= y then x else y }

  function MaxReal(x: real, y: real): real { if x >= y then x else y }

  /** Dividing by a positive number and multiplying back. */
  lemma Quotient(n: real, p: real)
    requires p > 0.0
    ensures n / p * p == n
  {
  }

  lemma PositiveQuotient(n: real, p: real)
    requires n > 0.0 && p > 0.0
    ensures n / p > 0.0
  {
    Quotient(n, p);
  }

  lemma QuotientOfProduct(x: real, p: real)
    requires p > 0.0
    ensures x * p / p == x
  {
    var y := x * p / p;
    Quotient(x * p, p);
    assert (y - x) * p == 0.0;
  }

  lemma QuotientOrder(n: real, m: real, p: real)
    requires p > 0.0
    ensures n <= m <==> n / p <= m / p
  {
    Quotient(n, p);
    Quotient(m, p);
    if n / p <= m / p { assert n / p * p <= m / p * p; }
    if n / p > m / p { assert n / p * p > m / p * p; }
  }

  lemma ScaleOrder(a: int, b: int, p: int)
    requires a <= b && p >= 0
    ensures a * p <= b * p
  {
  }

  lemma ScaleRealOrder(x: real, y: real, p: real)
    requires x <= y && p >= 0.0
    ensures x * p <= y * p
  {
  }

  lemma ProductAsReal(a: int, b: int)
    ensures (a * b) as real == a as real * b as real
  {
  }

  lemma MulAssociates(a: int, b: int, c: int)
    ensures a * (b * c) == (a * b) * c
  {
  }
}
