/** Division by a variable, in small steps the solver does not take by itself. */
module Arith {
  lemma SmallMultipleIsZero(n: int, d: nat)
    requires 0 - d < n * d < d
    ensures n == 0
  {
    if n >= 1 {
      MulMonotone(1, n, d);
    } else if n <= -1 {
      MulMonotone(n, -1, d);
    }
  }

  lemma MulMonotone(a: int, b: int, d: nat)
    requires a <= b
    ensures a * d <= b * d
  {
    assert b * d - a * d == (b - a) * d;
  }

  lemma Quotient(x: int, d: nat, q: int)
    requires q * d <= x < q * d + d
    ensures x / d == q && x % d == x - q * d
  {
    assert x == x / d * d + x % d;
    assert (x / d - q) * d == x / d * d - q * d;
    SmallMultipleIsZero(x / d - q, d);
  }

  lemma Multiple(k: int, d: nat)
    requires d > 0
    ensures k * d % d == 0 && k * d / d == k
  {
    Quotient(k * d, d, k);
  }

  lemma DivMonotone(x: int, y: int, d: nat)
    requires d > 0 && x <= y
    ensures x / d <= y / d
  {
    var p, q := x / d, y / d;
    assert x == p * d + x % d && y == q * d + y % d;
    assert (q + 1) * d == q * d + d;
    if p > q {
      MulMonotone(q + 1, p, d);
    }
  }
}
