/** Facts about products of reals that the solver needs spelled out. */
module Arithmetic {

  /** A quotient, named so that proofs need not look inside it. */
  function Over(a: real, b: real): real
    requires b != 0.0
  {
    a / b
  }

  /** x times y is z. */
  predicate Product(x: real, y: real, z: real) {
    x * y == z
  }

  lemma OverTimes(a: real, b: real)
    requires b != 0.0
    ensures Product(Over(a, b), b, a)
  {
  }

  lemma SquareNonneg(x: real)
    ensures x * x >= 0.0
  {
  }

  lemma ProductPositive(a: real, b: real)
    requires a > 0.0 && b > 0.0
    ensures a * b > 0.0
  {
  }

  lemma ProductNonneg(a: real, b: real)
    requires a >= 0.0 && b >= 0.0
    ensures a * b >= 0.0
  {
  }

  lemma ScaleMonotone(a: real, b: real, c: real)
    requires a <= b && c >= 0.0
    ensures a * c <= b * c
  {
    ProductNonneg(b - a, c);
    assert (b - a) * c == b * c - a * c;
  }

  lemma PositiveFactor(c: real, x: real)
    requires c > 0.0 && c * x >= 0.0
    ensures x >= 0.0
  {
    if x < 0.0 {
      ProductPositive(c, -x);
    }
  }

  lemma SquareOrder(c: real, root: real)
    requires root >= 0.0 && c * c <= root * root
    ensures -root <= c <= root
  {
    if c > root {
      ProductPositive(c - root, c + root);
    }
    if c < -root {
      ProductPositive(-c - root, root - c);
    }
  }

  lemma QuotientOrder(a: real, b: real, d: real)
    requires d > 0.0
    ensures a / d <= b / d <==> a <= b
    ensures a / d * d == a
  {
    var q, r := a / d, b / d;
    assert q * d == a && r * d == b;
    ProductOrder(q, r, d);
  }

  lemma ProductOrder(q: real, r: real, d: real)
    requires d > 0.0
    ensures q * d <= r * d <==> q <= r
  {
    if q <= r {
      ScaleMonotone(q, r, d);
    } else {
      ProductPositive(q - r, d);
      assert (q - r) * d == q * d - r * d;
    }
  }

  lemma QuotientBounded(c: real, d: real)
    requires d > 0.0 && -d <= c <= d
    ensures -1.0 <= c / d <= 1.0
  {
    var q := c / d;
    assert q * d == c;
  }

  lemma QuotientRange(x: real, d: real, k: real)
    requires d > 0.0 && 0.0 <= x <= k * d
    ensures 0.0 <= x / d <= k
    ensures x / d == 0.0 <==> x == 0.0
  {
    var q := x / d;
    assert q * d == x;
    if q < 0.0 {
      ProductPositive(-q, d);
    }
    if q > k {
      ProductPositive(q - k, d);
    }
  }

  lemma SelfQuotient(d: real)
    requires d != 0.0
    ensures d / d == 1.0
  {
  }
}
