/**
 Signs and quotients of real numbers, kept apart so that no other proof has to multiply.
 */
module RealFacts {

  lemma SignOf(x: real, d: real)
    requires d > 0.0
    ensures x * d >= 0.0 <==> x >= 0.0
    ensures x * d > 0.0 <==> x > 0.0
  {
  }

  lemma SignOfProduct(a: real, b: real)
    requires a >= 0.0 && b >= 0.0
    ensures a * b >= 0.0
  {
    if b > 0.0 {
      SignOf(a, b);
    }
  }

  lemma QuotientIsPositive(a: real, b: real)
    requires a > 0.0 && b > 0.0
    ensures a / b > 0.0
  {
    var q := a / b;
    assert q * b == a;
    SignOf(q, b);
  }

  lemma FractionOf(a: real, b: real)
    requires 0.0 < a < b
    ensures 0.0 < a / b < 1.0
  {
    var q := a / b;
    assert q * b == a && (1.0 - q) * b == b - a;
    SignOf(q, b);
    SignOf(1.0 - q, b);
  }

  lemma QuotientGrows(a: real, b: real, d: real)
    requires a <= b && d > 0.0
    ensures a / d <= b / d
  {
    var p, q := a / d, b / d;
    assert p * d == a && q * d == b;
    assert (q - p) * d == b - a;
    SignOf(q - p, d);
  }

  lemma QuotientsAdd(a: real, b: real, d: real)
    requires d > 0.0
    ensures a / d + b / d == (a + b) / d
  {
    var x, y, z := a / d, b / d, (a + b) / d;
    assert x * d == a && y * d == b && z * d == a + b;
    var gap := x + y - z;
    assert gap * d == 0.0;
    SignOf(gap, d);
    SignOf(-gap, d);
  }

  lemma QuotientIsNotNegative(a: real, d: real)
    requires a >= 0.0 && d > 0.0
    ensures a / d >= 0.0
  {
    QuotientGrows(0.0, a, d);
  }

  lemma ProductsRegroup(x: real, p: real, q: real)
    ensures x * p * q == x * (p * q)
  {
  }
}
