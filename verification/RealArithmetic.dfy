/** The lesser and greater of two reals, and the few facts about squares and products the solver has to be told. */
module RealArithmetic {

  function Sq(x: real): real {
    x * x
  }

  function Min(a: real, b: real): real {
    if a <= b then a else b
  }

  function Max(a: real, b: real): real {
    if a >= b then a else b
  }

  lemma ProductNotNegative(a: real, b: real)
    requires a >= 0.0 && b >= 0.0
    ensures a * b >= 0.0
  {
  }

  lemma SquareNotNegative(a: real)
    ensures Sq(a) >= 0.0
  {
    if a < 0.0 {
      assert a * a == (-a) * (-a);
      ProductNotNegative(-a, -a);
    }
  }

  lemma SquareRoot(x: real, root: real)
    requires x * x == root * root && root >= 0.0
    ensures x == root || x == -root
  {
    var sum, difference := x + root, x - root;
    assert sum * difference == x * x - root * root;
    ZeroProduct(sum, difference);
  }

  lemma ZeroProduct(a: real, b: real)
    requires a * b == 0.0
    ensures a == 0.0 || b == 0.0
  {
  }

  lemma ScaleGrows(x: real, a: real, b: real)
    requires x >= 0.0 && a <= b
    ensures a * x <= b * x && x * a <= x * b
  {
    ProductNotNegative(x, b - a);
    assert x * (b - a) == x * b - x * a;
  }

  lemma SquareGrows(a: real, b: real)
    requires 0.0 <= a <= b
    ensures Sq(a) <= Sq(b)
  {
    ScaleGrows(a, a, b);
    ScaleGrows(b, a, b);
  }

  lemma DividesOut(x: real, n: nat)
    requires x > 0.0 && n >= 2
    ensures (x / n as real) * n as real == x
    ensures 0.0 < x / n as real < x
  {
    var q := x / n as real;
    if q <= 0.0 {
      ProductNotNegative(-q, n as real);
    }
    assert q * n as real == x;
    ScaleGrows(q, 2.0, n as real);
    assert q * 2.0 <= x;
  }

  lemma SplitsProduct(a: real, b: real, x: real)
    ensures (a + b) * x == a * x + b * x
  {
  }

  lemma SquareOfDifferences(p: real, q: real, s: real, t: real)
    ensures Sq(p - q) + Sq(s - t) == (p * p + s * s) + (q * q + t * t) - 2.0 * (p * q + s * t)
  {
  }

  lemma ScalesSquares(r: real, x: real, y: real, d: real)
    requires Sq(x) + Sq(y) == Sq(d)
    ensures Sq(r * x) + Sq(r * y) == Sq(r * d)
  {
    ProductOfSquares(r, x);
    ProductOfSquares(r, y);
    ProductOfSquares(r, d);
    assert Sq(r) * Sq(x) + Sq(r) * Sq(y) == Sq(r) * Sq(d);
  }

  lemma ProductOfSquares(a: real, b: real)
    ensures Sq(a * b) == Sq(a) * Sq(b)
  {
  }

  lemma SquareAtMostOne(x: real)
    requires -1.0 <= x <= 1.0
    ensures Sq(x) <= 1.0
  {
    ProductNotNegative(1.0 - x, 1.0 + x);
    assert (1.0 - x) * (1.0 + x) == 1.0 - x * x;
  }

  /** Taking at most one away adds little to a square that is already large. */
  lemma NudgedSquare(f: real, e: real)
    requires -1.0 <= e <= 1.0
    ensures 16.0 * Sq(f - e) <= 17.0 * Sq(f) + 272.0
  {
    SquareAtMostOne(e);
    SquareNotNegative(f + 16.0 * e);
    assert Sq(f + 16.0 * e) == Sq(f) + 32.0 * (f * e) + 256.0 * Sq(e);
    assert Sq(f - e) == Sq(f) - 2.0 * (f * e) + Sq(e);
  }

  /** Moving each coordinate of a difference by at most one cannot bring it from 24 to under 22. */
  lemma NudgedDifference(fx: real, fy: real, ex: real, ey: real)
    requires Sq(fx - ex) + Sq(fy - ey) >= 576.0
    requires -1.0 <= ex <= 1.0 && -1.0 <= ey <= 1.0
    ensures Sq(fx) + Sq(fy) >= 484.0
  {
    NudgedSquare(fx, ex);
    NudgedSquare(fy, ey);
  }
}
