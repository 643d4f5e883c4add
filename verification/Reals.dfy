/** Non-linear facts over `real`, one small lemma each. */
module Reals {
  lemma Assoc(x: real, y: real, z: real)
    ensures (x * y) * z == x * (y * z)
  {
  }

  lemma Distrib(k: real, x: real, y: real)
    ensures k * (x + y) == k * x + k * y
  {
  }

  lemma MulPos(x: real, y: real)
    requires x > 0.0 && y > 0.0
    ensures x * y > 0.0
  {
  }

  lemma MulNonNeg(x: real, y: real)
    requires x >= 0.0 && y >= 0.0
    ensures x * y >= 0.0
  {
  }

  /** Products are passed as a third argument: the solver rewrites the sign of a literal `x * x` away. */
  lemma SignOfProduct(x: real, y: real, p: real)
    requires p == x * y
    ensures (x > 0.0 && y > 0.0) || (x < 0.0 && y < 0.0) ==> p > 0.0
    ensures x == 0.0 || y == 0.0 ==> p == 0.0
  {
    if x < 0.0 && y < 0.0 {
      MulPos(-x, -y);
      assert (-x) * (-y) == x * y;
    }
  }

  lemma OneSum(k: real, one: real, x: real, sum: real)
    requires one == 1.0 && sum == k * one + x
    ensures sum == k + x
  {
  }

  lemma Square(x: real, s: real)
    requires s == x * x
    ensures s >= 0.0
    ensures s == 0.0 <==> x == 0.0
  {
    SignOfProduct(x, x, s);
  }

  lemma Divide(x: real, d: real) returns (q: real)
    requires d != 0.0
    ensures q * d == x
  {
    q := x / d;
  }

  lemma SquareOfProduct(x: real, y: real)
    ensures (x * y) * (x * y) == x * (x * (y * y))
  {
    Assoc(x, y, x * y);
    Assoc(y, x, y);
    Assoc(x, y, y);
    assert y * (x * y) == (x * y) * y;
  }

  lemma Reciprocal(n: real)
    requires n > 0.0
    ensures 1.0 / n > 0.0 && (1.0 / n) * n == 1.0
  {
    var r := 1.0 / n;
    assert r * n == 1.0;
    if r <= 0.0 { MulNonNeg(-r, n); }
  }

  lemma DiffOfSquares(x: real, y: real)
    ensures (x - y) * (x + y) == x * x - y * y
  {
    assert (x - y) * (x + y) == (x - y) * x + (x - y) * y;
    assert (x - y) * x == x * x - y * x;
    assert (x - y) * y == x * y - y * y;
  }

  /** Non-negative numbers compare as their squares do. */
  lemma RootOrder(x: real, y: real)
    requires y >= 0.0
    requires x * x <= y * y
    ensures x <= y
  {
    if x > y {
      MulPos(x - y, x + y);
      DiffOfSquares(x, y);
    }
  }

  lemma BoundedByRoots(n: real, m: real, d: real, nn: real, mm: real, x: real, xx: real, limit: real)
    requires n > 0.0 && m > 0.0 && d == n * m && n * n == nn && m * m == mm && xx == x * x <= limit == nn * mm
    ensures d > 0.0 && -d <= x <= d
  {
    MulPos(n, m);
    ProductOfSquares(n, m, nn, mm);
    SignedRoots(x, xx, n * m);
  }

  lemma ProductOfSquares(n: real, m: real, nn: real, mm: real)
    requires n * n == nn && m * m == mm
    ensures (n * m) * (n * m) == nn * mm
  {
    SquareOfProduct(n, m);
    Assoc(n, n, mm);
  }

  lemma SignedRoots(x: real, xx: real, d: real)
    requires d >= 0.0 && xx == x * x && xx <= d * d
    ensures -d <= x <= d
  {
    RootOrder(x, d);
    assert (-x) * (-x) == x * x;
    RootOrder(-x, d);
  }

  lemma QuotientBounds(x: real, d: real)
    requires d > 0.0
    requires -d <= x <= d
    ensures -1.0 <= x / d <= 1.0
  {
    var q := x / d;
    assert q * d == x;
    if q > 1.0 {
      MulPos(q - 1.0, d);
    } else if q < -1.0 {
      MulPos(-1.0 - q, d);
    }
  }

  /** If `|w|^2 == k^2 |v|^2` then `|w| == k |v|`. */
  lemma ScaledRoot(k: real, n: real, m: real, vv: real, wv: real, ww: real)
    requires k >= 0.0 && n >= 0.0 && m >= 0.0
    requires n * n == vv && m * m == ww
    requires wv == k * vv && ww == k * wv
    ensures m == k * n
  {
    SquareOfProduct(k, n);
    MulNonNeg(k, n);
    RootOrder(m, k * n);
    RootOrder(k * n, m);
  }

  /** Scaling by `k` before dividing by the scaled norm cancels out. */
  lemma CancelScale(k: real, n: real, x: real)
    requires k > 0.0 && n > 0.0 && k * n != 0.0
    ensures 1.0 / (k * n) * (k * x) == 1.0 / n * x
  {
    var a, b := 1.0 / (k * n), 1.0 / n;
    assert a * (k * n) == 1.0;
    Assoc(a, k, n);
    assert (a * k) * n == 1.0;
    assert a * k == b by { UniqueReciprocal(a * k, b, n); }
    Assoc(a, k, x);
  }

  lemma UniqueReciprocal(a: real, b: real, n: real)
    requires n != 0.0 && a * n == 1.0 && b * n == 1.0
    ensures a == b
  {
  }

  lemma CompareQuotients(x: real, y: real, d: real, xd: real, yd: real)
    requires d > 0.0 && x * d == xd && y * d == yd && xd <= yd
    ensures x <= y
  {
    if x > y { SignOfProduct(x - y, d, xd - yd); }
  }

  lemma PullQuotient(k: real, d: real, ee: real, cs: real, es: real, n: real, nn: real, dd: real)
    requires k >= 0.0 && n > 0.0 && nn == n * n && dd == d * d && dd <= ee
    requires cs == k + d && es == k * d + ee && nn == k * cs + es
    ensures 1.0 / n * es >= d
  {
    assert es >= d * n by { Pull(k, d, ee, cs, es, n, nn, dd); }
    DivideBound(es, d, n);
  }

  lemma DivideBound(p: real, d: real, n: real)
    requires n > 0.0 && p >= d * n
    ensures 1.0 / n * p >= d
  {
    var q := 1.0 / n;
    Reciprocal(n);
    MulNonNeg(q, p - d * n);
    Distrib(q, p, -(d * n));
    Assoc(q, n, d);
  }

  /** For a unit vector c, an article e and s = k*c + e: `e.s >= (c.e) |s|`.
      `cs` and `es` stand for c.s and e.s, `nn` for |s|^2 and `dd` for (c.e)^2. */
  lemma Pull(k: real, d: real, ee: real, cs: real, es: real, n: real, nn: real, dd: real)
    requires k >= 0.0 && n > 0.0 && nn == n * n && dd == d * d && dd <= ee
    requires cs == k + d && es == k * d + ee && nn == k * cs + es
    ensures es >= d * n
  {
    // es^2 - d^2 n^2 == (ee - dd) * (ee + 2kd)
    var g, h := ee - dd, ee + 2.0 * (k * d);
    assert es * es - dd * nn == g * h;
    if d >= 0.0 {
      MulNonNeg(k, d);
      MulNonNeg(g, h);
    } else if es < 0.0 {
      SignOfProduct(k, -d, -(k * d));
      MulNonNeg(k, -d);
      MulNonNeg(g, -h);
      assert es * es <= dd * nn;
      SquareOfProduct(-d, n);
      RootOrder(-es, -d * n);
    } else {
      MulNonNeg(-d, n);
    }
  }
}
