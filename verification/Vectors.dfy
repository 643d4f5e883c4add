/** Exact-real vectors of any dimension: the arithmetic that `numpy` does for the services.
    Square roots are not computable over `real`, so the Euclidean norm is a parameter `norm`
    and `IsNorm` says what the library promises about it. */
module Vectors {
  import Reals

  type Vec = seq<real>

  function Dot(a: Vec, b: Vec): real
    requires |a| == |b|
  {
    if a == [] then 0.0 else a[0] * b[0] + Dot(a[1..], b[1..])
  }

  function Add(a: Vec, b: Vec): (c: Vec)
    requires |a| == |b|
    ensures |c| == |a| && forall i :: 0 <= i < |a| ==> c[i] == a[i] + b[i]
  {
    seq(|a|, i requires 0 <= i < |a| => a[i] + b[i])
  }

  function Scale(k: real, a: Vec): (c: Vec)
    ensures |c| == |a| && forall i :: 0 <= i < |a| ==> c[i] == k * a[i]
  {
    seq(|a|, i requires 0 <= i < |a| => k * a[i])
  }

  predicate IsZero(a: Vec) {
    forall i :: 0 <= i < |a| ==> a[i] == 0.0
  }

  /** The promise of `numpy.linalg.norm`: the non-negative root of the sum of squares. */
  ghost predicate IsNorm(norm: Vec -> real) {
    forall v: Vec :: norm(v) >= 0.0 && norm(v) * norm(v) == Dot(v, v)
  }

  /** `min(1.0, dot / (|a| * |b|))`. A zero vector makes the quotient NaN, and `min(1.0, nan)` is 1.0. */
  function Cosine(norm: Vec -> real, a: Vec, b: Vec): real
    requires |a| == |b|
  {
    Capped(Dot(a, b), norm(a) * norm(b))
  }

  function Capped(ab: real, d: real): real {
    if d == 0.0 then 1.0 else if ab / d < 1.0 then ab / d else 1.0
  }

  /** `a / |a|`; the caller owes a vector that is not zero, otherwise every component is NaN. */
  function L2Normalize(norm: Vec -> real, a: Vec): (c: Vec)
    requires norm(a) != 0.0
    ensures |c| == |a|
  {
    Scale(1.0 / norm(a), a)
  }

  // ---- bilinearity -------------------------------------------------------------------------

  lemma {:induction false} DotSym(a: Vec, b: Vec)
    requires |a| == |b|
    ensures Dot(a, b) == Dot(b, a)
  {
    if a != [] { DotSym(a[1..], b[1..]); }
  }

  lemma {:induction false} DotAdd(a: Vec, b: Vec, c: Vec)
    requires |a| == |b| == |c|
    ensures Dot(Add(a, b), c) == Dot(a, c) + Dot(b, c)
  {
    if a != [] {
      DotAdd(a[1..], b[1..], c[1..]);
      assert Add(a, b)[1..] == Add(a[1..], b[1..]);
      assert (a[0] + b[0]) * c[0] == a[0] * c[0] + b[0] * c[0];
    }
  }

  lemma {:induction false} DotScale(k: real, a: Vec, b: Vec)
    requires |a| == |b|
    ensures Dot(Scale(k, a), b) == k * Dot(a, b)
  {
    if a != [] {
      DotScale(k, a[1..], b[1..]);
      ScaleTail(k, a);
      var s, y := Scale(k, a), Dot(a[1..], b[1..]);
      assert Dot(s, b) == s[0] * b[0] + k * y;
      ScaledSum(k, a[0], b[0], y, s[0]);
    }
  }

  lemma ScaleTail(k: real, a: Vec)
    requires a != []
    ensures Scale(k, a)[1..] == Scale(k, a[1..]) && Scale(k, a)[0] == k * a[0]
  {
    var s, t := Scale(k, a), Scale(k, a[1..]);
    forall i | 0 <= i < |t| ensures s[1..][i] == t[i] { assert a[1..][i] == a[i + 1]; }
  }

  lemma ScaledSum(k: real, x: real, y: real, rest: real, kx: real)
    requires kx == k * x
    ensures kx * y + k * rest == k * (x * y + rest)
  {
    Reals.Assoc(k, x, y);
    Reals.Distrib(k, x * y, rest);
  }

  lemma DotLinear(k: real, a: Vec, b: Vec, c: Vec)
    requires |a| == |b| == |c|
    ensures Dot(Add(Scale(k, a), b), c) == k * Dot(a, c) + Dot(b, c)
  {
    DotAdd(Scale(k, a), b, c);
    DotScale(k, a, c);
  }

  lemma {:induction false} SquareZero(a: Vec)
    ensures Dot(a, a) >= 0.0
    ensures Dot(a, a) == 0.0 <==> IsZero(a)
  {
    if a != [] {
      SquareZero(a[1..]);
      Reals.Square(a[0], a[0] * a[0]);
      assert IsZero(a) <==> a[0] == 0.0 && IsZero(a[1..]) by {
        assert forall i :: 0 <= i < |a[1..]| ==> a[1..][i] == a[i + 1];
        assert forall i :: 0 < i < |a| ==> a[i] == a[1..][i - 1];
      }
    }
  }

  /** The products of a weighted sum `k*a + b`, which every centroid update needs. */
  lemma WeightedSum(k: real, a: Vec, b: Vec, s: Vec) returns (aa: real, ab: real, bb: real, sa: real, sb: real, ss: real)
    requires |a| == |b| && s == Add(Scale(k, a), b)
    ensures aa == Dot(a, a) && ab == Dot(a, b) && bb == Dot(b, b) && sa == Dot(a, s) && sb == Dot(b, s) && ss == Dot(s, s)
    ensures sa == k * aa + ab && sb == k * ab + bb && ss == k * sa + sb
  {
    aa, ab, bb := Dot(a, a), Dot(a, b), Dot(b, b);
    DotSym(a, b);
    sa := LinearDot(k, a, b, a, aa, ab);
    sb := LinearDot(k, a, b, b, ab, bb);
    DotSym(a, s);
    DotSym(b, s);
    ss := LinearDot(k, a, b, s, sa, sb);
  }

  lemma LinearDot(k: real, a: Vec, b: Vec, c: Vec, ac: real, bc: real) returns (sc: real)
    requires |a| == |b| == |c| && ac == Dot(a, c) && bc == Dot(b, c)
    ensures sc == Dot(Add(Scale(k, a), b), c) && sc == k * ac + bc
  {
    DotLinear(k, a, b, c);
    sc := k * ac + bc;
  }

  lemma CauchySchwarz(a: Vec, b: Vec)
    requires |a| == |b|
    ensures Dot(a, b) * Dot(a, b) <= Dot(a, a) * Dot(b, b)
  {
    var aa, ab, bb := Dot(a, a), Dot(a, b), Dot(b, b);
    assert ab * ab <= aa * bb by {
      if IsZero(a) {
        DotWithZero(a, b);
        DotWithZero(a, a);
      } else {
        SquareZero(a);
        CauchyForNonZero(a, b, aa, ab, bb);
      }
    }
  }

  lemma CauchyForNonZero(a: Vec, b: Vec, aa: real, ab: real, bb: real)
    requires |a| == |b| && aa == Dot(a, a) > 0.0 && ab == Dot(a, b) && bb == Dot(b, b)
    ensures ab * ab <= aa * bb
  {
    var k := Reals.Divide(-ab, aa);
    var sa, sb := Parabola(k, a, b);
    Discriminant(k, aa, ab, bb, sa, sb);
  }

  /** The square of `k*a + b`, a parabola in `k`, is never negative. */
  lemma Parabola(k: real, a: Vec, b: Vec) returns (sa: real, sb: real)
    requires |a| == |b|
    ensures sa == k * Dot(a, a) + Dot(a, b)
    ensures sb == k * Dot(a, b) + Dot(b, b)
    ensures k * sa + sb >= 0.0
  {
    var s := Add(Scale(k, a), b);
    var aa, ab, bb, ss;
    aa, ab, bb, sa, sb, ss := WeightedSum(k, a, b, s);
    SquareNonNeg(s);
  }

  lemma SquareNonNeg(a: Vec)
    ensures Dot(a, a) >= 0.0
  {
    SquareZero(a);
  }

  /** The minimum of a non-negative parabola bounds its middle coefficient. */
  lemma Discriminant(k: real, aa: real, ab: real, bb: real, sa: real, sb: real)
    requires aa > 0.0 && k * aa == -ab
    requires sa == k * aa + ab && sb == k * ab + bb
    requires k * sa + sb >= 0.0
    ensures ab * ab <= aa * bb
  {
    assert sa == 0.0;
    Reals.MulNonNeg(aa, sb);
    Reals.Distrib(aa, k * ab, bb);
    Reals.Assoc(aa, k, ab);
  }

  lemma {:induction false} DotWithZero(a: Vec, b: Vec)
    requires |a| == |b| && IsZero(a)
    ensures Dot(a, b) == 0.0
  {
    if a != [] {
      assert forall i :: 0 <= i < |a[1..]| ==> a[1..][i] == a[i + 1];
      DotWithZero(a[1..], b[1..]);
    }
  }

  // ---- consequences for norms and cosines --------------------------------------------------

  lemma NormZero(norm: Vec -> real, v: Vec)
    requires IsNorm(norm)
    ensures norm(v) == 0.0 <==> IsZero(v)
    ensures norm(v) >= 0.0
  {
    SquareZero(v);
    var n := norm(v);
    assert n * n == Dot(v, v);
    Reals.Square(n, n * n);
  }

  lemma NormScale(norm: Vec -> real, k: real, v: Vec)
    requires IsNorm(norm)
    requires k >= 0.0
    ensures norm(Scale(k, v)) == k * norm(v)
  {
    var w := Scale(k, v);
    var vv, wv, ww := ScaledSquares(k, v);
    Reals.ScaledRoot(k, norm(v), norm(w), vv, wv, ww);
  }

  /** The products of a vector and a multiple of it. */
  lemma ScaledSquares(k: real, v: Vec) returns (vv: real, wv: real, ww: real)
    ensures vv == Dot(v, v) && ww == Dot(Scale(k, v), Scale(k, v))
    ensures wv == k * vv && ww == k * wv
  {
    var w := Scale(k, v);
    vv, wv, ww := Dot(v, v), Dot(v, w), Dot(w, w);
    DotScale(k, v, v);
    DotSym(v, w);
    DotScale(k, v, w);
  }

  lemma NormalizeIsUnit(norm: Vec -> real, v: Vec)
    requires IsNorm(norm)
    requires norm(v) != 0.0
    ensures norm(L2Normalize(norm, v)) == 1.0
    ensures Dot(L2Normalize(norm, v), L2Normalize(norm, v)) == 1.0
  {
    var n := norm(v);
    NormZero(norm, v);
    Reals.Reciprocal(n);
    NormScale(norm, 1.0 / n, v);
    var u := L2Normalize(norm, v);
    assert norm(u) == 1.0;
    assert norm(u) * norm(u) == Dot(u, u);
  }

  /** For any vectors: the quotient, at most 1.0; and 1.0 where the quotient is not a number. */
  lemma CosineExactly(norm: Vec -> real, a: Vec, b: Vec)
    requires |a| == |b|
    ensures norm(a) * norm(b) == 0.0 ==> Cosine(norm, a, b) == 1.0
    ensures norm(a) * norm(b) != 0.0 && Dot(a, b) / (norm(a) * norm(b)) <= 1.0 ==>
      Cosine(norm, a, b) == Dot(a, b) / (norm(a) * norm(b))
    ensures norm(a) * norm(b) != 0.0 && Dot(a, b) / (norm(a) * norm(b)) > 1.0 ==> Cosine(norm, a, b) == 1.0
  {
  }

  /** The cap `min(1.0, .)` never changes the cosine of two non-zero vectors. */
  lemma CosineIsQuotient(norm: Vec -> real, a: Vec, b: Vec)
    requires IsNorm(norm)
    requires |a| == |b| && !IsZero(a) && !IsZero(b)
    ensures norm(a) * norm(b) > 0.0
    ensures Cosine(norm, a, b) * (norm(a) * norm(b)) == Dot(a, b)
    ensures -1.0 <= Cosine(norm, a, b) <= 1.0
  {
    NormZero(norm, a);
    NormZero(norm, b);
    CauchySchwarz(a, b);
    var d, ab := norm(a) * norm(b), Dot(a, b);
    Reals.BoundedByRoots(norm(a), norm(b), d, Dot(a, a), Dot(b, b), ab, ab * ab, Dot(a, a) * Dot(b, b));
    QuotientOfBounded(ab, d);
    assert Cosine(norm, a, b) == Capped(ab, d);
  }

  lemma QuotientOfBounded(ab: real, d: real)
    requires d > 0.0 && -d <= ab <= d
    ensures Capped(ab, d) * d == ab && -1.0 <= Capped(ab, d) <= 1.0
  {
    Reals.QuotientBounds(ab, d);
    var q := ab / d;
    assert q * d == ab;
  }

  lemma CosineSym(norm: Vec -> real, a: Vec, b: Vec)
    requires |a| == |b|
    ensures Cosine(norm, a, b) == Cosine(norm, b, a)
  {
    DotSym(a, b);
    assert norm(a) * norm(b) == norm(b) * norm(a);
  }
}
