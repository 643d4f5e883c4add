/** Division, multiplication and counting over the naturals. */
module Naturals {
  lemma DivPlus(i: nat, r: nat, d: nat)
    requires d > 0
    ensures (i * d + r) / d == i + r / d
  {
    var q, m := r / d, r % d;
    assert r == d * q + m;
    assert i * d + r == (i + q) * d + m;
    DivUnique(i * d + r, d, i + q, m);
  }

  lemma DivUnique(x: nat, d: nat, q: nat, m: nat)
    requires d > 0 && m < d && x == q * d + m
    ensures x / d == q
  {
    var p, r := x / d, x % d;
    assert x == p * d + r;
    if p > q { MulStep(q, p, d); }
    if p < q { MulStep(p, q, d); }
  }

  lemma MulStep(a: nat, b: nat, d: nat)
    requires a < b
    ensures a * d + d <= b * d
  {
    MulMono(a + 1, b, d);
  }

  lemma DivMono(a: nat, b: nat, d: nat)
    requires d > 0 && a <= b
    ensures a / d <= b / d
  {
    assert a == a / d * d + a % d;
    assert b == b / d * d + b % d;
    if b / d < a / d { MulStep(b / d, a / d, d); }
  }

  lemma MulMono(a: nat, b: nat, d: nat)
    requires a <= b
    ensures a * d <= b * d
  {
  }

  lemma {:induction false} SubsetSize<T>(a: set<T>, b: set<T>)
    requires a <= b
    ensures |a| <= |b|
  {
    if a != {} {
      var x :| x in a;
      SubsetSize(a - {x}, b - {x});
    }
  }
}
