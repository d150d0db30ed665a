/** The scalar field and the prime-order group used by every proof in the project.

    The curve order is an arbitrary prime `Q`: nothing below depends on its value, so each
    result holds for the group of every prime order.  A group element is represented by its
    discrete logarithm to the base point. */
module Zq {

  ghost predicate IsPrime(n: nat) {
    2 <= n && forall d: nat :: 1 < d < n ==> n % d != 0
  }

  type Prime = n: nat | IsPrime(n) witness 2

  /** The order of the group.  Only its primality is known. */
  const Q: Prime

  type Scalar = x: nat | x < Q witness 0

  lemma SwapFactors(n: int, p: int, q: int)
    ensures n * p * q == n * q * p == n * (q * p)
  {
  }

  lemma Distribute(c: int, u: int, v: int)
    ensures c * (u + v) == c * u + c * v
  {
  }

  // ---------------------------------------------------------------- congruence modulo Q

  ghost function Times(k: int): int { k * Q }

  /** `a` and `b` differ by a multiple of the order. */
  ghost predicate Eq(a: int, b: int) {
    exists k: int :: a == b + Times(k)
  }

  lemma EqRefl(a: int)
    ensures Eq(a, a)
  {
    assert a == a + Times(0);
  }

  lemma EqSym(a: int, b: int)
    requires Eq(a, b)
    ensures Eq(b, a)
  {
    var k :| a == b + Times(k);
    assert Times(-k) == -Times(k);
    assert b == a + Times(-k);
  }

  lemma EqTrans(a: int, b: int, c: int)
    requires Eq(a, b) && Eq(b, c)
    ensures Eq(a, c)
  {
    var k :| a == b + Times(k);
    var l :| b == c + Times(l);
    assert Times(k + l) == Times(k) + Times(l);
    assert a == c + Times(k + l);
  }

  lemma EqAdd(a: int, b: int, c: int, d: int)
    requires Eq(a, b) && Eq(c, d)
    ensures Eq(a + c, b + d)
  {
    var k :| a == b + Times(k);
    var l :| c == d + Times(l);
    assert Times(k + l) == Times(k) + Times(l);
    assert a + c == b + d + Times(k + l);
  }

  lemma EqSub(a: int, b: int, c: int, d: int)
    requires Eq(a, b) && Eq(c, d)
    ensures Eq(a - c, b - d)
  {
    var k :| a == b + Times(k);
    var l :| c == d + Times(l);
    assert Times(k - l) == Times(k) - Times(l);
    assert a - c == b - d + Times(k - l);
  }

  lemma EqScale(a: int, b: int, c: int)
    requires Eq(a, b)
    ensures Eq(a * c, b * c) && Eq(c * a, c * b)
  {
    var k :| a == b + Times(k);
    assert Times(k * c) == Times(k) * c;
    assert a * c == b * c + Times(k * c);
  }

  lemma EqMul(a: int, b: int, c: int, d: int)
    requires Eq(a, b) && Eq(c, d)
    ensures Eq(a * c, b * d)
  {
    EqScale(a, b, c);
    EqScale(c, d, b);
    EqTrans(a * c, b * c, b * d);
  }

  /** Two congruent values chain to a common one. */
  lemma EqVia(a: int, b: int, c: int)
    requires Eq(a, c) && Eq(b, c)
    ensures Eq(a, b)
  {
    EqSym(b, c);
    EqTrans(a, c, b);
  }

  lemma EqFlip(a: int, b: int)
    ensures Eq(a, b) <==> Eq(b, a)
  {
    if Eq(a, b) { EqSym(a, b); }
    if Eq(b, a) { EqSym(b, a); }
  }

  lemma EqDiff(a: int, b: int)
    ensures Eq(a, b) <==> Eq(a - b, 0)
  {
    EqRefl(b);
    if Eq(a, b) { EqSub(a, b, b, b); }
    if Eq(a - b, 0) { EqAdd(a - b, 0, b, b); }
  }

  /** A non-zero multiple of `m` is at least `m` away from zero. */
  lemma MultipleSize(k: int, m: int)
    requires 0 < m
    ensures k >= 1 ==> k * m >= m
    ensures k <= -1 ==> k * m <= -m
  {
  }

  /** Scalars are canonical representatives: congruent scalars are equal. */
  lemma Canonical(a: Scalar, b: Scalar)
    requires Eq(a, b)
    ensures a == b
  {
    var k :| a == b + Times(k);
    MultipleSize(k, Q);
  }

  function Mod(x: int): (r: Scalar)
    ensures Eq(r, x)
  {
    assert x % Q == x + Times(-(x / Q));
    x % Q
  }


  // ---------------------------------------------------------------- inverses

  /** Bezout: the greatest common divisor is an integer combination. */
  lemma Bezout(a: nat, b: nat) returns (g: nat, s: int, t: int)
    requires 0 < a
    ensures 0 < g && a % g == 0 && b % g == 0 && g == s * a + t * b
    decreases b
  {
    if b == 0 {
      g, s, t := a, 1, 0;
    } else {
      var s', t';
      g, s', t' := Bezout(b, a % b);
      s, t := t', s' - (a / b) * t';
      var u, v := b / g, (a % b) / g;
      assert b == g * u && a % b == g * v;
      assert a == b * (a / b) + a % b == g * (u * (a / b) + v);
      DivExact(g, u * (a / b) + v);
      assert s * a + t * b == t' * (a - (a / b) * b) + s' * b;
    }
  }

  lemma DivExact(g: nat, k: int)
    requires 0 < g
    ensures (g * k) % g == 0
  {
    assert g * k == k * g + 0;
    assert (k * g) % g == 0 by { MulMod(k, g); }
  }

  lemma MulMod(k: int, g: nat)
    requires 0 < g
    ensures (k * g) % g == 0
  {
    var q, r := (k * g) / g, (k * g) % g;
    assert k * g == q * g + r;
    assert (k - q) * g == r;
    MultipleSize(k - q, g);
  }

  /** Every element that is not congruent to zero has an inverse. */
  lemma InverseExists(a: int) returns (b: int)
    requires !Eq(a, 0)
    ensures Eq(a * b, 1)
  {
    var r: nat, h := a % Q, a / Q;
    assert a == Times(h) + r;
    assert r == 0 ==> a == 0 + Times(h);
    var g, s, t := Bezout(r, Q);
    var m := r % g;
    assert g > r ==> m == r;
    assert g == 1;
    b := s;
    assert Times(-t + h * s) == -Times(t) + Times(h) * s;
    assert a * b == 1 + Times(-t + h * s);
  }

  ghost predicate IsInverse(d: int, i: int) { Eq(d * i, 1) }

  ghost function Inverse(d: int): (i: int)
    requires !Eq(d, 0)
    ensures Eq(d * i, 1)
  {
    HasInverse(d);
    var i :| IsInverse(d, i);
    i
  }

  lemma HasInverse(d: int)
    requires !Eq(d, 0)
    ensures exists i :: IsInverse(d, i)
  {
    var i := InverseExists(d);
    assert IsInverse(d, i);
  }

  /** A non-zero factor can be cancelled. */
  lemma Cancel(a: int, b: int, d: int)
    requires !Eq(d, 0) && Eq(a * d, b * d)
    ensures Eq(a, b)
  {
    hide Eq;
    var i := InverseExists(d);
    EqScale(a * d, b * d, i);
    CancelOne(a, d, i);
    CancelOne(b, d, i);
    EqFlip(a * d * i, a);
    EqTrans(a, a * d * i, b * d * i);
    EqTrans(a, b * d * i, b);
  }

  lemma CancelOne(a: int, d: int, i: int)
    requires Eq(d * i, 1)
    ensures Eq(a * d * i, a)
  {
    hide Eq;
    EqScale(d * i, 1, a);
    SwapFactors(a, i, d);
  }

  lemma ProductNonzero(a: int, b: int)
    requires !Eq(a, 0) && !Eq(b, 0)
    ensures !Eq(a * b, 0)
  {
    if Eq(a * b, 0) {
      assert 0 * b == 0;
      Cancel(a, 0, b);
    }
  }

  // ---------------------------------------------------------------- scalars and points

  function ScalarAdd(a: Scalar, b: Scalar): Scalar { Mod(a + b) }

  function ScalarSub(a: Scalar, b: Scalar): Scalar { Mod(a - b) }

  function ScalarMul(a: Scalar, b: Scalar): Scalar { Mod(a * b) }

  function ScalarNeg(a: Scalar): Scalar { Mod(0 - a) }

  datatype Point = Point(log: Scalar)

  const G: Point := Point(1)

  const ZERO: Point := Point(0)

  function PointAdd(a: Point, b: Point): Point { Point(Mod(a.log + b.log)) }

  function PointSub(a: Point, b: Point): Point { Point(Mod(a.log - b.log)) }

  function MulPoint(p: Point, s: Scalar): Point { Point(Mod(p.log * s)) }

  function MulBase(s: Scalar): Point { MulPoint(G, s) }

  lemma MulBaseLog(s: Scalar)
    ensures MulBase(s) == Point(s)
  {
    Canonical(Mod(1 * s), s);
  }
}
