/** The two implementations of the Lagrange coefficients at zero: the chain's
    (apps/chain/internal/ocpcrypto/lagrange.go) and the web client's
    (apps/web/src/components/holeCardCrypto.ts), with the client's extended-Euclid inverse. */
module Coefficients {
  import opened Zq
  import opened Outcome
  import opened Lagrange

  /** The remainder of a bigint division in JavaScript: it has the sign of the dividend. */
  function Rem(a: int, m: nat): (r: int)
    requires 0 < m
    ensures a >= 0 ==> 0 <= r < m
    ensures a < 0 ==> 0 - m < r <= 0
  {
    if a >= 0 then a % m else -((-a) % m)
  }

  function ModQ(n: int): (r: Scalar)
    ensures r == Mod(n)
  {
    RemEq(n);
    var x := Rem(n, Q);
    PlusOrder(x);
    EqTrans(x + Q, x, n);
    var r: Scalar := if x < 0 then x + Q else x;
    ModIs(r, n);
    r
  }

  lemma RemEq(n: int)
    ensures Eq(Rem(n, Q), n)
  {
    if n >= 0 {
      assert Rem(n, Q) == n + Times(-(n / Q));
    } else {
      assert Rem(n, Q) == n + Times((-n) / Q);
    }
  }

  lemma ModIs(r: Scalar, n: int)
    requires Eq(r, n)
    ensures r == Mod(n)
  {
    hide Eq;
    EqVia(r, Mod(n), n);
    Canonical(r, Mod(n));
  }

  /** The extended Euclidean loop returns a true inverse of every non-zero residue, and fails on zero only. */
  method InvMod(a: int) returns (r: Result<Scalar>)
    ensures r.Err? <==> Eq(a, 0)
    ensures r.Ok? ==> Eq(a * r.value, 1)
  {
    var a0 := ModQ(a);
    ZeroResidue(a, a0);
    if a0 == 0 {
      return Err;
    }
    var oldR: nat, rr: nat := a0, Q;
    var oldS, s := 1, 0;
    // every common divisor of (oldR, rr) divides a0 and Q
    ghost var u, v, u', v' := 1, 0, 0, 1;
    EqRefl(a0);
    assert Q == 0 + Times(1);
    while rr != 0
      invariant Eq(oldR, a0 * oldS) && Eq(rr, a0 * s)
      invariant a0 == u * oldR + v * rr && Q == u' * oldR + v' * rr
      invariant oldR > 0
      decreases rr
    {
      var q := oldR / rr;
      EuclidStep(a0, oldR, rr, oldS, s, q);
      EuclidInverse(oldR, rr, q, u, v);
      EuclidInverse(oldR, rr, q, u', v');
      u, v, u', v' := u * q + v, u, u' * q + v', u';
      oldR, rr := rr, oldR - q * rr;
      oldS, s := s, oldS - q * s;
    }
    UnitGcd(a0, oldR, u, u');
    var inv := ((Rem(oldS, Q) + Q) % Q) as Scalar;
    RemEq(oldS);
    InverseResult(a, a0, oldS, Rem(oldS, Q), inv);
    r := Ok(inv);
  }

  lemma ZeroResidue(a: int, a0: Scalar)
    requires Eq(a0, a)
    ensures a0 == 0 <==> Eq(a, 0)
  {
    hide Eq;
    if a0 == 0 {
      EqSym(0, a);
    } else if Eq(a, 0) {
      EqTrans(a0, a, 0);
      Canonical(a0, 0);
    }
  }

  lemma EuclidStep(a0: int, oldR: nat, r: nat, oldS: int, s: int, q: int)
    requires Eq(oldR, a0 * oldS) && Eq(r, a0 * s) && 0 < r && q == oldR / r
    ensures 0 <= oldR - q * r < r
    ensures Eq(oldR - q * r, a0 * (oldS - q * s))
  {
    hide Eq;
    EqScale(r, a0 * s, q);
    EqSub(oldR, a0 * oldS, q * r, q * (a0 * s));
    Rearrange(a0, oldS, q, s);
    assert oldR == r * q + oldR % r;
    SwapFactors(1, r, q);
  }

  lemma Rearrange(a0: int, oldS: int, q: int, s: int)
    ensures a0 * oldS - q * (a0 * s) == a0 * (oldS - q * s)
  {
    hide Eq;
    assert q * (a0 * s) == a0 * (q * s);
  }

  lemma EuclidInverse(oldR: int, r: int, q: int, u: int, v: int)
    ensures u * oldR + v * r == (u * q + v) * r + u * (oldR - q * r)
  {
    hide Eq;
    assert (u * q + v) * r == u * q * r + v * r;
    assert u * (oldR - q * r) == u * oldR - u * (q * r);
    assert u * q * r == u * (q * r);
  }

  /** A common divisor of a non-zero residue and the prime order is one. */
  lemma UnitGcd(a0: Scalar, g: nat, u: int, u': int)
    requires a0 != 0 && 0 < g && a0 == u * g && Q == u' * g
    ensures g == 1
  {
    hide Eq;
    MulMod(u', g);
    MultipleSize(u, g);
    MultipleSize(u', g);
  }

  lemma PlusOrder(r: int)
    ensures Eq(r + Q, r)
  {
    assert r + Q == r + Times(1);
  }

  lemma InverseResult(a: int, a0: Scalar, s: int, r: int, inv: Scalar)
    requires Eq(a0, a) && Eq(1, a0 * s) && Eq(r, s) && inv == (r + Q) % Q
    ensures Eq(a * inv, 1)
  {
    hide Eq;
    assert inv == Mod(r + Q);
    PlusOrder(r);
    EqTrans(inv, r + Q, r);
    EqTrans(inv, r, s);
    EqSym(a0, a);
    EqMul(a, a0, inv, s);
    EqVia(a * inv, 1, a0 * s);
  }

  // ---------------------------------------------------------------- chain

  ghost predicate NoRepeats(xs: seq<nat>) {
    forall i, j :: 0 <= i < j < |xs| ==> xs[i] != xs[j]
  }

  /** `LagrangeAtZero`: it succeeds exactly on non-empty lists of non-zero indices that are pairwise
      incongruent, and then its coefficients recover f(0) from any polynomial of lower degree. */
  method LagrangeAtZero(indices: seq<nat>) returns (r: Result<seq<Scalar>>)
    ensures r.Ok? <==> indices != [] && 0 !in indices && Distinct(indices)
    ensures r.Ok? ==> Reconstructs(r.value, indices)
    ensures r.Ok? ==> |r.value| == |indices| && forall i :: 0 <= i < |indices| ==> Eq(r.value[i] * Den(indices, indices[i]), Num(indices, indices[i]))
  {
    hide Eq;
    if |indices| == 0 {
      return Err;
    }
    var seen: set<nat> := {};
    for k := 0 to |indices|
      invariant 0 !in indices[..k]
      invariant seen == set i | 0 <= i < k :: indices[i]
      invariant NoRepeats(indices[..k])
    {
      if indices[k] == 0 {
        return Err;
      }
      if indices[k] in seen {
        var i :| 0 <= i < k && indices[i] == indices[k];
        EqRefl(indices[i]);
        return Err;
      }
      seen := seen + {indices[k]};
    }
    assert indices[..|indices|] == indices;
    var lambdas: seq<Scalar> := [];
    for k := 0 to |indices|
      invariant |lambdas| == k
      invariant forall i :: 0 <= i < k ==> Apart(indices, indices[i])
      invariant forall i :: 0 <= i < k ==> Eq(lambdas[i] * Den(indices, indices[i]), Num(indices, indices[i]))
    {
      var x := indices[k];
      var num, den := NodeProducts(indices, x);
      DenNonzero(indices, x);
      SameZero(den, Den(indices, x));
      var inv := InvMod(den);
      if inv.Err? {
        NotDistinct(indices, x);
        return Err;
      }
      CoefficientStep(num, den, inv.value, Num(indices, x), Den(indices, x));
      lambdas := lambdas + [ScalarMul(num, inv.value)];
    }
    AllApart(indices);
    QuotientsReconstruct(lambdas, indices);
    r := Ok(lambdas);
  }

  /** The inner loop of `LagrangeAtZero`. */
  method NodeProducts(indices: seq<nat>, x: nat) returns (num: Scalar, den: Scalar)
    ensures Eq(num, Num(indices, x)) && Eq(den, Den(indices, x))
  {
    hide Eq;
    var xi := Mod(x);
    num, den := Mod(1), Mod(1);
    for m := 0 to |indices|
      invariant Eq(num, Num(indices[..m], x)) && Eq(den, Den(indices[..m], x))
    {
      var y := indices[m];
      assert indices[..m+1] == indices[..m] + [y];
      ProductsSnoc(indices[..m], y, x);
      if y != x {
        var xj := Mod(y);
        EqRefl(0);
        EqSub(0, 0, xj, y);
        EqSub(xi, x, xj, y);
        ghost var zi: int, zj: int := xi, xj;
        FactorStep(num, Num(indices[..m], x), ScalarNeg(xj), 0 - zj, 0 - y as int);
        FactorStep(den, Den(indices[..m], x), ScalarSub(xi, xj), zi - zj, x as int - y as int);
        num := ScalarMul(num, ScalarNeg(xj));
        den := ScalarMul(den, ScalarSub(xi, xj));
      }
    }
    assert indices[..|indices|] == indices;
  }

  lemma FactorStep(p: Scalar, P: int, f: Scalar, g: int, h: int)
    requires Eq(p, P) && Eq(f, g) && Eq(g, h)
    ensures Eq(ScalarMul(p, f), P * h)
  {
    hide Eq;
    EqTrans(f, g, h);
    EqMul(p, P, f, h);
    EqTrans(Mod(p * f), p * f, P * h);
  }

  lemma SameZero(a: int, b: int)
    requires Eq(a, b)
    ensures Eq(a, 0) <==> Eq(b, 0)
  {
    hide Eq;
    EqSym(a, b);
    if Eq(a, 0) { EqTrans(b, a, 0); }
    if Eq(b, 0) { EqTrans(a, b, 0); }
  }

  lemma CoefficientStep(num: Scalar, den: Scalar, inv: Scalar, N: int, D: int)
    requires Eq(num, N) && Eq(den, D) && Eq(den * inv, 1)
    ensures Eq(ScalarMul(num, inv) * D, N)
  {
    hide Eq;
    EqSym(den, D);
    EqMul(Mod(num * inv), num * inv, D, den);
    SwapFactors(num, den, inv);
    SwapFactors(num, inv, den);
    SwapFactors(1, den, inv);
    EqScale(den * inv, 1, num);
    EqTrans(Mod(num * inv) * D, num * (den * inv), num);
    EqTrans(Mod(num * inv) * D, num, N);
  }

  lemma NotDistinct(xs: seq<int>, x: int)
    requires x in xs && !Apart(xs, x)
    ensures !Distinct(xs)
  {
    hide Eq;
    if Distinct(xs) {
      DistinctApart(xs, x);
    }
  }

  lemma AllApart(xs: seq<nat>)
    requires forall i :: 0 <= i < |xs| ==> Apart(xs, xs[i])
    requires NoRepeats(xs)
    ensures Distinct(xs)
  {
    hide Eq;
    forall i, j | 0 <= i < j < |xs|
      ensures !Eq(xs[i], xs[j])
    {
      EqDiff(xs[i], xs[j]);
    }
  }

  // ---------------------------------------------------------------- web client

  /** The product of `x_j - x_m` over the first `k` positions other than `j`. */
  ghost function DenAt(xs: seq<int>, j: nat, k: nat): int
    requires j < |xs| && k <= |xs|
  {
    if k == 0 then 1
    else if k - 1 == j then DenAt(xs, j, k - 1)
    else DenAt(xs, j, k - 1) * (xs[j] - xs[k - 1])
  }

  ghost function NumAt(xs: seq<int>, j: nat, k: nat): int
    requires j < |xs| && k <= |xs|
  {
    if k == 0 then 1
    else if k - 1 == j then NumAt(xs, j, k - 1)
    else NumAt(xs, j, k - 1) * (0 - xs[k - 1])
  }

  /** Skipping by position and skipping by value agree on distinct nodes. */
  lemma {:induction false} SkipByPosition(xs: seq<int>, j: nat, k: nat)
    requires j < |xs| && k <= |xs| && Distinct(xs)
    ensures DenAt(xs, j, k) == Den(xs[..k], xs[j]) && NumAt(xs, j, k) == Num(xs[..k], xs[j])
  {
    hide Eq;
    if k > 0 {
      SkipByPosition(xs, j, k - 1);
      assert xs[..k] == xs[..k-1] + [xs[k - 1]];
      ProductsSnoc(xs[..k-1], xs[k - 1], xs[j]);
      EqRefl(xs[j]);
    }
  }

  /** A repeated node makes the denominator vanish. */
  lemma {:induction false} RepeatedNode(xs: seq<int>, j: nat, m: nat, k: nat)
    requires j < |xs| && m < k <= |xs| && m != j && Eq(xs[j], xs[m])
    ensures Eq(DenAt(xs, j, k), 0)
  {
    hide Eq;
    EqRefl(xs[m]);
    EqSub(xs[j], xs[m], xs[m], xs[m]);
    if k - 1 == m {
      EqScale(xs[j] - xs[m], 0, DenAt(xs, j, m));
    } else {
      RepeatedNode(xs, j, m, k - 1);
      EqScale(DenAt(xs, j, k - 1), 0, xs[j] - xs[k - 1]);
    }
  }

  lemma NegationResidue(x: int)
    ensures Eq(Q - x, 0 - x)
  {
    assert Q == 0 + Times(1);
    EqRefl(x);
    EqSub(Q, 0, x, x);
  }

  /** `lagrangeCoefficients`: it has no duplicate test of its own, and still fails exactly on a zero
      coordinate or on two congruent ones. */
  method LagrangeCoefficients(xCoords: seq<int>) returns (r: Result<seq<Scalar>>)
    ensures r.Ok? <==> 0 !in xCoords && Distinct(xCoords)
    ensures r.Ok? && xCoords != [] ==> Reconstructs(r.value, xCoords)
    ensures xCoords == [] ==> r == Ok([])
  {
    hide Eq;
    var n := |xCoords|;
    if 0 in xCoords {
      return Err;
    }
    var coeffs: seq<Scalar> := [];
    for j := 0 to n
      invariant |coeffs| == j
      invariant forall i, m :: 0 <= i < j && 0 <= m < n && m != i ==> !Eq(xCoords[i], xCoords[m])
      invariant forall i :: 0 <= i < j ==> Eq(coeffs[i] * DenAt(xCoords, i, n), NumAt(xCoords, i, n))
    {
      var num: Scalar, den: Scalar := Mod(1), Mod(1);
      for m := 0 to n
        invariant Eq(num, NumAt(xCoords, j, m)) && Eq(den, DenAt(xCoords, j, m))
      {
        if m != j {
          NegationResidue(xCoords[m]);
          EqRefl(xCoords[j] - xCoords[m]);
          FactorStep(num, NumAt(xCoords, j, m), ModQ(Q - xCoords[m]), Q - xCoords[m], 0 - xCoords[m]);
          FactorStep(den, DenAt(xCoords, j, m), ModQ(xCoords[j] - xCoords[m]), xCoords[j] - xCoords[m], xCoords[j] - xCoords[m]);
          num := ModQ(num * ModQ(Q - xCoords[m]));
          den := ModQ(den * ModQ(xCoords[j] - xCoords[m]));
        }
      }
      SameZero(den, DenAt(xCoords, j, n));
      var inv := InvMod(den);
      if inv.Err? {
        VanishingDenominator(xCoords, j);
        return Err;
      }
      forall m | 0 <= m < n && m != j
        ensures !Eq(xCoords[j], xCoords[m])
      {
        if Eq(xCoords[j], xCoords[m]) { RepeatedNode(xCoords, j, m, n); }
      }
      CoefficientStep(num, den, inv.value, NumAt(xCoords, j, n), DenAt(xCoords, j, n));
      coeffs := coeffs + [ModQ(num * inv.value)];
    }
    ByPosition(coeffs, xCoords);
    r := Ok(coeffs);
  }

  lemma VanishingDenominator(xs: seq<int>, j: nat)
    requires j < |xs| && Eq(DenAt(xs, j, |xs|), 0)
    ensures !Distinct(xs)
  {
    hide Eq;
    if Distinct(xs) {
      SkipByPosition(xs, j, |xs|);
      assert xs[..|xs|] == xs;
      DistinctApart(xs, xs[j]);
      DenNonzero(xs, xs[j]);
    }
  }

  lemma ByPosition(ls: seq<int>, xs: seq<int>)
    requires |ls| == |xs|
    requires forall i, m :: 0 <= i < |xs| && 0 <= m < |xs| && m != i ==> !Eq(xs[i], xs[m])
    requires forall i :: 0 <= i < |xs| ==> Eq(ls[i] * DenAt(xs, i, |xs|), NumAt(xs, i, |xs|))
    ensures Distinct(xs)
    ensures xs != [] ==> Reconstructs(ls, xs)
  {
    hide Eq;
    forall i | 0 <= i < |xs|
      ensures Eq(ls[i] * Den(xs, xs[i]), Num(xs, xs[i]))
    {
      SkipByPosition(xs, i, |xs|);
      assert xs[..|xs|] == xs;
    }
    if xs != [] {
      QuotientsReconstruct(ls, xs);
    }
  }
}
