/** Shamir reconstruction: Lagrange coefficients at zero, as computed by the chain
    (`LagrangeAtZero`) and by the web client (`lagrangeCoefficients`, `invMod`). */
module Lagrange {
  import opened Zq
  import opened Outcome

  // ---------------------------------------------------------------- polynomials

  /** The value at `x` of the polynomial with coefficients `f`, constant term first. */
  ghost function Eval(f: seq<int>, x: int): int {
    if f == [] then 0 else f[0] + x * Eval(f[1..], x)
  }

  lemma EvalAtZero(f: seq<int>)
    ensures Eval(f, 0) == if f == [] then 0 else f[0]
  {
  }

  lemma EvalOne(x: int)
    ensures Eval([1], x) == 1
  {
    hide Eq;
    assert Eval([1], x) == 1 + x * Eval([], x);
  }

  /** The quotient of `f` by `x - b`. */
  ghost function Quotient(f: seq<int>, b: int): (h: seq<int>)
    ensures |h| == if f == [] then 0 else |f| - 1
  {
    if |f| <= 1 then [] else [Eval(f[1..], b)] + Quotient(f[1..], b)
  }

  /** Division with remainder by a linear factor. */
  lemma {:induction false} QuotientSpec(f: seq<int>, b: int, x: int)
    ensures Eval(f, x) == Eval(f, b) + (x - b) * Eval(Quotient(f, b), x)
  {
    if |f| <= 1 {
      assert f != [] ==> f[1..] == [];
    } else {
      QuotientSpec(f[1..], b, x);
      assert Quotient(f, b)[1..] == Quotient(f[1..], b);
      DivisionStep(x, b, Eval(f[1..], b), Eval(Quotient(f[1..], b), x));
    }
  }

  lemma DivisionStep(x: int, b: int, u: int, v: int)
    ensures x * (u + (x - b) * v) == b * u + (x - b) * (u + x * v)
  {
    Distribute(x, u, (x - b) * v);
    Distribute(x - b, u, x * v);
    SwapFactors(x, v, x - b);
    SwapFactors(x - b, v, x);
    SwapFactors(1, x, x - b);
    assert (x - b) * u == x * u - b * u;
  }

  // ---------------------------------------------------------------- products over the nodes

  ghost predicate Distinct(xs: seq<int>) {
    forall i, j :: 0 <= i < j < |xs| ==> !Eq(xs[i], xs[j])
  }

  /** No node other than `x` itself is congruent to `x`. */
  ghost predicate Apart(xs: seq<int>, x: int) {
    forall i :: 0 <= i < |xs| ==> xs[i] == x || !Eq(x - xs[i], 0)
  }

  ghost function Num(xs: seq<int>, x: int): int {
    if xs == [] then 1
    else
      var r := Num(xs[..|xs|-1], x);
      if xs[|xs|-1] == x then r else r * (0 - xs[|xs|-1])
  }

  ghost function Den(xs: seq<int>, x: int): int {
    if xs == [] then 1
    else
      var r := Den(xs[..|xs|-1], x);
      if xs[|xs|-1] == x then r else r * (x - xs[|xs|-1])
  }

  lemma ProductsSnoc(xs: seq<int>, b: int, x: int)
    ensures b != x ==> Num(xs + [b], x) == Num(xs, x) * (0 - b) && Den(xs + [b], x) == Den(xs, x) * (x - b)
    ensures b == x ==> Num(xs + [b], x) == Num(xs, x) && Den(xs + [b], x) == Den(xs, x)
  {
    hide Eq;
    assert (xs + [b])[..|xs|] == xs;
  }

  lemma {:induction false} ProductsCons(a: int, xs: seq<int>, x: int)
    ensures a != x ==> Num([a] + xs, x) == Num(xs, x) * (0 - a) && Den([a] + xs, x) == Den(xs, x) * (x - a)
    ensures a == x ==> Num([a] + xs, x) == Num(xs, x) && Den([a] + xs, x) == Den(xs, x)
  {
    hide Eq;
    if xs == [] {
      assert [a] + xs == [] + [a];
      ProductsSnoc([], a, x);
    } else {
      var ys, b := xs[..|xs|-1], xs[|xs|-1];
      assert xs == ys + [b] && [a] + xs == ([a] + ys) + [b];
      ProductsCons(a, ys, x);
      ProductsSnoc(ys, b, x);
      ProductsSnoc([a] + ys, b, x);
      SwapFactors(Num(ys, x), 0 - a, 0 - b);
      SwapFactors(Den(ys, x), x - a, x - b);
    }
  }

  lemma {:induction false} DenNonzero(xs: seq<int>, x: int)
    ensures Apart(xs, x) <==> !Eq(Den(xs, x), 0)
  {
    hide Eq;
    if xs == [] {
      OneNotZero();
    } else {
      var ys, b := xs[..|xs|-1], xs[|xs|-1];
      DenNonzero(ys, x);
      assert Apart(xs, x) <==> Apart(ys, x) && (b == x || !Eq(x - b, 0)) by {
        assert xs == ys + [b];
        assert forall i :: 0 <= i < |ys| ==> xs[i] == ys[i];
      }
      if b != x {
        if Apart(xs, x) {
          ProductNonzero(Den(ys, x), x - b);
        } else if !Apart(ys, x) {
          EqScale(Den(ys, x), 0, x - b);
        } else {
          EqScale(x - b, 0, Den(ys, x));
        }
      }
    }
  }

  lemma OneNotZero()
    ensures !Eq(1, 0)
  {
    if Eq(1, 0) {
      Canonical(1, 0);
    }
  }

  // ---------------------------------------------------------------- the coefficients

  /** The Lagrange coefficient of node `x` at zero. */
  ghost function Lam(xs: seq<int>, x: int): int {
    if Eq(Den(xs, x), 0) then 0
    else var i := Inverse(Den(xs, x)); Num(xs, x) * i
  }

  lemma LamSpec(xs: seq<int>, x: int)
    requires Apart(xs, x)
    ensures Eq(Lam(xs, x) * Den(xs, x), Num(xs, x))
  {
    hide Eq;
    DenNonzero(xs, x);
    var d, n := Den(xs, x), Num(xs, x);
    EqScale(d * Inverse(d), 1, n);
    SwapFactors(n, Inverse(d), d);
  }

  /** Removing the node `c` from `big` multiplies the coefficient of `x` by (x - c)/(-c). */
  lemma LamDrop(big: seq<int>, small: seq<int>, c: int, x: int)
    requires Apart(big, x) && Apart(small, x)
    requires Num(big, x) == Num(small, x) * (0 - c) && Den(big, x) == Den(small, x) * (x - c)
    ensures Eq(Lam(big, x) * (x - c), Lam(small, x) * (0 - c))
  {
    hide Eq;
    LamSpec(big, x);
    LamSpec(small, x);
    DenNonzero(small, x);
    var d := Den(small, x);
    var l, m := Lam(big, x), Lam(small, x);
    EqScale(m * d, Num(small, x), 0 - c);
    SwapFactors(l, x - c, d);
    SwapFactors(m, d, 0 - c);
    EqVia(l * (x - c) * d, m * (0 - c) * d, Num(big, x));
    Cancel(l * (x - c), m * (0 - c), d);
  }

  /** The weighted sum of the values of `f` at the nodes `pts`, with the coefficients of `xs`. */
  ghost function Comb(xs: seq<int>, pts: seq<int>, f: seq<int>): int {
    if pts == [] then 0
    else Comb(xs, pts[..|pts|-1], f) + Lam(xs, pts[|pts|-1]) * Eval(f, pts[|pts|-1])
  }

  lemma CombSnoc(xs: seq<int>, pts: seq<int>, b: int, f: seq<int>)
    ensures Comb(xs, pts + [b], f) == Comb(xs, pts, f) + Lam(xs, b) * Eval(f, b)
  {
    hide Eq;
    assert (pts + [b])[..|pts|] == pts;
  }

  lemma {:induction false} CombCons(xs: seq<int>, a: int, pts: seq<int>, f: seq<int>)
    ensures Comb(xs, [a] + pts, f) == Lam(xs, a) * Eval(f, a) + Comb(xs, pts, f)
  {
    hide Eq;
    if pts == [] {
      assert [a] + pts == [] + [a];
      CombSnoc(xs, [], a, f);
    } else {
      var ys, b := pts[..|pts|-1], pts[|pts|-1];
      assert pts == ys + [b] && [a] + pts == ([a] + ys) + [b];
      CombCons(xs, a, ys, f);
      CombSnoc(xs, ys, b, f);
      CombSnoc(xs, [a] + ys, b, f);
    }
  }

  // ---------------------------------------------------------------- the coefficients sum to one

  lemma DistinctApart(xs: seq<int>, x: int)
    requires Distinct(xs) && x in xs
    ensures Apart(xs, x)
  {
    hide Eq;
    var j :| 0 <= j < |xs| && xs[j] == x;
    forall i | 0 <= i < |xs|
      ensures xs[i] == x || !Eq(x - xs[i], 0)
    {
      EqDiff(x, xs[i]);
      EqFlip(x, xs[i]);
    }
  }

  lemma ApartSub(big: seq<int>, small: seq<int>, x: int)
    requires Apart(big, x) && forall y :: y in small ==> y in big
    ensures Apart(small, x)
  {
    hide Eq;
    forall i | 0 <= i < |small|
      ensures small[i] == x || !Eq(x - small[i], 0)
    {
      assert small[i] in small;
      var j :| 0 <= j < |big| && big[j] == small[i];
    }
  }

  /** Neville's relation for the coefficients of `[a] + mid + [b]`, summed over part of `mid`. */
  lemma {:induction false} NevilleSum(a: int, mid: seq<int>, b: int, pts: seq<int>)
    requires Distinct([a] + mid + [b])
    requires forall x :: x in pts ==> x in mid
    ensures var xs := [a] + mid + [b];
            Eq((a - b) * Comb(xs, pts, [1]), (0 - b) * Comb([a] + mid, pts, [1]) + a * Comb(mid + [b], pts, [1]))
  {
    hide Eq;
    var xs := [a] + mid + [b];
    if pts == [] {
      EqRefl(0);
    } else {
      hide Comb, Lam, Distinct, Eval;
      var ps, x := pts[..|pts|-1], pts[|pts|-1];
      assert pts == ps + [x] && x in pts && forall y :: y in ps ==> y in pts;
      NevilleSum(a, mid, b, ps);
      CombSnoc(xs, ps, x, [1]);
      CombSnoc([a] + mid, ps, x, [1]);
      CombSnoc(mid + [b], ps, x, [1]);
      EvalOne(x);
      NevilleOne(a, mid, b, x);
      NevilleAdd(a, b, Comb(xs, ps, [1]), Comb([a] + mid, ps, [1]), Comb(mid + [b], ps, [1]), Lam(xs, x), Lam([a] + mid, x), Lam(mid + [b], x));
    }
  }

  /** Two instances of the relation add up. */
  lemma NevilleAdd(a: int, b: int, c: int, d: int, e: int, l: int, m: int, r: int)
    requires Eq((a - b) * c, (0 - b) * d + a * e) && Eq((a - b) * l, (0 - b) * m + a * r)
    ensures Eq((a - b) * (c + l), (0 - b) * (d + m) + a * (e + r))
  {
    hide Eq;
    EqAdd((a - b) * c, (0 - b) * d + a * e, (a - b) * l, (0 - b) * m + a * r);
    Distribute(a - b, c, l);
    Distribute(0 - b, d, m);
    Distribute(a, e, r);
  }

  lemma NevilleOne(a: int, mid: seq<int>, b: int, x: int)
    requires Distinct([a] + mid + [b]) && x in mid
    ensures Eq((a - b) * Lam([a] + mid + [b], x), (0 - b) * Lam([a] + mid, x) + a * Lam(mid + [b], x))
  {
    hide Eq;
    var xs := [a] + mid + [b];
    assert x in xs;
    DistinctApart(xs, x);
    NotEnds(a, mid, b, x);
    ApartSub(xs, [a] + mid, x);
    ApartSub(xs, mid + [b], x);
    assert xs == [a] + (mid + [b]);
    ProductsSnoc([a] + mid, b, x);
    ProductsCons(a, mid + [b], x);
    LamDrop(xs, [a] + mid, b, x);
    LamDrop(xs, mid + [b], a, x);
    var l, m, r := Lam(xs, x), Lam([a] + mid, x), Lam(mid + [b], x);
    EqSub(l * (x - b), m * (0 - b), l * (x - a), r * (0 - a));
    assert l * (x - b) - l * (x - a) == (a - b) * l;
    assert m * (0 - b) - r * (0 - a) == (0 - b) * m + a * r;
  }

  lemma NotEnds(a: int, mid: seq<int>, b: int, x: int)
    requires Distinct([a] + mid + [b]) && x in mid
    ensures x != a && x != b
  {
    hide Eq;
    var xs := [a] + mid + [b];
    var i :| 0 <= i < |mid| && mid[i] == x;
    assert xs[0] == a && xs[i + 1] == x && xs[|xs| - 1] == b;
    EqRefl(x);
  }

  /** The Lagrange coefficients at zero sum to one. */
  lemma {:induction false} Unity(xs: seq<int>)
    requires Distinct(xs) && xs != []
    ensures Eq(Comb(xs, xs, [1]), 1)
    decreases |xs|
  {
    hide Eq;
    if |xs| == 1 {
      assert xs == [xs[0]];
      UnitySingle(xs[0]);
    } else {
      var a, mid, b := xs[0], xs[1..|xs|-1], xs[|xs|-1];
      assert xs == [a] + mid + [b];
      assert [a] + mid == xs[..|xs|-1] && mid + [b] == xs[1..];
      Unity(xs[..|xs|-1]);
      Unity(xs[1..]);
      UnityJoin(a, mid, b);
    }
  }

  lemma UnitySingle(x: int)
    ensures Eq(Comb([x], [x], [1]), 1)
  {
    hide Eq;
    assert [] + [x] == [x];
    EqRefl(x);
    LamSpec([x], x);
    ProductsSnoc([], x, x);
    CombSnoc([x], [], x, [1]);
    EvalOne(x);
  }

  lemma UnityJoin(a: int, mid: seq<int>, b: int)
    requires Distinct([a] + mid + [b])
    requires Eq(Comb([a] + mid, [a] + mid, [1]), 1) && Eq(Comb(mid + [b], mid + [b], [1]), 1)
    ensures Eq(Comb([a] + mid + [b], [a] + mid + [b], [1]), 1)
  {
    hide Eq;
    var xs, A, B := [a] + mid + [b], [a] + mid, mid + [b];
    NevilleSum(a, mid, b, mid);
    UnityEnds(a, mid, b);
    EvalOne(a);
    EvalOne(b);
    CombSnoc(xs, A, b, [1]);
    CombCons(xs, a, mid, [1]);
    CombCons(A, a, mid, [1]);
    CombSnoc(B, mid, b, [1]);
    EndsDiffer(a, mid, b);
    UnityStep(a, b, Comb(xs, mid, [1]), Comb(A, mid, [1]), Comb(B, mid, [1]),
              Lam(xs, a), Lam(xs, b), Lam(A, a), Lam(B, b));
  }

  lemma UnityStep(a: int, b: int, s: int, sa: int, sb: int, la: int, lb: int, ma: int, mb: int)
    requires Eq((a - b) * s, (0 - b) * sa + a * sb) && Eq((a - b) * la, (0 - b) * ma) && Eq((a - b) * lb, a * mb)
    requires Eq(ma + sa, 1) && Eq(sb + mb, 1) && !Eq(a - b, 0)
    ensures Eq(la + s + lb, 1)
  {
    hide Eq;
    EqAdd((a - b) * s, (0 - b) * sa + a * sb, (a - b) * la, (0 - b) * ma);
    EqAdd((a - b) * s + (a - b) * la, (0 - b) * sa + a * sb + (0 - b) * ma, (a - b) * lb, a * mb);
    Distribute(a - b, la + s, lb);
    Distribute(a - b, la, s);
    Distribute(0 - b, ma, sa);
    Distribute(a, sb, mb);
    EqScale(ma + sa, 1, 0 - b);
    EqScale(sb + mb, 1, a);
    EqAdd((0 - b) * (ma + sa), (0 - b) * 1, a * (sb + mb), a * 1);
    EqTrans((a - b) * (la + s + lb), (0 - b) * (ma + sa) + a * (sb + mb), (0 - b) * 1 + a * 1);
    SwapFactors(1, a - b, la + s + lb);
    Cancel(la + s + lb, 1, a - b);
  }

  lemma EndsDiffer(a: int, mid: seq<int>, b: int)
    requires Distinct([a] + mid + [b])
    ensures !Eq(a - b, 0)
  {
    hide Eq;
    var xs := [a] + mid + [b];
    assert xs[0] == a && xs[|xs| - 1] == b;
    EqDiff(a, b);
  }

  lemma FlipSign(l: int, m: int, a: int, b: int)
    requires Eq(l * (b - a), m * (0 - a))
    ensures Eq((a - b) * l, a * m)
  {
    hide Eq;
    EqScale(l * (b - a), m * (0 - a), -1);
    assert l * (b - a) * -1 == (a - b) * l;
    assert m * (0 - a) * -1 == a * m;
  }

  lemma UnityEnds(a: int, mid: seq<int>, b: int)
    requires Distinct([a] + mid + [b])
    ensures Eq((a - b) * Lam([a] + mid + [b], a), (0 - b) * Lam([a] + mid, a))
    ensures Eq((a - b) * Lam([a] + mid + [b], b), a * Lam(mid + [b], b))
  {
    hide Eq;
    var xs := [a] + mid + [b];
    EndsDiffer(a, mid, b);
    assert a != b by { EqRefl(0); }
    assert a == xs[0] && b == xs[|xs| - 1];
    DistinctApart(xs, a);
    DistinctApart(xs, b);
    ApartSub(xs, [a] + mid, a);
    ApartSub(xs, mid + [b], b);
    ProductsSnoc([a] + mid, b, a);
    LamDrop(xs, [a] + mid, b, a);
    assert xs == [a] + (mid + [b]);
    ProductsCons(a, mid + [b], b);
    LamDrop(xs, mid + [b], a, b);
    FlipSign(Lam(xs, b), Lam(mid + [b], b), a, b);
    SwapFactors(1, Lam(xs, a), a - b);
    SwapFactors(1, Lam([a] + mid, a), 0 - b);
  }

  // ---------------------------------------------------------------- reconstruction

  /** Interpolation at zero is exact for every polynomial of degree below the number of nodes. */
  lemma {:induction false} Interpolation(xs: seq<int>, f: seq<int>)
    requires Distinct(xs) && xs != [] && |f| <= |xs|
    ensures Eq(Comb(xs, xs, f), Eval(f, 0))
    decreases |xs|
  {
    hide Eq;
    Unity(xs);
    if |f| <= 1 {
      CombConstant(xs, xs, f);
      EvalAtZero(f);
      EqScale(Comb(xs, xs, [1]), 1, Eval(f, 0));
    } else {
      var A, b := xs[..|xs|-1], xs[|xs|-1];
      assert xs == A + [b];
      var h := Quotient(f, b);
      Interpolation(A, h);
      CombSplit(A, b, A, f);
      CombSnoc(xs, A, b, f);
      CombSnoc(xs, A, b, [1]);
      EvalOne(b);
      QuotientSpec(f, b, 0);
      InterpolationStep(b, Eval(f, b), Comb(xs, A, [1]), Comb(A, A, h), Lam(xs, b), Comb(xs, A, f), Eval(h, 0));
    }
  }

  /** The sum over all nodes is f(b) times one plus -b times the smaller sum. */
  lemma InterpolationStep(b: int, fb: int, s: int, t: int, l: int, c: int, h0: int)
    requires Eq(c, fb * s + (0 - b) * t) && Eq(s + l, 1) && Eq(t, h0)
    ensures Eq(c + l * fb, fb + (0 - b) * h0)
  {
    hide Eq;
    EqRefl(l * fb);
    EqAdd(c, fb * s + (0 - b) * t, l * fb, l * fb);
    SwapFactors(1, fb, l);
    Distribute(fb, s, l);
    EqScale(s + l, 1, fb);
    EqScale(t, h0, 0 - b);
    EqAdd(fb * (s + l), fb * 1, (0 - b) * t, (0 - b) * h0);
    EqTrans(c + l * fb, fb * (s + l) + (0 - b) * t, fb + (0 - b) * h0);
  }

  lemma {:induction false} CombConstant(xs: seq<int>, pts: seq<int>, f: seq<int>)
    requires |f| <= 1
    ensures Comb(xs, pts, f) == Eval(f, 0) * Comb(xs, pts, [1])
  {
    hide Eq;
    if pts != [] {
      var x := pts[|pts|-1];
      CombConstant(xs, pts[..|pts|-1], f);
      EvalOne(x);
      assert f != [] ==> Eval(f, x) == f[0] + x * Eval([], x) by { assert f != [] ==> f[1..] == []; }
      EvalAtZero(f);
      assert Eval(f, x) == Eval(f, 0);
      Distribute(Eval(f, 0), Comb(xs, pts[..|pts|-1], [1]), Lam(xs, x));
    }
  }

  /** Splitting f = f(b) + (x - b) h inside the sum over nodes other than `b`. */
  lemma {:induction false} CombSplit(A: seq<int>, b: int, pts: seq<int>, f: seq<int>)
    requires Distinct(A + [b]) && forall x :: x in pts ==> x in A
    ensures Eq(Comb(A + [b], pts, f),
               Eval(f, b) * Comb(A + [b], pts, [1]) + (0 - b) * Comb(A, pts, Quotient(f, b)))
  {
    hide Eq;
    var xs, h := A + [b], Quotient(f, b);
    if pts == [] {
      EqRefl(0);
    } else {
      var ps, x := pts[..|pts|-1], pts[|pts|-1];
      assert pts == ps + [x] && x in pts && forall y :: y in ps ==> y in pts;
      CombSplit(A, b, ps, f);
      CombSnoc(xs, ps, x, f);
      CombSnoc(xs, ps, x, [1]);
      CombSnoc(A, ps, x, h);
      EvalOne(x);
      CombSplitOne(A, b, x, f);
      AddStep(Comb(xs, ps, f), Eval(f, b), Comb(xs, ps, [1]), b, Comb(A, ps, h),
              Lam(xs, x) * Eval(f, x), Lam(xs, x), Lam(A, x) * Eval(h, x));
    }
  }

  lemma CombSplitOne(A: seq<int>, b: int, x: int, f: seq<int>)
    requires Distinct(A + [b]) && x in A
    ensures var xs := A + [b];
            Eq(Lam(xs, x) * Eval(f, x),
               Eval(f, b) * Lam(xs, x) + (0 - b) * (Lam(A, x) * Eval(Quotient(f, b), x)))
  {
    hide Eq;
    var xs := A + [b];
    QuotientSpec(f, b, x);
    assert x in xs;
    DistinctApart(xs, x);
    ApartSub(xs, A, x);
    LastDiffers(A, b, x);
    ProductsSnoc(A, b, x);
    LamDrop(xs, A, b, x);
    SplitStep(Lam(xs, x), Lam(A, x), x, b, Eval(f, b), Eval(f, x), Eval(Quotient(f, b), x));
  }

  lemma AddStep(c: int, fb: int, s: int, b: int, t: int, d: int, l: int, u: int)
    requires Eq(c, fb * s + (0 - b) * t) && Eq(d, fb * l + (0 - b) * u)
    ensures Eq(c + d, fb * (s + l) + (0 - b) * (t + u))
  {
    hide Eq;
    EqAdd(c, fb * s + (0 - b) * t, d, fb * l + (0 - b) * u);
    Distribute(fb, s, l);
    Distribute(0 - b, t, u);
  }

  lemma SplitStep(l: int, m: int, x: int, b: int, fb: int, fx: int, hx: int)
    requires fx == fb + (x - b) * hx && Eq(l * (x - b), m * (0 - b))
    ensures Eq(l * fx, fb * l + (0 - b) * (m * hx))
  {
    hide Eq;
    EqScale(l * (x - b), m * (0 - b), hx);
    EqRefl(fb * l);
    EqAdd(fb * l, fb * l, l * (x - b) * hx, m * (0 - b) * hx);
    Distribute(l, fb, (x - b) * hx);
    SwapFactors(l, hx, x - b);
    SwapFactors(m, 0 - b, hx);
    SwapFactors(1, m * hx, 0 - b);
    SwapFactors(1, fb, l);
  }

  lemma LastDiffers(A: seq<int>, b: int, x: int)
    requires Distinct(A + [b]) && x in A
    ensures x != b
  {
    hide Eq;
    var xs := A + [b];
    var i :| 0 <= i < |A| && A[i] == x;
    assert xs[i] == x && xs[|A|] == b;
    EqRefl(x);
  }

  /** The sum of `ls[i] * f(xs[i])`. */
  ghost function Weighted(ls: seq<int>, xs: seq<int>, f: seq<int>): int
    requires |ls| == |xs|
  {
    if ls == [] then 0
    else Weighted(ls[..|ls|-1], xs[..|xs|-1], f) + ls[|ls|-1] * Eval(f, xs[|xs|-1])
  }

  /** `ls` recovers f(0) from the values at `xs` of any polynomial with at most `|xs|` coefficients. */
  ghost predicate Reconstructs(ls: seq<int>, xs: seq<int>) {
    && |ls| == |xs|
    && forall f: seq<int> :: |f| <= |xs| ==> Eq(Weighted(ls, xs, f), Eval(f, 0))
  }

  /** Coefficients with the defining property `l * Den == Num` reconstruct. */
  lemma QuotientsReconstruct(ls: seq<int>, xs: seq<int>)
    requires |ls| == |xs| && xs != [] && Distinct(xs)
    requires forall i :: 0 <= i < |xs| ==> Eq(ls[i] * Den(xs, xs[i]), Num(xs, xs[i]))
    ensures Reconstructs(ls, xs)
  {
    hide Eq;
    forall f: seq<int> | |f| <= |xs|
      ensures Eq(Weighted(ls, xs, f), Eval(f, 0))
    {
      WeightedIsComb(ls, xs, |xs|, f);
      assert ls[..|xs|] == ls && xs[..|xs|] == xs;
      Interpolation(xs, f);
      EqTrans(Weighted(ls, xs, f), Comb(xs, xs, f), Eval(f, 0));
    }
  }

  lemma {:induction false} WeightedIsComb(ls: seq<int>, xs: seq<int>, k: nat, f: seq<int>)
    requires |ls| == |xs| && Distinct(xs) && k <= |xs|
    requires forall i :: 0 <= i < |xs| ==> Eq(ls[i] * Den(xs, xs[i]), Num(xs, xs[i]))
    ensures Eq(Weighted(ls[..k], xs[..k], f), Comb(xs, xs[..k], f))
  {
    hide Eq;
    if k == 0 {
      EqRefl(0);
    } else {
      WeightedIsComb(ls, xs, k - 1, f);
      assert ls[..k][..k-1] == ls[..k-1] && xs[..k][..k-1] == xs[..k-1];
      var x := xs[k - 1];
      DistinctApart(xs, x);
      DenNonzero(xs, x);
      LamSpec(xs, x);
      EqVia(ls[k - 1] * Den(xs, x), Lam(xs, x) * Den(xs, x), Num(xs, x));
      Cancel(ls[k - 1], Lam(xs, x), Den(xs, x));
      EqScale(ls[k - 1], Lam(xs, x), Eval(f, x));
      EqAdd(Weighted(ls[..k-1], xs[..k-1], f), Comb(xs, xs[..k-1], f), ls[k - 1] * Eval(f, x), Lam(xs, x) * Eval(f, x));
    }
  }
}
