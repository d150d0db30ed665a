/** Feldman commitments: evaluation in the exponent, share checks, and the keys of a finalized epoch. */
module Feldman {
  import opened Zq
  import opened ElGamal
  import opened Lagrange

  /** The polynomial a list of commitments hides. */
  ghost function Logs(cs: seq<Point>): (f: seq<int>)
    ensures |f| == |cs| && forall i :: 0 <= i < |cs| ==> f[i] == cs[i].log
  {
    seq(|cs|, i requires 0 <= i < |cs| => cs[i].log)
  }

  ghost function Power(x: int, n: nat): int {
    if n == 0 then 1 else x * Power(x, n - 1)
  }

  lemma {:induction false} EvalSnoc(f: seq<int>, c: int, x: int)
    ensures Eval(f + [c], x) == Eval(f, x) + Power(x, |f|) * c
  {
    if f == [] {
      assert (f + [c])[1..] == [];
    } else {
      EvalSnoc(f[1..], c, x);
      assert (f + [c])[1..] == f[1..] + [c];
      Distribute(x, Eval(f[1..], x), Power(x, |f| - 1) * c);
      SwapFactors(x, Power(x, |f| - 1), c);
    }
  }

  /** The value in the exponent of the hidden polynomial at `x`. */
  ghost function CommitEval(cs: seq<Point>, x: int): Point {
    Point(Mod(Eval(Logs(cs), x)))
  }

  /** `dkgEvalCommitment` */
  method EvalCommitment(cs: seq<Point>, x: nat) returns (acc: Point)
    ensures acc == CommitEval(cs, x)
  {
    hide Eq, Eval, Mod;
    var xs := Mod(x);
    var pow: Scalar := 1;
    acc := ZERO;
    EqRefl(1);
    EqRefl(0);
    NoCommitments(cs, x);
    for i := 0 to |cs|
      invariant Eq(pow, Power(x, i))
      invariant Eq(acc.log, Eval(Logs(cs[..i]), x))
    {
      EvalStep(cs, i, x, pow, acc);
      acc := PointAdd(acc, MulPoint(cs[i], pow));
      pow := ScalarMul(pow, xs);
    }
    assert cs[..|cs|] == cs;
    SameLog(acc, CommitEval(cs, x), Eval(Logs(cs), x));
  }

  lemma NoCommitments(cs: seq<Point>, x: int)
    ensures Eval(Logs(cs[..0]), x) == 0
  {
  }

  lemma EvalStep(cs: seq<Point>, i: nat, x: nat, pow: Scalar, acc: Point)
    requires i < |cs| && Eq(pow, Power(x, i)) && Eq(acc.log, Eval(Logs(cs[..i]), x))
    ensures Eq(PointAdd(acc, MulPoint(cs[i], pow)).log, Eval(Logs(cs[..i + 1]), x))
    ensures Eq(ScalarMul(pow, Mod(x)), Power(x, i + 1))
  {
    hide Eq, Eval;
    var c: int := cs[i].log;
    assert Logs(cs[..i + 1]) == Logs(cs[..i]) + [c];
    EvalSnoc(Logs(cs[..i]), c, x);
    EqScale(pow, Power(x, i), c);
    EqTrans(MulPoint(cs[i], pow).log, c * pow, c * Power(x, i));
    SwapFactors(1, c, Power(x, i));
    AddLog(acc, Eval(Logs(cs[..i]), x), MulPoint(cs[i], pow), Power(x, i) * c);
    EqMul(pow, Power(x, i), Mod(x), x);
    SwapFactors(1, x, Power(x, i));
    EqTrans(ScalarMul(pow, Mod(x)), pow * Mod(x), Power(x, i + 1));
  }

  /** `share` is the value of the committed polynomial at `x`. */
  ghost predicate ShareMatches(cs: seq<Point>, x: int, share: Scalar) {
    Eq(share, Eval(Logs(cs), x))
  }

  /** `dkgVerifyShare` accepts exactly the values of the committed polynomial. */
  method VerifyShare(cs: seq<Point>, x: nat, share: Scalar) returns (ok: bool)
    ensures ok <==> ShareMatches(cs, x, share)
  {
    hide Eq, Eval, Mod;
    var left := MulBase(share);
    var right := EvalCommitment(cs, x);
    MulBaseLog(share);
    ok := left == right;
    if Eq(share, Eval(Logs(cs), x)) {
      SameLog(left, right, Eval(Logs(cs), x));
    }
  }

  // ---------------------------------------------------------------- joint keys

  ghost function AddPoly(f: seq<int>, g: seq<int>): (h: seq<int>)
    requires |f| == |g|
    ensures |h| == |f| && forall i :: 0 <= i < |f| ==> h[i] == f[i] + g[i]
  {
    seq(|f|, i requires 0 <= i < |f| => f[i] + g[i])
  }

  lemma {:induction false} AddPolyEval(f: seq<int>, g: seq<int>, x: int)
    requires |f| == |g|
    ensures Eval(AddPoly(f, g), x) == Eval(f, x) + Eval(g, x)
  {
    if f != [] {
      AddPolyEval(f[1..], g[1..], x);
      assert AddPoly(f, g)[1..] == AddPoly(f[1..], g[1..]);
      Distribute(x, Eval(f[1..], x), Eval(g[1..], x));
    }
  }

  ghost predicate Degree(css: seq<seq<Point>>, t: nat) {
    forall i :: 0 <= i < |css| ==> |css[i]| == t
  }

  /** The sum of the polynomials behind the commitments of all dealers. */
  ghost function JointPoly(css: seq<seq<Point>>, t: nat): (f: seq<int>)
    requires Degree(css, t)
    ensures |f| == t
  {
    if css == [] then seq(t, _ => 0)
    else AddPoly(JointPoly(css[..|css| - 1], t), Logs(css[|css| - 1]))
  }

  lemma {:induction false} ZeroPoly(t: nat, x: int)
    ensures Eval(seq(t, _ => 0), x) == 0
  {
    if t > 0 {
      ZeroPoly(t - 1, x);
      assert seq(t, _ => 0)[1..] == seq(t - 1, _ => 0);
    }
  }

  lemma JointStep(css: seq<seq<Point>>, t: nat, i: nat, x: int)
    requires Degree(css, t) && i < |css|
    ensures Eval(JointPoly(css[..i + 1], t), x) == Eval(JointPoly(css[..i], t), x) + Eval(Logs(css[i]), x)
  {
    assert css[..i + 1][..i] == css[..i];
    AddPolyEval(JointPoly(css[..i], t), Logs(css[i]), x);
  }

  /** The epoch key: the sum of the constant commitments hides the constant of the joint polynomial. */
  method JointKey(css: seq<seq<Point>>, ghost t: nat) returns (pk: Point)
    requires Degree(css, t) && t > 0
    ensures pk == Point(Mod(Eval(JointPoly(css, t), 0)))
  {
    hide Eq, Eval, Mod;
    pk := ZERO;
    EqRefl(0);
    assert css[..0] == [];
    ZeroPoly(t, 0);
    for i := 0 to |css|
      invariant Eq(pk.log, Eval(JointPoly(css[..i], t), 0))
    {
      JointStep(css, t, i, 0);
      EvalAtZero(Logs(css[i]));
      EqRefl(css[i][0].log);
      AddLog(pk, Eval(JointPoly(css[..i], t), 0), css[i][0], css[i][0].log);
      pk := PointAdd(pk, css[i][0]);
    }
    assert css[..|css|] == css;
    SameLog(pk, Point(Mod(Eval(JointPoly(css, t), 0))), Eval(JointPoly(css, t), 0));
  }

  /** The public share of the member with index `x`: the joint polynomial at `x`, in the exponent. */
  method JointShare(css: seq<seq<Point>>, ghost t: nat, x: nat) returns (Y: Point)
    requires Degree(css, t)
    ensures Y == Point(Mod(Eval(JointPoly(css, t), x)))
  {
    hide Eq, Eval, Mod;
    Y := ZERO;
    EqRefl(0);
    assert css[..0] == [];
    ZeroPoly(t, x);
    for i := 0 to |css|
      invariant Eq(Y.log, Eval(JointPoly(css[..i], t), x))
    {
      var p := EvalCommitment(css[i], x);
      JointStep(css, t, i, x);
      AddLog(Y, Eval(JointPoly(css[..i], t), x), p, Eval(Logs(css[i]), x));
      Y := PointAdd(Y, p);
    }
    assert css[..|css|] == css;
    SameLog(Y, Point(Mod(Eval(JointPoly(css, t), x))), Eval(JointPoly(css, t), x));
  }

  /** Shares that match every dealer's commitments add up to a share of the joint polynomial. */
  lemma {:induction false} SharesAdd(css: seq<seq<Point>>, t: nat, x: int, shares: seq<Scalar>, n: nat)
    requires Degree(css, t) && |shares| == |css| && n <= |css|
    requires forall i :: 0 <= i < |css| ==> ShareMatches(css[i], x, shares[i])
    ensures Eq(SumOf(shares[..n]), Eval(JointPoly(css[..n], t), x))
  {
    hide Eq, Eval;
    if n == 0 {
      assert css[..0] == [];
      ZeroPoly(t, x);
      EqRefl(0);
    } else {
      SharesAdd(css, t, x, shares, n - 1);
      JointStep(css, t, n - 1, x);
      assert shares[..n][..n - 1] == shares[..n - 1];
      assert ShareMatches(css[n - 1], x, shares[n - 1]);
      EqAdd(SumOf(shares[..n - 1]), Eval(JointPoly(css[..n - 1], t), x), shares[n - 1], Eval(Logs(css[n - 1]), x));
    }
  }

  ghost function SumOf(s: seq<Scalar>): int {
    if s == [] then 0 else SumOf(s[..|s| - 1]) + s[|s| - 1]
  }
}
