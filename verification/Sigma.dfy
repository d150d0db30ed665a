/** The proofs inside a shuffle: equality of discrete logarithms (packages/ocp-shuffle/src/eqdlog.ts)
    and the two-branch OR-proof of a switch (packages/ocp-shuffle/src/switch_or.ts). */
module Sigma {
  import opened Zq
  import opened Outcome
  import opened ElGamal
  import opened Primitives
  import opened Transcript

  // ---------------------------------------------------------------- one verification equation

  /** z*A == t + e*X */
  predicate Checks(A: Point, X: Point, t: Point, e: Scalar, z: Scalar) {
    MulPoint(A, z) == PointAdd(t, MulPoint(X, e))
  }

  lemma ChecksLog(A: Point, X: Point, t: Point, e: Scalar, z: Scalar)
    ensures Checks(A, X, t, e, z) <==> Eq(A.log * z, t.log + X.log * e)
  {
    hide Eq;
    EqRefl(t.log);
    AddLog(t, t.log, MulPoint(X, e), X.log * e);
    var l, r := MulPoint(A, z), PointAdd(t, MulPoint(X, e));
    if Eq(A.log * z, t.log + X.log * e) {
      EqTrans(l.log, A.log * z, t.log + X.log * e);
      SameLog(l, r, t.log + X.log * e);
    }
    if l == r {
      EqFlip(l.log, A.log * z);
      EqTrans(A.log * z, l.log, t.log + X.log * e);
    }
  }

  /** An honest response passes. */
  lemma HonestChecks(A: Point, X: Point, w: Scalar, e: Scalar, x: Scalar)
    requires X == MulPoint(A, x)
    ensures Checks(A, X, MulPoint(A, w), e, ScalarAdd(w, ScalarMul(e, x)))
  {
    hide Eq;
    var a: int, z := A.log, ScalarAdd(w, ScalarMul(e, x));
    EqRefl(w);
    EqAdd(w, w, ScalarMul(e, x), e * x);
    EqTrans(z, w + ScalarMul(e, x), w + e * x);
    EqScale(z, w + e * x, a);
    Distribute(a, w, e * x);
    SwapFactors(a, x, e);
    EqScale(X.log, a * x, e);
    EqAdd(MulPoint(A, w).log, a * w, X.log * e, a * x * e);
    EqVia(a * z, MulPoint(A, w).log + X.log * e, a * w + a * x * e);
    ChecksLog(A, X, MulPoint(A, w), e, z);
  }

  /** A simulated commitment passes for the challenge and response it was made for. */
  lemma SimulatedChecks(A: Point, X: Point, e: Scalar, z: Scalar)
    ensures Checks(A, X, PointSub(MulPoint(A, z), MulPoint(X, e)), e, z)
  {
    hide Eq;
    var t := PointSub(MulPoint(A, z), MulPoint(X, e));
    EqSub(MulPoint(A, z).log, A.log * z, MulPoint(X, e).log, X.log * e);
    EqTrans(t.log, MulPoint(A, z).log - MulPoint(X, e).log, A.log * z - X.log * e);
    EqRefl(X.log * e);
    EqAdd(t.log, A.log * z - X.log * e, X.log * e, X.log * e);
    EqFlip(t.log + X.log * e, A.log * z);
    ChecksLog(A, X, t, e, z);
  }

  /** The witness that two accepting transcripts with one commitment reveal. */
  ghost function Extract(e: Scalar, z: Scalar, e': Scalar, z': Scalar): Scalar
    requires e != e'
  {
    DifferentChallenges(e, e');
    Mod((z - z') * Inverse(e - e'))
  }

  lemma DifferentChallenges(e: Scalar, e': Scalar)
    requires e != e'
    ensures !Eq(e - e', 0)
  {
    EqDiff(e, e');
    if Eq(e, e') { Canonical(e, e'); }
  }

  /** Special soundness of one equation. */
  lemma ExtractSound(A: Point, X: Point, t: Point, e: Scalar, z: Scalar, e': Scalar, z': Scalar)
    requires e != e' && Checks(A, X, t, e, z) && Checks(A, X, t, e', z')
    ensures X == MulPoint(A, Extract(e, z, e', z'))
  {
    hide Eq;
    DifferentChallenges(e, e');
    ChecksLog(A, X, t, e, z);
    ChecksLog(A, X, t, e', z');
    var a: int, x: int, de: int, dz: int := A.log, X.log, e - e', z - z';
    EqSub(a * z, t.log + x * e, a * z', t.log + x * e');
    assert a * z - a * z' == a * dz && x * e - x * e' == x * de by {
      Distribute(a, dz, z');
      Distribute(x, de, e');
    }
    assert Eq(a * dz, x * de);
    var i := Inverse(de);
    EqScale(a * dz, x * de, i);
    CancelOne(x, de, i);
    EqTrans(a * dz * i, x * de * i, x);
    var w := Extract(e, z, e', z');
    EqScale(w, dz * i, a);
    SwapFactors(a, i, dz);
    SwapFactors(a, dz, i);
    SwapFactors(1, i, dz);
    EqTrans(a * w, a * dz * i, x);
    EqTrans(MulPoint(A, w).log, a * w, x);
    Canonical(MulPoint(A, w).log, X.log);
  }

  // ---------------------------------------------------------------- equality of discrete logarithms

  datatype EqDlogProof = EqDlogProof(t1: Point, t2: Point, z: Scalar)

  const EQDLOG_LABELS := ["A", "B", "X", "Y", "t1", "t2"]

  /** The bytes hashed for the challenge. */
  function EqDlogHashed(S: Suite, domain: string, A: Point, B: Point, X: Point, Y: Point, t1: Point, t2: Point, ctx: Option<Bytes>): Bytes {
    Hashed(S, domain, ContextMessage(ctx) + Labelled(S, EQDLOG_LABELS, [A, B, X, Y, t1, t2]))
  }

  function EqDlogChallenge(S: Suite, domain: string, A: Point, B: Point, X: Point, Y: Point,
                           t1: Point, t2: Point, ctx: Option<Bytes>): Scalar {
    S.hash(EqDlogHashed(S, domain, A, B, X, Y, t1, t2, ctx))
  }

  /** THEOREM.  The challenge is bound to the domain, the context, the statement and both commitments: no two of them
      hash the same bytes. */
  lemma EqDlogBound(S: Suite, domain: string, A: Point, B: Point, X: Point, Y: Point, t1: Point, t2: Point, ctx: Option<Bytes>,
                    domain': string, A': Point, B': Point, X': Point, Y': Point, t1': Point, t2': Point, ctx': Option<Bytes>)
    requires S.Canonical() && ShortContext(ctx) && ShortContext(ctx') && |domain| <= 64 && |domain'| <= 64
    requires EqDlogHashed(S, domain, A, B, X, Y, t1, t2, ctx) == EqDlogHashed(S, domain', A', B', X', Y', t1', t2', ctx')
    ensures domain == domain' && ctx == ctx' && A == A' && B == B' && X == X' && Y == Y' && t1 == t1' && t2 == t2'
  {
    hide Hashed;
    var ps, ps' := [A, B, X, Y, t1, t2], [A', B', X', Y', t1', t2'];
    PointsBound(S, domain, ctx, EQDLOG_LABELS, ps, domain', ctx', ps');
    assert ps[0] == ps'[0] && ps[1] == ps'[1] && ps[2] == ps'[2] && ps[3] == ps'[3] && ps[4] == ps'[4] && ps[5] == ps'[5];
  }

  /** `proveEqDlog`, with the nonce it draws passed in. */
  function ProveEqDlog(S: Suite, domain: string, A: Point, B: Point, X: Point, Y: Point,
                       x: Scalar, w: Scalar, ctx: Option<Bytes>): EqDlogProof {
    var t1, t2 := MulPoint(A, w), MulPoint(B, w);
    var e := EqDlogChallenge(S, domain, A, B, X, Y, t1, t2, ctx);
    EqDlogProof(t1, t2, ScalarAdd(w, ScalarMul(e, x)))
  }

  predicate VerifyEqDlog(S: Suite, domain: string, A: Point, B: Point, X: Point, Y: Point,
                         proof: EqDlogProof, ctx: Option<Bytes>) {
    var e := EqDlogChallenge(S, domain, A, B, X, Y, proof.t1, proof.t2, ctx);
    Checks(A, X, proof.t1, e, proof.z) && Checks(B, Y, proof.t2, e, proof.z)
  }

  /** `x` is the common logarithm of `X` to the base `A` and of `Y` to the base `B`. */
  predicate CommonLog(A: Point, B: Point, X: Point, Y: Point, x: Scalar) {
    X == MulPoint(A, x) && Y == MulPoint(B, x)
  }

  lemma EqDlogComplete(S: Suite, domain: string, A: Point, B: Point, X: Point, Y: Point,
                       x: Scalar, w: Scalar, ctx: Option<Bytes>)
    requires CommonLog(A, B, X, Y, x)
    ensures VerifyEqDlog(S, domain, A, B, X, Y, ProveEqDlog(S, domain, A, B, X, Y, x, w, ctx), ctx)
  {
    var e := EqDlogChallenge(S, domain, A, B, X, Y, MulPoint(A, w), MulPoint(B, w), ctx);
    HonestChecks(A, X, w, e, x);
    HonestChecks(B, Y, w, e, x);
  }

  /** Two accepting transcripts with equal commitments and different challenges share a witness. */
  lemma EqDlogSpecialSound(A: Point, B: Point, X: Point, Y: Point, t1: Point, t2: Point,
                           e: Scalar, z: Scalar, e': Scalar, z': Scalar)
    requires e != e'
    requires Checks(A, X, t1, e, z) && Checks(B, Y, t2, e, z)
    requires Checks(A, X, t1, e', z') && Checks(B, Y, t2, e', z')
    ensures CommonLog(A, B, X, Y, Extract(e, z, e', z'))
  {
    ExtractSound(A, X, t1, e, z, e', z');
    ExtractSound(B, Y, t2, e, z, e', z');
  }

  // ---------------------------------------------------------------- switches

  /** The statement that `o` re-encrypts `i`: what must be the common logarithm. */
  function DiffC1(i: Ciphertext, o: Ciphertext): Point { PointSub(o.c1, i.c1) }

  function DiffC2(i: Ciphertext, o: Ciphertext): Point { PointSub(o.c2, i.c2) }

  /** A common logarithm of the two differences is exactly a re-encryption exponent. */
  lemma CommonLogIsReencryption(pk: Point, i: Ciphertext, o: Ciphertext, rho: Scalar)
    ensures CommonLog(G, pk, DiffC1(i, o), DiffC2(i, o), rho) <==> o == Reencrypt(pk, i, rho)
  {
    DifferenceIs(i.c1, o.c1, MulBase(rho));
    DifferenceIs(i.c2, o.c2, MulPoint(pk, rho));
  }

  lemma DifferenceIs(p: Point, q: Point, d: Point)
    ensures PointSub(q, p) == d <==> q == PointAdd(p, d)
  {
    hide Eq;
    EqRefl(p.log);
    EqRefl(d.log);
    EqRefl(q.log);
    AddLog(p, p.log, d, d.log);
    if PointSub(q, p) == d {
      EqAdd(p.log, p.log, d.log, q.log - p.log);
      EqTrans(PointAdd(p, d).log, p.log + d.log, q.log);
      SameLog(PointAdd(p, d), q, q.log);
    }
    if q == PointAdd(p, d) {
      EqSub(q.log, p.log + d.log, p.log, p.log);
      EqTrans(PointSub(q, p).log, q.log - p.log, d.log);
      SameLog(PointSub(q, p), d, d.log);
    }
  }

  /** `e0` is the challenge of branch 0; the relations are, in order: out0 from in0, out1 from in1
      (branch 0), out0 from in1, out1 from in0 (branch 1). */
  datatype SwitchProof = SwitchProof(e0: Scalar, r0: EqDlogProof, r1: EqDlogProof, r2: EqDlogProof, r3: EqDlogProof)

  datatype Switch = Switch(in0: Ciphertext, in1: Ciphertext, out0: Ciphertext, out1: Ciphertext)

  const DOMAIN_SWITCH := "ocp/v1/shuffle/switch-or"

  const SWITCH_LABELS := ["pk", "in0.c1", "in0.c2", "in1.c1", "in1.c2", "out0.c1", "out0.c2", "out1.c1", "out1.c2",
                          "t1.0", "t1.1", "t1.2", "t1.3", "t2.0", "t2.1", "t2.2", "t2.3"]

  function SwitchPoints(pk: Point, sw: Switch, t1: seq<Point>, t2: seq<Point>): seq<Point> {
    [pk, sw.in0.c1, sw.in0.c2, sw.in1.c1, sw.in1.c2, sw.out0.c1, sw.out0.c2, sw.out1.c1, sw.out1.c2] + t1 + t2
  }

  /** The bytes hashed for the challenge. */
  function SwitchHashed(S: Suite, pk: Point, sw: Switch, t1: seq<Point>, t2: seq<Point>, ctx: Option<Bytes>): Bytes
    requires |t1| == |t2| == 4
  {
    Hashed(S, DOMAIN_SWITCH, ContextMessage(ctx) + Labelled(S, SWITCH_LABELS, SwitchPoints(pk, sw, t1, t2)))
  }

  function SwitchChallenge(S: Suite, pk: Point, sw: Switch, t1: seq<Point>, t2: seq<Point>, ctx: Option<Bytes>): Scalar
    requires |t1| == |t2| == 4
  {
    S.hash(SwitchHashed(S, pk, sw, t1, t2, ctx))
  }

  /** THEOREM.  The challenge of a switch is bound to the key, both inputs, both outputs, all eight commitments and the
      context: no two of them hash the same bytes. */
  lemma SwitchBound(S: Suite, pk: Point, sw: Switch, t1: seq<Point>, t2: seq<Point>, ctx: Option<Bytes>,
                    pk': Point, sw': Switch, t1': seq<Point>, t2': seq<Point>, ctx': Option<Bytes>)
    requires S.Canonical() && ShortContext(ctx) && ShortContext(ctx') && |t1| == |t2| == |t1'| == |t2'| == 4
    requires SwitchHashed(S, pk, sw, t1, t2, ctx) == SwitchHashed(S, pk', sw', t1', t2', ctx')
    ensures pk == pk' && sw == sw' && t1 == t1' && t2 == t2' && ctx == ctx'
  {
    hide Hashed, SwitchPoints;
    ShortSwitchLabels();
    SwitchPointsSize(pk, sw, t1, t2);
    SwitchPointsSize(pk', sw', t1', t2');
    PointsBound(S, DOMAIN_SWITCH, ctx, SWITCH_LABELS, SwitchPoints(pk, sw, t1, t2), DOMAIN_SWITCH, ctx', SwitchPoints(pk', sw', t1', t2'));
    SwitchPointsInjective(pk, sw, t1, t2, pk', sw', t1', t2');
  }

  lemma ShortSwitchLabels()
    ensures ShortLabels(SWITCH_LABELS) && |SWITCH_LABELS| == 17 && |DOMAIN_SWITCH| <= 64
  {
  }

  lemma SwitchPointsSize(pk: Point, sw: Switch, t1: seq<Point>, t2: seq<Point>)
    requires |t1| == |t2| == 4
    ensures |SwitchPoints(pk, sw, t1, t2)| == 17
  {
  }

  lemma SwitchPointsInjective(pk: Point, sw: Switch, t1: seq<Point>, t2: seq<Point>, pk': Point, sw': Switch, t1': seq<Point>, t2': seq<Point>)
    requires |t1| == |t2| == |t1'| == |t2'| == 4 && SwitchPoints(pk, sw, t1, t2) == SwitchPoints(pk', sw', t1', t2')
    ensures pk == pk' && sw == sw' && t1 == t1' && t2 == t2'
  {
    var l, r := SwitchPoints(pk, sw, t1, t2), SwitchPoints(pk', sw', t1', t2');
    assert l[0] == r[0] && l[1] == r[1] && l[2] == r[2] && l[3] == r[3] && l[4] == r[4];
    assert l[5] == r[5] && l[6] == r[6] && l[7] == r[7] && l[8] == r[8];
    assert l[9..13] == t1 && r[9..13] == t1' && l[13..] == t2 && r[13..] == t2';
  }

  function ProofChallenge(S: Suite, pk: Point, sw: Switch, p: SwitchProof, ctx: Option<Bytes>): Scalar {
    SwitchChallenge(S, pk, sw, [p.r0.t1, p.r1.t1, p.r2.t1, p.r3.t1], [p.r0.t2, p.r1.t2, p.r2.t2, p.r3.t2], ctx)
  }

  /** The equations of one relation of a switch. */
  predicate RelationChecks(pk: Point, i: Ciphertext, o: Ciphertext, r: EqDlogProof, e: Scalar) {
    Checks(G, DiffC1(i, o), r.t1, e, r.z) && Checks(pk, DiffC2(i, o), r.t2, e, r.z)
  }

  /** All eight equations, for a given overall challenge. */
  predicate SwitchChecks(pk: Point, sw: Switch, p: SwitchProof, e: Scalar) {
    var e1 := ScalarSub(e, p.e0);
    && RelationChecks(pk, sw.in0, sw.out0, p.r0, p.e0)
    && RelationChecks(pk, sw.in1, sw.out1, p.r1, p.e0)
    && RelationChecks(pk, sw.in1, sw.out0, p.r2, e1)
    && RelationChecks(pk, sw.in0, sw.out1, p.r3, e1)
  }

  /** No output reuses the first component of an input. */
  predicate Rerandomized(sw: Switch) {
    && sw.out0.c1 != sw.in0.c1 && sw.out0.c1 != sw.in1.c1
    && sw.out1.c1 != sw.in0.c1 && sw.out1.c1 != sw.in1.c1
  }

  predicate VerifySwitch(S: Suite, pk: Point, sw: Switch, p: SwitchProof, ctx: Option<Bytes>) {
    Rerandomized(sw) && SwitchChecks(pk, sw, p, ProofChallenge(S, pk, sw, p, ctx))
  }

  /** What `proveSwitch` draws, in the order it draws it. */
  datatype SwitchNonces = SwitchNonces(eSim: Scalar, zSim0: Scalar, zSim1: Scalar, w0: Scalar, w1: Scalar)

  /** The two simulated commitments of one relation. */
  function Simulated(pk: Point, i: Ciphertext, o: Ciphertext, e: Scalar, z: Scalar): EqDlogProof {
    EqDlogProof(PointSub(MulPoint(G, z), MulPoint(DiffC1(i, o), e)),
                PointSub(MulPoint(pk, z), MulPoint(DiffC2(i, o), e)), z)
  }

  function Committed(pk: Point, w: Scalar, z: Scalar): EqDlogProof {
    EqDlogProof(MulPoint(G, w), MulPoint(pk, w), z)
  }

  /** `proveSwitch`: simulate the branch that did not happen, answer the other honestly. */
  function ProveSwitch(S: Suite, pk: Point, sw: Switch, swapped: bool, rho0: Scalar, rho1: Scalar,
                       d: SwitchNonces, ctx: Option<Bytes>): SwitchProof {
    if swapped then
      var s0 := Simulated(pk, sw.in0, sw.out0, d.eSim, d.zSim0);
      var s1 := Simulated(pk, sw.in1, sw.out1, d.eSim, d.zSim1);
      var c0, c1 := Committed(pk, d.w0, 0), Committed(pk, d.w1, 0);
      var e := SwitchChallenge(S, pk, sw, [s0.t1, s1.t1, c0.t1, c1.t1], [s0.t2, s1.t2, c0.t2, c1.t2], ctx);
      var e1 := ScalarSub(e, d.eSim);
      SwitchProof(d.eSim, s0, s1,
        Committed(pk, d.w0, ScalarAdd(d.w0, ScalarMul(e1, rho0))),
        Committed(pk, d.w1, ScalarAdd(d.w1, ScalarMul(e1, rho1))))
    else
      var s0 := Simulated(pk, sw.in1, sw.out0, d.eSim, d.zSim0);
      var s1 := Simulated(pk, sw.in0, sw.out1, d.eSim, d.zSim1);
      var c0, c1 := Committed(pk, d.w0, 0), Committed(pk, d.w1, 0);
      var e := SwitchChallenge(S, pk, sw, [c0.t1, c1.t1, s0.t1, s1.t1], [c0.t2, c1.t2, s0.t2, s1.t2], ctx);
      var e0 := ScalarSub(e, d.eSim);
      SwitchProof(e0,
        Committed(pk, d.w0, ScalarAdd(d.w0, ScalarMul(e0, rho0))),
        Committed(pk, d.w1, ScalarAdd(d.w1, ScalarMul(e0, rho1))), s0, s1)
  }

  lemma SimulatedRelation(pk: Point, i: Ciphertext, o: Ciphertext, e: Scalar, z: Scalar)
    ensures RelationChecks(pk, i, o, Simulated(pk, i, o, e, z), e)
  {
    hide Checks;
    SimulatedChecks(G, DiffC1(i, o), e, z);
    SimulatedChecks(pk, DiffC2(i, o), e, z);
  }

  lemma HonestRelation(pk: Point, i: Ciphertext, o: Ciphertext, rho: Scalar, w: Scalar, e: Scalar)
    requires o == Reencrypt(pk, i, rho)
    ensures RelationChecks(pk, i, o, Committed(pk, w, ScalarAdd(w, ScalarMul(e, rho))), e)
  {
    hide Checks;
    CommonLogIsReencryption(pk, i, o, rho);
    HonestChecks(G, DiffC1(i, o), w, e, rho);
    HonestChecks(pk, DiffC2(i, o), w, e, rho);
  }

  /** Subtracting the simulated challenge twice gives it back. */
  lemma OtherShare(e: Scalar, s: Scalar)
    ensures ScalarSub(e, ScalarSub(e, s)) == s
  {
    hide Eq;
    EqRefl(e);
    EqSub(e, e, ScalarSub(e, s), e - s);
    EqTrans(ScalarSub(e, ScalarSub(e, s)), e - ScalarSub(e, s), s);
    Canonical(ScalarSub(e, ScalarSub(e, s)), s);
  }

  /** What a switch claims: the outputs re-encrypt the inputs, in this order or swapped. */
  ghost predicate Switches(pk: Point, sw: Switch) {
    || (Reencrypts(pk, sw.in0, sw.out0) && Reencrypts(pk, sw.in1, sw.out1))
    || (Reencrypts(pk, sw.in1, sw.out0) && Reencrypts(pk, sw.in0, sw.out1))
  }

  /** Completeness: an honest switch verifies, whichever branch is the true one. */
  lemma SwitchComplete(S: Suite, pk: Point, sw: Switch, swapped: bool, rho0: Scalar, rho1: Scalar,
                       d: SwitchNonces, ctx: Option<Bytes>)
    requires sw.out0 == Reencrypt(pk, if swapped then sw.in1 else sw.in0, rho0)
    requires sw.out1 == Reencrypt(pk, if swapped then sw.in0 else sw.in1, rho1)
    requires Rerandomized(sw)
    ensures VerifySwitch(S, pk, sw, ProveSwitch(S, pk, sw, swapped, rho0, rho1, d, ctx), ctx)
  {
    hide RelationChecks, Simulated, SwitchChallenge, ScalarAdd, ScalarMul, ScalarSub;
    var p := ProveSwitch(S, pk, sw, swapped, rho0, rho1, d, ctx);
    var e := ProofChallenge(S, pk, sw, p, ctx);
    if swapped {
      var e1 := ScalarSub(e, d.eSim);
      SimulatedRelation(pk, sw.in0, sw.out0, d.eSim, d.zSim0);
      SimulatedRelation(pk, sw.in1, sw.out1, d.eSim, d.zSim1);
      HonestRelation(pk, sw.in1, sw.out0, rho0, d.w0, e1);
      HonestRelation(pk, sw.in0, sw.out1, rho1, d.w1, e1);
    } else {
      var e0 := ScalarSub(e, d.eSim);
      OtherShare(e, d.eSim);
      SimulatedRelation(pk, sw.in1, sw.out0, d.eSim, d.zSim0);
      SimulatedRelation(pk, sw.in0, sw.out1, d.eSim, d.zSim1);
      HonestRelation(pk, sw.in0, sw.out0, rho0, d.w0, e0);
      HonestRelation(pk, sw.in1, sw.out1, rho1, d.w1, e0);
    }
  }

  ghost predicate SameCommitments(p: SwitchProof, p': SwitchProof) {
    && p.r0.t1 == p'.r0.t1 && p.r0.t2 == p'.r0.t2 && p.r1.t1 == p'.r1.t1 && p.r1.t2 == p'.r1.t2
    && p.r2.t1 == p'.r2.t1 && p.r2.t2 == p'.r2.t2 && p.r3.t1 == p'.r3.t1 && p.r3.t2 == p'.r3.t2
  }

  lemma RelationExtract(pk: Point, i: Ciphertext, o: Ciphertext, r: EqDlogProof, r': EqDlogProof, e: Scalar, e': Scalar)
    requires r.t1 == r'.t1 && r.t2 == r'.t2 && e != e'
    requires RelationChecks(pk, i, o, r, e) && RelationChecks(pk, i, o, r', e')
    ensures Reencrypts(pk, i, o)
  {
    hide Checks;
    var rho := Extract(e, r.z, e', r'.z);
    EqDlogSpecialSound(G, pk, DiffC1(i, o), DiffC2(i, o), r.t1, r.t2, e, r.z, e', r'.z);
    CommonLogIsReencryption(pk, i, o, rho);
  }

  /** Special soundness of the OR-proof: two accepting transcripts with equal commitments and different
      challenges give both witnesses of one whole branch. */
  lemma SwitchSpecialSound(pk: Point, sw: Switch, p: SwitchProof, p': SwitchProof, e: Scalar, e': Scalar)
    requires SameCommitments(p, p') && e != e'
    requires SwitchChecks(pk, sw, p, e) && SwitchChecks(pk, sw, p', e')
    ensures Switches(pk, sw)
  {
    hide RelationChecks, ScalarSub;
    if p.e0 != p'.e0 {
      RelationExtract(pk, sw.in0, sw.out0, p.r0, p'.r0, p.e0, p'.e0);
      RelationExtract(pk, sw.in1, sw.out1, p.r1, p'.r1, p.e0, p'.e0);
    } else {
      var e1, e1' := ScalarSub(e, p.e0), ScalarSub(e', p.e0);
      SubInjective(e, e', p.e0);
      RelationExtract(pk, sw.in1, sw.out0, p.r2, p'.r2, e1, e1');
      RelationExtract(pk, sw.in0, sw.out1, p.r3, p'.r3, e1, e1');
    }
  }

  lemma SubInjective(e: Scalar, e': Scalar, s: Scalar)
    requires e != e'
    ensures ScalarSub(e, s) != ScalarSub(e', s)
  {
    hide Eq;
    var l, r := ScalarSub(e, s), ScalarSub(e', s);
    if l == r {
      EqRefl(s);
      EqAdd(l, e - s, s, s);
      EqAdd(r, e' - s, s, s);
      EqFlip(l + s, e);
      EqTrans(e, l + s, e');
      Canonical(e, e');
    }
  }

  // ---------------------------------------------------------------- what a false statement needs

  /** Some answers to the commitments of `p` pass for the challenge `e`. */
  ghost predicate Answerable(pk: Point, sw: Switch, p: SwitchProof, e: Scalar) {
    exists p' :: SameCommitments(p, p') && SwitchChecks(pk, sw, p', e)
  }

  /** THEOREM.  For outputs that do not re-encrypt the inputs, no commitments can be answered for two challenges; so an
      accepted proof needs the hash of the bytes that fix statement and commitments to be that one scalar. */
  lemma FalseSwitchNeedsOneHash(S: Suite, pk: Point, sw: Switch, p: SwitchProof, ctx: Option<Bytes>, e: Scalar)
    requires !Switches(pk, sw) && Answerable(pk, sw, p, e)
    ensures forall e' :: Answerable(pk, sw, p, e') <==> e' == e
    ensures VerifySwitch(S, pk, sw, p, ctx) ==>
              S.hash(SwitchHashed(S, pk, sw, [p.r0.t1, p.r1.t1, p.r2.t1, p.r3.t1], [p.r0.t2, p.r1.t2, p.r2.t2, p.r3.t2], ctx)) == e
  {
    hide SwitchChecks, SameCommitments, Switches, SwitchHashed;
    var q :| SameCommitments(p, q) && SwitchChecks(pk, sw, q, e);
    forall e' | Answerable(pk, sw, p, e')
      ensures e' == e
    {
      var q' :| SameCommitments(p, q') && SwitchChecks(pk, sw, q', e');
      SameTrans(p, q, q');
      if e' != e { SwitchSpecialSound(pk, sw, q, q', e, e'); }
    }
    SameSelf(p);
    assert SwitchChecks(pk, sw, p, ProofChallenge(S, pk, sw, p, ctx)) ==> Answerable(pk, sw, p, ProofChallenge(S, pk, sw, p, ctx));
  }

  lemma SameSelf(p: SwitchProof)
    ensures SameCommitments(p, p)
  {
  }

  lemma SameTrans(p: SwitchProof, q: SwitchProof, q': SwitchProof)
    requires SameCommitments(p, q) && SameCommitments(p, q')
    ensures SameCommitments(q, q')
  {
  }
}
