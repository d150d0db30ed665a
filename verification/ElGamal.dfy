/** ElGamal in additive notation (packages/ocp-crypto/src/elgamal.ts, packages/ocp-shuffle/src/elgamal.ts). */
module ElGamal {
  import opened Zq

  datatype Ciphertext = Ciphertext(c1: Point, c2: Point)

  function Encrypt(pk: Point, m: Point, r: Scalar): Ciphertext {
    Ciphertext(MulBase(r), PointAdd(m, MulPoint(pk, r)))
  }

  function Decrypt(sk: Scalar, ct: Ciphertext): Point {
    PointSub(ct.c2, MulPoint(ct.c1, sk))
  }

  function Reencrypt(pk: Point, ct: Ciphertext, rho: Scalar): Ciphertext {
    Ciphertext(PointAdd(ct.c1, MulBase(rho)), PointAdd(ct.c2, MulPoint(pk, rho)))
  }

  /** `b` is a re-encryption of `a`. */
  ghost predicate Reencrypts(pk: Point, a: Ciphertext, b: Ciphertext) {
    exists rho: Scalar :: b == Reencrypt(pk, a, rho)
  }

  /** The logarithm of the plaintext, up to congruence. */
  lemma DecryptLog(sk: Scalar, ct: Ciphertext)
    ensures Eq(Decrypt(sk, ct).log, ct.c2.log - ct.c1.log * sk)
  {
    hide Eq;
    EqRefl(ct.c2.log);
    EqSub(ct.c2.log, ct.c2.log, Mod(ct.c1.log * sk), ct.c1.log * sk);
    EqTrans(Decrypt(sk, ct).log, ct.c2.log - Mod(ct.c1.log * sk), ct.c2.log - ct.c1.log * sk);
  }

  lemma SameLog(p: Point, q: Point, x: int)
    requires Eq(p.log, x) && Eq(q.log, x)
    ensures p == q
  {
    hide Eq;
    EqVia(p.log, q.log, x);
    Canonical(p.log, q.log);
  }

  lemma AddLog(p: Point, s: int, q: Point, x: int)
    requires Eq(p.log, s) && Eq(q.log, x)
    ensures Eq(PointAdd(p, q).log, s + x)
  {
    hide Eq;
    EqAdd(p.log, s, q.log, x);
    EqTrans(PointAdd(p, q).log, p.log + q.log, s + x);
  }

  /** Decryption inverts encryption. */
  lemma DecryptEncrypt(sk: Scalar, m: Point, r: Scalar)
    ensures Decrypt(sk, Encrypt(MulBase(sk), m, r)) == m
  {
    hide Eq;
    MulBaseLog(sk);
    MulBaseLog(r);
    var ct := Encrypt(MulBase(sk), m, r);
    DecryptLog(sk, ct);
    EqRefl(m.log);
    AddLog(m, m.log, MulPoint(Point(sk), r), sk * r);
    EqRefl(r * sk);
    EqSub(ct.c2.log, m.log + sk * r, r * sk, r * sk);
    SwapFactors(1, sk, r);
    EqTrans(Decrypt(sk, ct).log, ct.c2.log - r * sk, m.log);
    SameLog(Decrypt(sk, ct), m, m.log);
  }

  /** Re-encryption under the matching public key keeps the plaintext. */
  lemma DecryptReencrypt(sk: Scalar, ct: Ciphertext, rho: Scalar)
    ensures Decrypt(sk, Reencrypt(MulBase(sk), ct, rho)) == Decrypt(sk, ct)
  {
    hide Eq;
    MulBaseLog(sk);
    MulBaseLog(rho);
    var out := Reencrypt(MulBase(sk), ct, rho);
    var a: int, b: int := ct.c1.log, ct.c2.log;
    DecryptLog(sk, ct);
    DecryptLog(sk, out);
    EqRefl(a);
    EqRefl(b);
    EqRefl(rho);
    AddLog(ct.c1, a, Point(rho), rho);
    AddLog(ct.c2, b, MulPoint(Point(sk), rho), sk * rho);
    EqScale(out.c1.log, a + rho, sk);
    EqSub(out.c2.log, b + sk * rho, out.c1.log * sk, (a + rho) * sk);
    Distribute(sk, a, rho);
    SwapFactors(1, sk, a + rho);
    SwapFactors(1, sk, a);
    EqTrans(Decrypt(sk, out).log, out.c2.log - out.c1.log * sk, b - a * sk);
    SameLog(Decrypt(sk, out), Decrypt(sk, ct), b - a * sk);
  }

  lemma ReencryptsSameSecret(sk: Scalar, a: Ciphertext, b: Ciphertext)
    requires Reencrypts(MulBase(sk), a, b)
    ensures Decrypt(sk, a) == Decrypt(sk, b)
  {
    var rho: Scalar :| b == Reencrypt(MulBase(sk), a, rho);
    DecryptReencrypt(sk, a, rho);
  }

  lemma PointAddAssoc(p: Point, q: Point, r: Point, s: int)
    requires Eq(s, q.log + r.log)
    ensures PointAdd(PointAdd(p, q), r) == Point(Mod(p.log + s))
  {
    hide Eq;
    EqRefl(p.log);
    EqRefl(r.log);
    EqRefl(q.log);
    AddLog(p, p.log, q, q.log);
    AddLog(PointAdd(p, q), p.log + q.log, r, r.log);
    EqAdd(p.log, p.log, s, q.log + r.log);
    EqTrans(Mod(p.log + s), p.log + s, p.log + (q.log + r.log));
    SameLog(PointAdd(PointAdd(p, q), r), Point(Mod(p.log + s)), p.log + q.log + r.log);
  }

  /** Two successive re-encryptions are one. */
  lemma ReencryptTwice(pk: Point, ct: Ciphertext, rho: Scalar, rho': Scalar)
    ensures Reencrypt(pk, Reencrypt(pk, ct, rho), rho') == Reencrypt(pk, ct, ScalarAdd(rho, rho'))
  {
    hide Eq;
    var s := ScalarAdd(rho, rho');
    MulBaseLog(rho);
    MulBaseLog(rho');
    MulBaseLog(s);
    PointAddAssoc(ct.c1, MulBase(rho), MulBase(rho'), s);
    var p: int := pk.log;
    EqScale(s, rho + rho', p);
    Distribute(p, rho, rho');
    EqAdd(Mod(p * rho), p * rho, Mod(p * rho'), p * rho');
    EqTrans(Mod(p * s), p * s, p * (rho + rho'));
    EqVia(Mod(p * s), Mod(p * rho) + Mod(p * rho'), p * rho + p * rho');
    PointAddAssoc(ct.c2, MulPoint(pk, rho), MulPoint(pk, rho'), Mod(p * s));
  }

  lemma ReencryptsTrans(pk: Point, a: Ciphertext, b: Ciphertext, c: Ciphertext)
    requires Reencrypts(pk, a, b) && Reencrypts(pk, b, c)
    ensures Reencrypts(pk, a, c)
  {
    var rho: Scalar :| b == Reencrypt(pk, a, rho);
    var rho': Scalar :| c == Reencrypt(pk, b, rho');
    ReencryptTwice(pk, a, rho, rho');
  }

  lemma ReencryptsRefl(pk: Point, a: Ciphertext)
    ensures Reencrypts(pk, a, a)
  {
    hide Eq;
    MulBaseLog(0);
    EqRefl(0);
    EqRefl(a.c1.log);
    EqRefl(a.c2.log);
    AddLog(a.c1, a.c1.log, MulBase(0), 0);
    SameLog(PointAdd(a.c1, MulBase(0)), a.c1, a.c1.log);
    AddLog(a.c2, a.c2.log, MulPoint(pk, 0), 0);
    SameLog(PointAdd(a.c2, MulPoint(pk, 0)), a.c2, a.c2.log);
    assert a == Reencrypt(pk, a, 0);
  }
}
