/** Threshold decryption: from a finalized epoch and a shuffled deck to the card at a position
    (apps/chain/internal/app/dealer.go, apps/web/src/components/holeCardCrypto.ts). */
module Threshold {
  import opened Zq
  import opened Outcome
  import opened ElGamal
  import opened Primitives
  import opened Transcript
  import opened Sigma
  import opened Lagrange
  import opened Coefficients
  import opened ShuffleFormat
  import opened ShuffleSoundness

  // ---------------------------------------------------------------- secrets behind the public values

  /** The hand share at `x` of the joint polynomial `F`, scaled by the scalar of the hand. */
  ghost function HandShare(F: seq<int>, k: Scalar, x: int): Scalar {
    Mod(k * Eval(F, x))
  }

  /** The secret key of the hand. */
  ghost function HandSecret(F: seq<int>, k: Scalar): Scalar {
    HandShare(F, k, 0)
  }

  /** Scaling a public share of the epoch by the hand scalar gives the public share of the hand. */
  lemma HandPublic(F: seq<int>, k: Scalar, x: int)
    ensures MulPoint(Point(Mod(Eval(F, x))), k) == MulBase(HandShare(F, k, x))
  {
    hide Eq, Eval;
    var y := Eval(F, x);
    MulBaseLog(HandShare(F, k, x));
    EqScale(Mod(y), y, k);
    EqTrans(Mod(Mod(y) * k), Mod(y) * k, y * k);
    SwapFactors(1, y, k);
    SameLog(MulPoint(Point(Mod(y)), k), MulBase(HandShare(F, k, x)), k * y);
  }

  // ---------------------------------------------------------------- Chaum-Pedersen

  datatype ShareProof = ShareProof(a: Point, b: Point, s: Scalar)

  const DOMAIN_SHARE := "ocp/v1/chaum-pedersen-eqdl"

  const SHARE_LABELS := ["y", "c1", "d", "a", "b"]

  /** The bytes hashed for the challenge. */
  function ShareHashed(S: Suite, y: Point, c1: Point, d: Point, a: Point, b: Point): Bytes {
    Hashed(S, DOMAIN_SHARE, ContextMessage(None) + Labelled(S, SHARE_LABELS, [y, c1, d, a, b]))
  }

  function ShareChallenge(S: Suite, y: Point, c1: Point, d: Point, a: Point, b: Point): Scalar {
    S.hash(ShareHashed(S, y, c1, d, a, b))
  }

  /** THEOREM.  The challenge of a share proof is bound to the public share, the card, the share and both commitments. */
  lemma ShareBound(S: Suite, y: Point, c1: Point, d: Point, a: Point, b: Point, y': Point, c1': Point, d': Point, a': Point, b': Point)
    requires S.Canonical() && ShareHashed(S, y, c1, d, a, b) == ShareHashed(S, y', c1', d', a', b')
    ensures y == y' && c1 == c1' && d == d' && a == a' && b == b'
  {
    hide Hashed;
    var ps, ps' := [y, c1, d, a, b], [y', c1', d', a', b'];
    PointsBound(S, DOMAIN_SHARE, None, SHARE_LABELS, ps, DOMAIN_SHARE, None, ps');
    assert ps[0] == ps'[0] && ps[1] == ps'[1] && ps[2] == ps'[2] && ps[3] == ps'[3] && ps[4] == ps'[4];
  }

  /** Nor does a share proof ever hash the bytes of a switch or of another equality proof. */
  lemma DomainsApart(S: Suite, y: Point, c1: Point, d: Point, a: Point, b: Point, domain: string, ms: seq<Message>)
    requires S.Canonical() && AllFit(S, ms) && |domain| <= 64 && domain != DOMAIN_SHARE
    ensures ShareHashed(S, y, c1, d, a, b) != Hashed(S, domain, ms)
  {
    hide Hashed, AllFit;
    var own := Labelled(S, SHARE_LABELS, [y, c1, d, a, b]);
    PointsFit(S, None, own);
    if ShareHashed(S, y, c1, d, a, b) == Hashed(S, domain, ms) {
      HashedInjective(S, DOMAIN_SHARE, ContextMessage(None) + own, domain, ms);
    }
  }

  /** `ChaumPedersenProve` */
  function ProveShare(S: Suite, y: Point, c1: Point, d: Point, x: Scalar, w: Scalar): Result<ShareProof> {
    if w == 0 then Err
    else
      var a, b := MulBase(w), MulPoint(c1, w);
      Ok(ShareProof(a, b, ScalarAdd(w, ScalarMul(ShareChallenge(S, y, c1, d, a, b), x))))
  }

  /** `ChaumPedersenVerify` */
  predicate ShareVerifies(S: Suite, y: Point, c1: Point, d: Point, p: ShareProof) {
    ChallengedShare(y, c1, d, p, ShareChallenge(S, y, c1, d, p.a, p.b))
  }

  predicate ChallengedShare(y: Point, c1: Point, d: Point, p: ShareProof, e: Scalar) {
    Checks(G, y, p.a, e, p.s) && Checks(c1, d, p.b, e, p.s)
  }

  lemma ShareComplete(S: Suite, c1: Point, x: Scalar, w: Scalar)
    requires w != 0
    ensures ProveShare(S, MulBase(x), c1, MulPoint(c1, x), x, w).Ok?
    ensures ShareVerifies(S, MulBase(x), c1, MulPoint(c1, x), ProveShare(S, MulBase(x), c1, MulPoint(c1, x), x, w).value)
  {
    var y, d := MulBase(x), MulPoint(c1, x);
    var e := ShareChallenge(S, y, c1, d, MulBase(w), MulPoint(c1, w));
    HonestChecks(G, y, w, e, x);
    HonestChecks(c1, d, w, e, x);
  }

  /** Two accepting answers to different challenges pin the share: it is the logarithm of `y` times `c1`. */
  lemma ShareSpecialSound(y: Point, c1: Point, d: Point, p: ShareProof, e: Scalar, p': ShareProof, e': Scalar)
    requires e != e' && p.a == p'.a && p.b == p'.b
    requires ChallengedShare(y, c1, d, p, e) && ChallengedShare(y, c1, d, p', e')
    ensures d == MulPoint(c1, y.log)
  {
    hide Checks;
    EqDlogSpecialSound(G, c1, y, d, p.a, p.b, e, p.s, e', p'.s);
    MulBaseLog(Extract(e, p.s, e', p'.s));
  }

  // ---------------------------------------------------------------- combining shares

  datatype Share = Share(index: nat, value: Point)

  function Indices(shares: seq<Share>): (xs: seq<nat>)
    ensures |xs| == |shares| && forall i :: 0 <= i < |shares| ==> xs[i] == shares[i].index
  {
    seq(|shares|, i requires 0 <= i < |shares| => shares[i].index)
  }

  ghost predicate ValidShare(F: seq<int>, k: Scalar, c1: Point, s: Share) {
    s.value == MulPoint(c1, HandShare(F, k, s.index))
  }

  ghost predicate AllValid(F: seq<int>, k: Scalar, c1: Point, shares: seq<Share>) {
    forall i :: 0 <= i < |shares| ==> ValidShare(F, k, c1, shares[i])
  }

  ghost predicate Usable(xs: seq<nat>) { xs != [] && 0 !in xs && Distinct(xs) }

  /** The logarithm of a valid share. */
  lemma ShareLog(F: seq<int>, k: Scalar, c1: Point, x: int)
    ensures Eq(MulPoint(c1, HandShare(F, k, x)).log, c1.log * k * Eval(F, x))
  {
    hide Eq, Eval;
    var y := Eval(F, x);
    EqScale(Mod(k * y), k * y, c1.log);
    EqTrans(Mod(c1.log * Mod(k * y)), c1.log * Mod(k * y), c1.log * (k * y));
    SwapFactors(c1.log, y, k);
  }

  /** One term of the sum in the exponent. */
  lemma CombineStep(c: int, y: int, l: Scalar, p: Point, acc: Point, w: int)
    requires Eq(p.log, c * y) && Eq(acc.log, c * w)
    ensures Eq(PointAdd(acc, MulPoint(p, l)).log, c * (w + l * y))
  {
    hide Eq;
    EqScale(p.log, c * y, l);
    EqTrans(MulPoint(p, l).log, p.log * l, c * y * l);
    SwapFactors(c, y, l);
    AddLog(acc, c * w, MulPoint(p, l), c * (l * y));
    Distribute(c, w, l * y);
  }

  /** The sum of the first `n` shares, weighted by `ls`, in the exponent. */
  ghost function Combined(shares: seq<Share>, ls: seq<Scalar>, n: nat): Point
    requires n <= |shares| == |ls|
  {
    if n == 0 then ZERO else PointAdd(Combined(shares, ls, n - 1), MulPoint(shares[n - 1].value, ls[n - 1]))
  }

  lemma {:induction false} CombinedLog(shares: seq<Share>, ls: seq<Scalar>, n: nat, F: seq<int>, k: Scalar, c1: Point)
    requires n <= |shares| == |ls| && AllValid(F, k, c1, shares)
    ensures var xs: seq<int> := Indices(shares); Eq(Combined(shares, ls, n).log, c1.log * k * Weighted(ls[..n], xs[..n], F))
  {
    hide Eq, Eval, Mod;
    var xs: seq<int> := Indices(shares);
    var c: int := c1.log * k;
    if n == 0 {
      EqRefl(0);
    } else {
      var i := n - 1;
      CombinedLog(shares, ls, i, F, k, c1);
      assert ValidShare(F, k, c1, shares[i]);
      ShareLog(F, k, c1, shares[i].index);
      assert ls[..n][..i] == ls[..i] && xs[..n][..i] == xs[..i];
      CombineStep(c, Eval(F, xs[i]), ls[i], shares[i].value, Combined(shares, ls, i), Weighted(ls[..i], xs[..i], F));
    }
  }

  /** Coefficients that reconstruct take valid shares to the hand secret times the first component. */
  lemma CombinedRight(shares: seq<Share>, ls: seq<Scalar>, F: seq<int>, k: Scalar, c1: Point)
    requires Reconstructs(ls, Indices(shares)) && |ls| == |shares| && |F| <= |shares| && AllValid(F, k, c1, shares)
    ensures Combined(shares, ls, |shares|) == MulPoint(c1, HandSecret(F, k))
  {
    hide Eq, Eval, Mod, Reconstructs, Weighted;
    var xs: seq<int> := Indices(shares);
    CombinedLog(shares, ls, |shares|, F, k, c1);
    assert ls[..|shares|] == ls && xs[..|shares|] == xs;
    CombinedSecret(Combined(shares, ls, |shares|), ls, xs, F, k, c1);
  }

  /** The loop over the shares. */
  method CombineShares(shares: seq<Share>, lambdas: seq<Scalar>) returns (combined: Point)
    requires |lambdas| == |shares|
    ensures combined == Combined(shares, lambdas, |shares|)
  {
    combined := ZERO;
    for i := 0 to |shares|
      invariant combined == Combined(shares, lambdas, i)
    {
      combined := PointAdd(combined, MulPoint(shares[i].value, lambdas[i]));
    }
  }

  lemma ReconstructsLength(ls: seq<int>, xs: seq<int>)
    requires Reconstructs(ls, xs)
    ensures |ls| == |xs|
  {
  }

  lemma CombinedSecret(p: Point, ls: seq<int>, xs: seq<int>, F: seq<int>, k: Scalar, c1: Point)
    requires Reconstructs(ls, xs) && |F| <= |xs| && Eq(p.log, c1.log * k * Weighted(ls, xs, F))
    ensures p == MulPoint(c1, HandSecret(F, k))
  {
    hide Eq, Eval, Weighted;
    EqScale(Weighted(ls, xs, F), Eval(F, 0), c1.log * k);
    EqTrans(p.log, c1.log * k * Weighted(ls, xs, F), c1.log * k * Eval(F, 0));
    ShareLog(F, k, c1, 0);
    SameLog(p, MulPoint(c1, HandSecret(F, k)), c1.log * k * Eval(F, 0));
  }

  // ---------------------------------------------------------------- cards

  const DECK := 52

  /** `cardPoint` */
  function CardPoint(c: nat): Point { MulBase(Mod(c + 1)) }

  /** The first card from `c` on whose point is `p`. */
  ghost function FirstCard(p: Point, c: nat, n: nat): Result<nat>
    decreases n - c
  {
    if c >= n then Err else if p == CardPoint(c) then Ok(c) else FirstCard(p, c + 1, n)
  }

  lemma {:induction false} FirstCardIs(p: Point, c: nat, n: nat)
    ensures var r := FirstCard(p, c, n);
      && (r.Ok? ==> c <= r.value < n && p == CardPoint(r.value))
      && (r.Err? ==> forall b: nat :: c <= b < n ==> p != CardPoint(b))
    decreases n - c
  {
    if c < n && p != CardPoint(c) { FirstCardIs(p, c + 1, n); }
  }

  /** `pointToCardID` */
  method CardOf(p: Point, deckSize: int) returns (r: Result<nat>)
    ensures r == FirstCard(p, 0, if 0 < deckSize <= DECK then deckSize else DECK)
  {
    var n := if deckSize <= 0 || deckSize > DECK then DECK else deckSize;
    for c := 0 to n
      invariant FirstCard(p, c, n) == FirstCard(p, 0, n)
    {
      if p == CardPoint(c) {
        return Ok(c);
      }
    }
    r := Err;
  }

  /** In a group with more than 52 elements different cards have different points. */
  lemma CardPointsDiffer(a: nat, b: nat)
    requires Q > DECK && a < DECK && b < DECK && CardPoint(a) == CardPoint(b)
    ensures a == b
  {
    hide Eq;
    MulBaseLog(Mod(a + 1));
    MulBaseLog(Mod(b + 1));
    var x: Scalar, y: Scalar := a + 1, b + 1;
    EqRefl(x);
    EqRefl(y);
    Canonical(Mod(x), x);
    Canonical(Mod(y), y);
  }

  // ---------------------------------------------------------------- choosing shares

  ghost predicate ByIndex(s: seq<Share>) {
    forall i, j :: 0 <= i < j < |s| ==> s[i].index <= s[j].index
  }

  method InsertByIndex(s: seq<Share>, x: Share) returns (r: seq<Share>)
    requires ByIndex(s)
    ensures ByIndex(r) && multiset(r) == multiset(s) + multiset{x} && |r| == |s| + 1
    ensures exists k :: 0 <= k <= |s| && r == s[..k] + [x] + s[k..]
    ensures (forall i :: 0 <= i < |s| ==> s[i].index <= x.index) ==> r == s + [x]
  {
    hide ByIndex;
    var k := 0;
    while k < |s| && s[k].index <= x.index
      invariant 0 <= k <= |s|
      invariant forall i :: 0 <= i < k ==> s[i].index <= x.index
    {
      k := k + 1;
    }
    r := s[..k] + [x] + s[k..];
    assert s == s[..k] + s[k..];
    InsertSorted(s, x, k);
  }

  lemma InsertSorted(s: seq<Share>, x: Share, k: nat)
    requires ByIndex(s) && k <= |s| && (forall i :: 0 <= i < k ==> s[i].index <= x.index) && (k < |s| ==> x.index <= s[k].index)
    ensures ByIndex(s[..k] + [x] + s[k..])
  {
    var r := s[..k] + [x] + s[k..];
    forall i, j | 0 <= i < j < |r|
      ensures r[i].index <= r[j].index
    {
      assert r[i] == if i < k then s[i] else if i == k then x else s[i - 1];
      assert r[j] == if j < k then s[j] else if j == k then x else s[j - 1];
    }
  }

  ghost predicate DistinctShares(s: seq<Share>) {
    forall i, j :: 0 <= i < j < |s| ==> !Eq(s[i].index, s[j].index)
  }

  /** The shares in the order of their indices. */
  method SortByIndex(s: seq<Share>) returns (r: seq<Share>)
    ensures ByIndex(r) && multiset(r) == multiset(s) && |r| == |s|
    ensures DistinctShares(s) ==> DistinctShares(r)
    ensures ByIndex(s) ==> r == s
  {
    hide Eq, DistinctShares, ByIndex;
    SortedEmpty();
    r := [];
    for n := 0 to |s|
      invariant ByIndex(r) && multiset(r) == multiset(s[..n]) && |r| == n
      invariant DistinctShares(s) ==> DistinctShares(r)
      invariant ByIndex(s) ==> r == s[..n]
    {
      var before := r;
      r := InsertByIndex(before, s[n]);
      assert s[..n + 1] == s[..n] + [s[n]];
      if DistinctShares(s) {
        NewApart(s, n, before);
        InsertDistinct(before, s[n], r);
      }
      if ByIndex(s) { NoneAfter(s, n); }
    }
    assert s[..|s|] == s;
  }

  lemma SortedEmpty()
    ensures ByIndex([]) && DistinctShares([])
  {
  }

  /** The next share differs from those already sorted. */
  lemma NewApart(s: seq<Share>, n: nat, before: seq<Share>)
    requires n < |s| && DistinctShares(s) && multiset(before) == multiset(s[..n])
    ensures forall i :: 0 <= i < |before| ==> !Eq(before[i].index, s[n].index)
  {
    hide Eq;
    forall i | 0 <= i < |before|
      ensures !Eq(before[i].index, s[n].index)
    {
      assert before[i] in multiset(s[..n]);
      var j :| 0 <= j < n && s[j] == before[i];
    }
  }

  lemma NoneAfter(s: seq<Share>, n: nat)
    requires n < |s| && ByIndex(s)
    ensures forall i :: 0 <= i < n ==> s[..n][i].index <= s[n].index
  {
  }

  lemma InsertDistinct(s: seq<Share>, x: Share, r: seq<Share>)
    requires DistinctShares(s) && (forall i :: 0 <= i < |s| ==> !Eq(s[i].index, x.index))
    requires exists k :: 0 <= k <= |s| && r == s[..k] + [x] + s[k..]
    ensures DistinctShares(r)
  {
    hide Eq;
    var k :| 0 <= k <= |s| && r == s[..k] + [x] + s[k..];
    forall i, j | 0 <= i < j < |r|
      ensures !Eq(r[i].index, r[j].index)
    {
      EqFlip(r[i].index, r[j].index);
      var a, b := if i < k then i else i - 1, if j < k then j else j - 1;
      assert i != k ==> r[i] == s[a];
      assert j != k ==> r[j] == s[b];
    }
  }

  // ---------------------------------------------------------------- reveal

  /** What a reveal of `ct` must answer: the card behind the plaintext, or an error when there is none. */
  ghost predicate IsCardOf(r: Result<nat>, m: Point, deckSize: nat) {
    && (r.Ok? ==> r.value < deckSize && m == CardPoint(r.value))
    && (r.Err? ==> forall c: nat :: c < deckSize ==> m != CardPoint(c))
  }

  ghost predicate Sound(F: seq<int>, k: Scalar, c1: Point, shares: seq<Share>, t: nat) {
    && 0 < t && |F| <= t && AllValid(F, k, c1, shares)
    && DistinctShares(shares) && forall i :: 0 <= i < |shares| ==> shares[i].index != 0
  }

  /** The Lagrange coefficients at zero of the indices, as scalars. */
  ghost function Weights(xs: seq<int>): (ls: seq<Scalar>)
    ensures |ls| == |xs|
  {
    seq(|xs|, i requires 0 <= i < |xs| => Mod(Lam(xs, xs[i])))
  }

  /** Scalars with the defining property of the coefficients are the coefficients. */
  lemma WeightsUnique(xs: seq<int>, ls: seq<Scalar>)
    requires Distinct(xs) && |ls| == |xs| && forall i :: 0 <= i < |xs| ==> Eq(ls[i] * Den(xs, xs[i]), Num(xs, xs[i]))
    ensures ls == Weights(xs)
  {
    hide Eq, Lam, Mod, Distinct;
    forall i | 0 <= i < |xs|
      ensures ls[i] == Mod(Lam(xs, xs[i]))
    {
      WeightUnique(xs, xs[i], ls[i]);
    }
  }

  lemma WeightUnique(xs: seq<int>, x: int, l: Scalar)
    requires Distinct(xs) && x in xs && Eq(l * Den(xs, x), Num(xs, x))
    ensures l == Mod(Lam(xs, x))
  {
    hide Eq, Lam;
    DistinctApart(xs, x);
    DenNonzero(xs, x);
    LamSpec(xs, x);
    EqVia(l * Den(xs, x), Lam(xs, x) * Den(xs, x), Num(xs, x));
    Cancel(l, Lam(xs, x), Den(xs, x));
    EqVia(l, Mod(Lam(xs, x)), Lam(xs, x));
    Canonical(l, Mod(Lam(xs, x)));
  }

  lemma WeightsReconstruct(xs: seq<int>)
    requires Distinct(xs) && xs != []
    ensures Reconstructs(Weights(xs), xs)
  {
    hide Eq, Lam, Reconstructs;
    forall i | 0 <= i < |xs|
      ensures Eq(Weights(xs)[i] * Den(xs, xs[i]), Num(xs, xs[i]))
    {
      DistinctApart(xs, xs[i]);
      LamSpec(xs, xs[i]);
      EqScale(Mod(Lam(xs, xs[i])), Lam(xs, xs[i]), Den(xs, xs[i]));
      EqTrans(Weights(xs)[i] * Den(xs, xs[i]), Lam(xs, xs[i]) * Den(xs, xs[i]), Num(xs, xs[i]));
    }
    QuotientsReconstruct(Weights(xs), xs);
  }

  /** What `dealerFinalizeReveal` makes of shares in index order: the first `t` of them, combined. */
  ghost function RevealedCard(shares: seq<Share>, t: nat, ct: Ciphertext, deckSize: nat): Result<nat> {
    if |shares| < t || !Usable(Indices(shares[..t])) then Err
    else
      var chosen := shares[..t];
      FirstCard(PointSub(ct.c2, Combined(chosen, Weights(Indices(chosen)), t)), 0, deckSize)
  }

  /** THEOREM.  Whichever valid shares there are, and whichever of them come first, the card revealed is the one the
      ciphertext decrypts to under the secret of the hand. */
  lemma RevealedRight(shares: seq<Share>, t: nat, ct: Ciphertext, deckSize: nat, F: seq<int>, k: Scalar)
    requires |shares| >= t && Sound(F, k, ct.c1, shares, t)
    ensures IsCardOf(RevealedCard(shares, t, ct, deckSize), Decrypt(HandSecret(F, k), ct), deckSize)
  {
    hide Eq, Lam, Eval, Reconstructs, Weights;
    var chosen := shares[..t];
    ChosenSound(shares, shares, t, F, k, ct.c1);
    WeightsReconstruct(Indices(chosen));
    CombinedRight(chosen, Weights(Indices(chosen)), F, k, ct.c1);
    FirstCardIs(Decrypt(HandSecret(F, k), ct), 0, deckSize);
  }

  /** The decision part of `dealerFinalizeReveal`: sort by index, take the threshold, weigh, combine, look up. */
  method RevealCard(shares: seq<Share>, t: nat, ct: Ciphertext, deckSize: nat) returns (r: Result<nat>, ghost sorted: seq<Share>)
    requires 2 <= deckSize <= DECK
    ensures ByIndex(sorted) && multiset(sorted) == multiset(shares) && (ByIndex(shares) ==> sorted == shares)
    ensures r == RevealedCard(sorted, t, ct, deckSize)
    ensures forall F, k :: |shares| >= t && Sound(F, k, ct.c1, shares, t) ==> IsCardOf(r, Decrypt(HandSecret(F, k), ct), deckSize)
  {
    hide Eq, Lam, Reconstructs, Weights, RevealedCard, Sound, DistinctShares, IsCardOf, Decrypt, HandSecret;
    var s := SortByIndex(shares);
    sorted := s;
    forall F, k | |shares| >= t && Sound(F, k, ct.c1, shares, t)
      ensures IsCardOf(RevealedCard(s, t, ct, deckSize), Decrypt(HandSecret(F, k), ct), deckSize)
    {
      SortedSound(shares, s, t, F, k, ct.c1);
      RevealedRight(s, t, ct, deckSize, F, k);
    }
    r := CardFrom(s, t, ct, deckSize);
  }

  /** The order of valid shares does not matter. */
  lemma SortedSound(shares: seq<Share>, sorted: seq<Share>, t: nat, F: seq<int>, k: Scalar, c1: Point)
    requires Sound(F, k, c1, shares, t) && multiset(sorted) == multiset(shares) && (DistinctShares(shares) ==> DistinctShares(sorted))
    ensures Sound(F, k, c1, sorted, t)
  {
    hide Eq, ValidShare, DistinctShares;
    forall i | 0 <= i < |sorted|
      ensures ValidShare(F, k, c1, sorted[i]) && sorted[i].index != 0
    {
      assert sorted[i] in multiset(shares);
      var j :| 0 <= j < |shares| && shares[j] == sorted[i];
    }
  }

  /** Weigh the first `t` shares, combine them and look the card up. */
  method CardFrom(s: seq<Share>, t: nat, ct: Ciphertext, deckSize: nat) returns (r: Result<nat>)
    requires 2 <= deckSize <= DECK
    ensures r == RevealedCard(s, t, ct, deckSize)
  {
    hide Eq, Lam, Reconstructs, Weights;
    if |s| < t {
      return Err;
    }
    var chosen := s[..t];
    var lambdas := LagrangeAtZero(Indices(chosen));
    if lambdas.Err? {
      return Err;
    }
    WeightsUnique(Indices(chosen), lambdas.value);
    var combined := CombineShares(chosen, lambdas.value);
    r := CardOf(PointSub(ct.c2, combined), deckSize);
  }

  lemma ChosenSound(shares: seq<Share>, sorted: seq<Share>, t: nat, F: seq<int>, k: Scalar, c1: Point)
    requires Sound(F, k, c1, shares, t) && multiset(sorted) == multiset(shares) && DistinctShares(sorted) && t <= |sorted|
    ensures AllValid(F, k, c1, sorted[..t]) && Usable(Indices(sorted[..t]))
  {
    hide Eq, ValidShare;
    forall i | 0 <= i < t
      ensures ValidShare(F, k, c1, sorted[i]) && sorted[i].index != 0
    {
      assert sorted[i] in multiset(shares);
      var j :| 0 <= j < |shares| && shares[j] == sorted[i];
    }
  }

  // ---------------------------------------------------------------- hole cards

  /** `recoverCard`: with at least as many valid shares as the polynomial has coefficients, a player sees the card
      the ciphertext decrypts to. */
  method RecoverCard(ct: Ciphertext, shares: seq<Share>, ghost F: seq<int>, ghost k: Scalar) returns (r: Result<nat>)
    ensures shares == [] ==> r.Err?
    ensures shares != [] && |F| <= |shares| && AllValid(F, k, ct.c1, shares) && Usable(Indices(shares)) ==>
              IsCardOf(r, Decrypt(HandSecret(F, k), ct), DECK)
  {
    hide Eq, Eval, Mod, Reconstructs;
    if |shares| == 0 {
      return Err;
    }
    var coeffs := LagrangeCoefficients(Indices(shares));
    if coeffs.Err? {
      return Err;
    }
    ReconstructsLength(coeffs.value, Indices(shares));
    var D := CombineShares(shares, coeffs.value);
    r := CardOf(PointSub(ct.c2, D), DECK);
    if |F| <= |shares| && AllValid(F, k, ct.c1, shares) {
      CombinedRight(shares, coeffs.value, F, k, ct.c1);
    }
    FirstCardIs(PointSub(ct.c2, D), 0, DECK);
  }

  // ---------------------------------------------------------------- from the fresh deck to distinct cards

  ghost function FreshCards(n: nat): (m: seq<Point>)
    ensures |m| == n && forall i :: 0 <= i < n ==> m[i] == CardPoint(i)
  {
    seq(n, (i: nat) => CardPoint(i))
  }

  /** The deck `dealerInitHand` encrypts, with the scalars it derives passed in. */
  method InitDeck(pkHand: Point, n: nat, rs: seq<Scalar>, ghost sk: Scalar) returns (deck: seq<Ciphertext>)
    requires |rs| == n
    ensures |deck| == n && (pkHand == MulBase(sk) ==> Plaintexts(sk, deck) == FreshCards(n))
  {
    deck := [];
    for i := 0 to n
      invariant |deck| == i
      invariant pkHand == MulBase(sk) ==> forall j :: 0 <= j < i ==> Decrypt(sk, deck[j]) == CardPoint(j)
    {
      DecryptEncrypt(sk, CardPoint(i), rs[i]);
      deck := deck + [Encrypt(pkHand, CardPoint(i), rs[i])];
    }
  }

  /** `next` is the output of an accepted shuffle of `cur` whose inner proofs can be extracted. */
  ghost predicate Shuffled(S: Suite, sk: Scalar, cur: seq<Ciphertext>, next: seq<Ciphertext>, b: Bytes, ctx: Option<Bytes>) {
    && Accepts(S, MulBase(sk), cur, b, ctx)
    && (var (n, rounds, h) := ParseHeader(b, ctx).value; ProofForks(S, MulBase(sk), cur, b, h, rounds, ctx))
    && next == DeckOut(S, cur, b, ctx)
  }

  ghost predicate ShuffleStep(S: Suite, sk: Scalar, cur: seq<Ciphertext>, next: seq<Ciphertext>) {
    exists b: Bytes, ctx: Option<Bytes> :: Shuffled(S, sk, cur, next, b, ctx)
  }

  /** A chain of shuffles from the first deck to the last. */
  ghost predicate ShuffleChain(S: Suite, sk: Scalar, decks: seq<seq<Ciphertext>>) {
    decks != [] && forall i, j :: 0 <= i && j == i + 1 && j < |decks| ==> ShuffleStep(S, sk, decks[i], decks[j])
  }

  lemma {:induction false} ChainKeepsCards(S: Suite, sk: Scalar, decks: seq<seq<Ciphertext>>)
    requires ShuffleChain(S, sk, decks)
    ensures multiset(Plaintexts(sk, decks[|decks| - 1])) == multiset(Plaintexts(sk, decks[0]))
  {
    hide Accepts, ProofForks, ParseHeader, MulBase, DeckOut, Decrypt;
    if |decks| > 1 {
      var n := |decks| - 1;
      var front := decks[..n];
      assert forall i :: 0 <= i < n ==> front[i] == decks[i];
      ChainKeepsCards(S, sk, front);
      assert ShuffleStep(S, sk, decks[n - 1], decks[n]);
      var b: Bytes, ctx: Option<Bytes> :| Shuffled(S, sk, decks[n - 1], decks[n], b, ctx);
      AcceptedShufflePermutes(S, sk, decks[n - 1], b, ctx);
    }
  }

  /** A permutation of the fresh cards holds a card at every position and no card twice. */
  lemma PermutedCards(ms: seq<Point>, n: nat)
    requires Q > DECK && n <= DECK && multiset(ms) == multiset(FreshCards(n))
    ensures |ms| == n
    ensures forall i :: 0 <= i < n ==> exists c: nat :: c < n && ms[i] == CardPoint(c)
    ensures forall i, j :: 0 <= i < j < n ==> ms[i] != ms[j]
  {
    hide CardPoint;
    var cards := FreshCards(n);
    assert |multiset(ms)| == |ms| && |multiset(cards)| == |cards|;
    forall i | 0 <= i < n
      ensures exists c: nat :: c < n && ms[i] == CardPoint(c)
    {
      assert ms[i] in multiset(cards);
      var c :| 0 <= c < n && cards[c] == ms[i];
    }
    forall i, j | 0 <= i < j < n
      ensures ms[i] != ms[j]
    {
      if ms[i] == ms[j] {
        AppearsTwice(ms, i, j);
        AppearsOnce(cards, ms[i]);
      }
    }
  }

  lemma AppearsTwice(ms: seq<Point>, i: nat, j: nat)
    requires i < j < |ms| && ms[i] == ms[j]
    ensures multiset(ms)[ms[i]] >= 2
  {
    assert ms == ms[..j] + [ms[j]] + ms[j + 1..];
    assert ms[..j][i] == ms[i];
    assert ms[i] in multiset(ms[..j]);
  }

  lemma AppearsOnce(cards: seq<Point>, p: Point)
    requires Q > DECK && |cards| <= DECK && (forall i :: 0 <= i < |cards| ==> cards[i] == CardPoint(i))
    ensures multiset(cards)[p] <= 1
  {
    hide CardPoint;
    if p in cards {
      var c :| 0 <= c < |cards| && cards[c] == p;
      assert cards == cards[..c] + [p] + cards[c + 1..];
      forall i | 0 <= i < |cards| && i != c
        ensures cards[i] != p
      {
        if cards[i] == p { CardPointsDiffer(i, c); }
      }
      assert p !in cards[..c] && p !in cards[c + 1..];
    }
  }

  /** THEOREM.  After any chain of accepted and extractable shuffles of the fresh deck, two positions opened with
      any two sets of valid shares give two different cards. */
  lemma RevealedCardsDiffer(S: Suite, F: seq<int>, k: Scalar, decks: seq<seq<Ciphertext>>, n: nat, i: nat, j: nat, r: Result<nat>, r': Result<nat>)
    requires Q > DECK && n <= DECK && ShuffleChain(S, HandSecret(F, k), decks)
    requires Plaintexts(HandSecret(F, k), decks[0]) == FreshCards(n)
    requires i < j < |decks[|decks| - 1]|
    requires IsCardOf(r, Decrypt(HandSecret(F, k), decks[|decks| - 1][i]), n)
    requires IsCardOf(r', Decrypt(HandSecret(F, k), decks[|decks| - 1][j]), n)
    ensures |decks[|decks| - 1]| == n && r.Ok? && r'.Ok? && r.value < n && r'.value < n && r.value != r'.value
  {
    hide Decrypt, ShuffleStep, CardPoint;
    var sk, last := HandSecret(F, k), decks[|decks| - 1];
    ChainKeepsCards(S, sk, decks);
    var ms := Plaintexts(sk, last);
    PermutedCards(ms, n);
    assert ms[i] != ms[j];
    assert exists c: nat :: c < n && ms[i] == CardPoint(c);
    assert exists c: nat :: c < n && ms[j] == CardPoint(c);
  }
}
