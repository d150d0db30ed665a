/** What an accepted shuffle proof guarantees: if each inner proof can be extracted, the plaintexts of
    the output deck are a permutation of the plaintexts of the input deck. */
module ShuffleSoundness {
  import opened Zq
  import opened Outcome
  import opened ElGamal
  import opened Primitives
  import opened Sigma
  import opened Network
  import opened ShuffleFormat

  ghost function Plaintexts(sk: Scalar, deck: seq<Ciphertext>): (m: seq<Point>)
    ensures |m| == |deck|
    ensures forall i :: 0 <= i < |deck| ==> m[i] == Decrypt(sk, deck[i])
  {
    seq(|deck|, i requires 0 <= i < |deck| => Decrypt(sk, deck[i]))
  }

  // ---------------------------------------------------------------- exchanging neighbours

  /** Within each comparison of the round the two values stay or swap; other values stay. */
  ghost predicate NeighboursExchanged<T>(p: seq<T>, q: seq<T>, round: nat) {
    && |p| == |q|
    && (forall i :: 0 <= i < |p| && Left(|p|, round, i) ==>
          (q[i] == p[i] && q[i + 1] == p[i + 1]) || (q[i] == p[i + 1] && q[i + 1] == p[i]))
    && (forall i :: 0 <= i < |p| && !Left(|p|, round, i) && !Left(|p|, round, i - 1) ==> q[i] == p[i])
  }

  lemma ExtendByTwo<T>(p: seq<T>, q: seq<T>, j: nat)
    requires 2 <= j <= |p| == |q| && multiset(p[..j-2]) == multiset(q[..j-2])
    requires (q[j-2] == p[j-2] && q[j-1] == p[j-1]) || (q[j-2] == p[j-1] && q[j-1] == p[j-2])
    ensures multiset(p[..j]) == multiset(q[..j])
  {
    assert p[..j] == p[..j-2] + [p[j-2], p[j-1]];
    assert q[..j] == q[..j-2] + [q[j-2], q[j-1]];
  }

  lemma ExtendByOne<T>(p: seq<T>, q: seq<T>, j: nat)
    requires 1 <= j <= |p| == |q| && multiset(p[..j-1]) == multiset(q[..j-1]) && p[j-1] == q[j-1]
    ensures multiset(p[..j]) == multiset(q[..j])
  {
    assert p[..j] == p[..j-1] + [p[j-1]];
    assert q[..j] == q[..j-1] + [q[j-1]];
  }

  lemma {:induction false} ExchangeKeepsPrefix<T>(p: seq<T>, q: seq<T>, round: nat, j: nat)
    requires NeighboursExchanged(p, q, round) && j <= |p| && !Left(|p|, round, j - 1)
    ensures multiset(p[..j]) == multiset(q[..j])
  {
    if j > 0 {
      if Left(|p|, round, j - 2) {
        ExchangeKeepsPrefix(p, q, round, j - 2);
        ExtendByTwo(p, q, j);
      } else {
        ExchangeKeepsPrefix(p, q, round, j - 1);
        ExtendByOne(p, q, j);
      }
    }
  }

  lemma ExchangeKeepsMultiset<T>(p: seq<T>, q: seq<T>, round: nat)
    requires NeighboursExchanged(p, q, round)
    ensures multiset(p) == multiset(q)
  {
    ExchangeKeepsPrefix(p, q, round, |p|);
    assert p[..|p|] == p && q[..|q|] == q;
  }

  // ---------------------------------------------------------------- witnesses

  /** The claims of one round: every pair is switched or not, every single re-encrypted. */
  ghost predicate RoundWitnessed(pk: Point, cur: seq<Ciphertext>, next: seq<Ciphertext>, round: nat) {
    && 2 <= |cur| == |next|
    && (forall k :: 0 <= k < Pairs(|cur|, round) ==> Switches(pk, SwitchOf(cur, next, PairAt(round, k))))
    && (forall k :: 0 <= k < Singles(|cur|, round) ==>
          Reencrypts(pk, cur[SingleAt(|cur|, round, k)], next[SingleAt(|cur|, round, k)]))
  }

  lemma RoundKeepsPlaintexts(sk: Scalar, cur: seq<Ciphertext>, next: seq<Ciphertext>, round: nat)
    requires RoundWitnessed(MulBase(sk), cur, next, round)
    ensures multiset(Plaintexts(sk, cur)) == multiset(Plaintexts(sk, next))
  {
    hide Reencrypts, Decrypt, MulBase;
    var p, q := Plaintexts(sk, cur), Plaintexts(sk, next);
    forall i | 0 <= i < |p| && Left(|p|, round, i)
      ensures (q[i] == p[i] && q[i + 1] == p[i + 1]) || (q[i] == p[i + 1] && q[i + 1] == p[i])
    {
      EveryPositionOnce(|cur|, round, i);
      var k :| 0 <= k < Pairs(|cur|, round) && PairAt(round, k) == i;
      SwitchKeepsPlaintexts(sk, SwitchOf(cur, next, PairAt(round, k)));
    }
    forall i | 0 <= i < |p| && !Left(|p|, round, i) && !Left(|p|, round, i - 1)
      ensures q[i] == p[i]
    {
      EveryPositionOnce(|cur|, round, i);
      var k :| 0 <= k < Singles(|cur|, round) && SingleAt(|cur|, round, k) == i;
      ReencryptsSameSecret(sk, cur[SingleAt(|cur|, round, k)], next[SingleAt(|cur|, round, k)]);
    }
    ExchangeKeepsMultiset(p, q, round);
  }

  lemma SwitchKeepsPlaintexts(sk: Scalar, sw: Switch)
    requires Switches(MulBase(sk), sw)
    ensures || (Decrypt(sk, sw.out0) == Decrypt(sk, sw.in0) && Decrypt(sk, sw.out1) == Decrypt(sk, sw.in1))
            || (Decrypt(sk, sw.out0) == Decrypt(sk, sw.in1) && Decrypt(sk, sw.out1) == Decrypt(sk, sw.in0))
  {
    hide Reencrypts, Decrypt;
    if Reencrypts(MulBase(sk), sw.in0, sw.out0) && Reencrypts(MulBase(sk), sw.in1, sw.out1) {
      ReencryptsSameSecret(sk, sw.in0, sw.out0);
      ReencryptsSameSecret(sk, sw.in1, sw.out1);
    } else {
      ReencryptsSameSecret(sk, sw.in1, sw.out0);
      ReencryptsSameSecret(sk, sw.in0, sw.out1);
    }
  }

  // ---------------------------------------------------------------- extraction

  /** A second accepting transcript with the same commitments and another challenge exists. */
  ghost predicate SwitchForks(S: Suite, pk: Point, sw: Switch, p: SwitchProof, ctx: Option<Bytes>) {
    exists p': SwitchProof, e': Scalar ::
      SameCommitments(p, p') && SwitchChecks(pk, sw, p', e') && e' != ProofChallenge(S, pk, sw, p, ctx)
  }

  ghost predicate SingleForks(S: Suite, pk: Point, X: Point, Y: Point, p: EqDlogProof, ctx: Option<Bytes>) {
    exists e': Scalar, z': Scalar ::
      && Checks(G, X, p.t1, e', z') && Checks(pk, Y, p.t2, e', z')
      && e' != EqDlogChallenge(S, DOMAIN_REENC, G, pk, X, Y, p.t1, p.t2, ctx)
  }

  ghost predicate SwitchForksAt(S: Suite, pk: Point, cur: seq<Ciphertext>, next: seq<Ciphertext>, b: Bytes, at: nat,
                                round: nat, k: nat, ctx: Option<Bytes>) {
    && PairAt(round, k) + 1 < |cur| == |next|
    && var p := SwitchAt(S, b, at + 416 * k);
    p.Some? && SwitchForks(S, pk, SwitchOf(cur, next, PairAt(round, k)), p.value, ctx)
  }

  ghost predicate SingleForksAt(S: Suite, pk: Point, cur: seq<Ciphertext>, next: seq<Ciphertext>, b: Bytes, at: nat,
                                round: nat, k: nat, ctx: Option<Bytes>) {
    && 2 <= |cur| == |next|
    && var i := SingleAt(|cur|, round, k);
    var p := EqDlogAt(S, b, at + 96 * k);
    p.Some? && SingleForks(S, pk, DiffC1(cur[i], next[i]), DiffC2(cur[i], next[i]), p.value, ctx)
  }

  /** Every proof inside the round at `at` can be forked. */
  ghost predicate RoundForks(S: Suite, pk: Point, cur: seq<Ciphertext>, next: seq<Ciphertext>, b: Bytes, at: nat,
                             round: nat, ctx: Option<Bytes>) {
    var n := |cur|;
    var sw, si := at + 64 * n, at + 64 * n + 416 * Pairs(n, round);
    && (forall k :: 0 <= k < Pairs(n, round) ==> SwitchForksAt(S, pk, cur, next, b, sw, round, k, ctx))
    && (forall k :: 0 <= k < Singles(n, round) ==> SingleForksAt(S, pk, cur, next, b, si, round, k, ctx))
  }

  /** An accepted round whose proofs can be forked has its witnesses. */
  lemma RoundExtract(S: Suite, pk: Point, cur: seq<Ciphertext>, next: seq<Ciphertext>, b: Bytes, at: nat,
                     round: nat, ctx: Option<Bytes>)
    requires RoundOk(S, pk, cur, next, b, at, round, ctx) && RoundForks(S, pk, cur, next, b, at, round, ctx)
    ensures RoundWitnessed(pk, cur, next, round)
  {
    hide Switches, Reencrypts, SwitchAt, EqDlogAt, SwitchForks, SingleForks, VerifySwitch, VerifyEqDlog, SwitchOf, DiffC1, DiffC2, SnapshotAt;
    var n := |cur|;
    var sw, si := at + 64 * n, at + 64 * n + 416 * Pairs(n, round);
    forall k | 0 <= k < Pairs(n, round)
      ensures Switches(pk, SwitchOf(cur, next, PairAt(round, k)))
    {
      assert SwitchOk(S, pk, cur, next, b, sw, round, k, ctx) && SwitchForksAt(S, pk, cur, next, b, sw, round, k, ctx);
      SwitchExtract(S, pk, SwitchOf(cur, next, PairAt(round, k)), SwitchAt(S, b, sw + 416 * k).value, ctx);
    }
    forall k | 0 <= k < Singles(n, round)
      ensures Reencrypts(pk, cur[SingleAt(n, round, k)], next[SingleAt(n, round, k)])
    {
      var i := SingleAt(n, round, k);
      assert SingleOk(S, pk, cur, next, b, si, round, k, ctx) && SingleForksAt(S, pk, cur, next, b, si, round, k, ctx);
      SingleExtract(S, pk, cur[i], next[i], EqDlogAt(S, b, si + 96 * k).value, ctx);
    }
  }

  lemma SwitchExtract(S: Suite, pk: Point, sw: Switch, p: SwitchProof, ctx: Option<Bytes>)
    requires VerifySwitch(S, pk, sw, p, ctx) && SwitchForks(S, pk, sw, p, ctx)
    ensures Switches(pk, sw)
  {
    hide SwitchChecks, SameCommitments, ProofChallenge;
    var p': SwitchProof, e': Scalar :|
      SameCommitments(p, p') && SwitchChecks(pk, sw, p', e') && e' != ProofChallenge(S, pk, sw, p, ctx);
    SwitchSpecialSound(pk, sw, p, p', ProofChallenge(S, pk, sw, p, ctx), e');
  }

  lemma SingleExtract(S: Suite, pk: Point, i: Ciphertext, o: Ciphertext, p: EqDlogProof, ctx: Option<Bytes>)
    requires VerifyEqDlog(S, DOMAIN_REENC, G, pk, DiffC1(i, o), DiffC2(i, o), p, ctx)
    requires SingleForks(S, pk, DiffC1(i, o), DiffC2(i, o), p, ctx)
    ensures Reencrypts(pk, i, o)
  {
    hide Checks, EqDlogChallenge;
    var X, Y := DiffC1(i, o), DiffC2(i, o);
    var e := EqDlogChallenge(S, DOMAIN_REENC, G, pk, X, Y, p.t1, p.t2, ctx);
    var e': Scalar, z': Scalar :| Checks(G, X, p.t1, e', z') && Checks(pk, Y, p.t2, e', z') && e' != e;
    EqDlogSpecialSound(G, pk, X, Y, p.t1, p.t2, e, p.z, e', z');
    CommonLogIsReencryption(pk, i, o, Extract(e, p.z, e', z'));
  }

  // ---------------------------------------------------------------- whole proofs

  /** Every proof of the first `r` rounds can be forked. */
  ghost predicate ProofForks(S: Suite, pk: Point, deckIn: seq<Ciphertext>, b: Bytes, h: nat, r: nat, ctx: Option<Bytes>) {
    forall q :: 0 <= q < r ==> RoundForksAt(S, pk, deckIn, b, h, q, ctx)
  }

  ghost predicate RoundForksAt(S: Suite, pk: Point, deckIn: seq<Ciphertext>, b: Bytes, h: nat, q: nat, ctx: Option<Bytes>) {
    RoundForks(S, pk, DeckAfter(S, deckIn, b, h, q), DeckAfter(S, deckIn, b, h, q + 1), b, RoundOff(|deckIn|, h, q), q, ctx)
  }

  lemma {:induction false} RoundsKeepPlaintexts(S: Suite, sk: Scalar, deckIn: seq<Ciphertext>, b: Bytes, h: nat, r: nat, ctx: Option<Bytes>)
    requires RoundsOk(S, MulBase(sk), deckIn, b, h, r, ctx) && ProofForks(S, MulBase(sk), deckIn, b, h, r, ctx)
    ensures multiset(Plaintexts(sk, DeckAfter(S, deckIn, b, h, r))) == multiset(Plaintexts(sk, deckIn))
  {
    hide RoundOk, RoundForks, Plaintexts, RoundOff, MulBase;
    if r > 0 {
      RoundsKeepPlaintexts(S, sk, deckIn, b, h, r - 1, ctx);
      assert RoundAccepted(S, MulBase(sk), deckIn, b, h, r - 1, ctx) && RoundForksAt(S, MulBase(sk), deckIn, b, h, r - 1, ctx);
      var cur, next := DeckAfter(S, deckIn, b, h, r - 1), DeckAfter(S, deckIn, b, h, r);
      RoundExtract(S, MulBase(sk), cur, next, b, RoundOff(|deckIn|, h, r - 1), r - 1, ctx);
      RoundKeepsPlaintexts(sk, cur, next, r - 1);
    }
  }

  /** THEOREM.  The output deck of an accepted proof decrypts to a permutation of what the input deck
      decrypts to, whenever each inner proof has a second accepting transcript. */
  lemma AcceptedShufflePermutes(S: Suite, sk: Scalar, deckIn: seq<Ciphertext>, b: Bytes, ctx: Option<Bytes>)
    requires Accepts(S, MulBase(sk), deckIn, b, ctx)
    requires var (n, rounds, h) := ParseHeader(b, ctx).value;
             ProofForks(S, MulBase(sk), deckIn, b, h, rounds, ctx)
    ensures |DeckOut(S, deckIn, b, ctx)| == |deckIn|
    ensures multiset(Plaintexts(sk, DeckOut(S, deckIn, b, ctx))) == multiset(Plaintexts(sk, deckIn))
  {
    hide RoundsOk, ProofForks, ParseHeader, MulBase;
    var (n, rounds, h) := ParseHeader(b, ctx).value;
    RoundsKeepPlaintexts(S, sk, deckIn, b, h, rounds, ctx);
  }

  // ---------------------------------------------------------------- every card is re-randomized

  /** No card keeps the first component it had at its place, nor the one of the card it is paired with. */
  ghost predicate Refreshed(cur: seq<Ciphertext>, next: seq<Ciphertext>, round: nat) {
    && |cur| == |next|
    && (forall i :: 0 <= i < |cur| ==> next[i].c1 != cur[i].c1)
    && (forall i :: 0 <= i < |cur| && Left(|cur|, round, i) ==> next[i].c1 != cur[i + 1].c1 && next[i + 1].c1 != cur[i].c1)
  }

  lemma RoundRefreshes(S: Suite, pk: Point, cur: seq<Ciphertext>, next: seq<Ciphertext>, b: Bytes, at: nat, round: nat, ctx: Option<Bytes>)
    requires RoundOk(S, pk, cur, next, b, at, round, ctx)
    ensures Refreshed(cur, next, round)
  {
    hide SwitchAt, EqDlogAt, SwitchChecks, VerifyEqDlog, SnapshotAt;
    var n := |cur|;
    forall i | 0 <= i < n && Left(n, round, i)
      ensures Rerandomized(SwitchOf(cur, next, i))
    {
      EveryPositionOnce(n, round, i);
      var k :| 0 <= k < Pairs(n, round) && PairAt(round, k) == i;
      assert SwitchOk(S, pk, cur, next, b, at + 64 * n, round, k, ctx);
    }
    forall i | 0 <= i < n
      ensures next[i].c1 != cur[i].c1
    {
      if Left(n, round, i) {
        assert Rerandomized(SwitchOf(cur, next, i));
      } else if Left(n, round, i - 1) {
        assert Rerandomized(SwitchOf(cur, next, i - 1));
      } else {
        EveryPositionOnce(n, round, i);
        var k :| 0 <= k < Singles(n, round) && SingleAt(n, round, k) == i;
        assert SingleOk(S, pk, cur, next, b, at + 64 * n + 416 * Pairs(n, round), round, k, ctx);
      }
    }
    forall i | 0 <= i < n && Left(n, round, i)
      ensures next[i].c1 != cur[i + 1].c1 && next[i + 1].c1 != cur[i].c1
    {
      assert Rerandomized(SwitchOf(cur, next, i));
    }
  }

  /** THEOREM.  In every round of an accepted proof every card is re-randomized: no first component stays in its
      place or crosses its switch. */
  lemma AcceptedRefreshes(S: Suite, pk: Point, deckIn: seq<Ciphertext>, b: Bytes, ctx: Option<Bytes>, q: nat)
    requires Accepts(S, pk, deckIn, b, ctx) && q < ParseHeader(b, ctx).value.1
    ensures var h := ParseHeader(b, ctx).value.2;
      Refreshed(DeckAfter(S, deckIn, b, h, q), DeckAfter(S, deckIn, b, h, q + 1), q)
  {
    hide RoundOk, ParseHeader, DeckAfter, RoundOff, Refreshed;
    var (n, rounds, h) := ParseHeader(b, ctx).value;
    assert RoundAccepted(S, pk, deckIn, b, h, q, ctx);
    RoundRefreshes(S, pk, DeckAfter(S, deckIn, b, h, q), DeckAfter(S, deckIn, b, h, q + 1), b, RoundOff(|deckIn|, h, q), q, ctx);
  }

  /** THEOREM.  A proof is accepted under one context only, and a proof without one under none. */
  lemma ContextFixed(S: Suite, pk: Point, deckIn: seq<Ciphertext>, pk': Point, deckIn': seq<Ciphertext>, b: Bytes, ctx: Option<Bytes>, ctx': Option<Bytes>)
    requires Accepts(S, pk, deckIn, b, ctx) && Accepts(S, pk', deckIn', b, ctx')
    ensures ctx == ctx'
  {
    hide RoundsOk;
  }
}
