/** From the key generation to the cards: the keys of a finalized epoch and the shares its members can prove. */
module EpochReveal {
  import opened Zq
  import opened Outcome
  import opened ElGamal
  import opened Primitives
  import opened Sigma
  import opened Lagrange
  import opened Feldman
  import opened Dkg
  import opened Threshold
  import opened ShuffleSoundness
  import DealerHand
  import DealerProgress
  import DealerTimeout

  /** The joint polynomial behind the epoch that `s` finalizes into. */
  ghost function SecretOf(s: Session): (F: seq<int>)
    requires Wf(s)
    ensures |F| == s.threshold
  {
    QualCommitted(s, FinalSlashed(s));
    EpochPoly(s, FinalSlashed(s))
  }

  /** The hand keys derived from a finalized epoch hide the joint polynomial scaled by the hand scalar. */
  lemma HandKeys(s: Session, h: int, k: Scalar, i: nat)
    requires Wf(s) && FinalizeStep(s, h).Ok? && FinalizeStep(s, h).value.Finalized? && i < |s.members|
    ensures var e := FinalizeStep(s, h).value.epoch;
      && MulPoint(e.pk, k) == MulBase(HandSecret(SecretOf(s), k))
      && |e.pubShares| == |s.members|
      && MulPoint(e.pubShares[i], k) == MulBase(HandShare(SecretOf(s), k, s.members[i].index))
  {
    hide Eval, MulPoint, MulBase;
    HandPublic(SecretOf(s), k, 0);
    HandPublic(SecretOf(s), k, s.members[i].index);
  }

  /** A share a member can prove for two challenges is a valid share of the joint polynomial. */
  lemma ProvenShareValid(s: Session, h: int, k: Scalar, i: nat, c1: Point, d: Point, p: ShareProof, x: Scalar, p': ShareProof, x': Scalar)
    requires Wf(s) && FinalizeStep(s, h).Ok? && FinalizeStep(s, h).value.Finalized? && i < |s.members|
    requires |FinalizeStep(s, h).value.epoch.pubShares| == |s.members|
    requires x != x' && p.a == p'.a && p.b == p'.b
    requires ChallengedShare(MulPoint(FinalizeStep(s, h).value.epoch.pubShares[i], k), c1, d, p, x)
    requires ChallengedShare(MulPoint(FinalizeStep(s, h).value.epoch.pubShares[i], k), c1, d, p', x')
    ensures ValidShare(SecretOf(s), k, c1, Share(s.members[i].index, d))
  {
    hide MulPoint, ChallengedShare, FinalizeStep, HandShare;
    var y := MulPoint(FinalizeStep(s, h).value.epoch.pubShares[i], k);
    ShareSpecialSound(y, c1, d, p, x, p', x');
    HandKeys(s, h, k, i);
    MulBaseLog(HandShare(SecretOf(s), k, s.members[i].index));
  }

  /** Members of one epoch have indices that tell them apart modulo the group order, and none of them is zero. */
  lemma IndicesDistinct(s: Session, i: nat, j: nat)
    requires Wf(s) && i < j < |s.members| && |s.members| < Q
    ensures !Eq(s.members[i].index, s.members[j].index) && s.members[i].index != 0
  {
    if Eq(s.members[i].index, s.members[j].index) {
      var a: Scalar, b: Scalar := s.members[i].index, s.members[j].index;
      Canonical(a, b);
    }
  }

  /** Shares of different members of the session, each valid for the ciphertext. */
  ghost predicate MemberShares(s: Session, k: Scalar, c1: Point, shares: seq<Share>, who: seq<nat>)
    requires Wf(s)
  {
    && |who| == |shares|
    && (forall i :: 0 <= i < |who| ==> who[i] < |s.members| && shares[i].index == s.members[who[i]].index)
    && (forall i, j :: 0 <= i < j < |who| ==> who[i] != who[j])
    && AllValid(SecretOf(s), k, c1, shares)
  }

  /** THEOREM.  Proven shares of any members of the epoch meet what `RevealCard` needs, so any threshold of them
      opens the card that the ciphertext decrypts to. */
  lemma MembersReveal(s: Session, k: Scalar, c1: Point, shares: seq<Share>, who: seq<nat>)
    requires Wf(s) && |s.members| < Q && MemberShares(s, k, c1, shares, who)
    ensures Sound(SecretOf(s), k, c1, shares, s.threshold)
  {
    hide Eq, ValidShare, SecretOf;
    SecretLength(s);
    forall i, j | 0 <= i < j < |shares|
      ensures !Eq(shares[i].index, shares[j].index)
    {
      var a, b := who[i], who[j];
      if a < b {
        IndicesDistinct(s, a, b);
      } else {
        IndicesDistinct(s, b, a);
        EqFlip(s.members[a].index, s.members[b].index);
      }
    }
  }

  lemma SecretLength(s: Session)
    requires Wf(s)
    ensures |SecretOf(s)| == s.threshold > 0
  {
  }

  // ---------------------------------------------------------------- from the key generation to the card

  /** The deck `dealerInitHand` encrypts under `pk`, card by card. */
  ghost predicate FreshDeck(pk: Point, deck: seq<Ciphertext>, rs: seq<Scalar>) {
    |deck| == |rs| == DECK && forall i: nat :: i < DECK ==> deck[i] == Encrypt(pk, CardPoint(i), rs[i])
  }

  /** Two accepting answers of a member to different challenges. */
  ghost predicate TwoAnswers(y: Point, c1: Point, d: Point, p: ShareProof, x: Scalar, p': ShareProof, x': Scalar) {
    x != x' && p.a == p'.a && p.b == p'.b && ChallengedShare(y, c1, d, p, x) && ChallengedShare(y, c1, d, p', x')
  }

  /** The member with public share `y` can prove the share `d`. */
  ghost predicate Provable(y: Point, c1: Point, d: Point) {
    exists p: ShareProof, x: Scalar, p': ShareProof, x': Scalar :: TwoAnswers(y, c1, d, p, x, p', x')
  }

  /** The epoch a session finalizes into at height `h`. */
  ghost predicate FinalizesInto(s: Session, h: int, e: Epoch) {
    Wf(s) && FinalizeStep(s, h) == Ok(Finalized(e)) && |e.pubShares| == |s.members|
  }

  /** Every recorded public share is one its member can prove. */
  ghost predicate AllProvable(s: Session, e: Epoch, k: Scalar, d: DealerHand.Desk)
    requires |e.pubShares| == |s.members|
  {
    forall q: (nat, Id) :: q in d.pubShares ==> ProvableAt(s, e, k, d, q.0, q.1)
  }

  ghost predicate ProvableAt(s: Session, e: Epoch, k: Scalar, d: DealerHand.Desk, p: nat, id: Id)
    requires |e.pubShares| == |s.members| && (p, id) in d.pubShares
  {
    p < |d.deck| && exists i :: 0 <= i < |s.members| && s.members[i].id == id && Provable(MulPoint(e.pubShares[i], k), d.deck[p].c1, d.pubShares[(p, id)])
  }

  /** A hand of the epoch: its committee, and the last deck of a chain of shuffles from the fresh one. */
  ghost predicate HandOf(S: Suite, s: Session, h: int, e: Epoch, k: Scalar, rs: seq<Scalar>, decks: seq<seq<Ciphertext>>, d: DealerHand.Desk) {
    && FinalizesInto(s, h, e) && |s.members| < Q && Q > DECK
    && decks != [] && FreshDeck(MulPoint(e.pk, k), decks[0], rs) && ShuffleChain(S, HandSecret(SecretOf(s), k), decks)
    && d.members == e.members && d.threshold == e.threshold && d.deck == decks[|decks| - 1]
    && AllProvable(s, e, k, d)
  }

  lemma FreshDeckCards(s: Session, h: int, e: Epoch, k: Scalar, deck: seq<Ciphertext>, rs: seq<Scalar>)
    requires FinalizesInto(s, h, e) && FreshDeck(MulPoint(e.pk, k), deck, rs)
    ensures Plaintexts(HandSecret(SecretOf(s), k), deck) == FreshCards(DECK)
  {
    hide Encrypt, Decrypt, CardPoint, FinalizeStep, MulPoint, MulBase, HandSecret;
    EpochRules(s, h, e);
    HandKeys(s, h, k, 0);
    var sk := HandSecret(SecretOf(s), k);
    forall i: nat | i < DECK
      ensures Decrypt(sk, deck[i]) == CardPoint(i)
    {
      DecryptEncrypt(sk, CardPoint(i), rs[i]);
    }
  }

  lemma ProvableValid(s: Session, h: int, e: Epoch, k: Scalar, i: nat, c1: Point, share: Point)
    requires FinalizesInto(s, h, e) && i < |s.members| && Provable(MulPoint(e.pubShares[i], k), c1, share)
    ensures ValidShare(SecretOf(s), k, c1, Share(s.members[i].index, share))
  {
    hide FinalizeStep, ChallengedShare, MulPoint, ValidShare;
    var p: ShareProof, x: Scalar, p': ShareProof, x': Scalar :| TwoAnswers(MulPoint(e.pubShares[i], k), c1, share, p, x, p', x');
    ProvenShareValid(s, h, k, i, c1, share, p, x, p', x');
  }

  /** THEOREM.  A hand of a finalized epoch, after any chain of accepted and extractable shuffles and with proven
      shares only, is sealed by the secret of the key generation. */
  lemma SessionSeals(S: Suite, s: Session, h: int, e: Epoch, k: Scalar, rs: seq<Scalar>, decks: seq<seq<Ciphertext>>, d: DealerHand.Desk)
    requires HandOf(S, s, h, e, k, rs, decks, d)
    ensures DealerTimeout.Sealed(d, SecretOf(s), k) && |d.deck| == DECK
  {
    hide ShuffleStep, ValidShare, FreshDeck, Provable, SecretOf, MulPoint;
    var F := SecretOf(s);
    SecretLength(s);
    EpochRules(s, h, e);
    FreshDeckCards(s, h, e, k, decks[0], rs);
    ChainKeepsCards(S, HandSecret(F, k), decks);
    PermutedCards(Plaintexts(HandSecret(F, k), d.deck), DECK);
    forall q: (nat, Id) | q in d.pubShares
      ensures DealerTimeout.SealedShare(d, F, k, q.0, q.1)
    {
      assert ProvableAt(s, e, k, d, q.0, q.1);
      var i :| 0 <= i < |s.members| && s.members[i].id == q.1 && Provable(MulPoint(e.pubShares[i], k), d.deck[q.0].c1, d.pubShares[(q.0, q.1)]);
      IndexFound(s.members, i);
      ProvableValid(s, h, e, k, i, d.deck[q.0].c1, d.pubShares[(q.0, q.1)]);
    }
  }

  lemma EpochRules(s: Session, h: int, e: Epoch)
    requires FinalizesInto(s, h, e)
    ensures e.members == s.members && e.threshold == s.threshold && DealerProgress.DistinctIds(s.members) && s.members != []
  {
    QualSpec(s.members, FinalSlashed(s));
  }

  /** THEOREM.  From the key generation to the table: at every position that a threshold of members have shared, the
      recorded shares open exactly one card of the 52, the one the deck holds there, and no two positions open the
      same card. */
  lemma SessionToCards(S: Suite, s: Session, h: int, e: Epoch, k: Scalar, rs: seq<Scalar>, decks: seq<seq<Ciphertext>>, d: DealerHand.Desk, p: nat, q: nat)
    requires HandOf(S, s, h, e, k, rs, decks, d) && p < |d.deck| && q < |d.deck|
    requires |DealerHand.SharersOf(d, p)| >= d.threshold && |DealerHand.SharersOf(d, q)| >= d.threshold
    ensures DealerHand.OpenedCard(d, p).Ok? && DealerHand.OpenedCard(d, p).value < DECK
    ensures Decrypt(HandSecret(SecretOf(s), k), d.deck[p]) == CardPoint(DealerHand.OpenedCard(d, p).value)
    ensures p != q ==> DealerHand.OpenedCard(d, q).Ok? && DealerHand.OpenedCard(d, p).value != DealerHand.OpenedCard(d, q).value
  {
    hide HandOf, CardPoint, Decrypt, DealerHand.OpenedCard, DealerHand.SharersOf, SecretOf;
    HandFacts(S, s, h, e, k, rs, decks, d);
    SessionSeals(S, s, h, e, k, rs, decks, d);
    DealerTimeout.CardOpens(d, SecretOf(s), k, p);
    DealerTimeout.CardOpens(d, SecretOf(s), k, q);
    var ms := Plaintexts(HandSecret(SecretOf(s), k), d.deck);
    PermutedCards(ms, DECK);
    assert p < q ==> ms[p] != ms[q];
    assert q < p ==> ms[q] != ms[p];
  }

  lemma HandFacts(S: Suite, s: Session, h: int, e: Epoch, k: Scalar, rs: seq<Scalar>, decks: seq<seq<Ciphertext>>, d: DealerHand.Desk)
    requires HandOf(S, s, h, e, k, rs, decks, d)
    ensures Wf(s) && DealerProgress.DistinctIds(d.members) && d.threshold > 0 && Q > DECK
  {
    hide ShuffleStep, FreshDeck, AllProvable, SecretOf;
    EpochRules(s, h, e);
  }
}
