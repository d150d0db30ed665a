/** Timeouts always make progress. */
module DealerTimeout {
  import opened Zq
  import opened Outcome
  import opened Sets
  import opened ElGamal
  import opened Dkg
  import opened DealerHand
  import opened DealerProgress
  import opened Threshold
  import ShuffleSoundness

  // ---------------------------------------------------------------- the state of a hand

  ghost predicate Dealt(d: Desk)
    requires Shaped(d)
  {
    d.holePos == HolePositions(Order(d.inHand, d.first), |d.deck|) && d.cursor == 2 * |Order(d.inHand, d.first)|
  }

  /** Every recorded share of a hole card is encrypted to the key of its seat. */
  ghost predicate SharesMatchKeys(d: Desk)
    requires Shaped(d) && SeatsKeyed(d)
  {
    forall s, c, id :: 0 <= s < SEATS && 0 <= c < 2 && d.inHand[s] && d.holePos[Slot(s, c)].Some? && HandedIn(d, s, c, id) ==>
      d.encShares[(d.holePos[Slot(s, c)].value, id)] == d.key[s].value
  }

  ghost predicate BoardFits(d: Desk) {
    match d.phase
    case AwaitFlop => |d.board| <= 2
    case AwaitTurn => |d.board| == 3
    case AwaitRiver => |d.board| == 4
    case AwaitShowdown => |d.board| == 5
    case Shuffling => |d.board| == 0
    case Dealing => |d.board| == 0
    case Betting => |d.board| in {0, 3, 4, 5}
    case _ => |d.board| <= 5
  }

  ghost predicate SomeContends(d: Desk)
    requires Shaped(d)
  {
    exists s :: 0 <= s < SEATS && Contends(d, s)
  }

  /** Public cards come from the board until the showdown, and never from beyond what has been opened. */
  ghost predicate RevealsFit(d: Desk) {
    && (forall p :: p in d.revealed ==> p < d.cursor + |d.board|)
    && (d.phase !in {AwaitShowdown, AllShown, Refunded} ==> forall p :: p in d.revealed ==> p >= d.cursor)
  }

  /** What the steps of the protocol keep. */
  ghost predicate DeskOk(d: Desk) {
    && Shaped(d) && DistinctIds(d.members) && d.threshold > 0 && SeatsKeyed(d) && BoardFits(d) && |d.deck| == DECK
    && SomeContends(d) && RevealsFit(d)
    && (d.phase == Shuffling ==> d.step <= |QualOf(d)| && d.encShares == map[] && d.revealed == map[])
    && (d.phase != Shuffling ==> Dealt(d) && SharesMatchKeys(d))
  }

  ghost predicate Waits(p: Phase) { p in {AwaitFlop, AwaitTurn, AwaitRiver, AwaitShowdown} }

  /** The hand waits for a public card. */
  ghost predicate Awaiting(d: Desk)
    requires Shaped(d)
  {
    ExpectedPos(d).Ok? && ExpectedPos(d).value.Some?
  }

  /** Every phase that waits for the committee has its deadline, and a wait for a card names the card due. */
  ghost predicate Scheduled(d: Desk)
    requires Shaped(d)
  {
    && (d.phase == Shuffling ==> d.shuffleBy.Some?)
    && (d.phase == Dealing ==> d.holeBy.Some?)
    && (Waits(d.phase) ==> Awaiting(d) && d.revealPos == ExpectedPos(d).value && d.revealBy.Some?)
  }

  /** A consistent hand with its deadlines. */
  ghost predicate Live(d: Desk) { DeskOk(d) && Scheduled(d) }

  /** Nobody waits for the committee: players bet, or the hand is over. */
  ghost predicate Resting(d: Desk) { d.phase in {Betting, AllShown, Refunded} }

  /** The deadline of the current phase has passed. */
  ghost predicate Overdue(d: Desk, now: int)
    requires Live(d) && !Resting(d)
  {
    now >= (if d.phase == Shuffling then d.shuffleBy.value else if d.phase == Dealing then d.holeBy.value else d.revealBy.value)
  }

  /** The deck decrypts to the cards, and every recorded public share is a share of `F`. */
  ghost predicate Sealed(d: Desk, F: seq<int>, k: Scalar) {
    && Q > DECK && |d.members| < Q && |F| <= d.threshold
    && (forall i :: 0 <= i < |d.members| ==> d.members[i].index == i + 1)
    && multiset(ShuffleSoundness.Plaintexts(HandSecret(F, k), d.deck)) == multiset(FreshCards(DECK))
    && (forall e :: e in d.pubShares ==> SealedShare(d, F, k, e.0, e.1))
  }

  ghost predicate SealedShare(d: Desk, F: seq<int>, k: Scalar, p: nat, id: Id)
    requires (p, id) in d.pubShares
  {
    p < |d.deck| && InCommittee(d, id) && ValidShare(F, k, d.deck[p].c1, Share(IndexOf(d.members, id).value, d.pubShares[(p, id)]))
  }

  // ---------------------------------------------------------------- the measure of progress

  function Stage(d: Desk): nat {
    match d.phase
    case Shuffling => 0
    case Dealing => 1
    case AllShown => 8
    case Refunded => 9
    case _ => 2 + |d.board|
  }

  ghost function HiddenCount(d: Desk, p: nat): nat
    requires Shaped(d)
    decreases |d.deck| - p
  {
    if p >= |d.deck| then 0 else (if Hidden(d, p) then 1 else 0) + HiddenCount(d, p + 1)
  }

  /** Every seat has its commitment back and nothing else has moved. */
  ghost predicate FullyRefunded(d: Desk, r: Desk)
    requires Shaped(d)
  {
    r.phase == Refunded && |r.stack| == SEATS &&
    forall i :: 0 <= i < SEATS ==> r.stack[i] == if d.stack[i].Some? then Some(d.stack[i].value + d.commit[i]) else None
  }

  /** Refunded, or on to a later stage, or fewer members left to shuffle, or fewer hole cards left to show. */
  ghost predicate Progress(d: Desk, r: Desk)
    requires Shaped(d) && Shaped(r)
  {
    || FullyRefunded(d, r)
    || (Stage(r) > Stage(d) && r.stack == d.stack)
    || (r.phase == d.phase == Shuffling && r.step == d.step && |QualOf(r)| < |QualOf(d)| && r.stack == d.stack)
    || (r.phase == d.phase == AwaitShowdown && HiddenCount(r, 0) < HiddenCount(d, 0) && r.stack == d.stack)
  }

  // ---------------------------------------------------------------- shuffle

  /** Past its deadline the shuffle timeout slashes exactly the member whose turn it is.  It refunds the hand exactly
      when that leaves too few, finalizes the deck exactly when all that are left have shuffled, and otherwise waits for
      the next member with a new deadline and nothing else changed. */
  lemma ShuffleExpires(d: Desk, now: int)
    requires Live(d) && d.phase == Shuffling && Overdue(d, now) && |QualOf(d)| >= d.threshold
    ensures ShuffleTimeout(d, now).Ok? && Shaped(ShuffleTimeout(d, now).value) && Progress(d, ShuffleTimeout(d, now).value)
    ensures var r, n := ShuffleTimeout(d, now).value, |QualOf(d)|;
      && (d.step == n ==> r.phase == Dealing && r.slashed == d.slashed)
      && (d.step < n ==>
            && r.slashed == d.slashed + {QualOf(d)[d.step].id} && |QualOf(r)| == n - 1
            && (r.phase == Refunded <==> n - 1 < d.threshold)
            && (r.phase == Dealing <==> d.threshold <= n - 1 == d.step)
            && (r.phase == Shuffling <==> d.threshold <= n - 1 && d.step < n - 1)
            && (r.phase == Shuffling ==> r == d.(slashed := r.slashed, shuffleBy := Some(now + d.timeout))))
      && (r.phase == Dealing ==> r.holeBy == Some(now + d.timeout) && r.deck == d.deck)
  {
    hide Qual, HolePositions, Order, Hidden, SomeContends, RevealsFit;
    if d.step < |QualOf(d)| {
      SlashOne(d.members, d.slashed, d.step);
      var r := Slash(d, {QualOf(d)[d.step].id});
      assert |QualOf(r)| == |QualOf(d)| - 1;
    }
  }

  // ---------------------------------------------------------------- counting members

  ghost function IdSet(ms: seq<Member>): set<Id> {
    set i | 0 <= i < |ms| :: ms[i].id
  }

  lemma {:induction false} IdSetSize(ms: seq<Member>)
    requires DistinctIds(ms)
    ensures |IdSet(ms)| == |ms|
  {
    if ms != [] {
      var front, last := ms[..|ms| - 1], ms[|ms| - 1];
      IdSetSize(front);
      assert forall i :: 0 <= i < |front| ==> front[i] == ms[i];
      assert IdSet(ms) == IdSet(front) + {last.id};
      assert last.id !in IdSet(front);
    }
  }

  /** A set that holds every qualified member is at least as large as the committee. */
  lemma QualFits(d: Desk, ids: set<Id>)
    requires DistinctIds(d.members) && forall i :: 0 <= i < |QualOf(d)| ==> QualOf(d)[i].id in ids
    ensures |ids| >= |QualOf(d)|
  {
    hide Qual;
    QualDistinct(d.members, d.slashed);
    IdSetSize(QualOf(d));
    SubsetSize(IdSet(QualOf(d)), ids);
  }

  /** Whoever is still qualified after the missing are slashed was qualified before and not missing. */
  lemma StillQualified(d: Desk, ids: set<Id>, i: nat)
    requires i < |QualOf(Slash(d, ids))|
    ensures QualOf(Slash(d, ids))[i].id !in ids && QualOf(Slash(d, ids))[i] in QualOf(d)
  {
    hide Qual;
    QualSpec(d.members, d.slashed);
    QualSpec(d.members, d.slashed + ids);
    assert QualOf(Slash(d, ids))[i] in QualOf(Slash(d, ids));
  }

  // ---------------------------------------------------------------- hole shares

  lemma AllPlaced(d: Desk)
    requires Shaped(d) && Dealt(d) && |d.deck| == DECK
    ensures SeatsPlaced(d) && ContendersPlaced(d)
  {
    hide HolePositions, Order;
    CursorBelow(d);
    forall s, c | 0 <= s < SEATS && 0 <= c < 2 && d.inHand[s]
      ensures d.holePos[Slot(s, c)].Some?
    {
      HoleCardsApart(d, s, c, s, c);
    }
  }

  /** THEOREM.  Once the members with missing hole shares are slashed, a committee at or above the threshold has
      handed in enough shares of every hole card: no hand is aborted for lack of shares. */
  lemma SharesSuffice(d: Desk)
    requires DeskOk(d) && d.phase != Shuffling && SeatsPlaced(d)
    requires |QualOf(Slash(d, MissingHole(d)))| >= d.threshold
    ensures AllReady(Slash(d, MissingHole(d)))
  {
    hide Qual, Dealt, MissingHole;
    var r := Slash(d, MissingHole(d));
    forall s, c | 0 <= s < SEATS && 0 <= c < 2 && d.inHand[s]
      ensures CardReady(r, s, c)
    {
      forall i | 0 <= i < |QualOf(r)|
        ensures QualOf(r)[i].id in SharesUnder(r, d.holePos[Slot(s, c)].value, d.key[s].value)
      {
        StillQualified(d, MissingHole(d), i);
        NotMissing(d, QualOf(r)[i]);
        assert HandedIn(d, s, c, QualOf(r)[i].id);
        assert (d.holePos[Slot(s, c)].value, QualOf(r)[i].id) in r.encShares;
      }
      QualFits(r, SharesUnder(r, d.holePos[Slot(s, c)].value, d.key[s].value));
    }
  }

  lemma NotMissing(d: Desk, m: Member)
    requires Shaped(d) && SeatsPlaced(d) && m in QualOf(d) && m.id !in MissingHole(d)
    ensures AllHandedIn(d, m.id)
  {
    hide Qual, AllHandedIn;
    var i :| 0 <= i < |QualOf(d)| && QualOf(d)[i] == m;
  }

  /** Past its deadline the hole-share timeout refunds the hand exactly when too few members are left, and opens it otherwise. */
  lemma HoleExpires(d: Desk, now: int)
    requires Live(d) && d.phase == Dealing && Overdue(d, now)
    ensures HoleTimeout(d, now).Ok? && Shaped(HoleTimeout(d, now).value) && Progress(d, HoleTimeout(d, now).value)
    ensures HoleTimeout(d, now).value.phase == Refunded <==> |QualOf(Slash(d, MissingHole(d)))| < d.threshold
    ensures SeatsPlaced(d) && HoleTimeout(d, now).value.slashed == d.slashed + MissingHole(d)
    ensures HoleTimeout(d, now).value.phase != Refunded ==> HoleTimeout(d, now).value.phase == if d.actionOn.None? then AwaitFlop else Betting
  {
    hide Qual, Dealt, MissingHole, AllReady, SharesMatchKeys, SeatsPlaced, ContendersPlaced, SetReveal, HiddenCount, SomeContends, RevealsFit;
    AllPlaced(d);
    var r := Slash(d, MissingHole(d));
    if |QualOf(r)| >= d.threshold {
      SharesSuffice(d);
      CursorBelow(d);
      var b := r.(holeBy := None, phase := if r.actionOn.None? then AwaitFlop else Betting);
      PlacedStays(d, b);
      SetRevealOk(b, now);
    }
  }

  /** Fifty-two cards are enough for nine seats and a board. */
  lemma CursorBelow(d: Desk)
    requires Shaped(d) && Dealt(d) && |d.deck| == DECK
    ensures d.cursor + 5 <= |d.deck| && d.cursor == 2 * |Order(d.inHand, d.first)|
  {
    hide HolePositions;
    OrderLength(d.inHand, d.first, 0);
  }

  // ---------------------------------------------------------------- reveals

  lemma {:induction false} FirstHiddenSpec(d: Desk, p: nat)
    requires Shaped(d)
    ensures var r := FirstHidden(d, p);
      && (r.Some? ==> p <= r.value < |d.deck| && Hidden(d, r.value) && forall q :: p <= q < r.value ==> !Hidden(d, q))
      && (r.None? ==> forall q :: p <= q < |d.deck| ==> !Hidden(d, q))
    decreases |d.deck| - p
  {
    hide Hidden;
    if p < |d.deck| && !Hidden(d, p) { FirstHiddenSpec(d, p + 1); }
  }

  /** The desks agree on everything that decides which card is due. */
  ghost predicate SameDue(d: Desk, r: Desk) {
    && r.phase == d.phase && |r.deck| == |d.deck| && r.board == d.board && r.cursor == d.cursor && r.holePos == d.holePos
    && r.inHand == d.inHand && r.folded == d.folded && r.revealed == d.revealed
  }

  lemma SameHidden(d: Desk, r: Desk, p: nat)
    requires Shaped(d) && Shaped(r) && SameDue(d, r)
    ensures Hidden(r, p) <==> Hidden(d, p)
  {
    assert forall s :: 0 <= s < SEATS ==> (Contends(r, s) <==> Contends(d, s));
  }

  lemma {:induction false} FirstHiddenSame(d: Desk, r: Desk, p: nat)
    requires Shaped(d) && Shaped(r) && SameDue(d, r)
    ensures FirstHidden(r, p) == FirstHidden(d, p)
    decreases |d.deck| - p
  {
    hide Hidden;
    if p < |d.deck| {
      SameHidden(d, r, p);
      FirstHiddenSame(d, r, p + 1);
    }
  }

  lemma ExpectedSame(d: Desk, r: Desk)
    requires Shaped(d) && Shaped(r) && SameDue(d, r)
    ensures ExpectedPos(r) == ExpectedPos(d)
  {
    hide FirstHidden, ContendersPlaced;
    FirstHiddenSame(d, r, 0);
    if ContendersPlaced(d) { PlacedStays(d, r); }
    if ContendersPlaced(r) { PlacedStays(r, d); }
  }

  lemma {:induction false} OneLessHidden(d: Desk, r: Desk, p: nat, q: nat)
    requires Shaped(d) && Shaped(r) && |r.deck| == |d.deck| && p < |d.deck| && Hidden(d, p)
    requires forall x: nat :: Hidden(r, x) <==> Hidden(d, x) && x != p
    ensures HiddenCount(r, q) + (if q <= p then 1 else 0) == HiddenCount(d, q)
    decreases |d.deck| - q
  {
    hide Hidden;
    if q < |d.deck| { OneLessHidden(d, r, p, q + 1); }
  }

  /** Showing the hole card at `p` hides one card fewer. */
  lemma ShowOne(d: Desk, r: Desk, p: nat, card: nat)
    requires Shaped(d) && Shaped(r) && p < |d.deck| && Hidden(d, p)
    requires r.revealed == d.revealed[p := card] && r.holePos == d.holePos && r.inHand == d.inHand && r.folded == d.folded && |r.deck| == |d.deck|
    ensures HiddenCount(r, 0) < HiddenCount(d, 0)
  {
    forall x: nat
      ensures Hidden(r, x) <==> Hidden(d, x) && x != p
    {
      HiddenAfter(d, r, p, card, x);
    }
    OneLessHidden(d, r, p, 0);
  }

  lemma HiddenAfter(d: Desk, r: Desk, p: nat, card: nat, x: nat)
    requires Shaped(d) && Shaped(r)
    requires r.revealed == d.revealed[p := card] && r.holePos == d.holePos && r.inHand == d.inHand && r.folded == d.folded
    ensures Hidden(r, x) <==> Hidden(d, x) && x != p
  {
    assert forall s :: 0 <= s < SEATS ==> (Contends(r, s) <==> Contends(d, s));
  }

  /** In a consistent hand the next reveal can always be scheduled, and nothing but the schedule changes. */
  lemma SetRevealOk(r: Desk, now: int)
    requires Shaped(r) && r.phase !in {Shuffling, Dealing} && BoardFits(r) && r.cursor + 5 <= |r.deck| && ContendersPlaced(r)
    ensures var x := SetReveal(r, now);
      x.Ok? && x.value == r.(revealPos := x.value.revealPos, revealBy := x.value.revealBy)
  {
    hide FirstHidden, ContendersPlaced;
  }

  /** A public card for the board: the board grows and the hand goes on. */
  lemma BoardCard(d: Desk, card: nat, now: int)
    requires Shaped(d) && Dealt(d) && |d.deck| == DECK && BoardFits(d) && d.phase in {AwaitFlop, AwaitTurn, AwaitRiver}
    ensures var r := ApplyReveal(d, d.cursor + |d.board|, card, now);
      r.Ok? && Shaped(r.value) && |r.value.board| == |d.board| + 1 && r.value.stack == d.stack && Stage(r.value) > Stage(d)
  {
    AllPlaced(d);
    CursorBelow(d);
    hide Dealt, ContendersPlaced, SeatsPlaced, SetReveal, BoardGrown;
    GrownFacts(d, card);
    PlacedStays(d, BoardGrown(d, card));
    SetRevealOk(BoardGrown(d, card), now);
  }

  lemma GrownFacts(d: Desk, card: nat)
    requires Shaped(d) && BoardFits(d) && d.phase in {AwaitFlop, AwaitTurn, AwaitRiver}
    ensures var r := BoardGrown(d, card);
      && r.phase in {Betting, AwaitFlop, AwaitTurn, AwaitRiver, AwaitShowdown} && BoardFits(r) && |r.board| == |d.board| + 1
      && r.stack == d.stack && r.cursor == d.cursor && r.deck == d.deck && r.holePos == d.holePos && r.inHand == d.inHand && r.folded == d.folded
  {
    hide WithChips, FirstToAct;
  }

  lemma PlacedStays(d: Desk, r: Desk)
    requires Shaped(d) && Shaped(r) && ContendersPlaced(d) && r.holePos == d.holePos && r.inHand == d.inHand && r.folded == d.folded
    ensures ContendersPlaced(r)
  {
    forall s, c | 0 <= s < SEATS && 0 <= c < 2 && Contends(r, s)
      ensures r.holePos[Slot(s, c)].Some?
    {
      assert Contends(d, s);
    }
  }

  /** A public hole card: the next one is due, or all are shown. */
  lemma HoleCard(d: Desk, p: nat, now: int)
    requires Shaped(d) && ContendersPlaced(d) && |d.board| == 5 && d.phase == AwaitShowdown && |d.deck| > 0
    requires exists s, c :: 0 <= s < SEATS && 0 <= c < 2 && Contends(d, s) && d.holePos[Slot(s, c)] == Some(p)
    ensures var r := ApplyReveal(d, p, 0, now);
      && r.Ok? && Shaped(r.value) && r.value.stack == d.stack
      && r.value.revealed == d.revealed && r.value.holePos == d.holePos && r.value.inHand == d.inHand && r.value.folded == d.folded
      && |r.value.deck| == |d.deck| && r.value.phase in {AwaitShowdown, AllShown}
  {
    hide Hidden, ContendersPlaced, FirstHidden;
  }

  lemma ShowdownIgnoresCard(d: Desk, p: nat, a: nat, b: nat, now: int)
    requires Shaped(d) && d.phase == AwaitShowdown
    ensures ApplyReveal(d, p, a, now) == ApplyReveal(d, p, b, now)
  {
  }

  /** Everyone still qualified after the missing are slashed has shared the position. */
  lemma NobodyMissing(d: Desk, p: nat)
    requires DistinctIds(d.members)
    ensures var r := Slash(d, MissingPub(d, p)); MissingPub(r, p) == {} && |SharersOf(r, p)| >= |QualOf(r)|
  {
    hide Qual;
    var r := Slash(d, MissingPub(d, p));
    forall i | 0 <= i < |QualOf(r)|
      ensures (p, QualOf(r)[i].id) in r.pubShares && QualOf(r)[i].id in SharersOf(r, p)
    {
      StillQualified(d, MissingPub(d, p), i);
      var j :| 0 <= j < |QualOf(d)| && QualOf(d)[j] == QualOf(r)[i];
      assert (p, QualOf(r)[i].id) in r.pubShares;
    }
    QualFits(r, SharersOf(r, p));
  }

  lemma MemberShare(d: Desk, F: seq<int>, k: Scalar, p: nat, i: nat)
    requires Sealed(d, F, k) && p < |d.deck| && i < |d.members| && DistinctIds(d.members) && (p, d.members[i].id) in d.pubShares
    ensures d.members[i].index == i + 1 && ValidShare(F, k, d.deck[p].c1, Share(i + 1, d.pubShares[(p, d.members[i].id)]))
  {
    hide ValidShare;
    IndexFound(d.members, i);
    assert SealedShare(d, F, k, p, d.members[i].id);
  }

  /** `who` lists, in order, the members from `i` on whose shares `shares` are. */
  ghost predicate SharedBy(d: Desk, F: seq<int>, k: Scalar, p: nat, i: nat, shares: seq<Share>, who: seq<nat>)
    requires p < |d.deck|
  {
    && |who| == |shares|
    && (forall n :: 0 <= n < |who| ==> i <= who[n] < |d.members| && shares[n].index == who[n] + 1 && ValidShare(F, k, d.deck[p].c1, shares[n]))
    && (forall m, n :: 0 <= m < n < |who| ==> who[m] < who[n])
    && (forall j :: i <= j < |d.members| && (p, d.members[j].id) in d.pubShares ==> j in who)
  }

  lemma OneMore(d: Desk, F: seq<int>, k: Scalar, p: nat, i: nat, share: Share, shares: seq<Share>, who: seq<nat>)
    requires p < |d.deck| && i < |d.members| && SharedBy(d, F, k, p, i + 1, shares, who)
    requires share.index == i + 1 && ValidShare(F, k, d.deck[p].c1, share)
    ensures SharedBy(d, F, k, p, i, [share] + shares, [i] + who)
  {
    hide ValidShare;
    var all, ss := [i] + who, [share] + shares;
    forall n | 0 <= n < |all|
      ensures i <= all[n] < |d.members| && ss[n].index == all[n] + 1 && ValidShare(F, k, d.deck[p].c1, ss[n])
    {
      if n > 0 { assert all[n] == who[n - 1] && ss[n] == shares[n - 1]; }
    }
    assert all[0] == i;
  }

  lemma {:induction false} SharesOfMembers(d: Desk, F: seq<int>, k: Scalar, p: nat, i: nat) returns (who: seq<nat>)
    requires Sealed(d, F, k) && p < |d.deck| && i <= |d.members| && DistinctIds(d.members)
    ensures SharedBy(d, F, k, p, i, SharesFrom(d, p, i), who)
    decreases |d.members| - i
  {
    hide ValidShare, Sealed;
    who := [];
    if i < |d.members| {
      var rest := SharesOfMembers(d, F, k, p, i + 1);
      if (p, d.members[i].id) in d.pubShares {
        MemberShare(d, F, k, p, i);
        OneMore(d, F, k, p, i, Share(i + 1, d.pubShares[(p, d.members[i].id)]), SharesFrom(d, p, i + 1), rest);
        who := [i] + rest;
        hide SharedBy;
      } else {
        who := rest;
      }
    }
  }

  lemma SharesSound(d: Desk, F: seq<int>, k: Scalar, p: nat)
    requires Sealed(d, F, k) && p < |d.deck| && DistinctIds(d.members) && d.threshold > 0
    ensures Sound(F, k, d.deck[p].c1, SharesFrom(d, p, 0), d.threshold)
    ensures |SharesFrom(d, p, 0)| >= |SharersOf(d, p)|
  {
    hide ValidShare, Eq, SharesFrom;
    var who := SharesOfMembers(d, F, k, p, 0);
    var shares := SharesFrom(d, p, 0);
    forall i, j | 0 <= i < j < |shares|
      ensures !Eq(shares[i].index, shares[j].index)
    {
      if Eq(shares[i].index, shares[j].index) {
        var a: Scalar, b: Scalar := shares[i].index, shares[j].index;
        Canonical(a, b);
      }
    }
    var named := set n | 0 <= n < |who| :: d.members[who[n]].id;
    forall id | id in SharersOf(d, p)
      ensures id in named
    {
      assert (p, id) in d.pubShares && SealedShare(d, F, k, p, id);
      IndexIn(d.members, id);
      var j :| 0 <= j < |d.members| && d.members[j].id == id;
      assert j in who;
      var n :| 0 <= n < |who| && who[n] == j;
    }
    SubsetSize(SharersOf(d, p), named);
    NamedSize(d.members, who);
  }

  lemma {:induction false} NamedSize(ms: seq<Member>, who: seq<nat>)
    requires forall n :: 0 <= n < |who| ==> who[n] < |ms|
    ensures |set n | 0 <= n < |who| :: ms[who[n]].id| <= |who|
  {
    if who != [] {
      var front := who[..|who| - 1];
      NamedSize(ms, front);
      var a, b := set n | 0 <= n < |who| :: ms[who[n]].id, set n | 0 <= n < |front| :: ms[front[n]].id;
      assert a == b + {ms[who[|who| - 1]].id};
    }
  }

  /** THEOREM.  Once a threshold of members have shared a position, the recorded shares open a card: the one the
      ciphertext there decrypts to. */
  lemma CardOpens(d: Desk, F: seq<int>, k: Scalar, p: nat)
    requires Sealed(d, F, k) && |d.deck| == DECK && p < |d.deck| && DistinctIds(d.members) && d.threshold > 0 && |SharersOf(d, p)| >= d.threshold
    ensures OpenedCard(d, p).Ok? && OpenedCard(d, p).value < DECK && Decrypt(HandSecret(F, k), d.deck[p]) == CardPoint(OpenedCard(d, p).value)
  {
    hide Sound, RevealedCard, Decrypt, CardPoint, SharersOf;
    SharesSound(d, F, k, p);
    RevealedRight(SharesFrom(d, p, 0), d.threshold, d.deck[p], |d.deck|, F, k);
    var ms := ShuffleSoundness.Plaintexts(HandSecret(F, k), d.deck);
    PermutedCards(ms, DECK);
    assert exists c: nat :: c < DECK && ms[p] == CardPoint(c);
  }

  lemma SealedSame(d: Desk, r: Desk, F: seq<int>, k: Scalar)
    requires Sealed(d, F, k) && r.deck == d.deck && r.pubShares == d.pubShares && r.members == d.members && r.threshold == d.threshold
    ensures Sealed(r, F, k)
  {
    hide ValidShare;
    forall e | e in r.pubShares
      ensures SealedShare(r, F, k, e.0, e.1)
    {
      assert SealedShare(d, F, k, e.0, e.1);
    }
  }

  /** Past its deadline the reveal timeout slashes exactly the members that have not shared the card due.  It refunds the
      hand exactly when that leaves too few, and otherwise makes public the card the deck holds there. */
  lemma RevealExpires(d: Desk, now: int, F: seq<int>, k: Scalar)
    requires Live(d) && Sealed(d, F, k) && Waits(d.phase) && Overdue(d, now)
    ensures RevealTimeout(d, now).Ok? && Shaped(RevealTimeout(d, now).value) && Progress(d, RevealTimeout(d, now).value)
    ensures var r, p := RevealTimeout(d, now).value, ExpectedPos(d).value.value;
      && r.slashed == d.slashed + MissingPub(d, p)
      && (r.phase == Refunded <==> |QualOf(Slash(d, MissingPub(d, p)))| < d.threshold)
      && (r.phase != Refunded ==> p < |d.deck| && Opened(d, r, p, F, k))
  {
    hide Qual, Dealt, MissingPub, SharersOf, SharesMatchKeys, HiddenCount, ApplyReveal, ContendersPlaced, FirstHidden, OpenedCard, Sealed, SomeContends;
    var p := ExpectedPos(d).value.value;
    var r := Slash(d, MissingPub(d, p));
    ExpectedSame(d, r);
    NobodyMissing(d, p);
    DueInDeck(d);
    if |QualOf(r)| >= d.threshold {
      SealedSame(d, r, F, k);
      CardOpens(r, F, k, p);
      RevealGoesOn(d, r.(revealed := r.revealed[p := OpenedCard(r, p).value]), p, OpenedCard(r, p).value, now);
      ApplyKeeps(r.(revealed := r.revealed[p := OpenedCard(r, p).value]), p, OpenedCard(r, p).value, now);
    }
  }

  /** The card at `p` has become public: the one the deck holds there, on the board unless it is a hole card. */
  ghost predicate Opened(d: Desk, r: Desk, p: nat, F: seq<int>, k: Scalar)
    requires p < |d.deck|
  {
    && p !in d.revealed && r.revealed.Keys == d.revealed.Keys + {p} && r.revealed == d.revealed[p := r.revealed[p]] && r.revealed[p] < DECK
    && Decrypt(HandSecret(F, k), d.deck[p]) == CardPoint(r.revealed[p])
    && r.board == if d.phase == AwaitShowdown then d.board else d.board + [r.revealed[p]]
  }

  lemma ApplyKeeps(d: Desk, p: nat, card: nat, now: int)
    requires Shaped(d) && ApplyReveal(d, p, card, now).Ok?
    ensures var r := ApplyReveal(d, p, card, now).value;
      && r.revealed == d.revealed && r.slashed == d.slashed && r.phase != Refunded
      && r.board == if d.phase == AwaitShowdown then d.board else d.board + [card]
  {
    hide ContendersPlaced, FirstHidden, SetReveal, BoardGrown;
    GrownKeeps(d, card);
    if d.phase == AwaitShowdown {
      if FirstHidden(d, 0).Some? { SetRevealSame(d, now); }
    } else {
      SetRevealSame(BoardGrown(d, card), now);
    }
  }

  lemma SetRevealSame(d: Desk, now: int)
    requires Shaped(d) && SetReveal(d, now).Ok?
    ensures SetReveal(d, now).value == d.(revealPos := SetReveal(d, now).value.revealPos, revealBy := SetReveal(d, now).value.revealBy)
  {
    hide ExpectedPos;
  }

  lemma GrownKeeps(d: Desk, card: nat)
    requires Shaped(d)
    ensures var r := BoardGrown(d, card);
      r.revealed == d.revealed && r.slashed == d.slashed && r.board == d.board + [card] && (d.phase != Refunded ==> r.phase != Refunded)
  {
    hide WithChips, FirstToAct;
  }

  /** The next card, once combined, moves the hand on. */
  lemma RevealGoesOn(d: Desk, b: Desk, p: nat, card: nat, now: int)
    requires DeskOk(d) && Waits(d.phase) && Awaiting(d) && ExpectedPos(d).value == Some(p) && p < |d.deck|
    requires b == d.(slashed := b.slashed, revealed := d.revealed[p := card])
    ensures Shaped(b) && var r := ApplyReveal(b, p, card, now); r.Ok? && Shaped(r.value) && Progress(d, r.value)
  {
    hide Qual, SharesMatchKeys, HiddenCount, ApplyReveal, ContendersPlaced, FirstHidden, SomeContends, Dealt;
    if d.phase == AwaitShowdown {
      FirstHiddenSpec(d, 0);
      ShowdownStep(d, b, p, card, now);
    } else {
      DealtSame(d, b);
      BoardCard(b, card, now);
    }
  }

  lemma DueInDeck(d: Desk)
    requires DeskOk(d) && Waits(d.phase) && Awaiting(d)
    ensures ExpectedPos(d).value.value < |d.deck| && ExpectedPos(d).value.value !in d.revealed
  {
    hide ContendersPlaced, FirstHidden, Dealt, SharesMatchKeys;
    FirstHiddenSpec(d, 0);
  }

  lemma DealtSame(d: Desk, b: Desk)
    requires Shaped(d) && Shaped(b) && Dealt(d) && b.deck == d.deck && b.inHand == d.inHand && b.first == d.first && b.holePos == d.holePos && b.cursor == d.cursor
    ensures Dealt(b)
  {
  }

  lemma ShowdownStep(d: Desk, b: Desk, p: nat, card: nat, now: int)
    requires DeskOk(d) && d.phase == AwaitShowdown && Hidden(d, p) && p < |d.deck|
    requires b == d.(slashed := b.slashed, revealed := d.revealed[p := card])
    ensures Shaped(b) && var r := ApplyReveal(b, p, card, now); r.Ok? && Shaped(r.value) && Progress(d, r.value)
  {
    hide Qual, Dealt, SharesMatchKeys, HiddenCount, ApplyReveal, FirstHidden, ContendersPlaced, SomeContends;
    AllPlaced(d);
    PlacedStays(d, b);
    assert forall s :: 0 <= s < SEATS ==> (Contends(b, s) <==> Contends(d, s));
    HoleCard(b, p, now);
    ShowdownIgnoresCard(b, p, 0, card, now);
    var r := ApplyReveal(b, p, card, now).value;
    ShowOne(d, r, p, card);
  }

  // ---------------------------------------------------------------- the theorem

  /** THEOREM.  A timeout past the deadline of any phase succeeds, and refunds everybody, or reaches a later stage,
      or leaves fewer members to shuffle, or fewer hole cards to show. */
  lemma TimeoutProgresses(d: Desk, now: int, F: seq<int>, k: Scalar)
    requires Live(d) && Sealed(d, F, k) && |QualOf(d)| >= d.threshold && !Resting(d) && Overdue(d, now)
    ensures Expiry(d, now).Ok? && Shaped(Expiry(d, now).value) && Progress(d, Expiry(d, now).value)
  {
    hide Progress, ShuffleTimeout, HoleTimeout, RevealTimeout, Overdue, Qual, Sealed, SomeContends, RevealsFit;
    if d.phase == Shuffling {
      ShuffleExpires(d, now);
    } else if d.phase == Dealing {
      HoleExpires(d, now);
    } else {
      RevealExpires(d, now, F, k);
    }
  }

  // ---------------------------------------------------------------- who stays, and when the hand is given up

  /** The qualified member `i` has done what the phase waits for; in the shuffle it is simply not its turn. */
  ghost predicate Diligent(d: Desk, i: nat)
    requires Live(d) && !Resting(d) && i < |QualOf(d)|
  {
    if d.phase == Shuffling then i != d.step
    else if d.phase == Dealing then
      forall s, c :: 0 <= s < SEATS && 0 <= c < 2 && d.inHand[s] && d.holePos[Slot(s, c)].Some? ==> HandedIn(d, s, c, QualOf(d)[i].id)
    else (d.revealPos.value, QualOf(d)[i].id) in d.pubShares
  }

  ghost function Survivors(d: Desk): set<Id>
    requires Live(d) && !Resting(d)
  {
    set i | 0 <= i < |QualOf(d)| && Diligent(d, i) :: QualOf(d)[i].id
  }

  /** Who is left once the missing are slashed. */
  lemma LeftAre(d: Desk, missing: set<Id>, keep: set<Id>)
    requires DistinctIds(d.members)
    requires forall i :: 0 <= i < |QualOf(d)| ==> (QualOf(d)[i].id in keep <==> QualOf(d)[i].id !in missing)
    requires forall id :: id in keep ==> exists i :: 0 <= i < |QualOf(d)| && QualOf(d)[i].id == id
    ensures IdSet(QualOf(Slash(d, missing))) == keep && |QualOf(Slash(d, missing))| == |keep|
  {
    hide Qual;
    var left := QualOf(Slash(d, missing));
    forall id | id in IdSet(left)
      ensures id in keep
    {
      var i :| 0 <= i < |left| && left[i].id == id;
      StillQualified(d, missing, i);
      var j :| 0 <= j < |QualOf(d)| && QualOf(d)[j] == left[i];
    }
    forall id | id in keep
      ensures id in IdSet(left)
    {
      var i :| 0 <= i < |QualOf(d)| && QualOf(d)[i].id == id;
      QualSpec(d.members, d.slashed);
      QualSpec(d.members, d.slashed + missing);
      assert QualOf(d)[i] in left;
      var j :| 0 <= j < |left| && left[j] == QualOf(d)[i];
    }
    QualDistinct(d.members, d.slashed + missing);
    IdSetSize(left);
  }

  lemma SurvivorsAre(d: Desk, missing: set<Id>)
    requires Live(d) && !Resting(d)
    requires forall i :: 0 <= i < |QualOf(d)| ==> (Diligent(d, i) <==> QualOf(d)[i].id !in missing)
    ensures IdSet(QualOf(Slash(d, missing))) == Survivors(d) && |QualOf(Slash(d, missing))| == |Survivors(d)|
  {
    hide Qual, Diligent, Live;
    LiveFacts(d);
    QualDistinct(d.members, d.slashed);
    forall i | 0 <= i < |QualOf(d)|
      ensures QualOf(d)[i].id in Survivors(d) <==> QualOf(d)[i].id !in missing
    {
      if QualOf(d)[i].id in Survivors(d) {
        var j :| 0 <= j < |QualOf(d)| && Diligent(d, j) && QualOf(d)[j].id == QualOf(d)[i].id;
      }
    }
    LeftAre(d, missing, Survivors(d));
  }

  lemma LiveFacts(d: Desk)
    requires Live(d)
    ensures Shaped(d) && DistinctIds(d.members) && d.threshold > 0 && (d.phase == Shuffling ==> d.step <= |QualOf(d)|)
    ensures Waits(d.phase) ==> Awaiting(d) && d.revealPos == ExpectedPos(d).value
    ensures d.phase == Dealing ==> SeatsPlaced(d)
  {
    hide Qual, SharesMatchKeys, SomeContends, RevealsFit, SeatsKeyed, SeatsPlaced, ContendersPlaced, Dealt;
    if d.phase == Dealing { AllPlaced(d); }
  }

  /** Whom the timeout slashes. */
  ghost function Missing(d: Desk): set<Id>
    requires Live(d) && !Resting(d)
  {
    LiveFacts(d);
    if d.phase == Shuffling then (if d.step < |QualOf(d)| then {QualOf(d)[d.step].id} else {})
    else if d.phase == Dealing then MissingHole(d)
    else MissingPub(d, d.revealPos.value)
  }

  lemma MissingAreNotDiligent(d: Desk)
    requires Live(d) && !Resting(d)
    ensures forall i :: 0 <= i < |QualOf(d)| ==> (Diligent(d, i) <==> QualOf(d)[i].id !in Missing(d))
  {
    hide Qual, Live;
    LiveFacts(d);
    QualDistinct(d.members, d.slashed);
    forall i | 0 <= i < |QualOf(d)|
      ensures Diligent(d, i) <==> QualOf(d)[i].id !in Missing(d)
    {
      if d.phase == Dealing {
        assert Diligent(d, i) <==> AllHandedIn(d, QualOf(d)[i].id);
      }
    }
  }

  /** THEOREM.  Which way a timeout goes, in every phase: past the deadline exactly the members that did what the phase
      waits for stay qualified, and the hand is refunded if and only if they are fewer than the threshold. */
  lemma RefundedIff(d: Desk, now: int, F: seq<int>, k: Scalar)
    requires Live(d) && Sealed(d, F, k) && |QualOf(d)| >= d.threshold && !Resting(d) && Overdue(d, now)
    ensures var r := Expiry(d, now);
      && r.Ok? && IdSet(QualOf(r.value)) == Survivors(d)
      && (r.value.phase == Refunded <==> |Survivors(d)| < d.threshold)
  {
    hide Progress, ShuffleTimeout, HoleTimeout, RevealTimeout, Overdue, Qual, Sealed, Survivors, Live, MissingHole, MissingPub, IdSet, Opened;
    LiveFacts(d);
    MissingAreNotDiligent(d);
    SurvivorsAre(d, Missing(d));
    if d.phase == Shuffling {
      ShuffleExpires(d, now);
      assert d.slashed + {} == d.slashed;
    } else if d.phase == Dealing {
      HoleExpires(d, now);
    } else {
      RevealExpires(d, now, F, k);
    }
    assert Expiry(d, now).value.slashed == d.slashed + Missing(d);
    SameCommittee(d, now);
  }

  lemma SameCommittee(d: Desk, now: int)
    requires Shaped(d) && Expiry(d, now).Ok?
    ensures Expiry(d, now).value.members == d.members
  {
    hide ContendersPlaced, FirstHidden, WithChips, FirstToAct, Qual, MissingPub, OpenedCard, MissingHole, AllReady, HolePositions, Order;
  }

  /** THEOREM.  The committee is shared with other tables, so members may be slashed between two steps.  A shuffle
      timeout past its deadline fails if and only if that has left fewer members than have shuffled, or too few members
      of which all have shuffled. */
  lemma ShuffleStuckIff(d: Desk, now: int)
    requires Shaped(d) && d.phase == Shuffling && d.threshold > 0 && DistinctIds(d.members) && d.shuffleBy.Some? && now >= d.shuffleBy.value
    ensures var n := |QualOf(d)|;
      Expiry(d, now).Err? <==> n > 0 && (d.step > n || (d.step == n && n < d.threshold))
  {
    hide Qual, HolePositions, Order;
    if d.step < |QualOf(d)| {
      SlashOne(d.members, d.slashed, d.step);
    }
  }
}
