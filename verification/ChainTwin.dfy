/** The two betting engines of the repository, the TypeScript one (packages/poker-engine) and the one inside the chain
    (apps/chain/internal/app/poker.go): where they agree, and what decides the course of a hand on the chain. */
module ChainTwin {
  import opened Outcome
  import opened Pots
  import opened Betting
  import opened BettingSafety
  import opened BettingStart
  import opened BettingTermination
  import opened BettingStreets
  import opened ChainTable
  import opened ChainStart
  import opened ChainTurn

  // ---------------------------------------------------------------- the course of a hand on the chain

  /** With two stacks behind somebody can open the next street. */
  lemma SomeoneOpens(u: Game, s: Street)
    requires ChipsOk(u) && WithChips(u, 0) >= 2
    ensures OpenStreet(u, s).h.actionOn.Some?
  {
    hide NextToAct, WithChips;
    SomeWithChips(u, 0);
    var i :| 0 <= i < SEATS && Contends(u.h, i) && Stack(u, i) > 0;
    var h := u.h.(street := s, betTo := 0, minRaise := u.params.bigBlind, interval := 0,
                  streetCommit := seq(SEATS, _ => 0), acted := seq(SEATS, _ => -1));
    assert NeedsToAct(h, i);
    NextSpec(h, u.h.button);
  }

  /** THEOREM.  What follows an action on the chain.  A hand folds out exactly when one contender is left.  Without a
      dealer it is shown down exactly when nobody needs to act and the river is bet or fewer than two contenders have
      chips, and otherwise goes to the very next street with its board cards; with a dealer it waits for the cards of
      the next street, or for the showdown after the river. */
  lemma AfterMoveDecides(p: Play, m: Game)
    requires ChipsOk(m) && BoardOk(p) && p.stage == Playing && m.h.street == p.h.street && Contenders(m.h, 0) >= 1
    ensures var o, u := AfterMove(p, m), ReturnUncalled(m);
      && Shaped(u) && !o.Refunds?
      && (o.FoldsOut? <==> Contenders(m.h, 0) == 1)
      && (o.ShowsDown? <==> !p.dealer && Contenders(m.h, 0) >= 2 && !SomeoneNeeds(m.h) && (m.h.street == River || WithChips(u, 0) < 2))
      && (o.Goes? && SomeoneNeeds(m.h) ==> o.stage == Playing && o.g.h.street == m.h.street && o.board == p.board)
      && (o.Goes? && !SomeoneNeeds(m.h) && !p.dealer ==>
            && o.stage == Playing && StreetsLeft(o.g.h.street) + 1 == StreetsLeft(m.h.street)
            && o.g.h.actionOn.Some? && |o.board| == StreetCards(o.g.h.street) && p.board <= o.board)
      && (o.Goes? && !SomeoneNeeds(m.h) && p.dealer ==>
            && o.stage == WaitAfter(m.h.street) && o.g.h.street == m.h.street && o.board == p.board && o.g.h.actionOn.None?)
  {
    hide Contenders, NextToAct, ReturnUncalled, StreetComplete, WithChips, CompleteByFolds, OpenStreet, NeedsToAct, BoardFrom;
    CompleteIffNobodyNeeds(m.h);
    ReturnChips(m);
    var u := ReturnUncalled(m);
    if Contenders(m.h, 0) >= 2 && StreetComplete(m.h) && u.h.street != River && WithChips(u, 0) >= 2 {
      SomeoneOpens(u, NextStreet(u.h.street));
      OpenStreetIs(u, NextStreet(u.h.street));
    }
  }

  /** THEOREM.  A board card: until the street is complete only the board grows; then the very next street begins, bet
      if at least two contenders have chips, and followed by the wait for the one after it otherwise. */
  lemma BoardNextDecides(t: PokerTable, card: nat)
    requires TableOk(t) && MayStep(t, BoardCard(card))
    ensures var o, p, g := BoardNext(t, card), t.hand.value, GameOf(t);
      && o.Goes? && Shaped(g) && o.board == p.board + [card] && o.g.stack == g.stack
      && (|o.board| < StreetCards(NextStreet(g.h.street)) ==> o.stage == p.stage && o.g == g)
      && (|o.board| >= StreetCards(NextStreet(g.h.street)) ==>
            && StreetsLeft(o.g.h.street) + 1 == StreetsLeft(g.h.street) && |o.board| == StreetCards(o.g.h.street)
            && (o.stage == Playing <==> WithChips(g, 0) >= 2)
            && (o.stage == Playing ==> o.g.h.actionOn.Some?)
            && (o.stage != Playing ==> o.stage == WaitAfter(o.g.h.street) && o.g.h.actionOn.None?))
  {
    hide Contenders, NextToAct, WithChips, OpenStreet;
    PlayShaped(t);
    var g := GameOf(t);
    OpenStreetIs(g, NextStreet(g.h.street));
    if WithChips(g, 0) >= 2 { SomeoneOpens(g, NextStreet(g.h.street)); }
  }

  /** THEOREM.  Without a dealer the board is always the next cards of the deck after the hole cards: it begins where it
      began, and a showdown is held over the five cards from there. */
  lemma BoardFromDeck(p: Play, m: Game)
    requires ChipsOk(m) && BoardOk(p) && p.stage == Playing && !p.dealer && m.h.street == p.h.street && Contenders(m.h, 0) >= 1
    ensures var o := AfterMove(p, m);
      && 0 <= BoardFrom(p) && BoardFrom(p) + 5 <= |p.deck|
      && (o.Goes? ==> BoardFrom(Continued(p, o)) == BoardFrom(p) && |o.board| <= 5 && o.board == p.deck[BoardFrom(p)..BoardFrom(p) + |o.board|])
      && (o.ShowsDown? ==> o.board == p.deck[BoardFrom(p)..BoardFrom(p) + 5])
  {
    hide Contenders, NextToAct, ReturnUncalled, StreetComplete, WithChips, CompleteByFolds, OpenStreet, NeedsToAct;
    ReturnChips(m);
    var c := BoardFrom(p);
    forall n: nat | p.cursor + n <= |p.deck|
      ensures DealBoard(p, n) == p.deck[c..p.cursor + n]
    {
    }
  }

  /** Both hole cards of a seat, whichever is shown first. */
  lemma BothShown(p: Play, s: nat, a: nat, b: nat)
    requires |p.hole| == SEATS && s < SEATS
    ensures WithHole(WithHole(p, 2 * s, a), 2 * s + 1, b) == WithHole(WithHole(p, 2 * s + 1, b), 2 * s, a)
    ensures var q := WithHole(WithHole(p, 2 * s, a), 2 * s + 1, b);
      q == p.(hole := p.hole[s := (a, b)], shown := p.shown + {2 * s, 2 * s + 1})
  {
    assert (2 * s) / 2 == s && (2 * s + 1) / 2 == s && (2 * s) % 2 == 0 && (2 * s + 1) % 2 == 1;
    assert p.shown + {2 * s} + {2 * s + 1} == p.shown + {2 * s, 2 * s + 1} == p.shown + {2 * s + 1} + {2 * s};
  }

  // ---------------------------------------------------------------- agreement

  /** THEOREM.  The chain accepts a move of the seat on turn, under exactly one of its words, if and only if the
      TypeScript engine accepts it. */
  lemma SameMoves(t: PokerTable, seat: nat, m: Action)
    requires TableOk(t) && MayAct(t, seat) && (m.BetTo? ==> m.amount > 0)
    ensures Shaped(GameOf(t)) && GameOf(t).stack[seat].Some?
    ensures Move(GameOf(t), seat, m).Ok? <==> exists a :: MoveOf(t.hand.value.h, a) == Ok(m) && Legal(t, seat, a)
    ensures forall a, b :: MoveOf(t.hand.value.h, a) == Ok(m) && MoveOf(t.hand.value.h, b) == Ok(m) ==> a == b
  {
    hide Move, PotOk, BoardOk;
    PlayShaped(t);
    var h := t.hand.value.h;
    var a := match m
      case Fold => Folds
      case Check => Checks
      case Call => Calls
      case BetTo(x) => if h.betTo == 0 then Bets(x) else Raises(x);
    assert MoveOf(h, a) == Ok(m);
  }

  /** Equal up to the clock. */
  ghost predicate SameButClock(g: Game, r: Game) { r == g.(h := g.h.(deadline := r.h.deadline)) }

  lemma OpenIsAdvance(u: Game, now: nat)
    requires Shaped(u)
    ensures SameButClock(OpenStreet(u, NextStreet(u.h.street)), AdvanceStreet(u, now))
  {
    hide NextToAct, NextOccupied;
    var h := u.h.(street := NextStreet(u.h.street), betTo := 0, minRaise := u.params.bigBlind, interval := 0,
                  streetCommit := seq(SEATS, _ => 0), acted := seq(SEATS, _ => -1));
    FromTheButton(u, h);
  }

  /** THEOREM.  After every move of every state both engines do the same: they end the hand by folds with the same
      stacks, come to a showdown over the same commitments and contenders, or go on in the same state up to the clock. */
  lemma EnginesAgree(p: Play, m: Game, now: nat)
    requires ChipsOk(m) && BoardOk(p) && p.stage == Playing && !p.dealer && m.h.street == p.h.street && Contenders(m.h, 0) >= 1
    requires m.h.phase == Phase.Betting
    ensures var o, r := AfterMove(p, m), MaybeAdvance(m, now);
      && (o.FoldsOut? <==> r.h.phase == Complete) && (o.FoldsOut? ==> o.g == r)
      && (o.ShowsDown? <==> r.h.phase == AtShowdown)
      && (o.ShowsDown? ==> o.g.stack == r.stack && o.g.h.totalCommit == r.h.totalCommit && o.g.h.inHand == r.h.inHand && o.g.h.folded == r.h.folded)
      && (o.Goes? <==> r.h.phase == Phase.Betting) && (o.Goes? ==> SameButClock(o.g, r))
  {
    hide Contenders, NextToAct, ReturnUncalled, StreetComplete, WithChips, CompleteByFolds, OpenStreet, AdvanceStreet, NeedsToAct, SidePots;
    AfterMoveDecides(p, m);
    CompleteIffNobodyNeeds(m.h);
    ReturnChips(m);
    ReturnPhase(m);
    var u := ReturnUncalled(m);
    OpenIsAdvance(u, now);
    OpenPhase(u);
    if Contenders(m.h, 0) <= 1 { FoldPhase(m); }
  }

  lemma ReturnPhase(m: Game)
    requires Shaped(m)
    ensures ReturnUncalled(m).h.phase == m.h.phase
  {
  }

  lemma OpenPhase(u: Game)
    requires Shaped(u)
    ensures OpenStreet(u, NextStreet(u.h.street)).h.phase == u.h.phase
  {
  }

  lemma FoldPhase(m: Game)
    requires ChipsOk(m) && Contenders(m.h, 0) >= 1
    ensures CompleteByFolds(m).h.phase == Complete
  {
    hide Contenders, ReturnUncalled;
    SomeContender(m.h, 0);
    ReturnChips(m);
  }

  /** And with a dealer: the street that opens once its cards are public is the one the TypeScript engine opens. */
  lemma DealerAgrees(t: PokerTable, card: nat, now: nat)
    requires TableOk(t) && MayStep(t, BoardCard(card)) && BoardNext(t, card).Goes? && BoardNext(t, card).stage == Playing
    ensures Shaped(GameOf(t)) && SameButClock(BoardNext(t, card).g, AdvanceStreet(GameOf(t), now))
  {
    hide Contenders, NextToAct, WithChips, OpenStreet, AdvanceStreet;
    PlayShaped(t);
    OpenIsAdvance(GameOf(t), now);
  }

  // ---------------------------------------------------------------- the start

  /** The first occupied seat is the first funded one if it is funded. */
  lemma {:induction false} OccupiedIsFunded(t: Table, from: nat, off: nat)
    requires TableShaped(t) && from < SEATS && off > 0
    requires NextOccupied(t.stack, from, off) < SEATS && Funded(t, NextOccupied(t.stack, from, off)) && (off <= SEATS ==> NextOccupied(t.stack, from, off) != from)
    ensures NextFunded(t, from, off) == NextOccupied(t.stack, from, off)
    decreases SEATS + 1 - off
  {
    if off <= SEATS {
      var s := (from + off) % SEATS;
      if t.stack[s].None? && off < SEATS { OccupiedIsFunded(t, from, off + 1); }
    }
  }

  /** THEOREM.  The engines charge the same blinds to the same seats if and only if the seats the TypeScript engine
      charges have chips: it does not pass over occupied seats without any. */
  lemma SameBlindsIff(t: Table)
    requires TableShaped(t) && FundedSeats(t, 0) >= 2
    ensures SmallBlindSeat(t) < SEATS && BigBlindSeat(t) < SEATS
    ensures SmallBlindSeat(t) == SbSeat(t) && BigBlindSeat(t) == BbSeat(t) <==> Funded(t, SmallBlindSeat(t)) && Funded(t, BigBlindSeat(t))
  {
    hide NextOccupied, NextFunded, FundedSeats, NextButton;
    BlindSeats(t);
    SeatsFunded(t);
    if Funded(t, SmallBlindSeat(t)) && Funded(t, BigBlindSeat(t)) {
      if FundedSeats(t, 0) != 2 {
        NotButton(t);
        OccupiedIsFunded(t, NextButton(t), 1);
      }
      OccupiedIsFunded(t, SbSeat(t), 1);
    }
  }

  lemma NotButton(t: Table)
    requires TableShaped(t) && FundedSeats(t, 0) >= 2
    ensures NextButton(t) < SEATS && NextOccupied(t.stack, NextButton(t), 1) != NextButton(t)
  {
    hide NextOccupied, NextFunded, FundedSeats;
    TwoFunded(t, 0);
    var a, b :| 0 <= a < b < SEATS && Funded(t, a) && Funded(t, b);
    BlindSeats(t);
    var button := NextButton(t);
    NextOccupiedFound(t.stack, button, 1, Distance(button, if button == a then b else a));
  }

  /** THEOREM.  And then they start the hand in the same state, up to the clock. */
  lemma SameStart(t: Table, now: nat)
    requires TableShaped(t) && FundedSeats(t, 0) >= 2 && SmallBlindSeat(t) == SbSeat(t) && BigBlindSeat(t) == BbSeat(t)
    ensures StartHand(t, now).Ok?
    ensures StartHand(t, now).value.h.phase == Phase.Betting <==> Posted(t).h.actionOn.Some?
    ensures StartHand(t, now).value.h.phase == Phase.Betting ==> SameButClock(Posted(t), StartHand(t, now).value)
    ensures StartHand(t, now).value.h.phase != Phase.Betting ==>
              && StartHand(t, now).value.h.phase == AtShowdown && StartHand(t, now).value.stack == Posted(t).stack
              && StartHand(t, now).value.h.totalCommit == Posted(t).h.totalCommit
  {
    hide SmallBlindSeat, BigBlindSeat, SbSeat, BbSeat, NextButton, FundedSeats, NextToAct, SidePots;
    BlindSeats(t);
    FreshShaped(t);
    var g, b := Posted(t), BlindsPosted(t);
    assert FreshHand(t) == Fresh(t).h;
    assert b == g.(h := g.h.(actionOn := None));
    SameTurn(b.h, g.h, BigBlindSeat(t), 1);
    SameTurn(b.h, b.h.(actionOn := NextToAct(b.h, BigBlindSeat(t), 1)), BigBlindSeat(t), 1);
  }
}
