/** The dealer's view of a hand (`DealerHand`) and the table's (`ChainTurn`) describe the same steps: what opens, closes,
    deals or aborts a hand moves both to the same phase, board, turn and stacks. */
module ChainDesk {
  import opened Outcome
  import opened Pots
  import opened Betting
  import opened BettingSafety
  import opened BettingStreets
  import opened ChainTable
  import opened ChainTurn
  import opened ChainTwin
  import ChainStart
  import DealerHand
  import DealerProgress
  import Settlement

  /** The stage of the table in a phase of the dealer. */
  function StageOf(p: DealerHand.Phase): Option<Stage> {
    match p
    case Shuffling => Some(Stage.Shuffling)
    case Dealing => Some(Stage.Shuffling)
    case Betting => Some(Stage.Playing)
    case AwaitFlop => Some(Stage.AwaitFlop)
    case AwaitTurn => Some(Stage.AwaitTurn)
    case AwaitRiver => Some(Stage.AwaitRiver)
    case AwaitShowdown => Some(Stage.AwaitShowdown)
    case AllShown => None
    case Refunded => None
  }

  ghost predicate SameSeating(d: DealerHand.Desk, g: Game) {
    && DealerHand.Shaped(d) && Shaped(g) && d.stack == g.stack && d.inHand == g.h.inHand && d.folded == g.h.folded && d.allIn == g.h.allIn
    && d.commit == g.h.totalCommit && d.button == g.h.button
  }

  /** Desk and table describe the same hand. */
  ghost predicate Matches(d: DealerHand.Desk, t: PokerTable) {
    && TableOk(t) && t.hand.Some? && t.hand.value.dealer && SameSeating(d, GameOf(t))
    && StageOf(d.phase) == Some(t.hand.value.stage) && d.board == t.hand.value.board && d.actionOn == t.hand.value.h.actionOn
  }

  lemma {:induction false} SameChipCount(d: DealerHand.Desk, g: Game, i: nat)
    requires SameSeating(d, g)
    ensures DealerHand.WithChips(d, i) == WithChips(g, i)
    decreases SEATS - i
  {
    if i < SEATS { SameChipCount(d, g, i + 1); }
  }

  /** On a fresh street those who can act are the contenders that are not all-in. */
  lemma {:induction false} SameFirst(d: DealerHand.Desk, h: Hand, off: nat)
    requires DealerHand.Shaped(d) && |h.allIn| == |h.acted| == |h.streetCommit| == SEATS && d.inHand == h.inHand && d.folded == h.folded && d.allIn == h.allIn
    requires h.interval == 0 && (forall i :: 0 <= i < SEATS ==> h.acted[i] == -1) && d.button == h.button && off >= 1
    ensures DealerHand.FirstToAct(d, off) == NextToAct(h, h.button, off)
    decreases SEATS + 1 - off
  {
    if off <= SEATS {
      var s := (h.button + off) % SEATS;
      assert NeedsToAct(h, s) <==> DealerHand.Contends(d, s) && !d.allIn[s];
      SameFirst(d, h, off + 1);
    }
  }

  lemma OpensAlike(d: DealerHand.Desk, g: Game, s: Street)
    requires SameSeating(d, g)
    ensures SameSeating(d, OpenStreet(g, s)) && OpenStreet(g, s).h.actionOn == DealerHand.FirstToAct(d, 1)
  {
    hide NextToAct, DealerHand.FirstToAct, NeedsToAct;
    var h := g.h.(street := s, betTo := 0, minRaise := g.params.bigBlind, interval := 0,
                  streetCommit := seq(SEATS, _ => 0), acted := seq(SEATS, _ => -1));
    SameFirst(d, h, 1);
  }

  /** Board, phase, street and turn do not matter to the seating. */
  lemma Reseated(d: DealerHand.Desk, e: DealerHand.Desk, g: Game, r: Game)
    requires SameSeating(d, g) && e == d.(board := e.board, phase := e.phase, actionOn := e.actionOn)
    requires r == g.(h := g.h.(street := r.h.street, actionOn := r.h.actionOn))
    ensures SameSeating(e, r)
  {
  }

  lemma SeatingShaped(d: DealerHand.Desk, g: Game)
    requires SameSeating(d, g)
    ensures DealerHand.Shaped(d) && Shaped(g)
  {
  }

  /** The street a board card completes. */
  lemma BoardFull(t: PokerTable, d: DealerHand.Desk, card: nat)
    requires Matches(d, t) && MayStep(t, BoardCard(card))
    ensures var n := |d.board| + 1;
      && d.board == t.hand.value.board
      && (n == DealerHand.StreetSize(d.phase) <==> n >= StreetCards(NextStreet(t.hand.value.h.street)))
      && StageOf(DealerHand.NextWait(d.phase)) == Some(WaitAfter(NextStreet(t.hand.value.h.street)))
  {
    hide PotOk, SameSeating;
  }

  /** THEOREM.  A board card: both show the same board, wait or bet alike, and give the turn to the same seat. */
  lemma BoardCardAgrees(d: DealerHand.Desk, t: PokerTable, card: nat)
    requires Matches(d, t) && MayStep(t, BoardCard(card))
    ensures var e, o := DealerHand.BoardGrown(d, card), BoardNext(t, card);
      o.Goes? && StageOf(e.phase) == Some(o.stage) && e.board == o.board && e.actionOn == o.g.h.actionOn && SameSeating(e, o.g)
  {
    hide WithChips, DealerHand.WithChips, DealerHand.FirstToAct, PotOk, BoardOk, OpenStreet, SameSeating,
      DealerHand.NextWait, WaitAfter, DealerHand.StreetSize, StreetCards;
    PlayShaped(t);
    BoardFull(t, d, card);
    var g, b := GameOf(t), d.(board := d.board + [card]);
    Reseated(d, b, g, g);
    SeatingShaped(b, g);
    SameChipCount(b, g, 0);
    var e, o := DealerHand.BoardGrown(d, card), BoardNext(t, card);
    if |o.board| >= StreetCards(NextStreet(g.h.street)) && WithChips(g, 0) >= 2 {
      OpensAlike(b, g, NextStreet(g.h.street));
      Reseated(b, e, o.g, o.g);
    } else {
      Reseated(b, e, g, o.g);
    }
  }

  /** THEOREM.  The end of a betting round: both wait for the same cards, with the same stacks and contenders. */
  lemma CloseAgrees(d: DealerHand.Desk, t: PokerTable, m: Game, now: int)
    requires Matches(d, t) && t.hand.value.stage == Playing && m.h.street == t.hand.value.h.street && m.h.button == d.button
    requires ChipsOk(m) && Contenders(m.h, 0) >= 2 && !SomeoneNeeds(m.h) && m.h.inHand == d.inHand
    ensures var o := AfterMove(t.hand.value, m);
      var r := DealerHand.CloseStreet(d, DealerHand.Bets(o.g.stack, o.g.h.totalCommit, o.g.h.folded, o.g.h.allIn), now);
      o.Goes? && (r.Ok? ==> StageOf(r.value.phase) == Some(o.stage) && r.value.board == o.board && r.value.actionOn == o.g.h.actionOn && SameSeating(r.value, o.g))
  {
    hide Contenders, NextToAct, WithChips, PotOk, NeedsToAct, ReturnUncalled, StreetComplete, CompleteByFolds, DealerHand.ExpectedPos, OpenStreet, SomeoneNeeds;
    BoardFits(t);
    AfterMoveDecides(t.hand.value, m);
    NeedsIffIncomplete(m.h);
    ReturnChips(m);
  }

  /** THEOREM.  Opening and aborting: both start the betting or wait for the flop, and give back the same stacks. */
  lemma OpenAndAbortAgree(d: DealerHand.Desk, t: PokerTable, late: bool, now: nat)
    requires Matches(d, t)
    ensures MayStep(t, OpenBetting(late)) && DealerHand.OpenBetting(d, now).Ok? ==>
              var e, o := DealerHand.OpenBetting(d, now).value, DealerTurn(t, OpenBetting(late), now).o;
              o.Goes? && StageOf(e.phase) == Some(o.stage) && e.actionOn == o.g.h.actionOn && SameSeating(e, o.g)
    ensures MayStep(t, DealerStep.Abort) && DealerTurn(t, DealerStep.Abort, now).o == Refunds(GameOf(t))
    ensures forall i :: 0 <= i < SEATS ==> DealerHand.Abort(d).stack[i] == Settlement.Credited(GameOf(t).stack[i], GameOf(t).h.totalCommit[i])
  {
    hide Contenders, DealerHand.ExpectedPos, PotOk, BoardOk;
  }

  /** THEOREM.  Both deal alike: the card a seat is dealt from a plain deck is the card at the position the dealer reserves
      for it. */
  lemma DealsAlike(o: seq<nat>, deck: seq<nat>, s: nat)
    requires 2 * |o| <= |deck| && (forall k :: 0 <= k < |o| ==> o[k] < SEATS) && DealerProgress.NoRepeat(o) && s in o
    ensures s < SEATS
    ensures var p0, p1 := DealerHand.HolePosition(o, |deck|, s, 0), DealerHand.HolePosition(o, |deck|, s, 1);
      p0.Some? && p1.Some? && p0.value < |deck| && p1.value < |deck| && ChainStart.Holes(o, deck, |o|)[s] == (deck[p0.value], deck[p1.value])
  {
    hide ChainStart.Holes;
    var k := DealerHand.Find(o, s).value;
    ChainStart.HolesDealt(o, deck, |o|, k);
  }
}
