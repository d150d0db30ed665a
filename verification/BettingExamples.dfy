/** Two hands played from the deal, at which the code does less than one would expect. */
module BettingExamples {
  import opened Outcome
  import opened Pots
  import opened Betting
  import opened BettingSafety
  import opened BettingStart
  import opened BettingTermination
  import opened BettingLegal
  import Settlement

  // ---------------------------------------------------------------- counting at a concrete table

  ghost function One(b: bool): nat { if b then 1 else 0 }

  lemma CountContenders(h: Hand)
    requires |h.inHand| == |h.folded| == SEATS
    ensures Contenders(h, 0) == One(Contends(h, 0)) + One(Contends(h, 1)) + One(Contends(h, 2)) + One(Contends(h, 3)) + Contenders(h, 4)
    ensures (forall i :: 4 <= i < SEATS ==> !h.inHand[i]) ==> Contenders(h, 4) == 0
  {
    assert Contenders(h, 1) == One(Contends(h, 1)) + Contenders(h, 2);
    assert Contenders(h, 3) == One(Contends(h, 3)) + Contenders(h, 4);
    if forall i :: 4 <= i < SEATS ==> !h.inHand[i] { NobodyFrom(h, 4); }
  }

  lemma {:induction false} NobodyFrom(h: Hand, i: nat)
    requires |h.inHand| == |h.folded| == SEATS && forall k :: i <= k < SEATS ==> !h.inHand[k]
    ensures Contenders(h, i) == 0
    decreases SEATS - i
  {
    if i < SEATS { NobodyFrom(h, i + 1); }
  }

  lemma CountChips(g: Game)
    requires Shaped(g) && forall i :: 4 <= i < SEATS ==> !g.h.inHand[i]
    ensures WithChips(g, 0) == One(HasChips(g, 0)) + One(HasChips(g, 1)) + One(HasChips(g, 2)) + One(HasChips(g, 3))
  {
    assert WithChips(g, 1) == One(HasChips(g, 1)) + WithChips(g, 2);
    assert WithChips(g, 3) == One(HasChips(g, 3)) + WithChips(g, 4);
    NoChipsFrom(g, 4);
  }

  ghost predicate HasChips(g: Game, i: nat)
    requires Shaped(g) && i < SEATS
  {
    Contends(g.h, i) && Stack(g, i) > 0
  }

  lemma {:induction false} NoChipsFrom(g: Game, i: nat)
    requires Shaped(g) && forall k :: i <= k < SEATS ==> !g.h.inHand[k]
    ensures WithChips(g, i) == 0
    decreases SEATS - i
  {
    if i < SEATS { NoChipsFrom(g, i + 1); }
  }

  // ---------------------------------------------------------------- an offer that is refused

  ghost function HeadsUp(): Table {
    Table(Params(5, 10, 30, true), [Some(100), Some(100), None, None, None, None, None, None, None], None)
  }

  /** The hand dealt there: seat 0 has the button and the small blind. */
  ghost function Dealt(): Game {
    Game(Params(5, 10, 30, true), [Some(95), Some(90), None, None, None, None, None, None, None],
         Hand(Phase.Betting, Preflop, 0, 0, 1, Some(0), Some(30), 10, 10, 0, seq(SEATS, _ => -1),
              [5, 10, 0, 0, 0, 0, 0, 0, 0], [5, 10, 0, 0, 0, 0, 0, 0, 0],
              [true, true, false, false, false, false, false, false, false],
              seq(SEATS, _ => false), seq(SEATS, _ => false), [], None))
  }

  /** The small blind has called. */
  ghost function Called(): Game {
    Game(Params(5, 10, 30, true), [Some(90), Some(90), None, None, None, None, None, None, None],
         Dealt().h.(streetCommit := [10, 10, 0, 0, 0, 0, 0, 0, 0], totalCommit := [10, 10, 0, 0, 0, 0, 0, 0, 0],
                    acted := Dealt().h.acted[0 := 0], actionOn := Some(1)))
  }

  lemma HeadsUpSeats()
    ensures TableShaped(HeadsUp()) && FundedSeats(HeadsUp(), 0) == 2
    ensures NextButton(HeadsUp()) == 0 && SmallBlindSeat(HeadsUp()) == 0 && BigBlindSeat(HeadsUp()) == 1
  {
    var t := HeadsUp();
    FundedFrom(t, 2);
    assert FundedSeats(t, 1) == 1;
    assert NextButton(t) == 0;
    assert SmallBlindSeat(t) == 0;
  }

  lemma HeadsUpPosted()
    requires TableShaped(HeadsUp()) && FundedSeats(HeadsUp(), 0) == 2
    requires NextButton(HeadsUp()) == 0 && SmallBlindSeat(HeadsUp()) == 0 && BigBlindSeat(HeadsUp()) == 1
    ensures BlindsPosted(HeadsUp()) == Dealt().(h := Dealt().h.(actionOn := None, deadline := None))
  {
    hide FundedSeats, NextButton, SmallBlindSeat, BigBlindSeat, NextOccupied, NextFunded;
    var t, p := HeadsUp(), BlindsPosted(HeadsUp());
    assert FreshHand(t).inHand == Dealt().h.inHand;
    assert p.h.streetCommit == Dealt().h.streetCommit && p.h.totalCommit == Dealt().h.totalCommit;
    assert p.stack == Dealt().stack;
  }

  lemma HeadsUpFirst(p: Game)
    requires p == Dealt().(h := Dealt().h.(actionOn := None, deadline := None))
    ensures |p.h.inHand| == |p.h.folded| == |p.h.allIn| == |p.h.acted| == |p.h.streetCommit| == SEATS
    ensures NextToAct(p.h, 1, 1) == Some(0)
  {
    hide NextToAct;
    forall j | 1 <= j < 8
      ensures !NeedsToAct(p.h, SeatAfter(1, j))
    {
      assert SeatAfter(1, j) == 1 + j;
    }
    Skip(p.h, 1, 1, 8, 0);
  }

  lemma HeadsUpDeal()
    ensures TableShaped(HeadsUp()) && StartHand(HeadsUp(), 0) == Ok(Dealt()) && Shaped(Dealt())
  {
    hide FundedSeats, NextButton, SmallBlindSeat, BigBlindSeat, BlindsPosted, NextToAct, StartHand;
    HeadsUpSeats();
    HeadsUpPosted();
    HeadsUpFirst(BlindsPosted(HeadsUp()));
    StartedAt(HeadsUp(), 0);
  }

  lemma HeadsUpCall()
    requires Shaped(Dealt())
    ensures ApplyAction(Dealt(), 0, Call, 0) == Ok(Called())
  {
    hide Move, MaybeAdvance;
    HeadsUpMove();
    MoveShaped(Dealt(), 0, Call);
    HeadsUpNext(Called().(h := Called().h.(actionOn := Some(0))));
  }

  lemma HeadsUpMove()
    requires Shaped(Dealt())
    ensures Move(Dealt(), 0, Call) == Ok(Called().(h := Called().h.(actionOn := Some(0))))
  {
    var m := Move(Dealt(), 0, Call).value;
    assert m.h.streetCommit == Called().h.streetCommit && m.h.totalCommit == Called().h.totalCommit && m.stack == Called().stack;
  }

  lemma HeadsUpNext(m: Game)
    requires Shaped(m) && m == Called().(h := Called().h.(actionOn := Some(0)))
    ensures MaybeAdvance(m, 0) == Called()
  {
    hide Contenders, NextToAct, ReturnUncalled, WithChips;
    CountContenders(m.h);
    assert NeedsToAct(m.h, 1);
    CompleteIffNobodyNeeds(m.h);
    Skip(m.h, 0, 1, 1, 1);
  }

  lemma CalledIsStale()
    requires Inv(Called())
    ensures StaleOffer(Called()) && Called().params.bigBlind == 10 && Called().h.actionOn == Some(1)
  {
    hide Contenders;
  }

  lemma Phases()
    ensures Dealt().h.phase == Phase.Betting && Called().h.phase == Phase.Betting && HeadsUp().params.bigBlind == 10
  {
  }

  /** A hand at a real table: the small blind calls, the action list offers the big blind, on its option, a bet of one
      big blind, and the engine refuses it. */
  lemma StaleOption()
    ensures TableShaped(HeadsUp()) && StartHand(HeadsUp(), 0) == Ok(Dealt()) && Shaped(Dealt()) && ApplyAction(Dealt(), 0, Call, 0) == Ok(Called())
    ensures Inv(Called()) && StaleOffer(Called()) && BetTo(10) in LegalActions(Called()) && ApplyAction(Called(), 1, BetTo(10), 0).Err?
  {
    hide HeadsUp, Dealt, Called, Inv, Closed, StartHand, ApplyAction, StaleOffer, LegalActions, Move;
    HeadsUpDeal();
    HeadsUpCall();
    Phases();
    DealtInv(HeadsUp(), Dealt(), 0);
    ActionKeeps(Dealt(), 0, Call, 0);
    OpenInv(Called());
    CalledIsStale();
    StaleBet(Called());
    AcceptedIs(Called(), BetTo(10), 0);
  }

  lemma DealtInv(t: Table, g: Game, now: nat)
    requires TableShaped(t) && t.params.bigBlind > 0 && StartHand(t, now) == Ok(g) && g.h.phase == Phase.Betting
    ensures Inv(g)
  {
    hide StartHand, Inv, Bounded, SbPay, BbPay, FundedSeats;
    StartEstablishes(t, now);
  }

  lemma OpenInv(r: Game)
    requires (Inv(r) || Closed(r)) && r.h.phase == Phase.Betting
    ensures Inv(r)
  {
  }

  /** The search passes over seats that need not act. */
  lemma {:induction false} Skip(h: Hand, from: int, off: nat, k: nat, s: nat)
    requires |h.inHand| == |h.folded| == |h.allIn| == |h.acted| == |h.streetCommit| == SEATS && from >= -1 && 1 <= off <= k <= SEATS
    requires s == (from + k) % SEATS && NeedsToAct(h, s) && forall j :: off <= j < k ==> !NeedsToAct(h, SeatAfter(from, j))
    ensures NextToAct(h, from, off) == Some(s)
    decreases k - off
  {
    if off < k {
      assert !NeedsToAct(h, SeatAfter(from, off));
      Skip(h, from, off + 1, k, s);
    }
  }

  // ---------------------------------------------------------------- a pot nobody wins

  /** Four seats; both blinds are all-in once posted. */
  ghost function Four(): Table {
    Table(Params(5, 10, 30, true), [Some(100), Some(5), Some(10), Some(100), None, None, None, None, None], None)
  }

  ghost function FourDealt(): Game {
    Game(Params(5, 10, 30, true), [Some(100), Some(0), Some(0), Some(100), None, None, None, None, None],
         Hand(Phase.Betting, Preflop, 0, 1, 2, Some(3), Some(30), 10, 10, 0, seq(SEATS, _ => -1),
              [0, 5, 10, 0, 0, 0, 0, 0, 0], [0, 5, 10, 0, 0, 0, 0, 0, 0],
              [true, true, true, true, false, false, false, false, false], seq(SEATS, _ => false),
              [false, true, true, false, false, false, false, false, false], [], None))
  }

  /** Seat 3 has raised to 20. */
  ghost function FourRaised(): Game {
    FourDealt().(stack := [Some(100), Some(0), Some(0), Some(80), None, None, None, None, None],
                 h := FourDealt().h.(streetCommit := [0, 5, 10, 20, 0, 0, 0, 0, 0], totalCommit := [0, 5, 10, 20, 0, 0, 0, 0, 0],
                                     betTo := 20, interval := 1, acted := FourDealt().h.acted[3 := 1], actionOn := Some(0)))
  }

  /** Seat 0 has called, and the flop is open. */
  ghost function FourFlop(): Game {
    FourDealt().(stack := [Some(80), Some(0), Some(0), Some(80), None, None, None, None, None],
                 h := FourDealt().h.(street := Flop, streetCommit := seq(SEATS, _ => 0), totalCommit := [20, 5, 10, 20, 0, 0, 0, 0, 0],
                                     betTo := 0, actionOn := Some(3)))
  }

  /** Seat 3 has folded, facing nothing. */
  ghost function FourFolded(): Game {
    FourFlop().(h := FourFlop().h.(folded := FourFlop().h.folded[3 := true], acted := FourFlop().h.acted[3 := 0], actionOn := Some(0)))
  }

  /** Seat 0 has folded too: the two blinds are left and show their cards. */
  ghost function FourShown(): Game {
    var h := FourFolded().h.(folded := FourFolded().h.folded[0 := true], acted := FourFolded().h.acted[0 := 0]);
    FourFolded().(h := h.(phase := AtShowdown, actionOn := None, deadline := None, pots := SidePots(h.totalCommit, Eligible(h))))
  }

  lemma FourSeats()
    ensures TableShaped(Four()) && FundedSeats(Four(), 0) == 4
    ensures NextButton(Four()) == 0 && SmallBlindSeat(Four()) == 1 && BigBlindSeat(Four()) == 2
  {
    var t := Four();
    FundedFrom(t, 4);
    assert FundedSeats(t, 3) == 1;
    assert FundedSeats(t, 2) == 2;
    assert FundedSeats(t, 1) == 3;
    assert NextButton(t) == 0;
    assert SmallBlindSeat(t) == 1;
  }

  lemma FourPosted()
    requires TableShaped(Four()) && FundedSeats(Four(), 0) == 4
    requires NextButton(Four()) == 0 && SmallBlindSeat(Four()) == 1 && BigBlindSeat(Four()) == 2
    ensures BlindsPosted(Four()) == FourDealt().(h := FourDealt().h.(actionOn := None, deadline := None))
  {
    hide FundedSeats, NextButton, SmallBlindSeat, BigBlindSeat, NextOccupied, NextFunded;
    var t, p := Four(), BlindsPosted(Four());
    assert FreshHand(t).inHand == FourDealt().h.inHand;
    assert p.h.streetCommit == FourDealt().h.streetCommit && p.h.totalCommit == FourDealt().h.totalCommit;
    assert p.h.allIn == FourDealt().h.allIn;
    assert p.stack == FourDealt().stack;
  }

  lemma FourDeal()
    ensures TableShaped(Four()) && StartHand(Four(), 0) == Ok(FourDealt()) && Shaped(FourDealt())
  {
    hide FundedSeats, NextButton, SmallBlindSeat, BigBlindSeat, BlindsPosted, NextToAct, StartHand;
    FourSeats();
    FourPosted();
    var p := BlindsPosted(Four());
    Skip(p.h, 2, 1, 1, 3);
    StartedAt(Four(), 0);
  }

  /** The raise itself, before the hand moves on. */
  lemma FourRaiseMove()
    requires Shaped(FourDealt())
    ensures Move(FourDealt(), 3, BetTo(20)) == Ok(FourRaised().(h := FourRaised().h.(actionOn := Some(3))))
  {
    var g, r := FourDealt(), FourRaised();
    var m := Move(g, 3, BetTo(20)).value;
    assert m.h.streetCommit == r.h.streetCommit && m.h.totalCommit == r.h.totalCommit && m.stack == r.stack;
  }

  lemma FourRaise()
    requires Shaped(FourDealt())
    ensures Shaped(FourRaised()) && ApplyAction(FourDealt(), 3, BetTo(20), 0) == Ok(FourRaised())
  {
    hide Move, MaybeAdvance;
    FourRaiseMove();
    MoveShaped(FourDealt(), 3, BetTo(20));
    FourRaiseNext(FourRaised().(h := FourRaised().h.(actionOn := Some(3))));
  }

  lemma FourRaiseNext(m: Game)
    requires Shaped(m) && m == FourRaised().(h := FourRaised().h.(actionOn := Some(3)))
    ensures MaybeAdvance(m, 0) == FourRaised()
  {
    hide Contenders, NextToAct, ReturnUncalled, WithChips;
    CountContenders(m.h);
    assert NeedsToAct(m.h, 0);
    CompleteIffNobodyNeeds(m.h);
    forall j | 1 <= j < 6
      ensures !NeedsToAct(m.h, SeatAfter(3, j))
    {
      assert SeatAfter(3, j) == 3 + j;
    }
    Skip(m.h, 3, 1, 6, 0);
  }

  /** The call itself: the street is complete and nothing is uncalled. */
  ghost function FourCalled(): Game {
    FourFlop().(h := FourRaised().h.(streetCommit := [20, 5, 10, 20, 0, 0, 0, 0, 0], totalCommit := [20, 5, 10, 20, 0, 0, 0, 0, 0],
                                     acted := FourRaised().h.acted[0 := 1]))
  }

  lemma FourCallMove()
    requires Shaped(FourRaised())
    ensures Move(FourRaised(), 0, Call) == Ok(FourCalled())
  {
    var m := Move(FourRaised(), 0, Call).value;
    assert m.h.streetCommit == FourCalled().h.streetCommit && m.h.totalCommit == FourCalled().h.totalCommit && m.stack == FourCalled().stack;
  }

  lemma FourCall()
    requires Shaped(FourRaised())
    ensures Shaped(FourFlop()) && ApplyAction(FourRaised(), 0, Call, 0) == Ok(FourFlop())
  {
    hide Move, MaybeAdvance;
    FourCallMove();
    MoveShaped(FourRaised(), 0, Call);
    FourCallNext();
  }

  lemma FourCallNext()
    requires Shaped(FourCalled())
    ensures MaybeAdvance(FourCalled(), 0) == FourFlop()
  {
    hide Contenders, NextToAct, WithChips, NextOccupied, SoleSeat, AdvanceStreet;
    var m := FourCalled();
    CountContenders(m.h);
    NoSole(m.h.streetCommit, 0, 3);
    CountChips(m);
    FourOpens(m);
  }

  /** Two seats share the maximum. */
  lemma NoSole(v: seq<nat>, a: nat, b: nat)
    requires a < b < |v| && v[a] == v[b] && forall i :: 0 <= i < |v| ==> v[i] <= v[a]
    ensures SoleSeat(v).None?
  {
    assert forall s: nat :: !SoleMax(v, s);
  }

  lemma FourOpens(m: Game)
    requires Shaped(m) && m == FourFlop().(h := m.h)
    requires m.h == FourRaised().h.(streetCommit := m.h.streetCommit, totalCommit := FourFlop().h.totalCommit, acted := m.h.acted)
    ensures AdvanceStreet(m, 0) == FourFlop()
  {
    hide NextToAct;
    assert NextOccupied(m.stack, 0, 1) == 1;
    var h := m.h.(street := Flop, betTo := 0, minRaise := 10, interval := 0, streetCommit := seq(SEATS, _ => 0), acted := seq(SEATS, _ => -1));
    assert SeatAfter(0, 1) == 1 && SeatAfter(0, 2) == 2;
    Skip(h, 0, 1, 3, 3);
  }

  lemma FourFoldMove()
    requires Shaped(FourFlop())
    ensures Move(FourFlop(), 3, Fold) == Ok(FourFolded().(h := FourFolded().h.(actionOn := Some(3))))
  {
  }

  lemma FourFold()
    requires Shaped(FourFlop())
    ensures Shaped(FourFolded()) && ApplyAction(FourFlop(), 3, Fold, 0) == Ok(FourFolded())
  {
    hide Contenders, NextToAct, ReturnUncalled, WithChips, Move;
    FourFoldMove();
    MoveShaped(FourFlop(), 3, Fold);
    FourFoldNext(FourFolded().(h := FourFolded().h.(actionOn := Some(3))));
  }

  lemma FourFoldNext(m: Game)
    requires Shaped(m) && m == FourFolded().(h := FourFolded().h.(actionOn := Some(3)))
    ensures MaybeAdvance(m, 0) == FourFolded()
  {
    hide Contenders, NextToAct, ReturnUncalled, WithChips;
    CountContenders(m.h);
    assert NeedsToAct(m.h, 0);
    CompleteIffNobodyNeeds(m.h);
    forall j | 1 <= j < 6
      ensures !NeedsToAct(m.h, SeatAfter(3, j))
    {
      assert SeatAfter(3, j) == 3 + j;
    }
    Skip(m.h, 3, 1, 6, 0);
  }

  lemma FourShow()
    requires Shaped(FourFolded())
    ensures ApplyAction(FourFolded(), 0, Fold, 0) == Ok(FourShown())
  {
    hide MaybeAdvance, SidePots;
    var m := Move(FourFolded(), 0, Fold).value;
    MoveShaped(FourFolded(), 0, Fold);
    FourShowNext(m);
  }

  lemma FourShowNext(m: Game)
    requires Shaped(m)
    requires m == FourFolded().(h := FourFolded().h.(folded := FourFolded().h.folded[0 := true], acted := FourFolded().h.acted[0 := 0]))
    ensures MaybeAdvance(m, 0) == FourShown()
  {
    hide Contenders, NextToAct, WithChips, SoleSeat, SidePots;
    CountContenders(m.h);
    NothingToReturn(m.h.streetCommit);
    CountChips(m);
  }

  lemma NothingToReturn(v: seq<nat>)
    requires forall i :: 0 <= i < |v| ==> v[i] == 0
    ensures SoleSeat(v).None?
  {
    assert forall s: nat :: !SoleMax(v, s);
  }

  /** The pots hold 55 chips, of which only 35 can be won. */
  lemma FourPots()
    ensures PotTotal(FourShown().h.pots) == 55 && Settlement.OpenTotal(FourShown().h.pots) == 35
  {
    hide SidePots, Nested, PotTotal, Settlement.OpenTotal;
    var h := FourShown().h;
    var v, e := h.totalCommit, Eligible(h);
    assert v == [20, 5, 10, 20, 0, 0, 0, 0, 0];
    assert e == [false, true, true, false, false, false, false, false, false];
    FourAmounts(v, e);
  }

  lemma FourAmounts(v: seq<nat>, e: seq<bool>)
    requires v == [20, 5, 10, 20, 0, 0, 0, 0, 0] && e == [false, true, true, false, false, false, false, false, false]
    ensures PotTotal(SidePots(v, e)) == 55 && Settlement.OpenTotal(SidePots(v, e)) == 35
  {
    hide SidePots, Nested, Settlement.TopIsOpen, Settlement.OnlyEligible;
    SidePotsClosedForm(v, e);
    assert Sum(v, 4) == 0 by { Zeros(v, 10, 4); }
    assert Sum(v, 3) == 20;
    assert Sum(v, 2) == 30;
    assert Sum(v, 1) == 35;
    assert Sum(v, 0) == 55;
    assert Matched(v, 10, 4) == 0 by { Zeros(v, 10, 4); }
    assert Matched(v, 10, 3) == 10;
    assert Matched(v, 10, 2) == 20;
    assert Matched(v, 10, 1) == 25;
    assert Matched(v, 10, 0) == 35;
    var d := Settlement.Showdown(v, e, [0, 1, 2, 3, 4], seq(SEATS, _ => (0, 0)));
    Settlement.PotSeats(d, 2);
    Settlement.OpenIsWinnable(SidePots(v, e), 2);
  }

  lemma {:induction false} Zeros(v: seq<nat>, c: nat, i: nat)
    requires forall k :: i <= k < |v| ==> v[k] == 0
    ensures Sum(v, i) == 0 && Matched(v, c, i) == 0
    decreases |v| - i
  {
    if i < |v| { Zeros(v, c, i + 1); }
  }

  /** A hand at a real table: a raise, a call and two folds facing nothing leave the all-in blinds to show their
      cards, and 20 of the 55 chips in the pots can be won by nobody. */
  lemma LostPot()
    ensures TableShaped(Four()) && StartHand(Four(), 0) == Ok(FourDealt()) && Shaped(FourDealt())
    ensures ApplyAction(FourDealt(), 3, BetTo(20), 0) == Ok(FourRaised()) && Shaped(FourRaised())
    ensures ApplyAction(FourRaised(), 0, Call, 0) == Ok(FourFlop()) && Shaped(FourFlop())
    ensures ApplyAction(FourFlop(), 3, Fold, 0) == Ok(FourFolded()) && Shaped(FourFolded())
    ensures ApplyAction(FourFolded(), 0, Fold, 0) == Ok(FourShown())
    ensures PotTotal(FourShown().h.pots) == 55 && Settlement.OpenTotal(FourShown().h.pots) == 35
  {
    hide Four, FourDealt, FourRaised, FourFlop, FourFolded, FourShown, StartHand, ApplyAction;
    FourDeal();
    FourRaise();
    FourCall();
    FourFold();
    FourShow();
    FourPots();
  }
}
