/** Every betting hand ends: the measure, exactly which accepted actions fail to decrease it, and runs. */
module BettingTermination {
  import opened Outcome
  import opened Pots
  import opened Betting
  import opened BettingSafety
  import opened BettingChips
  import opened BettingStart

  function StreetsLeft(s: Street): nat {
    match s case Preflop => 3 case Flop => 2 case Turn => 1 case River => 0
  }

  /** The chips behind of the seats in the hand. */
  ghost function InHandSum(g: Game, i: nat): nat
    requires Shaped(g)
    decreases SEATS - i
  {
    if i >= SEATS then 0 else (if g.h.inHand[i] then Stack(g, i) else 0) + InHandSum(g, i + 1)
  }

  ghost function NeedCount(h: Hand, i: nat): nat
    requires |h.inHand| == |h.folded| == |h.allIn| == |h.acted| == |h.streetCommit| == SEATS
    decreases SEATS - i
  {
    if i >= SEATS then 0 else (if NeedsToAct(h, i) then 1 else 0) + NeedCount(h, i + 1)
  }

  /** Streets left, then chips behind, then seats that need to act, folded into one number. */
  ghost function Rank(g: Game): nat
    requires Shaped(g)
  {
    StreetsLeft(g.h.street) * (10 * (TotalChips(g) + 1)) + 10 * InHandSum(g, 0) + NeedCount(g.h, 0)
  }

  lemma {:induction false} RankParts(g: Game, i: nat)
    requires Shaped(g)
    ensures InHandSum(g, i) <= StackSum(g, i) && NeedCount(g.h, i) <= (if i <= SEATS then SEATS - i else 0)
    decreases SEATS - i
  {
    if i < SEATS { RankParts(g, i + 1); }
  }

  /** An earlier street outweighs everything a later one can hold. */
  lemma StreetOutweighs(g: Game, r: Game)
    requires Shaped(g) && Shaped(r) && TotalChips(r) == TotalChips(g) && StreetsLeft(r.h.street) < StreetsLeft(g.h.street)
    ensures Rank(r) < Rank(g)
  {
    hide InHandSum, NeedCount, StackSum;
    RankParts(r, 0);
    var w := 10 * (TotalChips(g) + 1);
    var a, b := StreetsLeft(r.h.street), StreetsLeft(g.h.street);
    assert (a + 1) * w <= b * w by { MulMonotone(a + 1, b, w); }
    assert (a + 1) * w == a * w + w;
  }

  lemma MulMonotone(a: nat, b: nat, w: nat)
    requires a <= b
    ensures a * w <= b * w
  {
  }

  /** On one street chips outweigh needs. */
  lemma SameStreet(g: Game, r: Game)
    requires Shaped(g) && Shaped(r) && TotalChips(r) == TotalChips(g) && r.h.street == g.h.street
    ensures InHandSum(r, 0) < InHandSum(g, 0) ==> Rank(r) < Rank(g)
    ensures InHandSum(r, 0) == InHandSum(g, 0) ==> (Rank(r) < Rank(g) <==> NeedCount(r.h, 0) < NeedCount(g.h, 0))
  {
    hide InHandSum, NeedCount, StackSum;
    RankParts(r, 0);
  }

  // ---------------------------------------------------------------- what moves do to the parts

  lemma {:induction false} SumSame(g: Game, r: Game, i: nat)
    requires Shaped(g) && Shaped(r) && r.h.inHand == g.h.inHand && r.stack == g.stack
    ensures InHandSum(r, i) == InHandSum(g, i)
    decreases SEATS - i
  {
    if i < SEATS { SumSame(g, r, i + 1); }
  }

  lemma {:induction false} SumPaid(g: Game, r: Game, s: nat, pay: nat, i: nat)
    requires Shaped(g) && Shaped(r) && r.h.inHand == g.h.inHand && s < SEATS && g.h.inHand[s]
    requires pay <= Stack(g, s) && r.stack == g.stack[s := Some(Stack(g, s) - pay)]
    ensures InHandSum(r, i) + (if i <= s then pay else 0) == InHandSum(g, i)
    decreases SEATS - i
  {
    if i < SEATS { SumPaid(g, r, s, pay, i + 1); }
  }

  /** Only seat `s` may have changed whether it needs to act. */
  ghost predicate NeedsAgree(h: Hand, k: Hand, s: nat)
    requires |h.inHand| == |h.folded| == |h.allIn| == |h.acted| == |h.streetCommit| == SEATS
    requires |k.inHand| == |k.folded| == |k.allIn| == |k.acted| == |k.streetCommit| == SEATS
  {
    forall i :: 0 <= i < SEATS && i != s ==> (NeedsToAct(h, i) <==> NeedsToAct(k, i))
  }

  lemma {:induction false} NeedStep(h: Hand, k: Hand, s: nat, i: nat)
    requires |h.inHand| == |h.folded| == |h.allIn| == |h.acted| == |h.streetCommit| == SEATS
    requires |k.inHand| == |k.folded| == |k.allIn| == |k.acted| == |k.streetCommit| == SEATS
    requires s < SEATS && NeedsAgree(h, k, s) && NeedsToAct(h, s)
    ensures NeedCount(k, i) + (if i <= s && !NeedsToAct(k, s) then 1 else 0) == NeedCount(h, i)
    decreases SEATS - i
  {
    if i < SEATS { NeedStep(h, k, s, i + 1); }
  }

  lemma {:induction false} NeedSame(h: Hand, k: Hand, i: nat)
    requires |h.inHand| == |h.folded| == |h.allIn| == |h.acted| == |h.streetCommit| == SEATS
    requires |k.inHand| == |k.folded| == |k.allIn| == |k.acted| == |k.streetCommit| == SEATS
    requires forall j :: 0 <= j < SEATS ==> (NeedsToAct(h, j) <==> NeedsToAct(k, j))
    ensures NeedCount(k, i) == NeedCount(h, i)
    decreases SEATS - i
  {
    if i < SEATS { NeedSame(h, k, i + 1); }
  }

  /** A check by a seat that has put in more than the bet to match. */
  ghost predicate IdleCheck(g: Game, a: Action)
    requires Mid(g)
  {
    a.Check? && g.h.streetCommit[g.h.actionOn.value] > g.h.betTo
  }

  /** A fold or a check leaves the chips, and the seat needs to act afterwards only after an idle check. */
  lemma QuietRank(g: Game, a: Action)
    requires Inv(g) && g.stack[g.h.actionOn.value].Some? && (a.Fold? || a.Check?) && Move(g, g.h.actionOn.value, a).Ok?
    ensures var m := Move(g, g.h.actionOn.value, a).value;
      && Shaped(m) && InHandSum(m, 0) == InHandSum(g, 0)
      && NeedCount(m.h, 0) + (if IdleCheck(g, a) then 0 else 1) == NeedCount(g.h, 0)
      && (IdleCheck(g, a) <==> NeedsToAct(m.h, g.h.actionOn.value))
  {
    hide Contenders, InHandSum, NeedCount;
    var s := g.h.actionOn.value;
    var m := Move(g, s, a).value;
    SumSame(g, m, 0);
    NeedStep(g.h, m.h, s, 0);
  }

  lemma CallRank(g: Game)
    requires Inv(g) && g.stack[g.h.actionOn.value].Some? && ApplyCall(g, g.h.actionOn.value).Ok?
    ensures Shaped(ApplyCall(g, g.h.actionOn.value).value)
    ensures InHandSum(ApplyCall(g, g.h.actionOn.value).value, 0) < InHandSum(g, 0)
  {
    hide Contenders, InHandSum;
    var s := g.h.actionOn.value;
    MoveShaped(g, s, Call);
    var pay := Min(ToCall(g.h, s), g.stack[s].value);
    assert pay > 0;
    SumPaid(g, ApplyCall(g, s).value, s, pay, 0);
  }

  lemma BetRank(g: Game, amount: int)
    requires Inv(g) && g.stack[g.h.actionOn.value].Some? && ApplyBetTo(g, g.h.actionOn.value, amount).Ok?
    ensures Shaped(ApplyBetTo(g, g.h.actionOn.value, amount).value)
    ensures InHandSum(ApplyBetTo(g, g.h.actionOn.value, amount).value, 0) < InHandSum(g, 0)
  {
    hide Contenders, InHandSum;
    var s := g.h.actionOn.value;
    MoveShaped(g, s, BetTo(amount));
    SumPaid(g, ApplyBetTo(g, s, amount).value, s, amount - g.h.streetCommit[s], 0);
  }

  /** Chips and needs after the move itself. */
  lemma MoveRank(g: Game, a: Action)
    requires Inv(g) && g.stack[g.h.actionOn.value].Some? && Move(g, g.h.actionOn.value, a).Ok?
    ensures var m := Move(g, g.h.actionOn.value, a).value;
      && Shaped(m)
      && (if IdleCheck(g, a) then InHandSum(m, 0) == InHandSum(g, 0) && NeedCount(m.h, 0) == NeedCount(g.h, 0) && NeedsToAct(m.h, g.h.actionOn.value)
          else InHandSum(m, 0) < InHandSum(g, 0) || (InHandSum(m, 0) == InHandSum(g, 0) && NeedCount(m.h, 0) < NeedCount(g.h, 0)))
  {
    hide Contenders, InHandSum, NeedCount, ApplyCall, ApplyBetTo, ApplyCheck, ApplyFold, NeedsToAct;
    match a {
      case Fold => QuietRank(g, a);
      case Check => QuietRank(g, a);
      case Call => CallRank(g);
      case BetTo(amount) => BetRank(g, amount);
    }
  }

  /** Moving on within a street keeps both parts; moving to the next street lowers the street. */
  lemma AdvanceRank(g: Game, now: nat)
    requires Mid(g) && Contenders(g.h, 0) >= 1 && MaybeAdvance(g, now).h.phase == Phase.Betting
    ensures var r := MaybeAdvance(g, now);
      && Shaped(r)
      && (if StreetComplete(g.h) then StreetsLeft(r.h.street) < StreetsLeft(g.h.street)
          else r.h.street == g.h.street && InHandSum(r, 0) == InHandSum(g, 0) && NeedCount(r.h, 0) == NeedCount(g.h, 0))
  {
    hide Contenders, ReturnUncalled, SidePots, Mid, NextToAct, NextOccupied, WithChips, StreetComplete, NeedsToAct;
    MidFacts(g);
    var r := MaybeAdvance(g, now);
    if Contenders(g.h, 0) <= 1 {
      CompleteKeeps(g);
    } else if StreetComplete(g.h) {
      ReturnKeeps(g);
      MidFacts(ReturnUncalled(g));
    } else {
      SumSame(g, r, 0);
      SameNeeds(g.h, r.h);
      NeedSame(g.h, r.h, 0);
    }
  }

  /** THEOREM.  An accepted action ends the betting phase or strictly decreases the measure, if and only if it is
      not a check by a seat that has put in more than the bet to match. */
  lemma ActionDecreases(g: Game, seat: int, a: Action, now: nat)
    requires Inv(g) && ApplyAction(g, seat, a, now).Ok?
    ensures var r := ApplyAction(g, seat, a, now).value;
      Shaped(r) && ((r.h.phase != Phase.Betting || Rank(r) < Rank(g)) <==> !IdleCheck(g, a))
  {
    hide Contenders, Mid, Move, MaybeAdvance, StreetComplete, InHandSum, NeedCount, IdleCheck, NeedsToAct, Rank, TotalChips, Shaped;
    MidFacts(g);
    ActionConserves(g, seat, a, now);
    MoveKeeps(g, a);
    var m := Move(g, seat, a).value;
    MidFacts(m);
    MoveRank(g, a);
    if IdleCheck(g, a) { IdleStays(g, m, a, now); }
    if MaybeAdvance(m, now).h.phase == Phase.Betting { StepRank(g, m, now); }
  }

  /** The two halves of a step together. */
  lemma StepRank(g: Game, m: Game, now: nat)
    requires Shaped(g) && Mid(m) && Contenders(m.h, 0) >= 1 && m.h.street == g.h.street
    requires Shaped(MaybeAdvance(m, now)) && MaybeAdvance(m, now).h.phase == Phase.Betting
    requires TotalChips(MaybeAdvance(m, now)) == TotalChips(g)
    ensures InHandSum(m, 0) < InHandSum(g, 0) || (InHandSum(m, 0) == InHandSum(g, 0) && NeedCount(m.h, 0) < NeedCount(g.h, 0))
            ==> Rank(MaybeAdvance(m, now)) < Rank(g)
    ensures (InHandSum(m, 0) == InHandSum(g, 0) && NeedCount(m.h, 0) == NeedCount(g.h, 0) && m.h.actionOn.Some?
             && m.h.actionOn.value < SEATS && NeedsToAct(m.h, m.h.actionOn.value)) ==> Rank(MaybeAdvance(m, now)) == Rank(g)
  {
    hide Contenders, Mid, MaybeAdvance, StreetComplete, InHandSum, NeedCount, NeedsToAct, TotalChips;
    MidFacts(m);
    AdvanceRank(m, now);
    CompleteIffNobodyNeeds(m.h);
    if StreetComplete(m.h) {
      StreetOutweighs(g, MaybeAdvance(m, now));
    } else {
      SameStreet(g, MaybeAdvance(m, now));
    }
  }

  /** An idle check leaves the hand in the betting phase. */
  lemma IdleStays(g: Game, m: Game, a: Action, now: nat)
    requires Inv(g) && IdleCheck(g, a) && g.stack[g.h.actionOn.value].Some? && Move(g, g.h.actionOn.value, a) == Ok(m) && Shaped(m)
    ensures MaybeAdvance(m, now).h.phase == Phase.Betting
  {
    hide Contenders, NextToAct;
    ContendersSame(g.h, m.h, 0);
    assert NeedsToAct(m.h, g.h.actionOn.value);
  }

  // ---------------------------------------------------------------- the bound on commitments

  /** The bet to match keeps bounding all street commitments. */
  lemma ActionKeepsBounded(g: Game, seat: int, a: Action, now: nat)
    requires Inv(g) && Bounded(g.h) && ApplyAction(g, seat, a, now).Ok? && ApplyAction(g, seat, a, now).value.h.phase == Phase.Betting
    ensures Bounded(ApplyAction(g, seat, a, now).value.h)
  {
    hide Contenders, Mid, MaybeAdvance;
    MidFacts(g);
    MoveKeeps(g, a);
    var m := Move(g, seat, a).value;
    assert Bounded(m.h);
    AdvanceKeepsBounded(m, now);
  }

  lemma AdvanceKeepsBounded(g: Game, now: nat)
    requires Mid(g) && Contenders(g.h, 0) >= 1 && Bounded(g.h) && MaybeAdvance(g, now).h.phase == Phase.Betting
    ensures Bounded(MaybeAdvance(g, now).h)
  {
    hide Contenders, ReturnUncalled, SidePots, Mid, NextToAct, NextOccupied, WithChips, StreetComplete;
    MidFacts(g);
    if Contenders(g.h, 0) <= 1 {
      CompleteKeeps(g);
    } else {
      ReturnKeeps(g);
    }
  }

  /** The bet to match covers the commitment of every seat that can still act. */
  ghost predicate Covered(h: Hand)
    requires |h.inHand| == |h.folded| == |h.allIn| == |h.streetCommit| == SEATS
  {
    forall i :: 0 <= i < SEATS && Contends(h, i) && !h.allIn[i] ==> h.streetCommit[i] <= h.betTo
  }

  lemma ActionKeepsCovered(g: Game, seat: int, a: Action, now: nat)
    requires Inv(g) && Covered(g.h) && ApplyAction(g, seat, a, now).Ok? && ApplyAction(g, seat, a, now).value.h.phase == Phase.Betting
    ensures Shaped(ApplyAction(g, seat, a, now).value) && Covered(ApplyAction(g, seat, a, now).value.h)
  {
    hide Contenders, Mid, MaybeAdvance, Move;
    MidFacts(g);
    MoveKeeps(g, a);
    var m := Move(g, seat, a).value;
    MidFacts(m);
    ActionConserves(g, seat, a, now);
    MoveKeepsCovered(g, a);
    AdvanceKeepsCovered(m, now);
  }

  lemma MoveKeepsCovered(g: Game, a: Action)
    requires Inv(g) && Covered(g.h) && g.stack[g.h.actionOn.value].Some? && Move(g, g.h.actionOn.value, a).Ok? && Mid(Move(g, g.h.actionOn.value, a).value)
    ensures Covered(Move(g, g.h.actionOn.value, a).value.h)
  {
    hide Contenders;
    var s := g.h.actionOn.value;
    var m := Move(g, s, a).value;
    forall i | 0 <= i < SEATS && Contends(m.h, i) && !m.h.allIn[i]
      ensures m.h.streetCommit[i] <= m.h.betTo
    {
      assert Contends(g.h, i);
    }
  }

  lemma AdvanceKeepsCovered(g: Game, now: nat)
    requires Mid(g) && Contenders(g.h, 0) >= 1 && Covered(g.h) && MaybeAdvance(g, now).h.phase == Phase.Betting && Shaped(MaybeAdvance(g, now))
    ensures Covered(MaybeAdvance(g, now).h)
  {
    hide Contenders, ReturnUncalled, SidePots, Mid, NextToAct, NextOccupied, WithChips, StreetComplete;
    MidFacts(g);
    if Contenders(g.h, 0) <= 1 {
      CompleteKeeps(g);
    } else {
      ReturnKeeps(g);
      var r := MaybeAdvance(g, now);
      forall i | 0 <= i < SEATS && Contends(r.h, i) && !r.h.allIn[i]
        ensures r.h.streetCommit[i] <= r.h.betTo
      {
        if !StreetComplete(g.h) { assert Contends(g.h, i); }
      }
    }
  }

  // ---------------------------------------------------------------- runs

  /** `r` follows from `g` by one accepted action or one tick past the deadline. */
  ghost predicate Follows(g: Game, r: Game) {
    Shaped(g) && exists seat: int, a: Action, now: nat :: ApplyAction(g, seat, a, now) == Ok(r)
  }

  /** An effective tick is one of these steps. */
  lemma TickFollows(g: Game, now: nat)
    requires Inv(g) && now >= g.h.deadline.value
    ensures ApplyTick(g, now).Ok? && Follows(g, ApplyTick(g, now).value)
  {
    hide Contenders, ApplyAction, Mid;
    MidFacts(g);
    InvBetting(g);
    TickKeeps(g, now);
    var s := g.h.actionOn.value;
    assert ApplyAction(g, s, DefaultAction(g.h, s), now) == Ok(ApplyTick(g, now).value);
  }

  ghost predicate IsRun(gs: seq<Game>) {
    gs != [] && forall i, j :: 0 <= i && j == i + 1 && j < |gs| ==> Follows(gs[i], gs[j])
  }

  lemma FollowsStep(g: Game, r: Game)
    requires Inv(g) && Follows(g, r)
    ensures Shaped(g) && Shaped(r) && (Inv(r) || Closed(r)) && TotalChips(r) == TotalChips(g)
    ensures r.h.phase != Complete ==> SameHoldings(g, r)
    ensures Covered(g.h) && r.h.phase == Phase.Betting ==> Covered(r.h) && Rank(r) < Rank(g)
  {
    hide Contenders, Mid, ApplyAction, Rank, TotalChips, SameHoldings, IdleCheck, Covered, Closed;
    MidFacts(g);
    var seat: int, a: Action, now: nat :| ApplyAction(g, seat, a, now) == Ok(r);
    ActionKeeps(g, seat, a, now);
    ActionConserves(g, seat, a, now);
    ActionDecreases(g, seat, a, now);
    if Covered(g.h) { NotIdle(g, a); }
    if Covered(g.h) && r.h.phase == Phase.Betting { ActionKeepsCovered(g, seat, a, now); }
  }

  lemma NotIdle(g: Game, a: Action)
    requires Inv(g) && Covered(g.h)
    ensures !IdleCheck(g, a)
  {
    hide Contenders;
    assert Contends(g.h, g.h.actionOn.value);
  }

  /** Nothing follows once betting is over. */
  lemma FollowsOpen(g: Game, r: Game)
    requires Follows(g, r)
    ensures !Closed(g)
  {
  }

  /** The rest of a run that has left its first state is a run, and is over once betting is. */
  lemma RunTail(gs: seq<Game>)
    requires IsRun(gs) && |gs| > 1 && Inv(gs[0])
    ensures Follows(gs[0], gs[1]) && IsRun(gs[1..]) && (Closed(gs[1]) ==> |gs| == 2)
  {
    hide Follows, Mid, Contenders, Closed;
    assert Follows(gs[0], gs[1]);
    var rest := gs[1..];
    assert forall i :: 0 <= i < |rest| ==> rest[i] == gs[i + 1];
    if |gs| > 2 {
      assert Follows(gs[1], gs[2]);
      FollowsOpen(gs[1], gs[2]);
    }
  }

  /** THEOREM.  Over every run each state satisfies the invariant or ends betting, the chips on the table never
      change, and nobody's holdings change before the hand is complete. */
  lemma {:induction false} RunsKeep(gs: seq<Game>, k: nat)
    requires IsRun(gs) && Inv(gs[0]) && k < |gs|
    ensures Shaped(gs[0]) && Shaped(gs[k]) && (Inv(gs[k]) || Closed(gs[k])) && TotalChips(gs[k]) == TotalChips(gs[0])
    ensures gs[k].h.phase != Complete ==> SameHoldings(gs[0], gs[k])
  {
    hide Follows, Contenders, Mid, Closed, TotalChips, SameHoldings, IsRun, Covered, Rank;
    MidFacts(gs[0]);
    HoldingsRefl(gs[0]);
    if k > 0 {
      RunTail(gs);
      FollowsStep(gs[0], gs[1]);
      if k > 1 {
        RunsKeep(gs[1..], k - 1);
        InvBetting(gs[1]);
        if gs[k].h.phase != Complete { HoldingsTrans(gs[0], gs[1], gs[k]); }
      }
    }
  }

  /** THEOREM.  A run from a state whose bet covers everyone who can act is no longer than the measure allows. */
  lemma {:induction false} RunsEnd(gs: seq<Game>)
    requires IsRun(gs) && Inv(gs[0]) && Covered(gs[0].h)
    ensures Shaped(gs[0]) && |gs| <= Rank(gs[0]) + 2
  {
    hide Follows, Contenders, Mid, Closed, TotalChips, SameHoldings, Covered, Rank;
    MidFacts(gs[0]);
    if |gs| > 1 {
      RunTail(gs);
      FollowsStep(gs[0], gs[1]);
      if Inv(gs[1]) {
        InvBetting(gs[1]);
        RunsEnd(gs[1..]);
      }
    }
  }

  lemma InvBetting(g: Game)
    requires Inv(g)
    ensures g.h.phase == Phase.Betting && g.h.phase != Complete
  {
  }

  lemma HoldingsRefl(g: Game)
    requires Shaped(g)
    ensures SameHoldings(g, g)
  {
  }

  // ---------------------------------------------------------------- the hand that does not end

  /** A seat that has put in more than the bet to match, with nobody else to act, can check forever: the check is
      accepted and changes nothing but the deadline. */
  lemma StallsForever(g: Game, now: nat)
    requires Inv(g) && Stalled(g, g.h.actionOn.value) && g.h.acted[g.h.actionOn.value] == g.h.interval
    ensures ApplyAction(g, g.h.actionOn.value, Check, now) == Ok(g.(h := g.h.(deadline := Some(now + g.params.timeout))))
  {
    hide Contenders, NextToAct;
    var s := g.h.actionOn.value;
    var m := Move(g, s, Check).value;
    assert m == g;
    CompleteIffNobodyNeeds(g.h);
    NextSpec(g.h, s);
  }

  /** Only seat `s` needs to act, and it has put in more than the bet to match. */
  ghost predicate Stalled(g: Game, s: nat) {
    && Inv(g) && g.h.actionOn == Some(s) && s < SEATS && g.h.streetCommit[s] > g.h.betTo
    && forall i :: 0 <= i < SEATS && i != s ==> !NeedsToAct(g.h, i)
  }

  /** Seat `s` has put in more than the bet to match and can act, and `b` contends and will not leave the hand. */
  ghost predicate Hangs(g: Game, s: nat, b: nat) {
    && Inv(g) && s < SEATS && b < SEATS && s != b && Contends(g.h, s) && Contends(g.h, b)
    && !g.h.allIn[s] && g.h.streetCommit[s] > g.h.betTo && (g.h.allIn[b] || g.h.betTo == 0)
  }

  /** A way to play on: `s` checks, and so does everybody when there is no bet; otherwise everybody else folds. */
  ghost function PlayOn(g: Game, s: nat): Action {
    if g.h.actionOn == Some(s) || g.h.betTo == 0 then Check else Fold
  }

  lemma {:induction false} OneContends(h: Hand, i: nat, a: nat)
    requires |h.inHand| == |h.folded| == SEATS && i <= a < SEATS && Contends(h, a)
    ensures Contenders(h, i) >= 1
    decreases SEATS - i
  {
    if i < a { OneContends(h, i + 1, a); }
  }

  lemma {:induction false} TwoContend(h: Hand, i: nat, a: nat, b: nat)
    requires |h.inHand| == |h.folded| == SEATS && i <= a < b < SEATS && Contends(h, a) && Contends(h, b)
    ensures Contenders(h, i) >= 2
    decreases SEATS - i
  {
    if i < a { TwoContend(h, i + 1, a, b); } else { OneContends(h, i + 1, b); }
  }

  /** Playing on leaves the hand where it can be played on. */
  lemma HangsOn(g: Game, s: nat, b: nat, now: nat)
    requires Hangs(g, s, b)
    ensures var r := ApplyAction(g, g.h.actionOn.value, PlayOn(g, s), now); r.Ok? && Hangs(r.value, s, b)
  {
    hide Contenders, NextToAct, Closed;
    var x := g.h.actionOn.value;
    var a := PlayOn(g, s);
    MoveKeeps(g, a);
    ActionKeeps(g, x, a, now);
    var m := Move(g, x, a).value;
    assert Contends(m.h, s) && Contends(m.h, b);
    if s < b { TwoContend(m.h, 0, s, b); } else { TwoContend(m.h, 0, b, s); }
    assert NeedsToAct(m.h, s);
    StaysBetting(m, now);
    ClosedPhase(MaybeAdvance(m, now));
  }

  lemma StaysBetting(m: Game, now: nat)
    requires Mid(m) && Contenders(m.h, 0) >= 2 && !StreetComplete(m.h)
    ensures var r := MaybeAdvance(m, now);
      r.h.phase == Phase.Betting && r.h.inHand == m.h.inHand && r.h.folded == m.h.folded && r.h.allIn == m.h.allIn
      && r.h.streetCommit == m.h.streetCommit && r.h.betTo == m.h.betTo
  {
    hide Contenders, NextToAct;
  }

  lemma ClosedPhase(g: Game)
    ensures Closed(g) ==> g.h.phase != Phase.Betting
  {
  }

  /** From such a state there are runs of every length. */
  lemma {:induction false} LongRun(g: Game, s: nat, b: nat, n: nat) returns (gs: seq<Game>)
    requires Hangs(g, s, b)
    ensures |gs| == n + 1 && gs[0] == g && IsRun(gs)
    decreases n
  {
    hide Hangs;
    if n == 0 {
      gs := [g];
    } else {
      HangsShaped(g, s, b);
      HangsOn(g, s, b, 0);
      var r := ApplyAction(g, g.h.actionOn.value, PlayOn(g, s), 0).value;
      assert Follows(g, r);
      var rest := LongRun(r, s, b, n - 1);
      gs := [g] + rest;
      hide Follows;
      forall i, j | 0 <= i && j == i + 1 && j < |gs|
        ensures Follows(gs[i], gs[j])
      {
        if i > 0 { assert gs[i] == rest[i - 1] && gs[j] == rest[i]; }
      }
    }
  }

  lemma HangsShaped(g: Game, s: nat, b: nat)
    requires Hangs(g, s, b)
    ensures Shaped(g) && g.h.actionOn.Some?
  {
  }

  // ---------------------------------------------------------------- when a dealt hand ends

  ghost predicate AllWithin(g: Game, n: nat) {
    forall gs: seq<Game> :: IsRun(gs) && gs[0] == g ==> |gs| <= n
  }

  /** Some bound holds for all runs from `g`. */
  ghost predicate Ends(g: Game) { exists n: nat :: AllWithin(g, n) }

  /** The big blind covers the small one, or posting left the small blind without chips. */
  ghost predicate BlindsFit(t: Table)
    requires TableShaped(t) && FundedSeats(t, 0) >= 2
  {
    BlindSeats(t);
    BbPay(t) >= SbPay(t) || t.stack[SmallBlindSeat(t)].value == SbPay(t)
  }

  lemma FreshCovered(t: Table, now: nat)
    requires TableShaped(t) && FundedSeats(t, 0) >= 2 && t.params.bigBlind > 0 && StartHand(t, now).Ok? && Shaped(StartHand(t, now).value)
    ensures BlindsFit(t) ==> Covered(StartHand(t, now).value.h)
  {
    hide SmallBlindSeat, BigBlindSeat, NextButton, BlindsPosted, FundedSeats, NextToAct, SidePots;
    BlindSeats(t);
    PostedFacts(t);
    var g, p := StartHand(t, now).value, BlindsPosted(t);
    if BlindsFit(t) {
      forall i | 0 <= i < SEATS && Contends(g.h, i) && !g.h.allIn[i]
        ensures g.h.streetCommit[i] <= g.h.betTo
      {
        assert p.h.streetCommit[i] == PaidBy(t, i);
      }
    }
  }

  /** A second seat with chips. */
  lemma OtherFunded(t: Table, s: nat) returns (b: nat)
    requires TableShaped(t) && FundedSeats(t, 0) >= 2 && s < SEATS
    ensures b < SEATS && b != s && Funded(t, b)
  {
    TwoFunded(t, 0);
    var x, y :| 0 <= x < y < SEATS && Funded(t, x) && Funded(t, y);
    b := if x == s then y else x;
  }

  lemma FreshHangs(t: Table, now: nat) returns (b: nat)
    requires TableShaped(t) && FundedSeats(t, 0) >= 2 && 0 < t.params.smallBlind <= t.params.bigBlind && !BlindsFit(t)
    ensures StartHand(t, now).Ok? && Hangs(StartHand(t, now).value, SmallBlindSeat(t), b)
  {
    hide SmallBlindSeat, BigBlindSeat, NextButton, BlindsPosted, FundedSeats, NextToAct, SidePots, Contenders, Mid, Bounded;
    BlindSeats(t);
    PostedFacts(t);
    StartEstablishes(t, now);
    var sb, bb, p := SmallBlindSeat(t), BigBlindSeat(t), BlindsPosted(t);
    b := bb;
    if !Funded(t, bb) { b := OtherFunded(t, sb); }
    assert p.h.streetCommit[sb] == PaidBy(t, sb);
    assert NeedsToAct(p.h, sb);
    NextSpec(p.h, bb);
    StartedAt(t, now);
    assert Contends(p.h, sb) && Contends(p.h, b);
    ClosedPhase(StartHand(t, now).value);
  }

  lemma StartedAt(t: Table, now: nat)
    requires TableShaped(t) && FundedSeats(t, 0) >= 2 && NextToAct(BlindsPosted(t).h, BigBlindSeat(t), 1).Some?
    ensures StartHand(t, now) == Ok(BlindsPosted(t).(h := BlindsPosted(t).h.(
              actionOn := NextToAct(BlindsPosted(t).h, BigBlindSeat(t), 1), deadline := Some(now + t.params.timeout))))
  {
    hide SmallBlindSeat, BigBlindSeat, NextButton, BlindsPosted, NextToAct, FundedSeats;
  }

  /** THEOREM.  A dealt hand always ends, whatever is played, if and only if the big blind covers the small one or
      the small blind went all-in with it. */
  lemma EndsIffBlindsFit(t: Table, now: nat)
    requires TableShaped(t) && FundedSeats(t, 0) >= 2 && 0 < t.params.smallBlind <= t.params.bigBlind
    ensures StartHand(t, now).Ok? && (Ends(StartHand(t, now).value) <==> BlindsFit(t))
  {
    hide BlindsFit, StartHand, Inv, Closed, Covered, Rank, Bounded, FundedSeats, Follows, SbPay, BbPay, Hangs;
    StartEstablishes(t, now);
    var g := StartHand(t, now).value;
    StartShaped(g);
    if BlindsFit(t) {
      FreshCovered(t, now);
      forall gs: seq<Game> | IsRun(gs) && gs[0] == g
        ensures |gs| <= Rank(g) + 2
      {
        RunLength(gs);
      }
      assert AllWithin(g, Rank(g) + 2);
    } else {
      var b := FreshHangs(t, now);
      forall n: nat
        ensures !AllWithin(g, n)
      {
        var gs := LongRun(g, SmallBlindSeat(t), b, n);
      }
    }
  }

  lemma StartShaped(g: Game)
    requires Inv(g) || Closed(g)
    ensures Shaped(g)
  {
  }

  lemma RunLength(gs: seq<Game>)
    requires IsRun(gs) && (Inv(gs[0]) || Closed(gs[0])) && Shaped(gs[0]) && Covered(gs[0].h)
    ensures |gs| <= Rank(gs[0]) + 2
  {
    hide Mid, Contenders, Covered, Rank, Follows;
    if Inv(gs[0]) {
      RunsEnd(gs);
    } else if |gs| > 1 {
      assert Follows(gs[0], gs[1]);
      FollowsOpen(gs[0], gs[1]);
    }
  }

  /** A concrete table whose hand need not end: blinds 5 and 10, stacks 100 and 3. */
  lemma ShortBigBlindExample() returns (t: Table)
    ensures TableShaped(t) && FundedSeats(t, 0) == 2 && 0 < t.params.smallBlind < t.params.bigBlind
    ensures StartHand(t, 0).Ok? && !Ends(StartHand(t, 0).value)
  {
    t := Table(Params(5, 10, 30, true), [Some(100), Some(3), None, None, None, None, None, None, None], None);
    FundedFrom(t, 2);
    assert FundedSeats(t, 1) == 1;
    assert NextButton(t) == 0;
    assert SmallBlindSeat(t) == 0;
    assert BigBlindSeat(t) == 1;
    hide StartHand, Ends;
    EndsIffBlindsFit(t, 0);
  }

  lemma {:induction false} FundedFrom(t: Table, i: nat)
    requires TableShaped(t) && forall k :: i <= k < SEATS ==> t.stack[k].None?
    ensures FundedSeats(t, i) == 0
    decreases SEATS - i
  {
    if i < SEATS { FundedFrom(t, i + 1); }
  }

  // ---------------------------------------------------------------- a whole hand

  /** THEOREM.  Every run of actions and timeouts from a deal keeps the invariant and the chips the seats sat with,
      and at every point before completion an abort with blind refund gives every seat exactly that stack back. */
  lemma WholeHand(t: Table, now: nat, gs: seq<Game>, k: nat)
    requires TableShaped(t) && t.params.bigBlind > 0 && FundedSeats(t, 0) >= 2
    requires IsRun(gs) && StartHand(t, now) == Ok(gs[0]) && k < |gs|
    ensures Shaped(gs[0]) && Shaped(gs[k]) && (Inv(gs[k]) || Closed(gs[k])) && TotalChips(gs[k]) == TotalChips(gs[0])
    ensures gs[k].h.phase != Complete && gs[k].params.refundBlinds ==> AbortHand(gs[k]).stack == t.stack
  {
    hide Follows, Contenders, Mid, Rank, TotalChips, BlindsPosted, SmallBlindSeat, BigBlindSeat, NextButton, FundedSeats, SidePots, NeedsToAct,
      AbortHand, StartHand, Bounded, SbPay, BbPay;
    StartEstablishes(t, now);
    var g := gs[0];
    if Inv(g) {
      RunsKeep(gs, k);
    } else {
      if |gs| > 1 {
        assert Follows(gs[0], gs[1]);
        FollowsOpen(gs[0], gs[1]);
      }
      HoldingsRefl(g);
    }
    AbortRestores(gs[k]);
    if gs[k].h.phase != Complete && gs[k].params.refundBlinds {
      ClosedOrBetting(gs[k]);
      AbortBack(t, g, gs[k]);
    }
  }

  lemma ClosedOrBetting(g: Game)
    requires Inv(g) || Closed(g)
    ensures g.h.phase in {Phase.Betting, AtShowdown, Complete}
  {
  }

  lemma AbortBack(t: Table, g: Game, r: Game)
    requires TableShaped(t) && SameHoldings(g, r) && r.h.phase in {Phase.Betting, AtShowdown} && r.params.refundBlinds
    requires forall i :: 0 <= i < SEATS && t.stack[i].Some? ==> g.stack[i].Some? && g.stack[i].value + g.h.totalCommit[i] == t.stack[i].value
    requires forall i :: 0 <= i < SEATS && t.stack[i].None? ==> g.stack[i].None? && g.h.totalCommit[i] == 0
    ensures AbortHand(r).stack == t.stack
  {
    hide AbortHand;
    AbortRestores(r);
    forall i | 0 <= i < SEATS
      ensures AbortHand(r).stack[i] == t.stack[i]
    {
      assert Held(r, i) == Held(g, i);
      assert t.stack[i].Some? || t.stack[i].None?;
    }
  }
}
