/** What `startHand` establishes. */
module BettingStart {
  import opened Outcome
  import opened Pots
  import opened Betting
  import opened BettingSafety

  ghost function SbPay(t: Table): nat
    requires TableShaped(t) && FundedSeats(t, 0) >= 2
  {
    BlindSeats(t);
    BlindPay(t.stack[SmallBlindSeat(t)], t.params.smallBlind)
  }

  ghost function BbPay(t: Table): nat
    requires TableShaped(t) && FundedSeats(t, 0) >= 2
  {
    BlindSeats(t);
    BlindPay(t.stack[BigBlindSeat(t)], t.params.bigBlind)
  }

  /** What the two blinds leave at seat `i`. */
  ghost function PaidBy(t: Table, i: nat): nat
    requires TableShaped(t) && FundedSeats(t, 0) >= 2
  {
    if i == SmallBlindSeat(t) then SbPay(t) else if i == BigBlindSeat(t) then BbPay(t) else 0
  }

  /** The posted table, seat by seat. */
  lemma PostedFacts(t: Table)
    requires TableShaped(t) && FundedSeats(t, 0) >= 2
    ensures var g := BlindsPosted(t);
      && g.params == t.params && g.h.phase == Phase.Betting && g.h.street == Preflop
      && g.h.betTo == BbPay(t) && g.h.minRaise == t.params.bigBlind && g.h.interval == 0
      && g.h.inHand == FreshHand(t).inHand && g.h.folded == FreshHand(t).folded && g.h.acted == FreshHand(t).acted
      && (forall i :: 0 <= i < SEATS ==> g.h.streetCommit[i] == g.h.totalCommit[i] == PaidBy(t, i))
      && (forall i :: 0 <= i < SEATS ==> (g.stack[i].Some? <==> t.stack[i].Some?))
      && (forall i :: 0 <= i < SEATS && t.stack[i].Some? ==> g.stack[i].value + PaidBy(t, i) == t.stack[i].value)
      && (forall i :: 0 <= i < SEATS ==> (g.h.allIn[i] <==> (i == SmallBlindSeat(t) || i == BigBlindSeat(t)) && g.stack[i] == Some(0)))
  {
    hide SmallBlindSeat, BigBlindSeat, NextButton, FundedSeats;
    BlindSeats(t);
    FreshShaped(t);
    var sb, bb := SmallBlindSeat(t), BigBlindSeat(t);
    var g0 := Game(t.params, t.stack, FreshHand(t));
    var g1 := Commit(g0, sb, SbPay(t));
    var g := BlindsPosted(t);
    assert g1.stack[bb] == t.stack[bb];
  }

  lemma {:induction false} FreshContenders(t: Table, h: Hand, i: nat)
    requires TableShaped(t) && h.inHand == FreshHand(t).inHand && h.folded == FreshHand(t).folded
    ensures Contenders(h, i) == FundedSeats(t, i)
    decreases SEATS - i
  {
    if i < SEATS { FreshContenders(t, h, i + 1); }
  }

  lemma PostedMid(t: Table, on: nat)
    requires TableShaped(t) && FundedSeats(t, 0) >= 2 && t.params.bigBlind > 0 && on < SEATS
    ensures var g := BlindsPosted(t); Mid(g.(h := g.h.(actionOn := Some(on)))) && Contenders(g.h, 0) >= 2
  {
    hide SmallBlindSeat, BigBlindSeat, NextButton, BlindsPosted, Contenders, FundedSeats;
    BlindSeats(t);
    PostedFacts(t);
    FreshContenders(t, BlindsPosted(t).h, 0);
    var g := BlindsPosted(t);
    forall i | 0 <= i < SEATS && !g.h.inHand[i]
      ensures g.h.totalCommit[i] == 0
    {
      assert t.stack[i].None? || t.stack[i].value == 0;
    }
  }

  /** THEOREM.  A started hand satisfies the invariant, or is at
      showdown because everybody is all-in; every seat's stack and commitment add up to what it sat with; and the
      bet to match bounds all commitments if and only if the big blind paid at least as much as the small blind. */
  lemma StartEstablishes(t: Table, now: nat)
    requires TableShaped(t) && t.params.bigBlind > 0
    ensures var r := StartHand(t, now);
      && (r.Ok? <==> FundedSeats(t, 0) >= 2)
      && (r.Ok? ==>
            var g := r.value;
            && g.params == t.params && (Inv(g) || Closed(g))
            && (forall i :: 0 <= i < SEATS && t.stack[i].Some? ==> g.stack[i].Some? && g.stack[i].value + g.h.totalCommit[i] == t.stack[i].value)
            && (forall i :: 0 <= i < SEATS && t.stack[i].None? ==> g.stack[i].None? && g.h.totalCommit[i] == 0)
            && (Bounded(g.h) <==> BbPay(t) >= SbPay(t)))
  {
    hide SmallBlindSeat, BigBlindSeat, NextButton, BlindsPosted, Contenders, FundedSeats, Mid, NextToAct, SidePots, NeedsToAct;
    if FundedSeats(t, 0) >= 2 {
      BlindSeats(t);
      PostedFacts(t);
      var g := BlindsPosted(t);
      var r := StartHand(t, now).value;
      NextSpec(g.h, BigBlindSeat(t));
      var on := NextToAct(g.h, BigBlindSeat(t), 1);
      PostedMid(t, if on.Some? then on.value else 0);
      PostedBounded(t);
      ContendersSame(g.h, r.h, 0);
      SameNeeds(g.h, r.h);
      if on.Some? {
        DeadlineMid(g.(h := g.h.(actionOn := on)), now + t.params.timeout);
      } else {
        MidQuiet(g, 0);
      }
    }
  }

  lemma DeadlineMid(g: Game, at: nat)
    requires Mid(g)
    ensures Mid(g.(h := g.h.(deadline := Some(at))))
  {
  }

  lemma MidQuiet(g: Game, on: nat)
    requires Mid(g.(h := g.h.(actionOn := Some(on))))
    ensures forall i :: 0 <= i < SEATS && !g.h.inHand[i] ==> g.h.totalCommit[i] == 0
  {
  }

  lemma PostedBounded(t: Table)
    requires TableShaped(t) && FundedSeats(t, 0) >= 2
    ensures Bounded(BlindsPosted(t).h) <==> BbPay(t) >= SbPay(t)
  {
    hide SmallBlindSeat, BigBlindSeat, NextButton, BlindsPosted, FundedSeats;
    BlindSeats(t);
    PostedFacts(t);
    var g := BlindsPosted(t);
    assert g.h.streetCommit[SmallBlindSeat(t)] == SbPay(t);
  }
}
