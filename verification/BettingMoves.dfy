/** What each move means for the seat that makes it and for the raises that may follow; and who holds the button. */
module BettingMoves {
  import opened Outcome
  import opened Pots
  import opened Betting
  import opened BettingSafety
  import opened BettingStreets

  /** THEOREM.  What a move costs the seat on turn: a fold or a check nothing, a call what is missing to the bet or all
      it has, a bet exactly up to its amount; and nobody else's chips or commitments move. */
  lemma MoveMeans(g: Game, a: Action)
    requires Inv(g) && Move(g, g.h.actionOn.value, a).Ok?
    ensures var s, r := g.h.actionOn.value, Move(g, g.h.actionOn.value, a).value;
      && Shaped(r)
      && (forall i :: 0 <= i < SEATS && i != s ==> r.stack[i] == g.stack[i] && r.h.streetCommit[i] == g.h.streetCommit[i] && r.h.folded[i] == g.h.folded[i])
      && (r.h.folded[s] <==> a.Fold?)
      && Stack(r, s) + r.h.streetCommit[s] == Stack(g, s) + g.h.streetCommit[s]
      && (a.Fold? || a.Check? ==> r.stack == g.stack && r.h.betTo == g.h.betTo)
      && (a.Check? ==> g.h.streetCommit[s] >= g.h.betTo)
      && (a.Call? ==> g.h.streetCommit[s] < g.h.betTo == r.h.betTo && r.h.streetCommit[s] == Min(g.h.betTo, g.h.streetCommit[s] + Stack(g, s)))
      && (a.BetTo? ==> a.amount > g.h.betTo && r.h.betTo == r.h.streetCommit[s] == a.amount)
  {
    hide Contenders;
    MoveShaped(g, g.h.actionOn.value, a);
  }

  /** The bet or raise to `x` is a full one; anything else can only be an all-in for less. */
  ghost predicate FullRaise(g: Game, x: int) { g.h.betTo == 0 || x - g.h.betTo >= g.h.minRaise }

  /** `r` is the state after `BetTo(x)` by the seat on turn, with the street still open. */
  ghost predicate Raised(g: Game, x: int, now: nat, r: Game) {
    Inv(g) && ApplyAction(g, g.h.actionOn.value, BetTo(x), now) == Ok(r) && r.h.phase == Phase.Betting && r.h.street == g.h.street
  }

  lemma RaisedIs(g: Game, x: int, now: nat, r: Game)
    requires Raised(g, x, now, r)
    ensures Shaped(g) && g.h.actionOn.Some? && g.h.actionOn.value < SEATS && g.stack[g.h.actionOn.value].Some?
    ensures Move(g, g.h.actionOn.value, BetTo(x)).Ok? && Inv(r) && r.params == g.params
    ensures var m := Move(g, g.h.actionOn.value, BetTo(x)).value;
      r.stack == m.stack && r.h == m.h.(actionOn := r.h.actionOn, deadline := r.h.deadline)
  {
    hide Contenders, Move, ReturnUncalled, NextToAct, StreetComplete, WithChips, SomeoneNeeds, NeedsToAct, Mid, AdvanceStreet, CompleteByFolds, ReachShowdown;
    MidFacts(g);
    var s := g.h.actionOn.value;
    MoveKeeps(g, BetTo(x));
    MoveShaped(g, s, BetTo(x));
    var m := Move(g, s, BetTo(x)).value;
    MidFacts(m);
    MoveOnStreet(g, s, BetTo(x));
    AdvanceDecides(m, now);
    ActionKeeps(g, s, BetTo(x), now);
    NeedsIffIncomplete(m.h);
    ClosedNotBetting(r);
  }

  /** What a bet to `x` leaves behind. */
  lemma RaisedFields(g: Game, x: int, now: nat, r: Game)
    requires Raised(g, x, now, r)
    ensures var s := g.h.actionOn.value;
      && Inv(g) && Inv(r) && r.h.betTo == x > g.h.betTo && r.params == g.params
      && r.h.interval == (if FullRaise(g, x) then g.h.interval + 1 else g.h.interval)
      && r.h.minRaise == (if !FullRaise(g, x) then g.h.minRaise else if x - g.h.betTo >= g.params.bigBlind then x - g.h.betTo else g.params.bigBlind)
      && (forall i :: 0 <= i < SEATS && i != s ==> r.h.acted[i] == g.h.acted[i])
  {
    hide Contenders, NextToAct, MaybeAdvance, NeedsToAct;
    RaisedIs(g, x, now, r);
  }

  /** Which bets the seat on turn may make. */
  lemma BetAccepted(r: Game, seat: int, y: int, later: nat)
    requires Inv(r)
    ensures ApplyAction(r, seat, BetTo(y), later).Ok? ==> r.h.actionOn == Some(seat)
    ensures var i := r.h.actionOn.value;
      && i < SEATS && r.stack[i].Some?
      && var most := r.h.streetCommit[i] + r.stack[i].value;
      ApplyAction(r, i, BetTo(y), later).Ok? <==>
        && r.h.streetCommit[i] < y <= most && y > r.h.betTo && r.h.acted[i] != r.h.interval
        && (y == most || y - r.h.betTo >= if r.h.betTo == 0 then r.params.bigBlind else r.h.minRaise)
  {
    hide Contenders, NextToAct, MaybeAdvance, Commit;
  }

  lemma ClosedNotBetting(r: Game)
    requires r.h.phase == Phase.Betting
    ensures !Closed(r)
  {
  }

  /** THEOREM.  The smallest raise after a bet or raise: at least as much again as the last full one, unless all-in. */
  lemma RaiseSetsMinimum(g: Game, x: int, now: nat, r: Game, y: int, later: nat)
    requires Raised(g, x, now, r) && Inv(r) && ApplyAction(r, r.h.actionOn.value, BetTo(y), later).Ok?
    ensures var i := r.h.actionOn.value;
      var most := r.h.streetCommit[i] + Stack(r, i);
      && y <= most
      && (y < most && FullRaise(g, x) ==> y - x >= x - g.h.betTo)
      && (y < most && !FullRaise(g, x) ==> y - x >= g.h.minRaise)
      && (y < most ==> y - x >= g.params.bigBlind)
  {
    hide Inv, ApplyAction, FullRaise, Raised;
    RaisedFields(g, x, now, r);
    OnTurn(g);
    OnTurn(r);
    BetAccepted(r, r.h.actionOn.value, y, later);
  }

  lemma OnTurn(r: Game)
    requires Inv(r)
    ensures Shaped(r) && r.h.actionOn.Some? && r.h.actionOn.value < SEATS
    ensures r.stack[r.h.actionOn.value].Some? && r.stack[r.h.actionOn.value].value > 0 && 0 < r.params.bigBlind <= r.h.minRaise
  {
    hide Contenders;
  }

  /** THEOREM.  A seat that has acted since the last full raise may raise again if and only if the new bet was a full one
      and the seat has more than the bet: an all-in for less does not reopen the betting. */
  lemma ReopensIffFull(g: Game, x: int, now: nat, r: Game, later: nat)
    requires Raised(g, x, now, r) && Inv(r) && g.h.acted[r.h.actionOn.value] == g.h.interval && r.h.actionOn.value != g.h.actionOn.value
    ensures var i := r.h.actionOn.value;
      (exists y :: ApplyAction(r, i, BetTo(y), later).Ok?) <==> FullRaise(g, x) && r.h.streetCommit[i] + Stack(r, i) > x
  {
    hide ApplyAction, FullRaise, Inv, Raised;
    RaisedFields(g, x, now, r);
    OnTurn(g);
    OnTurn(r);
    var i := r.h.actionOn.value;
    var all := r.h.streetCommit[i] + Stack(r, i);
    BetAccepted(r, i, all, later);
    forall y | ApplyAction(r, i, BetTo(y), later).Ok?
      ensures FullRaise(g, x) && all > x
    {
      BetAccepted(r, i, y, later);
    }
    if FullRaise(g, x) && all > x {
      assert r.h.streetCommit[i] < all;
      assert ApplyAction(r, i, BetTo(all), later).Ok?;
    }
  }

  // ---------------------------------------------------------------- the button

  /** Clockwise from `from`, `s` is the first seat with chips. */
  ghost predicate FirstFunded(t: Table, from: nat, s: nat)
    requires TableShaped(t) && from < SEATS
  {
    s < SEATS && Funded(t, s) && forall i :: 0 <= i < SEATS && i != s && Funded(t, i) ==> Distance(from, s) < Distance(from, i)
  }

  lemma {:induction false} NextFundedIs(t: Table, from: nat, off: nat)
    requires TableShaped(t) && from < SEATS && 1 <= off <= SEATS + 1
    requires forall i :: 0 <= i < SEATS && Funded(t, i) ==> Distance(from, i) >= off
    requires exists i :: 0 <= i < SEATS && Funded(t, i)
    ensures FirstFunded(t, from, NextFunded(t, from, off))
    decreases SEATS + 1 - off
  {
    var k :| 0 <= k < SEATS && Funded(t, k);
    assert off <= Distance(from, k) <= SEATS;
    var s := (from + off) % SEATS;
    if Funded(t, s) {
      DistanceIs(from, off, s);
      forall i | 0 <= i < SEATS && i != s && Funded(t, i)
        ensures Distance(from, s) < Distance(from, i)
      {
        DistanceIs(from, Distance(from, i), i);
      }
    } else {
      forall i | 0 <= i < SEATS && Funded(t, i)
        ensures Distance(from, i) >= off + 1
      {
        DistanceIs(from, Distance(from, i), i);
      }
      NextFundedIs(t, from, off + 1);
    }
  }

  lemma DistanceIs(from: nat, off: nat, s: nat)
    requires from < SEATS && 1 <= off <= SEATS && s < SEATS
    ensures Distance(from, s) == off <==> s == (from + off) % SEATS
  {
  }

  /** THEOREM.  The button goes to the first seat with chips after the one that had it, and to the lowest when nobody
      had it. */
  lemma ButtonMoves(t: Table)
    requires TableShaped(t) && FundedSeats(t, 0) >= 2
    ensures FirstFunded(t, if t.button.Some? then t.button.value else SEATS - 1, NextButton(t))
    ensures t.button.None? ==> forall i :: 0 <= i < SEATS && Funded(t, i) ==> NextButton(t) <= i
  {
    hide NextFunded;
    TwoFunded(t, 0);
    var from: nat := if t.button.Some? then t.button.value else SEATS - 1;
    NextFundedIs(t, from, 1);
  }

  // ---------------------------------------------------------------- timeouts

  /** THEOREM.  A tick does nothing before the deadline; after it the seat on turn checks if it can and folds if and only
      if it faces a bet, and no chip of anybody's moves into the pot. */
  lemma TickMeans(g: Game, now: nat)
    requires Inv(g)
    ensures now < g.h.deadline.value ==> ApplyTick(g, now) == Ok(g)
    ensures var s := g.h.actionOn.value;
      var a := DefaultAction(g.h, s);
      && (now >= g.h.deadline.value ==> ApplyTick(g, now) == ApplyAction(g, s, a, now))
      && g.stack[s].Some? && Move(g, s, a).Ok?
      && var m := Move(g, s, a).value;
      && m.stack == g.stack && m.h.totalCommit == g.h.totalCommit && |m.h.folded| == SEATS
      && (m.h.folded[s] <==> g.h.streetCommit[s] < g.h.betTo)
  {
    hide Contenders, MaybeAdvance;
    DefaultAccepted(g);
  }
}
