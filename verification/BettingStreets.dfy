/** The course of a hand: every street is bet unless the money is already in, and who opens it. */
module BettingStreets {
  import opened Outcome
  import opened Pots
  import opened Betting
  import opened BettingSafety
  import opened BettingStart
  import opened BettingTermination

  ghost predicate SomeoneNeeds(h: Hand)
    requires |h.inHand| == |h.folded| == |h.allIn| == |h.acted| == |h.streetCommit| == SEATS
  {
    exists s :: 0 <= s < SEATS && NeedsToAct(h, s)
  }

  lemma NeedsIffIncomplete(h: Hand)
    requires |h.inHand| == |h.folded| == |h.allIn| == |h.acted| == |h.streetCommit| == SEATS
    ensures StreetComplete(h) <==> !SomeoneNeeds(h)
  {
    CompleteIffNobodyNeeds(h);
  }

  // ---------------------------------------------------------------- who opens a street

  /** Seats that need not act may be skipped. */
  lemma {:induction false} SkipTo(h: Hand, from: int, off: nat, to: nat)
    requires |h.inHand| == |h.folded| == |h.allIn| == |h.acted| == |h.streetCommit| == SEATS && from >= -1
    requires 1 <= off <= to <= SEATS + 1 && forall j :: off <= j < to ==> !NeedsToAct(h, SeatAfter(from, j))
    ensures NextToAct(h, from, off) == NextToAct(h, from, to)
    decreases SEATS + 2 - off
  {
    if off < to {
      assert !NeedsToAct(h, SeatAfter(from, off));
      SkipTo(h, from, off + 1, to);
    }
  }

  /** Two scans that visit the same seats from their positions on, where the second one ends with seats that need not
      act. */
  lemma {:induction false} SameScan(h: Hand, a: int, b: int, off: nat, shift: nat)
    requires |h.inHand| == |h.folded| == |h.allIn| == |h.acted| == |h.streetCommit| == SEATS && a >= -1 && b >= -1
    requires off >= 1 && off + shift <= SEATS + 1
    requires forall j :: 1 <= j && j + shift <= SEATS ==> SeatAfter(b, j) == SeatAfter(a, j + shift)
    requires forall j :: SEATS + 1 - shift <= j <= SEATS && j >= 1 ==> !NeedsToAct(h, SeatAfter(b, j))
    ensures NextToAct(h, a, off + shift) == NextToAct(h, b, off)
    decreases SEATS + 1 - off
  {
    if off + shift <= SEATS {
      assert SeatAfter(b, off) == SeatAfter(a, off + shift);
      SameScan(h, a, b, off + 1, shift);
    } else {
      SkipTo(h, b, off, SEATS + 1);
    }
  }

  /** The next occupied seat, by its distance; the seats before it are empty. */
  lemma {:induction false} OccupiedAt(stack: seq<Option<nat>>, from: nat, off: nat) returns (k: nat)
    requires |stack| == SEATS && from < SEATS && 1 <= off <= SEATS
    ensures off <= k <= SEATS && NextOccupied(stack, from, off) == (if k == SEATS then from else SeatAfter(from, k))
    ensures forall j :: off <= j < k ==> stack[SeatAfter(from, j)].None?
    decreases SEATS - off
  {
    if stack[SeatAfter(from, off)].Some? || off == SEATS {
      k := off;
      assert NextOccupied(stack, from, SEATS + 1) == from;
    } else {
      k := OccupiedAt(stack, from, off + 1);
    }
  }

  lemma Wraps(button: nat, k: nat, j: nat)
    requires button < SEATS && 1 <= k <= SEATS && 1 <= j <= SEATS
    ensures var start: int := if k == SEATS then button else SeatAfter(button, k);
      SeatAfter(start - 1, j) == if j + k - 1 <= SEATS then SeatAfter(button, j + k - 1) else SeatAfter(button, j + k - 1 - SEATS)
  {
    hide SeatAfter;
    var start: int := if k == SEATS then button else SeatAfter(button, k);
    SeatIs(button, k);
    SeatIs(start - 1, j);
    SeatIs(button, if j + k - 1 <= SEATS then j + k - 1 else j + k - 1 - SEATS);
  }

  lemma SeatIs(from: int, off: nat)
    requires -1 <= from < SEATS && 1 <= off <= SEATS
    ensures SeatAfter(from, off) == if from + off < SEATS then from + off else from + off - SEATS
  {
  }

  /** The scan from the first occupied seat left of the button is the scan from the button. */
  lemma FromTheButton(g: Game, h: Hand)
    requires Shaped(g) && |h.folded| == |h.allIn| == |h.acted| == |h.streetCommit| == SEATS && h.inHand == g.h.inHand
    ensures NextOccupied(g.stack, g.h.button, 1) < SEATS
    ensures NextToAct(h, NextOccupied(g.stack, g.h.button, 1) - 1, 1) == NextToAct(h, g.h.button, 1)
  {
    hide NeedsToAct, NextOccupied, NextToAct;
    NextOccupiedRange(g.stack, g.h.button, 1);
    var k := OccupiedAt(g.stack, g.h.button, 1);
    var before: int := NextOccupied(g.stack, g.h.button, 1) - 1;
    forall j | 1 <= j < k
      ensures !NeedsToAct(h, SeatAfter(g.h.button, j))
    {
      EmptyNeedsNot(g, h, SeatAfter(g.h.button, j));
    }
    forall j | 1 <= j && j + (k - 1) <= SEATS
      ensures SeatAfter(before, j) == SeatAfter(g.h.button, j + (k - 1))
    {
      Wraps(g.h.button, k, j);
    }
    forall j | SEATS + 1 - (k - 1) <= j <= SEATS && j >= 1
      ensures !NeedsToAct(h, SeatAfter(before, j))
    {
      Wraps(g.h.button, k, j);
    }
    SkipTo(h, g.h.button, 1, k);
    SameScan(h, g.h.button, before, 1, k - 1);
  }

  lemma EmptyNeedsNot(g: Game, h: Hand, s: nat)
    requires Shaped(g) && |h.folded| == |h.allIn| == |h.acted| == |h.streetCommit| == SEATS && h.inHand == g.h.inHand
    requires s < SEATS && g.stack[s].None?
    ensures !NeedsToAct(h, s)
  {
  }

  // ---------------------------------------------------------------- what follows an action

  /** THEOREM.  What follows an action that keeps the chips in play.  A hand ends by folds exactly when one contender is
      left; it comes to a showdown exactly when nobody needs to act and the river is bet or fewer than two contenders
      have chips once the uncalled bet is returned; else betting goes on, on the same street while somebody needs to act
      and on the very next one otherwise, opened by the first seat left of the button that can act.  The clock restarts. */
  lemma AdvanceDecides(m: Game, now: nat)
    requires Mid(m) && Contenders(m.h, 0) >= 1
    ensures var r, u := MaybeAdvance(m, now), ReturnUncalled(m);
      && Shaped(u) && Shaped(r)
      && (r.h.phase == Complete <==> Contenders(m.h, 0) == 1)
      && (r.h.phase == AtShowdown <==>
            Contenders(m.h, 0) >= 2 && !SomeoneNeeds(m.h) && (m.h.street == River || WithChips(u, 0) < 2))
      && (r.h.phase == AtShowdown ==> r.stack == u.stack && r.h.street == m.h.street)
      && (r.h.phase == Phase.Betting && SomeoneNeeds(m.h) ==> r.h.street == m.h.street && r.stack == m.stack)
      && (r.h.phase == Phase.Betting && !SomeoneNeeds(m.h) ==>
            && StreetsLeft(r.h.street) + 1 == StreetsLeft(m.h.street) && r.stack == u.stack && r.h.betTo == 0
            && r.h.actionOn == NextToAct(r.h, m.h.button, 1))
      && (r.h.phase == Phase.Betting ==> r.h.deadline == Some(now + m.params.timeout))
  {
    hide Contenders, NextToAct, StreetComplete, ReturnUncalled, NextOccupied, WithChips, SidePots, FirstContender, NeedsToAct;
    CompleteIffNobodyNeeds(m.h);
    ReturnShaped(m);
    AdvanceKeeps(m, now);
    if Contenders(m.h, 0) <= 1 {
      CompleteKeeps(m);
    } else if StreetComplete(m.h) {
      ReturnKeeps(m);
      var u := ReturnUncalled(m);
      if u.h.street != River && WithChips(u, 0) >= 2 {
        var r := AdvanceStreet(u, now);
        var h := u.h.(street := NextStreet(u.h.street), betTo := 0, minRaise := u.params.bigBlind, interval := 0,
                      streetCommit := seq(SEATS, _ => 0), acted := seq(SEATS, _ => -1));
        FromTheButton(u, h);
        SameTurn(h, r.h, m.h.button, 1);
      }
    }
  }

  /** Whose turn it is does not matter to the scan. */
  lemma {:induction false} SameTurn(h: Hand, k: Hand, from: int, off: nat)
    requires |h.inHand| == |h.folded| == |h.allIn| == |h.acted| == |h.streetCommit| == SEATS && from >= -1
    requires k == h.(actionOn := k.actionOn, deadline := k.deadline)
    ensures NextToAct(k, from, off) == NextToAct(h, from, off)
    decreases SEATS + 1 - off
  {
    if 1 <= off <= SEATS { SameTurn(h, k, from, off + 1); }
  }

  // ---------------------------------------------------------------- a whole hand

  /** One accepted action, as far as the streets are concerned. */
  ghost predicate StreetStep(g: Game, r: Game)
    requires Shaped(r)
  {
    && (r.h.phase == AtShowdown ==> r.h.street == g.h.street && (g.h.street == River || WithChips(r, 0) < 2))
    && (r.h.phase == Phase.Betting ==> r.h.street == g.h.street || r.h.street == NextStreet(g.h.street))
  }

  lemma {:induction false} SameWithChips(g: Game, r: Game, i: nat)
    requires Shaped(g) && Shaped(r) && r.stack == g.stack && r.h.inHand == g.h.inHand && r.h.folded == g.h.folded
    ensures WithChips(r, i) == WithChips(g, i)
    decreases SEATS - i
  {
    if i < SEATS { SameWithChips(g, r, i + 1); }
  }

  lemma FollowsStreet(g: Game, r: Game)
    requires Inv(g) && Follows(g, r)
    ensures Shaped(r) && StreetStep(g, r)
  {
    hide Contenders, Move, MaybeAdvance, WithChips, ReturnUncalled, Mid, SomeoneNeeds, NextToAct, NeedsToAct;
    var seat: int, a: Action, now: nat :| ApplyAction(g, seat, a, now) == Ok(r);
    MoveKeeps(g, a);
    MidFacts(g);
    var m := Move(g, seat, a).value;
    MoveOnStreet(g, seat, a);
    MoveShaped(g, seat, a);
    AdvanceDecides(m, now);
    if r.h.phase == AtShowdown {
      ShowdownSame(m, now);
      SameWithChips(ReturnUncalled(m), r, 0);
    }
    NextIs(g.h.street, r.h.street);
  }

  lemma NextIs(a: Street, b: Street)
    ensures StreetsLeft(b) + 1 == StreetsLeft(a) ==> b == NextStreet(a)
  {
  }

  lemma MoveOnStreet(g: Game, s: nat, a: Action)
    requires Shaped(g) && s < SEATS && g.stack[s].Some? && Move(g, s, a).Ok?
    ensures Move(g, s, a).value.h.street == g.h.street
  {
  }

  lemma ShowdownSame(m: Game, now: nat)
    requires Mid(m) && Contenders(m.h, 0) >= 1 && MaybeAdvance(m, now).h.phase == AtShowdown
    ensures var r, u := MaybeAdvance(m, now), ReturnUncalled(m);
      Shaped(u) && Shaped(r) && r.stack == u.stack && r.h.inHand == u.h.inHand && r.h.folded == u.h.folded
  {
    hide Contenders, StreetComplete, WithChips, NextToAct, NextOccupied, SidePots, ReturnUncalled;
    ReturnShaped(m);
    if Contenders(m.h, 0) <= 1 { CompleteKeeps(m); }
  }

  /** Some state of the first `k + 1` bets the street. */
  ghost predicate Bet(gs: seq<Game>, s: Street, k: nat) {
    exists i :: 0 <= i <= k && i < |gs| && gs[i].h.phase == Phase.Betting && gs[i].h.street == s
  }

  ghost predicate BetUpTo(gs: seq<Game>, s: Street, k: nat) {
    forall t: Street :: StreetsLeft(t) >= StreetsLeft(s) ==> Bet(gs, t, k)
  }

  /** While betting lasts every street so far has been bet. */
  lemma {:induction false} StreetsSoFar(gs: seq<Game>, k: nat)
    requires IsRun(gs) && Inv(gs[0]) && gs[0].h.street == Preflop && k < |gs| && Inv(gs[k])
    ensures BetUpTo(gs, gs[k].h.street, k)
  {
    hide Inv, Follows;
    InvIsBetting(gs[k]);
    assert Bet(gs, gs[k].h.street, k);
    if k > 0 {
      InvBefore(gs, k);
      StreetsSoFar(gs, k - 1);
      assert Follows(gs[k - 1], gs[k]);
      FollowsStreet(gs[k - 1], gs[k]);
      forall t: Street | StreetsLeft(t) >= StreetsLeft(gs[k].h.street)
        ensures Bet(gs, t, k)
      {
        if t != gs[k].h.street {
          assert Bet(gs, t, k - 1);
          var i :| 0 <= i <= k - 1 && i < |gs| && gs[i].h.phase == Phase.Betting && gs[i].h.street == t;
          assert 0 <= i <= k && i < |gs|;
        }
      }
    }
  }

  lemma InvIsBetting(g: Game)
    requires Inv(g)
    ensures g.h.phase == Phase.Betting
  {
  }

  /** Whatever is acted upon is a state of the invariant. */
  lemma InvBefore(gs: seq<Game>, k: nat)
    requires IsRun(gs) && Inv(gs[0]) && 0 < k < |gs|
    ensures Inv(gs[k - 1])
  {
    hide Contenders, Mid, Move, MaybeAdvance;
    RunsKeep(gs, k - 1);
    assert Follows(gs[k - 1], gs[k]);
  }

  /** THEOREM.  A hand that comes to a showdown has been bet on all four streets, unless fewer than two contenders have
      chips left to bet with. */
  lemma AllStreetsBet(gs: seq<Game>, k: nat)
    requires IsRun(gs) && Inv(gs[0]) && gs[0].h.street == Preflop && k < |gs| && gs[k].h.phase == AtShowdown
    ensures Shaped(gs[k]) && (WithChips(gs[k], 0) >= 2 ==> forall s: Street :: Bet(gs, s, k))
  {
    hide Inv, Follows, WithChips;
    InvIsBetting(gs[0]);
    InvBefore(gs, k);
    assert Follows(gs[k - 1], gs[k]);
    FollowsStreet(gs[k - 1], gs[k]);
    StreetsSoFar(gs, k - 1);
    forall s: Street | WithChips(gs[k], 0) >= 2
      ensures Bet(gs, s, k)
    {
      assert Bet(gs, s, k - 1);
      var i :| 0 <= i <= k - 1 && i < |gs| && gs[i].h.phase == Phase.Betting && gs[i].h.street == s;
      assert 0 <= i <= k && i < |gs|;
    }
  }
}
