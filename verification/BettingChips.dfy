/** Where the chips are: per-seat conservation, the total on the table, and what an abort restores. */
module BettingChips {
  import opened Outcome
  import opened Pots
  import opened Betting
  import opened BettingSafety
  import opened BettingStart

  /** What seat `i` owns: its stack and its share of the escrow. */
  ghost function Held(g: Game, i: nat): nat
    requires i < |g.stack| && i < |g.h.totalCommit|
  {
    Stack(g, i) + g.h.totalCommit[i]
  }

  ghost function StackSum(g: Game, i: nat): nat
    requires |g.stack| == SEATS
    decreases SEATS - i
  {
    if i >= SEATS then 0 else Stack(g, i) + StackSum(g, i + 1)
  }

  /** `totalChipsOnTable` */
  ghost function TotalChips(g: Game): nat
    requires |g.stack| == SEATS
  {
    StackSum(g, 0) + Sum(g.h.totalCommit, 0)
  }

  /** The same seats are occupied and each owns what it owned. */
  ghost predicate SameHoldings(g: Game, r: Game) {
    && Shaped(g) && Shaped(r)
    && forall i :: 0 <= i < SEATS ==> (g.stack[i].Some? <==> r.stack[i].Some?) && Held(r, i) == Held(g, i)
  }

  lemma {:induction false} SameTotal(g: Game, r: Game, i: nat)
    requires SameHoldings(g, r)
    ensures StackSum(r, i) + Sum(r.h.totalCommit, i) == StackSum(g, i) + Sum(g.h.totalCommit, i)
    decreases SEATS - i
  {
    if i < SEATS {
      SameTotal(g, r, i + 1);
      assert Held(r, i) == Held(g, i);
    }
  }

  lemma HoldingsTrans(a: Game, b: Game, c: Game)
    requires SameHoldings(a, b) && SameHoldings(b, c)
    ensures SameHoldings(a, c)
  {
    forall i | 0 <= i < SEATS
      ensures (a.stack[i].Some? <==> c.stack[i].Some?) && Held(c, i) == Held(a, i)
    {
      assert Held(b, i) == Held(a, i) && Held(c, i) == Held(b, i);
    }
  }

  lemma MoveHoldings(g: Game, s: nat, a: Action)
    requires Shaped(g) && s < SEATS && g.stack[s].Some? && Move(g, s, a).Ok?
    ensures SameHoldings(g, Move(g, s, a).value)
  {
    MoveShaped(g, s, a);
  }

  lemma ReturnHoldings(g: Game)
    requires Shaped(g)
    ensures SameHoldings(g, ReturnUncalled(g))
  {
    ReturnShaped(g);
    var v := g.h.streetCommit;
    var sole := SoleSeat(v);
    if sole.Some? { SecondBelow(v, v[sole.value], 0); }
  }

  lemma {:induction false} SecondAttained(v: seq<nat>, m: nat, i: nat)
    ensures forall k :: i <= k < |v| && v[k] != m ==> v[k] <= SecondOf(v, m, i)
    ensures SecondOf(v, m, i) > 0 ==> exists k :: i <= k < |v| && v[k] != m && v[k] == SecondOf(v, m, i)
    decreases |v| - i
  {
    if i < |v| { SecondAttained(v, m, i + 1); }
  }

  /** THEOREM.  After the uncalled part of a bet has gone back, every positive street commitment of the largest size
      is matched by another seat, and nobody but the one uncalled seat has changed. */
  lemma NothingLeftUncalled(g: Game)
    requires Shaped(g) && forall i :: 0 <= i < SEATS && g.h.streetCommit[i] > 0 ==> g.stack[i].Some?
    ensures SoleSeat(ReturnUncalled(g).h.streetCommit).None?
    ensures var r := ReturnUncalled(g);
      |r.stack| == |r.h.streetCommit| == SEATS &&
      forall i :: 0 <= i < SEATS && SoleSeat(g.h.streetCommit) != Some(i) ==> r.stack[i] == g.stack[i] && r.h.streetCommit[i] == g.h.streetCommit[i]
  {
    var v := g.h.streetCommit;
    var sole := SoleSeat(v);
    if sole.Some? {
      var s := sole.value;
      SecondBelow(v, v[s], 0);
      SecondAttained(v, v[s], 0);
      var w := ReturnUncalled(g).h.streetCommit;
      forall x: nat
        ensures !SoleMax(w, x)
      {
        NotSole(v, w, s, x);
      }
    }
  }

  lemma NotSole(v: seq<nat>, w: seq<nat>, s: nat, x: nat)
    requires SoleMax(v, s) && w == v[s := SecondOf(v, v[s], 0)] && SecondOf(v, v[s], 0) < v[s]
    requires forall k :: 0 <= k < |v| && v[k] != v[s] ==> v[k] <= SecondOf(v, v[s], 0)
    requires SecondOf(v, v[s], 0) > 0 ==> exists k :: 0 <= k < |v| && v[k] != v[s] && v[k] == SecondOf(v, v[s], 0)
    ensures !SoleMax(w, x)
  {
    var m := SecondOf(v, v[s], 0);
    if m > 0 {
      var k :| 0 <= k < |v| && v[k] != v[s] && v[k] == m;
      assert w[k] == m && w[s] == m;
    }
    if x < |w| && x != s {
      assert w[x] == v[x] <= m;
    }
  }

  lemma {:induction false} StackSumUpdate(g: Game, r: Game, s: nat, x: nat, i: nat)
    requires |g.stack| == |r.stack| == SEATS && s < SEATS && g.stack[s].Some?
    requires r.stack == g.stack[s := Some(g.stack[s].value + x)]
    ensures StackSum(r, i) == StackSum(g, i) + (if i <= s then x else 0)
    decreases SEATS - i
  {
    if i < SEATS { StackSumUpdate(g, r, s, x, i + 1); }
  }

  lemma {:induction false} ZeroSum(v: seq<nat>, i: nat)
    requires forall k :: 0 <= k < |v| ==> v[k] == 0
    ensures Sum(v, i) == 0
    decreases |v| - i
  {
    if i < |v| { ZeroSum(v, i + 1); }
  }

  /** A fold-out pays every committed chip to the last contender and moves nothing else. */
  lemma FoldOutPays(g: Game)
    requires Mid(g) && Contenders(g.h, 0) >= 1
    ensures var r := CompleteByFolds(g);
      && r.h.winner.Some? && r.h.winner.value < SEATS && Contends(g.h, r.h.winner.value)
      && Shaped(r) && TotalChips(r) == TotalChips(g) && Sum(r.h.totalCommit, 0) == 0
      && (forall i :: 0 <= i < SEATS && i != r.h.winner.value ==> r.stack[i] == ReturnUncalled(g).stack[i])
  {
    hide Contenders, ReturnUncalled, SidePots, Mid;
    MidFacts(g);
    SomeContender(g.h, 0);
    ReturnKeeps(g);
    ReturnHoldings(g);
    var u, r := ReturnUncalled(g), CompleteByFolds(g);
    SameTotal(g, u, 0);
    MidFacts(u);
    StackSumUpdate(u, r, r.h.winner.value, Sum(u.h.totalCommit, 0), 0);
    ZeroSum(r.h.totalCommit, 0);
  }

  /** Moving on keeps every seat's holdings, except that a fold-out moves the pot to the winner. */
  lemma AdvanceHoldings(g: Game, now: nat)
    requires Mid(g) && Contenders(g.h, 0) >= 1
    ensures var r := MaybeAdvance(g, now);
      && Shaped(r) && TotalChips(r) == TotalChips(g)
      && (r.h.phase != Complete ==> SameHoldings(g, r))
  {
    hide Contenders, ReturnUncalled, SidePots, Mid, NextToAct, NextOccupied, WithChips, StreetComplete;
    MidFacts(g);
    var r := MaybeAdvance(g, now);
    if Contenders(g.h, 0) <= 1 {
      FoldOutPays(g);
      CompleteKeeps(g);
    } else {
      ReturnHoldings(g);
      ReturnKeeps(g);
      MidFacts(ReturnUncalled(g));
      if StreetComplete(g.h) {
        HoldingsTrans(g, ReturnUncalled(g), r);
      }
      SameTotal(g, r, 0);
    }
  }

  /** THEOREM.  An accepted action keeps the total on the table, and every seat's holdings unless it ends the
      hand by a fold-out. */
  lemma ActionConserves(g: Game, seat: int, a: Action, now: nat)
    requires Inv(g) && ApplyAction(g, seat, a, now).Ok?
    ensures var r := ApplyAction(g, seat, a, now).value;
      && Shaped(r) && TotalChips(r) == TotalChips(g)
      && (r.h.phase != Complete ==> SameHoldings(g, r))
  {
    hide Contenders, Mid, Move, MaybeAdvance;
    MidFacts(g);
    MoveKeeps(g, a);
    var m := Move(g, seat, a).value;
    MoveHoldings(g, seat, a);
    AdvanceHoldings(m, now);
    SameTotal(g, m, 0);
    if MaybeAdvance(m, now).h.phase != Complete {
      HoldingsTrans(g, m, MaybeAdvance(m, now));
    }
  }

  // ---------------------------------------------------------------- abort

  lemma AbortHoldings(g: Game)
    requires Shaped(g)
    ensures SameHoldings(g, AbortHand(g))
  {
  }

  /** THEOREM.  An abort keeps every seat's holdings and the total; with blind refund it gives each seat of an
      unfinished hand exactly what it owned, and without it the two blinds keep their commitment in escrow. */
  lemma AbortRestores(g: Game)
    requires Shaped(g)
    ensures var r := AbortHand(g);
      && Shaped(r) && TotalChips(r) == TotalChips(g) && (forall i :: 0 <= i < SEATS && g.stack[i].None? ==> r.stack[i].None?)
      && (g.h.phase in {Phase.Betting, AtShowdown} ==>
            && r.h.phase == Aborted
            && (forall i :: 0 <= i < SEATS && g.stack[i].Some? ==>
                  r.stack[i] == if g.params.refundBlinds || (i != g.h.sbSeat && i != g.h.bbSeat) then Some(Held(g, i)) else g.stack[i]))
  {
    AbortHoldings(g);
    SameTotal(g, AbortHand(g), 0);
  }

  // ---------------------------------------------------------------- the next hand

  lemma {:induction false} StackSumIs(g: Game, r: Game, i: nat)
    requires |g.stack| == SEATS && Shaped(r)
    requires forall k :: 0 <= k < SEATS ==> Held(r, k) == Stack(g, k)
    ensures StackSum(r, i) + Sum(r.h.totalCommit, i) == StackSum(g, i)
    decreases SEATS - i
  {
    if i < SEATS {
      StackSumIs(g, r, i + 1);
      assert Held(r, i) == Stack(g, i);
    }
  }

  /** THEOREM.  Dealing the next hand over `g` loses exactly the chips `g` still holds in escrow: none after a
      fold-out, the whole pot when `g` was left at showdown or half-played. */
  lemma NextHandTotal(g: Game, now: nat)
    requires Shaped(g) && g.params.bigBlind > 0
    ensures var r := StartHand(Table(g.params, g.stack, Some(g.h.button)), now);
      r.Ok? ==> Shaped(r.value) && TotalChips(r.value) + Sum(g.h.totalCommit, 0) == TotalChips(g)
  {
    hide SmallBlindSeat, BigBlindSeat, NextButton, BlindsPosted, Contenders, FundedSeats, NextToAct, SidePots, NeedsToAct, Bounded;
    var t := Table(g.params, g.stack, Some(g.h.button));
    StartEstablishes(t, now);
    if StartHand(t, now).Ok? {
      var r := StartHand(t, now).value;
      forall k | 0 <= k < SEATS
        ensures Held(r, k) == Stack(g, k)
      {
        assert t.stack[k].Some? || t.stack[k].None?;
      }
      StackSumIs(g, r, 0);
    }
  }
}
