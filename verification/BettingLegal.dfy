/** The actions offered to the seat to act, against the actions the engine accepts. */
module BettingLegal {
  import opened Outcome
  import opened Pots
  import opened Betting
  import opened BettingSafety

  /** `legalActions` for the seat to act. */
  ghost function LegalActions(g: Game): seq<Action>
    requires Inv(g)
  {
    var s := g.h.actionOn.value;
    var commit, max := g.h.streetCommit[s], g.h.streetCommit[s] + Stack(g, s);
    var canRaise := g.h.acted[s] != g.h.interval;
    if ToCall(g.h, s) == 0 then
      [Fold, Check] +
      (if Stack(g, s) == 0 || !canRaise then []
       else
         var low := if max >= g.params.bigBlind then g.params.bigBlind else max;
         (if low > 0 then [BetTo(low)] else []) + (if max > low then [BetTo(max)] else []))
    else
      [Fold, Call] +
      (if !canRaise || Stack(g, s) == 0 || max <= g.h.betTo then []
       else (if max >= g.h.betTo + g.h.minRaise then [BetTo(g.h.betTo + g.h.minRaise)] else []) + [BetTo(max)])
  }

  ghost predicate Accepted(g: Game, a: Action)
    requires Inv(g)
  {
    g.stack[g.h.actionOn.value].Some? && Move(g, g.h.actionOn.value, a).Ok?
  }

  /** The seat may raise without facing a bet, but the smallest offered bet does not top the bet already matched. */
  ghost predicate StaleOffer(g: Game)
    requires Inv(g)
  {
    var s := g.h.actionOn.value;
    && ToCall(g.h, s) == 0 && g.h.acted[s] != g.h.interval
    && g.h.streetCommit[s] + Stack(g, s) > g.params.bigBlind
    && (g.h.betTo > 0 || g.h.streetCommit[s] >= g.params.bigBlind)
  }

  lemma InvSeat(g: Game)
    requires Inv(g)
    ensures g.stack[g.h.actionOn.value].Some? && g.stack[g.h.actionOn.value].value > 0
  {
    hide Contenders;
    assert Contends(g.h, g.h.actionOn.value);
  }

  /** An action of the seat to act is accepted by the engine exactly when the move is. */
  lemma AcceptedIs(g: Game, a: Action, now: nat)
    requires Inv(g)
    ensures ApplyAction(g, g.h.actionOn.value, a, now).Ok? <==> Accepted(g, a)
  {
    hide Contenders, Mid, Move, ApplyAction;
    MidFacts(g);
    InvSeat(g);
    ActionKeeps(g, g.h.actionOn.value, a, now);
  }

  /** A stale offer holds a bet of one big blind that is refused. */
  lemma StaleBet(g: Game)
    requires Inv(g) && StaleOffer(g)
    ensures BetTo(g.params.bigBlind) in LegalActions(g) && !Accepted(g, BetTo(g.params.bigBlind))
  {
    hide Contenders, Commit;
    InvSeat(g);
    assert LegalActions(g)[2] == BetTo(g.params.bigBlind);
  }

  /** THEOREM.  Every offered action is accepted, if and only if the offer is not stale. */
  lemma OfferedAccepted(g: Game)
    requires Inv(g)
    ensures (forall i :: 0 <= i < |LegalActions(g)| ==> Accepted(g, LegalActions(g)[i])) <==> !StaleOffer(g)
  {
    hide Contenders, Commit;
    InvSeat(g);
    var s := g.h.actionOn.value;
    if StaleOffer(g) {
      StaleBet(g);
    }
  }

  /** `a` is offered, or is a bet between two offered ones. */
  ghost predicate Covered(g: Game, a: Action)
    requires Inv(g)
  {
    a in LegalActions(g) ||
    (a.BetTo? && exists i, j :: 0 <= i < j < |LegalActions(g)| && Between(LegalActions(g)[i], a, LegalActions(g)[j]))
  }

  ghost predicate Between(lo: Action, a: Action, hi: Action) {
    lo.BetTo? && a.BetTo? && hi.BetTo? && lo.amount <= a.amount <= hi.amount
  }

  /** THEOREM.  Every accepted action is offered, or is a bet between the least and the largest offered one. */
  lemma AcceptedOffered(g: Game, a: Action)
    requires Inv(g) && Accepted(g, a)
    ensures Covered(g, a)
  {
    hide Contenders, Commit;
    InvSeat(g);
    var s := g.h.actionOn.value;
    var l := LegalActions(g);
    assert l[0] == Fold;
    assert ToCall(g.h, s) == 0 ==> l[1] == Check;
    assert ToCall(g.h, s) != 0 ==> l[1] == Call;
    if a.BetTo? { BetOffered(g, a.amount); }
  }

  lemma BetOffered(g: Game, amount: int)
    requires Inv(g) && Accepted(g, BetTo(amount))
    ensures Covered(g, BetTo(amount))
  {
    hide Contenders, Commit;
    InvSeat(g);
    var s := g.h.actionOn.value;
    var l := LegalActions(g);
    var max := g.h.streetCommit[s] + Stack(g, s);
    if amount == max {
      assert l[|l| - 1] == BetTo(max);
    } else {
      assert |l| == 4 && l[3] == BetTo(max);
      assert Between(l[2], BetTo(amount), l[3]);
    }
  }

  /** THEOREM.  The bets accepted from the seat to act: none unless it has yet to act in the interval, and then
      its all-in total when that tops the bet, and everything from the minimum bet or raise up to it. */
  lemma AcceptedBets(g: Game, amount: int)
    requires Inv(g) && Bounded(g.h)
    ensures var s := g.h.actionOn.value;
      var max := g.h.streetCommit[s] + Stack(g, s);
      var low := if g.h.betTo == 0 then g.params.bigBlind else g.h.betTo + g.h.minRaise;
      Accepted(g, BetTo(amount)) <==> g.h.acted[s] != g.h.interval && ((amount == max && max > g.h.betTo) || low <= amount <= max)
  {
    hide Contenders, Commit;
    InvSeat(g);
    assert g.h.streetCommit[g.h.actionOn.value] <= g.h.betTo;
  }
}
