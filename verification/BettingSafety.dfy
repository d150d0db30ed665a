/** What every reachable betting state satisfies, who owns which chips, and why hands end. */
module BettingSafety {
  import opened Outcome
  import opened Pots
  import opened Betting

  // ---------------------------------------------------------------- the invariant

  /** Everything that holds between an action and the move to the next seat or street. */
  ghost predicate Mid(g: Game) {
    && Shaped(g) && g.h.phase == Phase.Betting
    && 0 < g.params.bigBlind <= g.h.minRaise
    && g.h.actionOn.Some? && g.h.actionOn.value < SEATS
    && (forall i :: 0 <= i < SEATS && !g.h.inHand[i] ==> g.h.totalCommit[i] == 0)
    && (forall i :: 0 <= i < SEATS ==> -1 <= g.h.acted[i] <= g.h.interval)
    && (forall i :: 0 <= i < SEATS && Contends(g.h, i) ==> (g.h.allIn[i] <==> Stack(g, i) == 0))
  }

  /** The invariant of the betting phase: the seat on turn needs to act, at least two seats contend, and a
      contender is all-in exactly when its stack is empty. */
  ghost predicate Inv(g: Game) {
    Mid(g) && Contenders(g.h, 0) >= 2 && NeedsToAct(g.h, g.h.actionOn.value) && g.h.deadline.Some?
  }

  /** No street commitment exceeds the bet to match. */
  ghost predicate Bounded(h: Hand) { forall i :: 0 <= i < |h.streetCommit| ==> h.streetCommit[i] <= h.betTo }

  /** What the end of the betting phase looks like. */
  ghost predicate Closed(g: Game) {
    && Shaped(g) && g.h.phase in {AtShowdown, Complete} && g.h.actionOn.None?
    && (g.h.phase == Complete ==> forall i :: 0 <= i < SEATS ==> g.h.totalCommit[i] == 0)
    && (g.h.phase == AtShowdown ==> g.h.pots == SidePots(g.h.totalCommit, Eligible(g.h)))
    && (forall i :: 0 <= i < SEATS && !g.h.inHand[i] ==> g.h.totalCommit[i] == 0)
  }

  // ---------------------------------------------------------------- finding the next seat

  lemma {:induction false} NextFinds(h: Hand, from: int, off: nat, k: nat)
    requires |h.inHand| == |h.folded| == |h.allIn| == |h.acted| == |h.streetCommit| == SEATS && from >= -1
    requires 0 < off <= k <= SEATS && NeedsToAct(h, (from + k) % SEATS)
    ensures NextToAct(h, from, off).Some?
    decreases k - off
  {
    if !NeedsToAct(h, (from + off) % SEATS) { NextFinds(h, from, off + 1, k); }
  }

  lemma {:induction false} NextNeeds(h: Hand, from: int, off: nat)
    requires |h.inHand| == |h.folded| == |h.allIn| == |h.acted| == |h.streetCommit| == SEATS && from >= -1
    ensures var r := NextToAct(h, from, off); r.Some? ==> r.value < SEATS && NeedsToAct(h, r.value)
    decreases SEATS + 1 - off
  {
    if 0 < off <= SEATS { NextNeeds(h, from, off + 1); }
  }

  /** The scan finds a seat exactly when some seat needs to act. */
  lemma NextSpec(h: Hand, from: int)
    requires |h.inHand| == |h.folded| == |h.allIn| == |h.acted| == |h.streetCommit| == SEATS && -1 <= from < SEATS
    ensures var r := NextToAct(h, from, 1);
      && (r.Some? <==> exists s :: 0 <= s < SEATS && NeedsToAct(h, s))
      && (r.Some? ==> r.value < SEATS && NeedsToAct(h, r.value))
  {
    hide NextToAct, NeedsToAct;
    NextNeeds(h, from, 1);
    if s :| 0 <= s < SEATS && NeedsToAct(h, s) {
      var k := if s > from then s - from else s + SEATS - from;
      assert (from + k) % SEATS == s;
      NextFinds(h, from, 1, k);
    }
  }

  /** A street is complete exactly when nobody needs to act. */
  lemma CompleteIffNobodyNeeds(h: Hand)
    requires |h.inHand| == |h.folded| == |h.allIn| == |h.acted| == |h.streetCommit| == SEATS
    ensures StreetComplete(h) <==> forall s :: 0 <= s < SEATS ==> !NeedsToAct(h, s)
  {
    if forall s :: 0 <= s < SEATS ==> !NeedsToAct(h, s) {
      forall i | 0 <= i < SEATS && h.inHand[i] && !h.folded[i] && !h.allIn[i]
        ensures h.streetCommit[i] == h.betTo && h.acted[i] == h.interval
      {
        assert !NeedsToAct(h, i);
      }
    }
  }

  // ---------------------------------------------------------------- counting contenders

  lemma {:induction false} ContendersSame(h: Hand, k: Hand, i: nat)
    requires |h.inHand| == |h.folded| == |k.inHand| == |k.folded| == SEATS && h.inHand == k.inHand && h.folded == k.folded
    ensures Contenders(h, i) == Contenders(k, i)
    decreases SEATS - i
  {
    if i < SEATS { ContendersSame(h, k, i + 1); }
  }

  lemma {:induction false} FoldCounts(h: Hand, k: Hand, s: nat, i: nat)
    requires |h.inHand| == |h.folded| == SEATS && s < SEATS && Contends(h, s)
    requires k.inHand == h.inHand && k.folded == h.folded[s := true]
    ensures Contenders(k, i) + (if i <= s then 1 else 0) == Contenders(h, i)
    decreases SEATS - i
  {
    if i < SEATS { FoldCounts(h, k, s, i + 1); }
  }

  lemma {:induction false} SomeContender(h: Hand, i: nat)
    requires |h.inHand| == |h.folded| == SEATS
    ensures Contenders(h, i) >= 1 <==> FirstContender(h, i).Some?
    ensures var w := FirstContender(h, i); w.Some? ==> i <= w.value < SEATS && Contends(h, w.value)
    decreases SEATS - i
  {
    if i < SEATS { SomeContender(h, i + 1); }
  }

  lemma {:induction false} SomeWithChips(g: Game, i: nat)
    requires Shaped(g) && WithChips(g, i) >= 1
    ensures exists s :: i <= s < SEATS && Contends(g.h, s) && Stack(g, s) > 0
    decreases SEATS - i
  {
    if i < SEATS && !(Contends(g.h, i) && Stack(g, i) > 0) { SomeWithChips(g, i + 1); }
  }

  // ---------------------------------------------------------------- every action keeps the invariant

  /** Paying into the pot keeps the all-in flag honest. */
  lemma CommitKeeps(g: Game, s: nat, pay: nat)
    requires Mid(g) && s < SEATS && Contends(g.h, s) && pay <= Stack(g, s)
    ensures g.stack[s].Some? && Mid(Commit(g, s, pay))
  {
  }

  /** Recording that `s` acted, in the current or in a new interval, keeps the rest. */
  lemma RecordKeeps(g: Game, s: nat, interval: nat, betTo: nat, minRaise: nat)
    requires Mid(g) && s < SEATS && interval >= g.h.interval && minRaise >= g.params.bigBlind
    ensures Mid(g.(h := g.h.(interval := interval, acted := g.h.acted[s := interval], betTo := betTo, minRaise := minRaise)))
  {
  }

  lemma BetKeeps(g: Game, s: nat, amount: int)
    requires Mid(g) && s < SEATS && Contends(g.h, s) && g.stack[s].Some? && ApplyBetTo(g, s, amount).Ok?
    ensures Mid(ApplyBetTo(g, s, amount).value)
  {
    hide Mid;
    MidFacts(g);
    var pay := amount - g.h.streetCommit[s];
    CommitKeeps(g, s, pay);
    var paid := Commit(g, s, pay);
    var m := ApplyBetTo(g, s, amount).value;
    RecordKeeps(paid, s, m.h.interval, m.h.betTo, m.h.minRaise);
  }

  lemma MidFacts(g: Game)
    requires Mid(g)
    ensures Shaped(g) && 0 < g.params.bigBlind <= g.h.minRaise && g.h.actionOn.Some? && g.h.actionOn.value < SEATS
  {
  }

  lemma CallKeeps(g: Game, s: nat)
    requires Mid(g) && s < SEATS && Contends(g.h, s) && g.stack[s].Some? && ApplyCall(g, s).Ok?
    ensures Mid(ApplyCall(g, s).value)
  {
    hide Mid;
    MidFacts(g);
    var pay := Min(ToCall(g.h, s), g.stack[s].value);
    CommitKeeps(g, s, pay);
    RecordKeeps(Commit(g, s, pay), s, g.h.interval, g.h.betTo, g.h.minRaise);
  }

  lemma FoldKeeps(g: Game, s: nat)
    requires Mid(g) && s < SEATS
    ensures Mid(ApplyFold(g, s).value)
  {
  }

  lemma MoveKeeps(g: Game, a: Action)
    requires Inv(g)
    ensures var s := g.h.actionOn.value;
      && g.stack[s].Some?
      && (Move(g, s, a).Ok? ==>
            var m := Move(g, s, a).value;
            Mid(m) && m.params == g.params && m.h.actionOn == g.h.actionOn && m.h.street == g.h.street && m.h.inHand == g.h.inHand
            && Contenders(m.h, 0) >= 1)
  {
    var s := g.h.actionOn.value;
    hide Contenders, Mid;
    MidFacts(g);
    if Move(g, s, a).Ok? {
      var m := Move(g, s, a).value;
      match a {
        case Fold =>
          FoldKeeps(g, s);
          FoldCounts(g.h, m.h, s, 0);
        case Check =>
          RecordKeeps(g, s, g.h.interval, g.h.betTo, g.h.minRaise);
          ContendersSame(g.h, m.h, 0);
        case Call =>
          CallKeeps(g, s);
          ContendersSame(g.h, m.h, 0);
        case BetTo(amount) =>
          BetKeeps(g, s, amount);
          ContendersSame(g.h, m.h, 0);
      }
    }
  }

  lemma ReturnKeeps(g: Game)
    requires Mid(g)
    ensures var r := ReturnUncalled(g);
      && Mid(r) && r.params == g.params && r.h.actionOn == g.h.actionOn && r.h.street == g.h.street && r.h.button == g.h.button
      && r.h.inHand == g.h.inHand && r.h.folded == g.h.folded && r.h.betTo == g.h.betTo
  {
    ReturnShaped(g);
    var v := g.h.streetCommit;
    var sole := SoleSeat(v);
    if sole.Some? { SecondBelow(v, v[sole.value], 0); }
  }

  /** After an action the hand is in a state of the invariant again, or betting is over. */
  lemma AdvanceKeeps(g: Game, now: nat)
    requires Mid(g) && Contenders(g.h, 0) >= 1
    ensures var r := MaybeAdvance(g, now);
      && r.params == g.params
      && (Inv(r) || Closed(r))
  {
    hide Contenders, NextToAct, StreetComplete, ReturnUncalled, NextOccupied, WithChips, SidePots, FirstContender, NeedsToAct;
    if Contenders(g.h, 0) <= 1 {
      CompleteKeeps(g);
    } else if !StreetComplete(g.h) {
      CompleteIffNobodyNeeds(g.h);
      NextSpec(g.h, g.h.actionOn.value);
      ContendersSame(g.h, MaybeAdvance(g, now).h, 0);
      SameNeeds(g.h, MaybeAdvance(g, now).h);
    } else {
      ReturnKeeps(g);
      var r := ReturnUncalled(g);
      ContendersSame(g.h, r.h, 0);
      if r.h.street != River && WithChips(r, 0) >= 2 {
        AdvanceStreetKeeps(r, now);
      }
    }
  }

  /** Whose turn it is does not change who needs to act. */
  lemma SameNeeds(h: Hand, k: Hand)
    requires |h.inHand| == |h.folded| == |h.allIn| == |h.acted| == |h.streetCommit| == SEATS
    requires k.inHand == h.inHand && k.folded == h.folded && k.allIn == h.allIn && k.acted == h.acted
    requires k.streetCommit == h.streetCommit && k.betTo == h.betTo && k.interval == h.interval
    ensures forall s :: 0 <= s < SEATS ==> (NeedsToAct(h, s) <==> NeedsToAct(k, s))
  {
  }

  lemma CompleteKeeps(g: Game)
    requires Mid(g) && Contenders(g.h, 0) >= 1
    ensures var r := CompleteByFolds(g); r.params == g.params && Closed(r) && r.h.phase == Complete
  {
    hide Contenders, ReturnUncalled, SidePots;
    SomeContender(g.h, 0);
    ReturnKeeps(g);
  }

  lemma {:induction false} NextOccupiedRange(stack: seq<Option<nat>>, from: nat, off: nat)
    requires |stack| == SEATS && off > 0 && from < SEATS
    ensures NextOccupied(stack, from, off) < SEATS
    decreases SEATS + 1 - off
  {
    if off <= SEATS { NextOccupiedRange(stack, from, off + 1); }
  }

  lemma AdvanceStreetKeeps(g: Game, now: nat)
    requires Mid(g) && Contenders(g.h, 0) >= 2 && WithChips(g, 0) >= 1
    ensures Inv(AdvanceStreet(g, now)) && Bounded(AdvanceStreet(g, now).h) && AdvanceStreet(g, now).params == g.params
  {
    hide Contenders, NextToAct, WithChips, NextOccupied;
    var r := AdvanceStreet(g, now);
    var start: int := NextOccupied(g.stack, g.h.button, 1);
    NextOccupiedRange(g.stack, g.h.button, 1);
    ContendersSame(g.h, r.h, 0);
    SomeWithChips(g, 0);
    var s :| 0 <= s < SEATS && Contends(g.h, s) && Stack(g, s) > 0;
    var h := g.h.(street := NextStreet(g.h.street), betTo := 0, minRaise := g.params.bigBlind, interval := 0,
                  streetCommit := seq(SEATS, _ => 0), acted := seq(SEATS, _ => -1));
    assert NeedsToAct(h, s);
    NextSpec(h, start - 1);
    SameNeeds(h, r.h);
  }

  /** THEOREM.  An accepted action keeps the invariant or ends the betting phase. */
  lemma ActionKeeps(g: Game, seat: int, a: Action, now: nat)
    requires Inv(g)
    ensures var r := ApplyAction(g, seat, a, now);
      && (r.Ok? ==> r.value.params == g.params && (Inv(r.value) || Closed(r.value)))
      && (r.Ok? <==> g.h.actionOn == Some(seat) && Move(g, g.h.actionOn.value, a).Ok?)
  {
    hide Move, MaybeAdvance, Contenders;
    MoveKeeps(g, a);
    var s := g.h.actionOn.value;
    if Move(g, s, a).Ok? {
      AdvanceKeeps(Move(g, s, a).value, now);
    }
  }

  /** A tick past the deadline is always accepted: play never deadlocks. */
  lemma TickKeeps(g: Game, now: nat)
    requires Inv(g)
    ensures var r := ApplyTick(g, now); r.Ok? && r.value.params == g.params && (Inv(r.value) || Closed(r.value))
  {
    hide ApplyAction;
    if now >= g.h.deadline.value {
      var s := g.h.actionOn.value;
      ActionKeeps(g, s, DefaultAction(g.h, s), now);
      DefaultAccepted(g);
    }
  }

  lemma DefaultAccepted(g: Game)
    requires Inv(g)
    ensures g.stack[g.h.actionOn.value].Some? && Move(g, g.h.actionOn.value, DefaultAction(g.h, g.h.actionOn.value)).Ok?
  {
    hide Contenders;
  }

  /** The seat at clockwise distance `off` from `from`. */
  function SeatAfter(from: int, off: nat): nat
    requires from >= -1 && off >= 1
  {
    (from + off) % SEATS
  }

  /** The seat to act is the first one clockwise that needs to. */
  lemma {:induction false} NextIsFirst(h: Hand, from: int, off: nat)
    requires |h.inHand| == |h.folded| == |h.allIn| == |h.acted| == |h.streetCommit| == SEATS && from >= -1 && off >= 1
    ensures var r := NextToAct(h, from, off);
      r.Some? ==> exists k :: off <= k <= SEATS && r.value == SeatAfter(from, k) && forall j :: off <= j < k ==> !NeedsToAct(h, SeatAfter(from, j))
    decreases SEATS + 1 - off
  {
    if off <= SEATS && !NeedsToAct(h, SeatAfter(from, off)) {
      NextIsFirst(h, from, off + 1);
      var r := NextToAct(h, from, off + 1);
      if r.Some? {
        var k :| off + 1 <= k <= SEATS && r.value == SeatAfter(from, k) && forall j :: off + 1 <= j < k ==> !NeedsToAct(h, SeatAfter(from, j));
        assert forall j :: off <= j < k ==> !NeedsToAct(h, SeatAfter(from, j));
      }
    }
  }
}
