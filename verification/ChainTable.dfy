/** A table of the chain (apps/chain/internal/app/poker.go): seats with stacks and bonds, and the hand in progress.
    Betting moves are those of `Betting`; what follows a move is what the chain does, with or without a dealer. */
module ChainTable {
  import opened Outcome
  import opened Pots
  import opened Betting
  import opened BettingSafety
  import opened BettingChips
  import Settlement

  datatype Rules = Rules(smallBlind: nat, bigBlind: nat, minBuyIn: nat, maxBuyIn: nat, playerBond: nat, actionTimeout: nat)

  datatype Seat = Seat(player: string, stack: nat, bond: nat)

  /** Where a hand stands: dealing, betting, or waiting for public cards. */
  datatype Stage = Shuffling | Playing | AwaitFlop | AwaitTurn | AwaitRiver | AwaitShowdown

  /** A hand in progress; without a dealer its cards come from a plain deck. */
  datatype Play = Play(h: Hand, stage: Stage, dealer: bool, deck: seq<nat>, cursor: nat, board: seq<nat>,
                       hole: seq<(nat, nat)>, shown: set<nat>)

  datatype PokerTable = PokerTable(rules: Rules, seats: seq<Option<Seat>>, button: Option<nat>, hand: Option<Play>)

  // ---------------------------------------------------------------- the game of a table

  function ActionTimeout(r: Rules): nat { if r.actionTimeout == 0 then 30 else r.actionTimeout }

  function BettingParams(r: Rules): Params { Params(r.smallBlind, r.bigBlind, ActionTimeout(r), true) }

  function Stacks(seats: seq<Option<Seat>>): (v: seq<Option<nat>>)
    ensures |v| == |seats| && forall i :: 0 <= i < |seats| ==> v[i] == if seats[i].Some? then Some(seats[i].value.stack) else None
  {
    seq(|seats|, i requires 0 <= i < |seats| => if seats[i].Some? then Some(seats[i].value.stack) else None)
  }

  ghost predicate SameSeats(seats: seq<Option<Seat>>, v: seq<Option<nat>>) {
    |v| == |seats| && forall i :: 0 <= i < |seats| ==> (v[i].Some? <==> seats[i].Some?)
  }

  function WithStacks(seats: seq<Option<Seat>>, v: seq<Option<nat>>): (r: seq<Option<Seat>>)
    requires SameSeats(seats, v)
    ensures |r| == |seats|
    ensures forall i :: 0 <= i < |seats| ==> r[i] == if seats[i].Some? then Some(seats[i].value.(stack := v[i].value)) else None
  {
    seq(|seats|, i requires 0 <= i < |seats| => if seats[i].Some? then Some(seats[i].value.(stack := v[i].value)) else None)
  }

  function GameOf(t: PokerTable): Game
    requires t.hand.Some?
  {
    Game(BettingParams(t.rules), Stacks(t.seats), t.hand.value.h)
  }

  /** The board cards a street is played with. */
  function StreetCards(s: Street): nat {
    match s case Preflop => 0 case Flop => 3 case Turn => 4 case River => 5
  }

  /** The board fits the stage; without a dealer the deck can still complete it. */
  ghost predicate BoardOk(p: Play) {
    && |p.hole| == SEATS
    && (p.stage == Shuffling ==> p.dealer && p.h.street == Preflop && p.board == [])
    && (p.stage == Playing ==> |p.board| == StreetCards(p.h.street))
    && (p.stage == AwaitFlop ==> p.dealer && p.h.street == Preflop && |p.board| <= 2)
    && (p.stage == AwaitTurn ==> p.dealer && p.h.street == Flop && |p.board| == 3)
    && (p.stage == AwaitRiver ==> p.dealer && p.h.street == Turn && |p.board| == 4)
    && (p.stage == AwaitShowdown ==> p.dealer && p.h.street == River && |p.board| == 5)
    && (!p.dealer ==> |p.board| <= 5 && |p.board| <= p.cursor && p.cursor + (5 - |p.board|) <= |p.deck| && p.board == p.deck[BoardFrom(p)..p.cursor])
  }

  /** Where in the deck the board begins. */
  function BoardFrom(p: Play): int { p.cursor - |p.board| }

  /** Chips are in the pot only for seats in the hand, and a contender that is all-in has none behind. */
  ghost predicate ChipsOk(g: Game) {
    && Shaped(g)
    && (forall i :: 0 <= i < SEATS && !g.h.inHand[i] ==> g.h.totalCommit[i] == 0)
    && (forall i :: 0 <= i < SEATS && Contends(g.h, i) && g.h.allIn[i] ==> Stack(g, i) == 0)
  }

  /** Moreover at least two seats contend. */
  ghost predicate PotOk(g: Game) { ChipsOk(g) && Contenders(g.h, 0) >= 2 }

  ghost predicate TableOk(t: PokerTable) {
    && |t.seats| == SEATS && (t.button.Some? ==> t.button.value < SEATS)
    && (t.hand.Some? ==> PotOk(GameOf(t)) && BoardOk(t.hand.value))
  }

  // ---------------------------------------------------------------- what a table holds

  ghost function SeatWorth(s: Option<Seat>): nat { if s.Some? then s.value.stack + s.value.bond else 0 }

  ghost function SeatsWorth(seats: seq<Option<Seat>>, i: nat): nat
    decreases |seats| - i
  {
    if i >= |seats| then 0 else SeatWorth(seats[i]) + SeatsWorth(seats, i + 1)
  }

  ghost function BondSum(seats: seq<Option<Seat>>, i: nat): nat
    decreases |seats| - i
  {
    if i >= |seats| then 0 else (if seats[i].Some? then seats[i].value.bond else 0) + BondSum(seats, i + 1)
  }

  /** Every chip at the table: stacks, bonds and the pot. */
  ghost function Worth(t: PokerTable): nat {
    SeatsWorth(t.seats, 0) + if t.hand.Some? then Sum(t.hand.value.h.totalCommit, 0) else 0
  }

  lemma {:induction false} SeatsUpdate(seats: seq<Option<Seat>>, s: nat, x: Option<Seat>, i: nat)
    requires s < |seats|
    ensures SeatsWorth(seats[s := x], i) + (if i <= s then SeatWorth(seats[s]) else 0) == SeatsWorth(seats, i) + (if i <= s then SeatWorth(x) else 0)
    decreases |seats| - i
  {
    if i < |seats| { SeatsUpdate(seats, s, x, i + 1); }
  }

  /** Stacks and bonds apart. */
  lemma {:induction false} SeatsSplit(seats: seq<Option<Seat>>, g: Game, i: nat)
    requires |seats| == SEATS && g.stack == Stacks(seats)
    ensures SeatsWorth(seats, i) == StackSum(g, i) + BondSum(seats, i)
    decreases SEATS - i
  {
    if i < SEATS { SeatsSplit(seats, g, i + 1); }
  }

  lemma {:induction false} SameBonds(seats: seq<Option<Seat>>, v: seq<Option<nat>>, i: nat)
    requires SameSeats(seats, v)
    ensures BondSum(WithStacks(seats, v), i) == BondSum(seats, i)
    decreases |seats| - i
  {
    if i < |seats| { SameBonds(seats, v, i + 1); }
  }

  // ---------------------------------------------------------------- what follows a move

  datatype Next = Goes(g: Game, stage: Stage, board: seq<nat>, cursor: nat) | FoldsOut(g: Game) | ShowsDown(g: Game, board: seq<nat>) | Refunds(g: Game)

  /** The wait after a betting round, with a dealer. */
  function WaitAfter(s: Street): Stage {
    match s case Preflop => AwaitFlop case Flop => AwaitTurn case Turn => AwaitRiver case River => AwaitShowdown
  }

  /** Betting on a new street starts left of the button. */
  ghost function OpenStreet(g: Game, s: Street): Game
    requires Shaped(g)
  {
    var h := g.h.(street := s, betTo := 0, minRaise := g.params.bigBlind, interval := 0,
                  streetCommit := seq(SEATS, _ => 0), acted := seq(SEATS, _ => -1));
    g.(h := h.(actionOn := NextToAct(h, g.h.button, 1)))
  }

  /** The board with the next `n` cards of the deck. */
  ghost function DealBoard(p: Play, n: nat): seq<nat>
    requires p.cursor + n <= |p.deck|
  {
    p.board + p.deck[p.cursor..p.cursor + n]
  }

  lemma ReturnStreet(m: Game)
    requires Shaped(m)
    ensures ReturnUncalled(m).h.street == m.h.street
  {
  }

  /** `maybeAdvance` of poker.go, up to the settlement of a showdown. */
  ghost function AfterMove(p: Play, m: Game): Next
    requires Shaped(m) && BoardOk(p) && p.stage == Playing && m.h.street == p.h.street
  {
    hide Contenders, StreetComplete, WithChips, CompleteByFolds, NextToAct, ReturnUncalled;
    if Contenders(m.h, 0) <= 1 then FoldsOut(CompleteByFolds(m))
    else if !StreetComplete(m.h) then
      var from := if m.h.actionOn.Some? then m.h.actionOn.value else 0;
      Goes(m.(h := m.h.(actionOn := NextToAct(m.h, from, 1))), Playing, p.board, p.cursor)
    else
      ReturnShaped(m);
      ReturnStreet(m);
      var u := ReturnUncalled(m);
      if p.dealer then Goes(u.(h := u.h.(actionOn := None)), WaitAfter(u.h.street), p.board, p.cursor)
      else if u.h.street == River || WithChips(u, 0) < 2 then ShowsDown(u, DealBoard(p, 5 - |p.board|))
      else
        var n := StreetCards(NextStreet(u.h.street)) - |p.board|;
        var a := OpenStreet(u, NextStreet(u.h.street));
        if a.h.actionOn.None? then ShowsDown(u, DealBoard(p, 5 - |p.board|))
        else Goes(a, Playing, DealBoard(p, n), p.cursor + n)
  }

  // ---------------------------------------------------------------- showdown

  ghost function ShowdownOf(g: Game, board: seq<nat>, hole: seq<(nat, nat)>): Settlement.Showdown
    requires Shaped(g)
  {
    Settlement.Showdown(g.h.totalCommit, Eligible(g.h), board, hole)
  }

  /** The chips a showdown pays to nobody: the pots without an eligible seat, unless all is refunded. */
  ghost function Unopened(g: Game, board: seq<nat>, hole: seq<(nat, nat)>): nat
    requires Shaped(g) && |board| == 5 && |hole| == SEATS
  {
    if Settlement.Undecidable(ShowdownOf(g, board, hole)) then 0
    else
      var ps := SidePots(g.h.totalCommit, Eligible(g.h));
      OpenAtMost(ps);
      PotTotal(ps) - Settlement.OpenTotal(ps)
  }

  lemma {:induction false} OpenAtMost(ps: seq<Pot>)
    ensures Settlement.OpenTotal(ps) <= PotTotal(ps)
  {
    if ps != [] { OpenAtMost(ps[1..]); }
  }

  /** The stacks after the showdown: every pot to its winners, or every commitment back when some contested pot
      cannot be decided. */
  ghost predicate Settled(g: Game, board: seq<nat>, hole: seq<(nat, nat)>, v: seq<Option<nat>>)
    requires Shaped(g) && |board| == 5 && |hole| == SEATS
  {
    var d := ShowdownOf(g, board, hole);
    && |v| == SEATS
    && (Settlement.Undecidable(d) ==> forall i :: 0 <= i < SEATS ==> v[i] == Settlement.Credited(g.stack[i], g.h.totalCommit[i]))
    && (!Settlement.Undecidable(d) ==> exists ws :: Awarded(d, ws, g.stack, v))
  }

  ghost predicate Awarded(d: Settlement.Showdown, ws: seq<seq<nat>>, stack: seq<Option<nat>>, v: seq<Option<nat>>)
    requires d.WellFormed()
  {
    var ps := SidePots(d.commit, d.eligible);
    && |ws| == |ps| && Settlement.Decided(d, ps, ws) && |v| == |stack|
    && forall i :: 0 <= i < |v| ==> v[i] == Settlement.Credited(stack[i], Settlement.Payout(ps, ws, i))
  }

  ghost function PaySum(pay: nat -> nat, i: nat): nat
    decreases SEATS - i
  {
    if i >= SEATS then 0 else pay(i) + PaySum(pay, i + 1)
  }

  /** Crediting the occupied seats adds exactly what they receive. */
  lemma {:induction false} StacksCredited(g: Game, r: Game, pay: nat -> nat, i: nat)
    requires |g.stack| == |r.stack| == SEATS
    requires forall k :: 0 <= k < SEATS ==> r.stack[k] == Settlement.Credited(g.stack[k], pay(k))
    requires forall k :: 0 <= k < SEATS && g.stack[k].None? ==> pay(k) == 0
    ensures StackSum(r, i) == StackSum(g, i) + PaySum(pay, i)
    decreases SEATS - i
  {
    if i < SEATS { StacksCredited(g, r, pay, i + 1); }
  }

  ghost function AmountAt(v: seq<nat>): nat -> nat {
    (k: nat) => if k < |v| then v[k] else 0
  }

  lemma {:induction false} PaySumIsSum(v: seq<nat>, i: nat)
    requires |v| == SEATS
    ensures PaySum(AmountAt(v), i) == Sum(v, i)
    decreases SEATS - i
  {
    if i < SEATS { PaySumIsSum(v, i + 1); }
  }

  ghost function PayoutAt(ps: seq<Pot>, ws: seq<seq<nat>>): nat -> nat
    requires |ps| == |ws|
  {
    k => Settlement.Payout(ps, ws, k)
  }

  lemma {:induction false} PaySumIsPayout(ps: seq<Pot>, ws: seq<seq<nat>>, i: nat)
    requires |ps| == |ws|
    ensures PaySum(PayoutAt(ps, ws), i) == Settlement.PayoutTotal(ps, ws, i, SEATS)
    decreases SEATS - i
  {
    if i < SEATS { PaySumIsPayout(ps, ws, i + 1); }
  }

  lemma AwardTotal(g: Game, d: Settlement.Showdown, ws: seq<seq<nat>>, r: Game)
    requires PotOk(g) && d.WellFormed() && d.commit == g.h.totalCommit && d.eligible == Eligible(g.h) && |r.stack| == SEATS
    requires Awarded(d, ws, g.stack, r.stack)
    ensures StackSum(r, 0) == StackSum(g, 0) + Settlement.OpenTotal(SidePots(d.commit, d.eligible))
  {
    hide Settlement.Decided, Settlement.Payout, SidePots, Nested, Contenders;
    var ps := SidePots(d.commit, d.eligible);
    SidePotsClosedForm(d.commit, d.eligible);
    forall k | 0 <= k < SEATS && g.stack[k].None?
      ensures PayoutAt(ps, ws)(k) == 0
    {
      Settlement.PayoutBound(d, ps, ws, k);
      assert !Contends(g.h, k);
    }
    StacksCredited(g, r, PayoutAt(ps, ws), 0);
    PaySumIsPayout(ps, ws, 0);
    Settlement.PayoutsExact(d, ps, ws);
  }

  /** THEOREM.  A showdown moves every committed chip to the seats, except exactly the pots nobody may win. */
  lemma SettledTotal(g: Game, board: seq<nat>, hole: seq<(nat, nat)>, r: Game)
    requires PotOk(g) && |board| == 5 && |hole| == SEATS && Settled(g, board, hole, r.stack)
    ensures StackSum(r, 0) + Unopened(g, board, hole) == TotalChips(g)
  {
    hide Settlement.Decided, Settlement.Payout, SidePots, Settlement.Undecidable, Contenders, Nested;
    var d := ShowdownOf(g, board, hole);
    SidePotsClosedForm(g.h.totalCommit, Eligible(g.h));
    if Settlement.Undecidable(d) {
      StacksCredited(g, r, AmountAt(g.h.totalCommit), 0);
      PaySumIsSum(g.h.totalCommit, 0);
    } else {
      OpenAtMost(SidePots(g.h.totalCommit, Eligible(g.h)));
      var ws :| Awarded(d, ws, g.stack, r.stack);
      AwardTotal(g, d, ws, r);
    }
  }

  /** THEOREM.  What a decided showdown pays to nobody is exactly what was committed beyond the best-covered
      contender `top`: nothing if and only if no seat committed more. */
  lemma UnopenedIs(g: Game, board: seq<nat>, hole: seq<(nat, nat)>, top: nat)
    requires PotOk(g) && |board| == 5 && |hole| == SEATS && !Settlement.Undecidable(ShowdownOf(g, board, hole))
    requires top < SEATS && Contends(g.h, top)
    requires forall j :: 0 <= j < SEATS && Contends(g.h, j) ==> g.h.totalCommit[j] <= g.h.totalCommit[top]
    ensures var v := g.h.totalCommit;
      && Unopened(g, board, hole) + Matched(v, v[top], 0) == Sum(v, 0)
      && (Unopened(g, board, hole) == 0 <==> forall j :: 0 <= j < SEATS ==> v[j] <= v[top])
  {
    hide SidePots, Nested, Contenders, Settlement.Undecidable, Settlement.TopIsOpen, Settlement.OnlyEligible, Matched, Sum;
    var v := g.h.totalCommit;
    SidePotsClosedForm(v, Eligible(g.h));
    Settlement.PotSeats(ShowdownOf(g, board, hole), top);
    Settlement.OpenIsWinnable(SidePots(v, Eligible(g.h)), top);
    Settlement.MatchedAllIff(v, v[top], 0);
  }

  lemma {:induction false} TopContender(h: Hand, i: nat) returns (top: nat)
    requires |h.inHand| == |h.folded| == |h.totalCommit| == SEATS && i < SEATS && Contenders(h, i) >= 1
    ensures i <= top < SEATS && Contends(h, top)
    ensures forall j :: i <= j < SEATS && Contends(h, j) ==> h.totalCommit[j] <= h.totalCommit[top]
    decreases SEATS - i
  {
    if Contenders(h, i + 1) == 0 {
      NoContender(h, i + 1);
      top := i;
    } else {
      top := TopContender(h, i + 1);
      if Contends(h, i) && h.totalCommit[i] > h.totalCommit[top] { top := i; }
    }
  }

  lemma {:induction false} NoContender(h: Hand, i: nat)
    requires |h.inHand| == |h.folded| == SEATS && Contenders(h, i) == 0
    ensures forall j :: i <= j < SEATS ==> !Contends(h, j)
    decreases SEATS - i
  {
    if i < SEATS { NoContender(h, i + 1); }
  }

  /** A showdown nobody folded before pays every chip out. */
  lemma UnfoldedPaysAll(g: Game, board: seq<nat>, hole: seq<(nat, nat)>)
    requires PotOk(g) && |board| == 5 && |hole| == SEATS && forall i :: 0 <= i < SEATS ==> !g.h.folded[i]
    ensures Unopened(g, board, hole) == 0
  {
    hide Unopened, Contenders, Settlement.Undecidable;
    if Settlement.Undecidable(ShowdownOf(g, board, hole)) {
      RefundedAll(g, board, hole);
    } else {
      var top := TopContender(g.h, 0);
      UnopenedIs(g, board, hole, top);
    }
  }

  lemma RefundedAll(g: Game, board: seq<nat>, hole: seq<(nat, nat)>)
    requires PotOk(g) && |board| == 5 && |hole| == SEATS && Settlement.Undecidable(ShowdownOf(g, board, hole))
    ensures Unopened(g, board, hole) == 0
  {
    hide Settlement.Undecidable;
  }

  // ---------------------------------------------------------------- chips through an action

  /** A fold-out pays every committed chip to the last contender. */
  lemma FoldOutTotal(g: Game)
    requires Shaped(g) && Contenders(g.h, 0) >= 1
    ensures var r := CompleteByFolds(g);
      && r.h.winner.Some? && r.h.winner.value < SEATS && Contends(g.h, r.h.winner.value)
      && |r.stack| == SEATS && StackSum(r, 0) == TotalChips(g)
      && (forall i :: 0 <= i < SEATS ==> (r.stack[i].Some? <==> g.stack[i].Some?))
      && (forall i :: 0 <= i < SEATS && i != r.h.winner.value ==> r.stack[i] == ReturnUncalled(g).stack[i])
  {
    hide Contenders, ReturnUncalled;
    SomeContender(g.h, 0);
    ReturnHoldings(g);
    var u, r := ReturnUncalled(g), CompleteByFolds(g);
    SameTotal(g, u, 0);
    StackSumUpdate(u, r, r.h.winner.value, Sum(u.h.totalCommit, 0), 0);
  }

  lemma ReturnPot(m: Game)
    requires PotOk(m)
    ensures PotOk(ReturnUncalled(m)) && TotalChips(ReturnUncalled(m)) == TotalChips(m)
    ensures SameStacks(m, ReturnUncalled(m))
    ensures var u := ReturnUncalled(m); u.h.street == m.h.street && u.params == m.params && u.h.button == m.h.button
  {
    hide Contenders, ReturnUncalled, StackSum, Sum;
    ReturnChips(m);
    ReturnHoldings(m);
    SameTotal(m, ReturnUncalled(m), 0);
    ContendersSame(m.h, ReturnUncalled(m).h, 0);
  }

  lemma ReturnChips(m: Game)
    requires ChipsOk(m)
    ensures ChipsOk(ReturnUncalled(m)) && SameStacks(m, ReturnUncalled(m))
    ensures var u := ReturnUncalled(m);
      && u.h.street == m.h.street && u.params == m.params && u.h.button == m.h.button
      && u.h.inHand == m.h.inHand && u.h.folded == m.h.folded && |u.h.inHand| == |u.h.folded| == SEATS
  {
    var v := m.h.streetCommit;
    var sole := SoleSeat(v);
    if sole.Some? { SecondBelow(v, v[sole.value], 0); }
  }

  /** The same seats are occupied. */
  ghost predicate SameStacks(g: Game, r: Game) {
    |g.stack| == |r.stack| == SEATS && forall i :: 0 <= i < SEATS ==> (g.stack[i].Some? <==> r.stack[i].Some?)
  }

  lemma {:induction false} SameStackSum(g: Game, r: Game, i: nat)
    requires |g.stack| == SEATS && r.stack == g.stack
    ensures StackSum(r, i) == StackSum(g, i)
    decreases SEATS - i
  {
    if i < SEATS { SameStackSum(g, r, i + 1); }
  }

  lemma OpenStreetPot(g: Game, s: Street)
    requires PotOk(g)
    ensures PotOk(OpenStreet(g, s)) && TotalChips(OpenStreet(g, s)) == TotalChips(g)
  {
    hide Contenders, NextToAct, StackSum, Sum;
    ContendersSame(g.h, OpenStreet(g, s).h, 0);
    SameStackSum(g, OpenStreet(g, s), 0);
  }

  /** The hand that goes on from an outcome. */
  ghost function Continued(p: Play, o: Next): Play
    requires o.Goes?
  {
    p.(h := o.g.h, stage := o.stage, board := o.board, cursor := o.cursor)
  }

  /** THEOREM.  What follows a move keeps every chip at the table, up to the pots nobody may win: a hand that goes on
      keeps them in stacks and pot, a fold-out has them all in the stacks, a showdown settles all of them; and a
      hand that goes on is consistent. */
  lemma AfterMoveKeeps(p: Play, m: Game)
    requires ChipsOk(m) && BoardOk(p) && p.stage == Playing && m.h.street == p.h.street && Contenders(m.h, 0) >= 1
    ensures var o := AfterMove(p, m);
      && SameStacks(m, o.g) && o.g.params == m.params && !o.Refunds?
      && (o.Goes? ==> PotOk(o.g) && TotalChips(o.g) == TotalChips(m) && BoardOk(Continued(p, o)))
      && (o.FoldsOut? ==> StackSum(o.g, 0) == TotalChips(m))
      && (o.ShowsDown? ==> PotOk(o.g) && TotalChips(o.g) == TotalChips(m) && |o.board| == 5)
  {
    hide Contenders, NextToAct, ReturnUncalled, StreetComplete, WithChips, CompleteByFolds, OpenStreet, TotalChips, PotOk;
    if Contenders(m.h, 0) <= 1 {
      FoldOutTotal(m);
      CompleteParams(m);
    } else if !StreetComplete(m.h) {
      MakePot(m);
      SamePot(m, AfterMove(p, m).g);
    } else {
      MakePot(m);
      ReturnPot(m);
      var u := ReturnUncalled(m);
      PotShaped(u);
      SamePot(u, u.(h := u.h.(actionOn := None)));
      OpenStreetPot(u, NextStreet(u.h.street));
      OpenStreetIs(u, NextStreet(u.h.street));
    }
  }

  lemma MakePot(m: Game)
    requires ChipsOk(m) && Contenders(m.h, 0) >= 2
    ensures PotOk(m)
  {
  }

  lemma CompleteParams(m: Game)
    requires Shaped(m)
    ensures CompleteByFolds(m).params == m.params
  {
  }

  lemma OpenStreetIs(g: Game, s: Street)
    requires Shaped(g)
    ensures OpenStreet(g, s).h.street == s && OpenStreet(g, s).stack == g.stack && OpenStreet(g, s).params == g.params
  {
  }

  /** Who is to act does not matter to the pot. */
  lemma SamePot(g: Game, r: Game)
    requires PotOk(g)
    requires r == g.(h := g.h.(actionOn := r.h.actionOn, deadline := r.h.deadline))
    ensures PotOk(r) && TotalChips(r) == TotalChips(g)
  {
    hide Contenders;
    ContendersSame(g.h, r.h, 0);
  }

  // ---------------------------------------------------------------- actions

  datatype ChainAction = Folds | Checks | Calls | Bets(amount: nat) | Raises(amount: nat)

  /** The move of the betting engine an action stands for; `bet` opens and `raise` tops an open bet. */
  function MoveOf(h: Hand, a: ChainAction): Result<Action> {
    match a
    case Folds => Ok(Fold)
    case Checks => Ok(Check)
    case Calls => Ok(Call)
    case Bets(x) => if h.betTo != 0 || x == 0 then Err else Ok(BetTo(x))
    case Raises(x) => if h.betTo == 0 || x == 0 then Err else Ok(BetTo(x))
  }

  /** The seat may act now. */
  predicate MayAct(t: PokerTable, seat: nat) {
    && t.hand.Some? && t.hand.value.stage == Playing && seat < SEATS && seat < |t.seats| && t.seats[seat].Some?
    && var h := t.hand.value.h;
    && h.actionOn == Some(seat) && seat < |h.inHand| && seat < |h.folded| && seat < |h.allIn|
    && h.inHand[seat] && !h.folded[seat] && !h.allIn[seat]
  }

  /** `applyAction` of poker.go accepts the action, overflow apart. */
  ghost predicate Legal(t: PokerTable, seat: nat, a: ChainAction)
    requires TableOk(t)
  {
    MayAct(t, seat) && MoveOf(t.hand.value.h, a).Ok? && Move(GameOf(t), seat, MoveOf(t.hand.value.h, a).value).Ok?
  }

  /** What the action leads to. */
  ghost function NextOf(t: PokerTable, seat: nat, a: ChainAction): Next
    requires TableOk(t) && Legal(t, seat, a)
  {
    var m := MoveOf(t.hand.value.h, a).value;
    MoveShaped(GameOf(t), seat, m);
    MoveStreet(GameOf(t), seat, m);
    AfterMove(t.hand.value, Move(GameOf(t), seat, m).value)
  }

  lemma MoveStreet(g: Game, seat: nat, m: Action)
    requires Shaped(g) && seat < SEATS && g.stack[seat].Some? && Move(g, seat, m).Ok?
    ensures Move(g, seat, m).value.h.street == g.h.street && Move(g, seat, m).value.params == g.params
  {
  }

  /** A move of a contender keeps the chips and leaves a contender. */
  lemma MovePot(g: Game, seat: nat, m: Action)
    requires PotOk(g) && seat < SEATS && g.stack[seat].Some? && Contends(g.h, seat) && !g.h.allIn[seat] && Move(g, seat, m).Ok?
    ensures var r := Move(g, seat, m).value;
      ChipsOk(r) && TotalChips(r) == TotalChips(g) && Contenders(r.h, 0) >= 1 && SameStacks(g, r)
  {
    hide Contenders, TotalChips;
    var r := Move(g, seat, m).value;
    MoveHoldings(g, seat, m);
    HoldingsTotal(g, r);
    if m.Fold? {
      FoldCounts(g.h, r.h, seat, 0);
    } else {
      ContendersSame(g.h, r.h, 0);
    }
  }

  lemma HoldingsTotal(g: Game, r: Game)
    requires SameHoldings(g, r)
    ensures TotalChips(r) == TotalChips(g)
  {
    SameTotal(g, r, 0);
  }

  lemma PotShaped(g: Game)
    requires PotOk(g)
    ensures Shaped(g)
  {
  }
}
