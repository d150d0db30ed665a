/** The handlers of a table as they run (apps/chain/internal/app/poker.go and app.go): loops over the seats and
    in-place updates, tied to the turns of `ChainTurn`.  Amounts are 64-bit; a handler that would overflow fails. */
module ChainPlay {
  import opened Outcome
  import opened Pots
  import opened Betting
  import opened BettingSafety
  import opened BettingChips
  import opened BettingEngine
  import opened ChainTable
  import opened ChainStart
  import opened ChainTurn
  import DealerHand
  import DealerProgress
  import Settlement

  const U64_MAX := Settlement.U64_MAX

  const I64_MAX := 0x7FFF_FFFF_FFFF_FFFF

  ghost predicate Leads(u: Turn, r: PokerTable) { Sound(u) && Becomes(u, r) }

  /** The table's chips fit into 64 bits and so does its next deadline. */
  ghost predicate Roomy(t: PokerTable, now: nat) { Worth(t) <= U64_MAX && now + ActionTimeout(t.rules) <= I64_MAX }

  // ---------------------------------------------------------------- overflow

  predicate Fits(stack: seq<Option<nat>>, commit: seq<nat>) {
    && (forall i :: 0 <= i < |stack| && stack[i].Some? ==> stack[i].value <= U64_MAX)
    && (forall i :: 0 <= i < |commit| ==> commit[i] <= U64_MAX)
  }

  lemma {:induction false} StackInSum(g: Game, k: nat, i: nat)
    requires |g.stack| == SEATS && i <= k < SEATS
    ensures Stack(g, k) <= StackSum(g, i)
    decreases SEATS - i
  {
    if i < k { StackInSum(g, k, i + 1); }
  }

  /** No stack and no commitment is more than the whole table. */
  lemma ChipsFit(g: Game, most: nat)
    requires Shaped(g) && TotalChips(g) <= most
    ensures forall i :: 0 <= i < SEATS ==> Stack(g, i) + Sum(g.h.totalCommit, 0) <= most
    ensures most <= U64_MAX ==> Fits(g.stack, g.h.totalCommit)
  {
    hide StackSum, Sum;
    SumBounds(g.h.totalCommit, 0);
    forall i | 0 <= i < SEATS
      ensures Stack(g, i) + Sum(g.h.totalCommit, 0) <= most
    {
      StackInSum(g, i, 0);
    }
    forall i | 0 <= i < SEATS
      ensures g.stack[i].Some? ==> g.stack[i].value <= most
      ensures g.h.totalCommit[i] <= most
    {
      assert Stack(g, i) + Sum(g.h.totalCommit, 0) <= most;
    }
  }

  // ---------------------------------------------------------------- after a move

  /** Betting starts again left of the button (`resetPostflopBettingRound`). */
  method Reopen(g: Game, s: Street) returns (r: Game)
    requires Shaped(g)
    ensures r == OpenStreet(g, s)
  {
    hide NextToAct;
    var h := g.h.(street := s, betTo := 0, minRaise := g.params.bigBlind, interval := 0,
                  streetCommit := seq(SEATS, _ => 0), acted := seq(SEATS, _ => -1));
    var on := FindNext(h, g.h.button);
    r := g.(h := h.(actionOn := on));
  }

  /** `maybeAdvance` of poker.go, up to the settlement of a showdown. */
  method FollowUp(p: Play, m: Game) returns (o: Next)
    requires Shaped(m) && BoardOk(p) && p.stage == Playing && m.h.street == p.h.street
    ensures o == AfterMove(p, m)
  {
    hide ReturnUncalled, Contenders, StreetComplete, NextToAct, WithChips, CompleteByFolds, OpenStreet;
    var n := CountNotFolded(m.h);
    var e := new Engine(m.params, m.stack, m.h);
    if n <= 1 {
      e.LastOneWins();
      return FoldsOut(Game(e.params, e.stack, e.h));
    }
    var done := IsStreetComplete(m.h);
    if !done {
      var next := FindNext(m.h, if m.h.actionOn.Some? then m.h.actionOn.value else 0);
      return Goes(m.(h := m.h.(actionOn := next)), Playing, p.board, p.cursor);
    }
    ReturnShaped(m);
    ReturnStreet(m);
    e.ReturnExcess();
    var u := Game(e.params, e.stack, e.h);
    if p.dealer {
      return Goes(u.(h := u.h.(actionOn := None)), WaitAfter(u.h.street), p.board, p.cursor);
    }
    var all := p.board + p.deck[p.cursor..p.cursor + (5 - |p.board|)];
    var chips := CountWithChips(u.stack, u.h, u);
    if u.h.street == River || chips < 2 {
      return ShowsDown(u, all);
    }
    var extra := StreetCards(NextStreet(u.h.street)) - |p.board|;
    var a := Reopen(u, NextStreet(u.h.street));
    if a.h.actionOn.None? {
      return ShowsDown(u, all);
    }
    o := Goes(a, Playing, p.board + p.deck[p.cursor..p.cursor + extra], p.cursor + extra);
  }

  // ---------------------------------------------------------------- the table after a turn

  method Restack(seats: seq<Option<Seat>>, v: seq<Option<nat>>) returns (r: seq<Option<Seat>>)
    requires SameSeats(seats, v)
    ensures r == WithStacks(seats, v)
  {
    r := [];
    for i := 0 to |seats|
      invariant |r| == i && forall j :: 0 <= j < i ==> r[j] == WithStacks(seats, v)[j]
    {
      r := r + [if seats[i].Some? then Some(seats[i].value.(stack := v[i].value)) else None];
    }
  }

  /** Write the outcome of a turn back to the table. */
  method Carry(u: Turn) returns (r: Result<PokerTable>)
    requires Sound(u)
    ensures r.Ok? ==> Leads(u, r.value)
    ensures Worth(u.table) <= U64_MAX && (u.clock.Some? ==> u.clock.value + ActionTimeout(u.table.rules) <= I64_MAX) ==> r.Ok?
  {
    hide PotOk, BoardOk, Settled, Worth, StackSum, BondSum, Sum;
    var t, g := u.table, u.o.g;
    match u.o {
      case Goes(_, _, _, _) =>
        var p := Timed(u.p.(h := g.h, stage := u.o.stage, board := u.o.board, cursor := u.o.cursor), t.rules, u.clock);
        GoesFits(u);
        if !Fits(g.stack, g.h.totalCommit) || (p.h.deadline.Some? && p.h.deadline.value > I64_MAX) {
          return Err;
        }
        var seats := Restack(t.seats, g.stack);
        r := Ok(t.(seats := seats, hand := Some(p)));
      case FoldsOut(_) =>
        FoldFits(u);
        if !Fits(g.stack, []) {
          return Err;
        }
        var seats := Restack(t.seats, g.stack);
        r := Ok(t.(seats := seats, hand := None));
      case ShowsDown(_, board) =>
        r := PayOut(u);
      case Refunds(_) =>
        r := GiveBack(u);
    }
  }

  lemma GoesFits(u: Turn)
    requires Sound(u) && !u.o.FoldsOut?
    ensures Shaped(u.o.g)
    ensures Worth(u.table) <= U64_MAX ==>
              && Fits(u.o.g.stack, u.o.g.h.totalCommit) && Sum(u.o.g.h.totalCommit, 0) <= U64_MAX
              && forall i :: 0 <= i < SEATS && u.o.g.stack[i].Some? ==> u.o.g.stack[i].value + Sum(u.o.g.h.totalCommit, 0) <= U64_MAX
  {
    hide BoardOk, Worth, StackSum, BondSum, Sum, Contenders;
    if Worth(u.table) <= U64_MAX {
      ChipsFit(u.o.g, U64_MAX);
      assert forall i :: 0 <= i < SEATS && u.o.g.stack[i].Some? ==> Stack(u.o.g, i) == u.o.g.stack[i].value;
      assert Stack(u.o.g, 0) >= 0;
    }
  }

  lemma FoldFits(u: Turn)
    requires Sound(u) && u.o.FoldsOut?
    ensures Worth(u.table) <= U64_MAX ==> Fits(u.o.g.stack, [])
  {
    hide BoardOk, Worth, StackSum, BondSum, PotOk;
    var g := u.o.g;
    if Worth(u.table) <= U64_MAX {
      forall i | 0 <= i < SEATS && g.stack[i].Some?
        ensures g.stack[i].value <= U64_MAX
      {
        StackInSum(g, i, 0);
      }
    }
  }

  /** `settleKnownShowdown` */
  method PayOut(u: Turn) returns (r: Result<PokerTable>)
    requires Sound(u) && u.o.ShowsDown?
    ensures r.Ok? ==> Leads(u, r.value)
    ensures Worth(u.table) <= U64_MAX ==> r.Ok?
  {
    hide PotOk, BoardOk, Worth, StackSum, BondSum, Sum, Settlement.Undecidable, Settlement.Decided, SidePots;
    var t, g := u.table, u.o.g;
    GoesFits(u);
    var d := Settlement.Showdown(g.h.totalCommit, Eligible(g.h), u.o.board, u.p.hole);
    var paid;
    ghost var ws;
    paid, ws := Settlement.Settle(g.stack, d);
    if paid.Err? {
      return Err;
    }
    assert Settlement.Undecidable(d) || Awarded(d, ws, g.stack, paid.value);
    var seats := Restack(t.seats, paid.value);
    assert Stacks(seats) == paid.value;
    r := Ok(t.(seats := seats, hand := None));
  }

  /** `abortHandRefundAllCommits` */
  method GiveBack(u: Turn) returns (r: Result<PokerTable>)
    requires Sound(u) && u.o.Refunds?
    ensures r.Ok? ==> Leads(u, r.value)
    ensures Worth(u.table) <= U64_MAX ==> r.Ok?
  {
    hide PotOk, BoardOk, Worth, StackSum, BondSum, Sum;
    var t, g := u.table, u.o.g;
    GoesFits(u);
    SumBounds(g.h.totalCommit, 0);
    var back := Settlement.RefundAll(g.stack, g.h.totalCommit);
    if back.Err? {
      return Err;
    }
    var seats := Restack(t.seats, back.value);
    assert Stacks(seats) == back.value;
    r := Ok(t.(seats := seats, hand := None));
  }

  // ---------------------------------------------------------------- the handlers

  /** `applyAction` of poker.go: it succeeds exactly on legal actions, and then the table follows the turn. */
  method ActOn(t: PokerTable, seat: nat, a: ChainAction, now: nat) returns (r: Result<PokerTable>)
    requires TableOk(t)
    ensures r.Ok? ==> Legal(t, seat, a) && Leads(ActTurn(t, seat, a, now), r.value)
    ensures Legal(t, seat, a) && Roomy(t, now) ==> r.Ok?
  {
    hide PotOk, BoardOk, Move, AfterMove, Worth, Sound, Becomes;
    if !MayAct(t, seat) {
      return Err;
    }
    var p := t.hand.value;
    PlayShaped(t);
    var m := MoveOf(p.h, a);
    if m.Err? {
      return Err;
    }
    var params, stack := BettingParams(t.rules), Stacks(t.seats);
    ghost var g := GameOf(t);
    var e := new Engine(params, stack, p.h);
    var ok := e.Apply(seat, m.value);
    if !ok {
      return Err;
    }
    var g' := Game(e.params, e.stack, e.h);
    MoveFits(t, seat, a);
    if m.value.BetTo? && p.h.streetCommit[seat] + stack[seat].value > U64_MAX {
      return Err;
    }
    if !Fits(g'.stack, g'.h.totalCommit) {
      return Err;
    }
    MoveShaped(g, seat, m.value);
    MoveStreet(g, seat, m.value);
    BoardFits(t);
    var o := FollowUp(p, g');
    ActSound(t, seat, a, now);
    r := Carry(Taken(t, p, o, Some(now)));
  }

  lemma MoveFits(t: PokerTable, seat: nat, a: ChainAction)
    requires TableOk(t) && Legal(t, seat, a)
    ensures Worth(t) <= U64_MAX ==>
              var g := GameOf(t);
              var m := Move(g, seat, MoveOf(t.hand.value.h, a).value).value;
              && Fits(m.stack, m.h.totalCommit)
              && (g.stack[seat].Some? ==> g.h.streetCommit[seat] + g.stack[seat].value <= U64_MAX)
  {
    hide BoardOk, Move, AfterMove, Worth, TotalChips, Contenders, StackSum, BondSum;
    var g, m := GameOf(t), MoveOf(t.hand.value.h, a).value;
    HandWorth(t);
    assert Contends(g.h, seat);
    MovePot(g, seat, m);
    if Worth(t) <= U64_MAX {
      ChipsFit(Move(g, seat, m).value, U64_MAX);
      ChipsFit(g, U64_MAX);
      SumBounds(g.h.totalCommit, 0);
      assert Stack(g, seat) + Sum(g.h.totalCommit, 0) <= U64_MAX;
    }
  }

  /** `poker/tick` */
  method TickOn(t: PokerTable, now: nat) returns (r: Result<PokerTable>)
    requires TableOk(t)
    ensures r.Ok? ==> MayTick(t, now) && Leads(TickTurn(t, now), r.value)
    ensures MayTick(t, now) && Roomy(t, now) ==> r.Ok?
  {
    hide PotOk, BoardOk, Worth, Sound, Becomes, ActTurn, Legal;
    if !Waiting(t) {
      return Err;
    }
    var p := t.hand.value;
    PlayShaped(t);
    ChargedSame(t);
    var seat := p.h.actionOn.value;
    if p.h.deadline.None? {
      TickSound(t, now);
      r := Carry(Taken(t, p, Goes(Game(BettingParams(t.rules), Stacks(t.seats), p.h), Playing, p.board, p.cursor), Some(now)));
      return;
    }
    if now < p.h.deadline.value || !MayAct(t, seat) {
      return Err;
    }
    TimeoutLegal(Charged(t), seat);
    r := ActOn(Charged(t), seat, TimeoutAction(p.h, seat), now);
  }

  /** The effect of `dealer/finalize_reveal`, `dealer/submit_enc_share` and `dealer/timeout` on the table. */
  method StepOn(t: PokerTable, s: DealerStep, now: nat) returns (r: Result<PokerTable>)
    requires TableOk(t)
    ensures r.Ok? ==> MayStep(t, s) && Leads(DealerTurn(t, s, now), r.value)
    ensures MayStep(t, s) && Roomy(t, now) ==> r.Ok?
  {
    hide PotOk, BoardOk, Worth, Sound, Becomes, OpenStreet, WithChips, AllShown;
    if !MayStep(t, s) {
      return Err;
    }
    var p := t.hand.value;
    PlayShaped(t);
    DealerSound(t, s, now);
    var g := Game(BettingParams(t.rules), Stacks(t.seats), p.h);
    match s {
      case OpenBetting(late) =>
        var stage := if p.h.actionOn.None? then AwaitFlop else Playing;
        r := Carry(Taken(t, p, Goes(g, stage, p.board, p.cursor), if late then None else Some(now)));
      case BoardCard(card) =>
        var o := TurnUp(t, card);
        r := Carry(Taken(t, p, o, Some(now)));
      case HoleCard(k, card) =>
        var q := WithHole(p, k, card);
        var all := NoneHidden(q.h, q.shown);
        r := Carry(Taken(t, q, if all then ShowsDown(g, q.board) else Goes(g, AwaitShowdown, q.board, q.cursor), Some(now)));
      case Abort =>
        r := Carry(Taken(t, p, Refunds(g), Some(now)));
    }
  }

  /** `applyDealerRevealToPoker` for a board card. */
  method TurnUp(t: PokerTable, card: nat) returns (o: Next)
    requires TableOk(t) && MayStep(t, BoardCard(card))
    ensures o == BoardNext(t, card)
  {
    hide PotOk, BoardOk, OpenStreet, WithChips;
    PlayShaped(t);
    var p := t.hand.value;
    var g := Game(BettingParams(t.rules), Stacks(t.seats), p.h);
    var board, s := p.board + [card], NextStreet(p.h.street);
    if |board| < StreetCards(s) {
      return Goes(g, p.stage, board, p.cursor);
    }
    var chips := CountWithChips(g.stack, g.h, g);
    if chips < 2 {
      return Goes(g.(h := g.h.(street := s, actionOn := None)), WaitAfter(s), board, p.cursor);
    }
    var a := Reopen(g, s);
    o := Goes(a, Playing, board, p.cursor);
  }

  /** `dealerNextShowdownHolePos` finds nothing. */
  method NoneHidden(h: Hand, shown: set<nat>) returns (all: bool)
    requires |h.inHand| == |h.folded| == SEATS
    ensures all <==> AllShown(h, shown)
  {
    for i := 0 to SEATS
      invariant forall j :: 0 <= j < i && Contends(h, j) ==> 2 * j in shown && 2 * j + 1 in shown
    {
      if h.inHand[i] && !h.folded[i] && (2 * i !in shown || 2 * i + 1 !in shown) {
        assert Contends(h, i);
        return false;
      }
    }
    all := true;
  }

  // ---------------------------------------------------------------- starting a hand

  /** `dealHoleCards`: one card to every seat in deal order, then a second one. */
  method DealTwo(order: seq<nat>, deck: seq<nat>) returns (hole: seq<(nat, nat)>)
    requires 2 * |order| <= |deck| && forall k :: 0 <= k < |order| ==> order[k] < SEATS
    requires DealerProgress.NoRepeat(order)
    ensures hole == Holes(order, deck, |order|)
  {
    hole := seq(SEATS, _ => (0, 0));
    for k := 0 to |order|
      invariant |hole| == SEATS
      invariant forall j :: 0 <= j < k ==> hole[order[j]] == (deck[j], 0)
      invariant forall s :: 0 <= s < SEATS && s !in order[..k] ==> hole[s] == (0, 0)
    {
      assert order[..k + 1] == order[..k] + [order[k]];
      hole := hole[order[k] := (deck[k], 0)];
    }
    for k := 0 to |order|
      invariant |hole| == SEATS
      invariant forall j :: 0 <= j < k ==> hole[order[j]] == (deck[j], deck[|order| + j])
      invariant forall j :: k <= j < |order| ==> hole[order[j]] == (deck[j], 0)
      invariant forall s :: 0 <= s < SEATS && s !in order ==> hole[s] == (0, 0)
    {
      hole := hole[order[k] := (hole[order[k]].0, deck[|order| + k])];
    }
    HolesAre(order, deck, hole);
  }

  lemma {:induction false} HolesElsewhere(order: seq<nat>, deck: seq<nat>, n: nat, s: nat)
    requires n <= |order| && 2 * |order| <= |deck| && forall j :: 0 <= j < |order| ==> order[j] < SEATS
    requires s < SEATS && s !in order
    ensures Holes(order, deck, n)[s] == (0, 0)
  {
    if n > 0 { HolesElsewhere(order, deck, n - 1, s); }
  }

  lemma HolesAre(order: seq<nat>, deck: seq<nat>, hole: seq<(nat, nat)>)
    requires 2 * |order| <= |deck| && (forall k :: 0 <= k < |order| ==> order[k] < SEATS) && DealerProgress.NoRepeat(order)
    requires |hole| == SEATS && forall j :: 0 <= j < |order| ==> hole[order[j]] == (deck[j], deck[|order| + j])
    requires forall s :: 0 <= s < SEATS && s !in order ==> hole[s] == (0, 0)
    ensures hole == Holes(order, deck, |order|)
  {
    hide Holes, DealerProgress.NoRepeat;
    forall s | 0 <= s < SEATS
      ensures hole[s] == Holes(order, deck, |order|)[s]
    {
      if s in order {
        var k :| 0 <= k < |order| && order[k] == s;
        HolesDealt(order, deck, |order|, k);
      } else {
        HolesElsewhere(order, deck, |order|, s);
      }
    }
  }

  /** Button and blind seats. */
  method PickSeats(t: Table) returns (n: nat, button: nat, sb: nat, bb: nat)
    requires TableShaped(t)
    ensures n == FundedSeats(t, 0)
    ensures n >= 2 ==> button == NextButton(t) && sb == SbSeat(t) && bb == BbSeat(t)
  {
    hide NextFunded, FundedSeats;
    n := CountFunded(t);
    button, sb, bb := 0, 0, 0;
    if n >= 2 {
      button := FindFunded(t, if t.button.None? then SEATS - 1 else t.button.value);
      sb := button;
      if n != 2 { sb := FindFunded(t, button); }
      bb := FindFunded(t, sb);
    }
  }

  /** Both blinds posted. */
  method PostBlinds(t: Table, button: nat, sb: nat, bb: nat) returns (g: Game)
    requires TableShaped(t) && FundedSeats(t, 0) >= 2 && button == NextButton(t) && sb == SbSeat(t) && bb == BbSeat(t)
    ensures g == Posted(t)
  {
    hide NextToAct, SbSeat, BbSeat, NextButton, FundedSeats;
    SeatsFunded(t);
    FreshShaped(t);
    var hand := Hand(Phase.Betting, Preflop, button, sb, bb, None, None, 0, t.params.bigBlind, 0,
                     seq(SEATS, _ => -1), seq(SEATS, _ => 0), seq(SEATS, _ => 0),
                     seq(SEATS, i requires 0 <= i < SEATS => t.stack[i].Some? && t.stack[i].value > 0),
                     seq(SEATS, _ => false), seq(SEATS, _ => false), [], None);
    assert hand == Fresh(t).h;
    var e := new Engine(t.params, t.stack, hand);
    CommitShaped(e.View(), sb, Blind(t.stack[sb], t.params.smallBlind));
    e.PutIn(sb, Blind(t.stack[sb], t.params.smallBlind));
    assert e.stack[bb] == t.stack[bb];
    e.PutIn(bb, Blind(t.stack[bb], t.params.bigBlind));
    var h := e.h.(betTo := Blind(t.stack[bb], t.params.bigBlind));
    var on := FindNext(h, bb);
    g := Game(e.params, e.stack, h.(actionOn := on));
  }

  /** `poker/start_hand` */
  method StartOn(t: PokerTable, d: Dealing, now: nat) returns (r: Result<PokerTable>)
    requires TableOk(t)
    ensures r.Ok? ==> MayStart(t, d) && Leads(StartTurn(t, d, now), r.value)
    ensures MayStart(t, d) && Roomy(t, now) ==> r.Ok?
  {
    hide PotOk, BoardOk, Worth, Sound, Becomes, FundedSeats, NextButton, SbSeat, BbSeat, Posted, StartPlay;
    if t.hand.Some? || d.NoDealing? || (d.FromDealer? && !d.keys) {
      return Err;
    }
    var b := Between(t);
    var n, button, sb, bb := PickSeats(b);
    if n < 2 {
      return Err;
    }
    StartSound(t, d, now);
    var g := PostBlinds(b, button, sb, bb);
    var t' := t.(button := Some(button));
    var p;
    if d.FromDealer? {
      p := DealLater(b, d, g);
    } else {
      p := DealCards(b, d.deck, g, sb);
    }
    var o := if p.dealer || g.h.actionOn.Some? then Goes(g, p.stage, p.board, p.cursor)
             else ShowsDown(g, p.board + p.deck[p.cursor..p.cursor + 5]);
    r := Carry(Taken(t', p, o, Some(now)));
  }

  /** With a dealer the hand first waits for the shuffled deck. */
  method DealLater(b: Table, d: Dealing, g: Game) returns (p: Play)
    requires TableShaped(b) && FundedSeats(b, 0) >= 2 && g == Posted(b) && d.FromDealer?
    ensures p == StartPlay(b, d)
  {
    hide FundedSeats, Posted, Holes, DealOrder;
    p := Play(g.h, Shuffling, true, [], 0, [], seq(SEATS, _ => (0, 0)), {});
  }

  method DealCards(b: Table, deck: FullDeck, g: Game, sb: nat) returns (p: Play)
    requires TableShaped(b) && FundedSeats(b, 0) >= 2 && g == Posted(b) && sb == SbSeat(b)
    ensures p == StartPlay(b, FromDeck(deck))
  {
    hide FundedSeats, NextButton, SbSeat, BbSeat, Posted, Holes, DealerHand.Order;
    PostedSeats(b);
    SeatsFunded(b);
    assert g.h.inHand == FreshHand(b).inHand;
    var order := DealerHand.Order(g.h.inHand, sb);
    assert order == DealOrder(b);
    DealerProgress.OrderSpec(g.h.inHand, sb, 0);
    var hole := DealTwo(order, deck);
    p := Play(g.h, Playing, false, deck, 2 * |order|, [], hole, {});
  }
}
