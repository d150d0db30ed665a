/** Every way a table of the chain moves: an action, a timeout, a step of the dealer, the start of a hand.  Each is
    computed from the table and the message; none creates chips, and the only chips lost are those of pots at a
    showdown that nobody may win. */
module ChainTurn {
  import opened Outcome
  import opened Pots
  import opened Betting
  import opened BettingSafety
  import opened BettingChips
  import opened ChainTable
  import opened ChainStart
  import Settlement

  /** A table, the hand it plays, what comes next, and the time the action clock is set, if it is. */
  datatype Turn = Taken(table: PokerTable, p: Play, o: Next, clock: Option<nat>)

  /** The outcome belongs to the table: the same seats, and every chip of the table accounted for. */
  ghost predicate Sound(u: Turn) {
    var t, o := u.table, u.o;
    && |t.seats| == SEATS && (t.button.Some? ==> t.button.value < SEATS) && |u.p.hole| == SEATS
    && SameSeats(t.seats, o.g.stack) && o.g.params == BettingParams(t.rules)
    && (o.FoldsOut? ==> StackSum(o.g, 0) + BondSum(t.seats, 0) == Worth(t))
    && (!o.FoldsOut? ==> PotOk(o.g) && TotalChips(o.g) + BondSum(t.seats, 0) == Worth(t))
    && (o.Goes? ==> BoardOk(Continued(u.p, o)))
    && (o.ShowsDown? ==> |o.board| == 5)
  }

  /** `setActionDeadlineIfBetting`; the clock is left unset by `dealer/timeout`. */
  function Timed(p: Play, r: Rules, clock: Option<nat>): Play {
    p.(h := p.h.(deadline := if p.stage == Playing && p.h.actionOn.Some? && clock.Some? then Some(clock.value + ActionTimeout(r)) else None))
  }

  /** The same table between hands, up to its stacks. */
  ghost predicate Restacked(t: PokerTable, r: PokerTable) {
    SameSeats(t.seats, Stacks(r.seats)) && r == t.(seats := WithStacks(t.seats, Stacks(r.seats)), hand := None)
  }

  /** The table after the turn. */
  ghost predicate Becomes(u: Turn, r: PokerTable)
    requires Sound(u)
  {
    var t := u.table;
    match u.o
    case Goes(g, _, _, _) => r == t.(seats := WithStacks(t.seats, g.stack), hand := Some(Timed(Continued(u.p, u.o), t.rules, u.clock)))
    case FoldsOut(g) => r == t.(seats := WithStacks(t.seats, g.stack), hand := None)
    case ShowsDown(g, board) => Restacked(t, r) && Settled(g, board, u.p.hole, Stacks(r.seats))
    case Refunds(g) =>
      Restacked(t, r) && forall i :: 0 <= i < SEATS ==> Stacks(r.seats)[i] == Settlement.Credited(g.stack[i], g.h.totalCommit[i])
  }

  /** The chips a turn pays to nobody. */
  ghost function Lost(u: Turn): nat
    requires Sound(u)
  {
    if u.o.ShowsDown? then Unopened(u.o.g, u.o.board, u.p.hole) else 0
  }

  // ---------------------------------------------------------------- chips through a turn

  lemma StackedWorth(seats: seq<Option<Seat>>, v: seq<Option<nat>>, g: Game)
    requires |seats| == SEATS && SameSeats(seats, v) && g.stack == v
    ensures SeatsWorth(WithStacks(seats, v), 0) == StackSum(g, 0) + BondSum(seats, 0)
    ensures Stacks(WithStacks(seats, v)) == v
  {
    hide SeatsWorth, StackSum, BondSum;
    assert Stacks(WithStacks(seats, v)) == v;
    SeatsSplit(WithStacks(seats, v), g, 0);
    SameBonds(seats, v, 0);
  }

  /** THEOREM.  After any turn the table is consistent and holds every chip it held, up to the pots nobody may win. */
  lemma BecomesKeeps(u: Turn, r: PokerTable)
    requires Sound(u) && Becomes(u, r)
    ensures TableOk(r) && Worth(r) + Lost(u) == Worth(u.table)
    ensures r.rules == u.table.rules && r.button == u.table.button && SameSeats(u.table.seats, Stacks(r.seats))
  {
    hide SeatsWorth, StackSum, BondSum, PotOk, BoardOk, Unopened, Settled;
    var t := u.table;
    match u.o
    case Goes(g, _, _, _) =>
      StackedWorth(t.seats, g.stack, g);
      SamePlay(u, g);
    case FoldsOut(g) =>
      StackedWorth(t.seats, g.stack, g);
    case ShowsDown(g, board) =>
      var after := g.(stack := Stacks(r.seats));
      StackedWorth(t.seats, after.stack, after);
      SettledTotal(g, board, u.p.hole, after);
    case Refunds(g) =>
      var after := g.(stack := Stacks(r.seats));
      StackedWorth(t.seats, after.stack, after);
      RefundTotal(g, after);
  }

  lemma SamePlay(u: Turn, g: Game)
    requires Sound(u) && u.o.Goes? && g == u.o.g
    ensures var p := Timed(Continued(u.p, u.o), u.table.rules, u.clock);
      BoardOk(p) && PotOk(g.(h := p.h))
  {
    var p := Timed(Continued(u.p, u.o), u.table.rules, u.clock);
    SamePot(g, g.(h := p.h));
  }

  lemma RefundTotal(g: Game, r: Game)
    requires PotOk(g) && |r.stack| == SEATS
    requires forall i :: 0 <= i < SEATS ==> r.stack[i] == Settlement.Credited(g.stack[i], g.h.totalCommit[i])
    ensures StackSum(r, 0) == TotalChips(g)
  {
    hide Contenders, StackSum, Sum, PaySum;
    forall i | 0 <= i < SEATS && g.stack[i].None?
      ensures AmountAt(g.h.totalCommit)(i) == 0
    {
      assert !g.h.inHand[i];
    }
    StacksCredited(g, r, AmountAt(g.h.totalCommit), 0);
    PaySumIsSum(g.h.totalCommit, 0);
  }

  /** What the table of a hand holds. */
  lemma HandWorth(t: PokerTable)
    requires TableOk(t) && t.hand.Some?
    ensures Worth(t) == TotalChips(GameOf(t)) + BondSum(t.seats, 0)
  {
    hide SeatsWorth, StackSum, BondSum, PotOk, BoardOk;
    SeatsSplit(t.seats, GameOf(t), 0);
  }

  lemma OwnSeats(t: PokerTable)
    requires TableOk(t) && t.hand.Some?
    ensures SameSeats(t.seats, GameOf(t).stack) && WithStacks(t.seats, GameOf(t).stack) == t.seats
  {
  }

  // ---------------------------------------------------------------- actions

  /** `poker/act` */
  ghost function ActTurn(t: PokerTable, seat: nat, a: ChainAction, now: nat): Turn
    requires TableOk(t) && Legal(t, seat, a)
  {
    Taken(t, t.hand.value, NextOf(t, seat, a), Some(now))
  }

  /** THEOREM.  A legal action keeps every chip at the table, up to the pots its showdown pays to nobody. */
  lemma ActSound(t: PokerTable, seat: nat, a: ChainAction, now: nat)
    requires TableOk(t) && Legal(t, seat, a)
    ensures Sound(ActTurn(t, seat, a, now))
  {
    hide Contenders, Move, AfterMove, TotalChips, BoardOk, PotOk, StackSum, BondSum, Worth;
    PotShaped(GameOf(t));
    OwnSeats(t);
    PlayShaped(t);
    HandWorth(t);
    var m := MoveOf(t.hand.value.h, a).value;
    assert Contends(GameOf(t).h, seat);
    MovePot(GameOf(t), seat, m);
    MoveStreet(GameOf(t), seat, m);
    AfterMoveKeeps(t.hand.value, Move(GameOf(t), seat, m).value);
  }

  lemma PlayShaped(t: PokerTable)
    requires TableOk(t) && t.hand.Some?
    ensures |t.hand.value.hole| == SEATS && Shaped(GameOf(t))
  {
  }

  lemma BoardFits(t: PokerTable)
    requires TableOk(t) && t.hand.Some?
    ensures BoardOk(t.hand.value)
  {
  }

  // ---------------------------------------------------------------- timeouts

  /** The seat the table waits for. */
  predicate Waiting(t: PokerTable) {
    && t.hand.Some? && t.hand.value.stage == Playing && t.hand.value.h.actionOn.Some?
    && t.hand.value.h.actionOn.value < |t.seats| && t.seats[t.hand.value.h.actionOn.value].Some?
  }

  /** A tick acts only after the deadline; a hand without one gets it. */
  predicate MayTick(t: PokerTable, now: nat) {
    && Waiting(t)
    && var h := t.hand.value.h;
    h.deadline.Some? ==> now >= h.deadline.value && MayAct(t, h.actionOn.value)
  }

  /** A cut of a bond: no more than there is, no more than a big blind or one chip, and less only if nothing is left. */
  ghost predicate FairCut(r: Rules, bond: nat, x: nat) {
    var most := if r.bigBlind > 1 then r.bigBlind else 1;
    x <= bond && x <= most && (x < most ==> x == bond)
  }

  /** What a timed-out seat loses of its bond: one big blind, or one chip, or all that is left. */
  function TimeoutSlash(r: Rules, s: Seat): (x: nat)
    ensures FairCut(r, s.bond, x)
  {
    var unit := if r.bigBlind == 0 then 1 else r.bigBlind;
    if unit > s.bond then s.bond else unit
  }

  /** The bond chips a tick burns: none when it only sets the clock. */
  function Cut(t: PokerTable): nat
    requires Waiting(t)
  {
    var h := t.hand.value.h;
    if h.deadline.None? then 0 else TimeoutSlash(t.rules, t.seats[h.actionOn.value].value)
  }

  /** The table after the cut. */
  function Charged(t: PokerTable): PokerTable
    requires Waiting(t)
  {
    var i := t.hand.value.h.actionOn.value;
    var s := t.seats[i].value;
    t.(seats := t.seats[i := Some(s.(bond := s.bond - Cut(t)))])
  }

  lemma ChargedSame(t: PokerTable)
    requires TableOk(t) && Waiting(t)
    ensures TableOk(Charged(t)) && GameOf(Charged(t)) == GameOf(t) && Worth(Charged(t)) + Cut(t) == Worth(t)
  {
    hide PotOk, BoardOk, SeatsWorth;
    var i := t.hand.value.h.actionOn.value;
    assert Stacks(Charged(t).seats) == Stacks(t.seats);
    SeatsUpdate(t.seats, i, Charged(t).seats[i], 0);
  }

  function TimeoutAction(h: Hand, seat: nat): ChainAction
    requires seat < |h.streetCommit|
  {
    if h.betTo > h.streetCommit[seat] then Folds else Checks
  }

  /** A timed-out seat checks or folds; both are legal whenever it may act. */
  lemma TimeoutLegal(t: PokerTable, seat: nat)
    requires TableOk(t) && MayAct(t, seat)
    ensures Legal(t, seat, TimeoutAction(t.hand.value.h, seat))
  {
    hide Contenders;
  }

  /** THEOREM.  A timeout folds a seat if and only if it faces a bet; a seat that can check for free stays in. */
  lemma TimeoutFoldsIff(t: PokerTable, seat: nat)
    requires TableOk(t) && MayAct(t, seat)
    ensures Legal(t, seat, TimeoutAction(t.hand.value.h, seat))
    ensures var a := MoveOf(t.hand.value.h, TimeoutAction(t.hand.value.h, seat)).value;
      var r := Move(GameOf(t), seat, a).value;
      && Shaped(r) && (r.h.folded[seat] <==> ToCall(t.hand.value.h, seat) > 0)
      && r.stack == GameOf(t).stack && r.h.totalCommit == t.hand.value.h.totalCommit
  {
    hide Contenders;
    TimeoutLegal(t, seat);
  }

  /** `poker/tick` */
  ghost function TickTurn(t: PokerTable, now: nat): Turn
    requires TableOk(t) && MayTick(t, now)
  {
    PlayShaped(t);
    ChargedSame(t);
    var p := t.hand.value;
    if p.h.deadline.None? then Taken(t, p, Goes(GameOf(t), Playing, p.board, p.cursor), Some(now))
    else
      var seat := p.h.actionOn.value;
      TimeoutLegal(Charged(t), seat);
      ActTurn(Charged(t), seat, TimeoutAction(p.h, seat), now)
  }

  /** THEOREM.  A tick burns exactly the cut of the timed-out seat's bond: one big blind, or one chip, or all that is
      left, and nothing when it only sets a missing clock; nobody else's bond and nobody's stack is touched. */
  lemma TickSound(t: PokerTable, now: nat)
    requires TableOk(t) && MayTick(t, now)
    ensures Sound(TickTurn(t, now)) && Worth(TickTurn(t, now).table) + Cut(t) == Worth(t)
    ensures var h, u := t.hand.value.h, TickTurn(t, now).table;
      && (h.deadline.None? ==> Cut(t) == 0)
      && (h.deadline.Some? ==> FairCut(t.rules, t.seats[h.actionOn.value].value.bond, Cut(t)))
      && |u.seats| == |t.seats| && Stacks(u.seats) == Stacks(t.seats)
      && (forall i :: 0 <= i < |t.seats| && i != h.actionOn.value ==> u.seats[i] == t.seats[i])
      && u.seats[h.actionOn.value].Some? && u.seats[h.actionOn.value].value.bond + Cut(t) == t.seats[h.actionOn.value].value.bond
  {
    hide PotOk, BoardOk, SeatsWorth, StackSum, BondSum, NextOf, Legal;
    PlayShaped(t);
    ChargedSame(t);
    var p := t.hand.value;
    if p.h.deadline.None? {
      HandWorth(t);
      OwnSeats(t);
      assert Continued(p, TickTurn(t, now).o) == p;
    } else {
      var seat := p.h.actionOn.value;
      TimeoutLegal(Charged(t), seat);
      ActSound(Charged(t), seat, TimeoutAction(p.h, seat), now);
    }
  }

  // ---------------------------------------------------------------- the dealer

  /** What the dealer protocol does to a table: betting opens (`late` through `dealer/timeout`), a board card or a
      hole card becomes public (hole card `2 * seat` or `2 * seat + 1`), or the hand is aborted. */
  datatype DealerStep = OpenBetting(late: bool) | BoardCard(card: nat) | HoleCard(slot: nat, card: nat) | Abort

  predicate MayStep(t: PokerTable, s: DealerStep) {
    && t.hand.Some? && t.hand.value.dealer
    && var p := t.hand.value;
    match s
    case OpenBetting(_) => p.stage == Shuffling
    case BoardCard(_) => p.stage == AwaitFlop || p.stage == AwaitTurn || p.stage == AwaitRiver
    case HoleCard(k, _) =>
      && p.stage == AwaitShowdown && k < 2 * SEATS && k !in p.shown
      && k / 2 < |p.h.inHand| && k / 2 < |p.h.folded| && p.h.inHand[k / 2] && !p.h.folded[k / 2]
    case Abort => true
  }

  /** A board card; once the street is complete betting opens again, unless fewer than two contenders have chips. */
  ghost function BoardNext(t: PokerTable, card: nat): Next
    requires TableOk(t) && MayStep(t, BoardCard(card))
  {
    PlayShaped(t);
    var p, g := t.hand.value, GameOf(t);
    var board, s := p.board + [card], NextStreet(p.h.street);
    if |board| < StreetCards(s) then Goes(g, p.stage, board, p.cursor)
    else if WithChips(g, 0) < 2 then Goes(g.(h := g.h.(street := s, actionOn := None)), WaitAfter(s), board, p.cursor)
    else Goes(OpenStreet(g, s), Playing, board, p.cursor)
  }

  /** Both hole cards of every contender are public. */
  ghost predicate AllShown(h: Hand, shown: set<nat>)
    requires |h.inHand| == |h.folded| == SEATS
  {
    forall i :: 0 <= i < SEATS && Contends(h, i) ==> 2 * i in shown && 2 * i + 1 in shown
  }

  function WithHole(p: Play, k: nat, card: nat): Play
    requires k / 2 < |p.hole|
  {
    var (a, b) := p.hole[k / 2];
    p.(hole := p.hole[k / 2 := if k % 2 == 0 then (card, b) else (a, card)], shown := p.shown + {k})
  }

  ghost function DealerTurn(t: PokerTable, s: DealerStep, now: nat): Turn
    requires TableOk(t) && MayStep(t, s)
  {
    PlayShaped(t);
    var p, g := t.hand.value, GameOf(t);
    match s
    case OpenBetting(late) =>
      Taken(t, p, Goes(g, if p.h.actionOn.None? then AwaitFlop else Playing, p.board, p.cursor), if late then None else Some(now))
    case BoardCard(card) => Taken(t, p, BoardNext(t, card), Some(now))
    case HoleCard(k, card) =>
      var q := WithHole(p, k, card);
      Taken(t, q, if AllShown(q.h, q.shown) then ShowsDown(g, q.board) else Goes(g, AwaitShowdown, q.board, q.cursor), Some(now))
    case Abort => Taken(t, p, Refunds(g), Some(now))
  }

  lemma BoardSound(t: PokerTable, card: nat)
    requires TableOk(t) && MayStep(t, BoardCard(card))
    ensures var o := BoardNext(t, card);
      && o.Goes? && PotOk(o.g) && TotalChips(o.g) == TotalChips(GameOf(t)) && o.g.stack == GameOf(t).stack && o.g.params == GameOf(t).params
      && BoardOk(Continued(t.hand.value, o))
  {
    hide Contenders, NextToAct, WithChips, TotalChips, OpenStreet;
    PlayShaped(t);
    var p, g := t.hand.value, GameOf(t);
    var s := NextStreet(p.h.street);
    OpenStreetPot(g, s);
    OpenStreetIs(g, s);
    var w := g.(h := g.h.(street := s, actionOn := None));
    ContendersSame(g.h, w.h, 0);
    SameChips(g, w);
  }

  lemma SameChips(g: Game, r: Game)
    requires |g.stack| == SEATS && r.stack == g.stack && r.h.totalCommit == g.h.totalCommit
    ensures TotalChips(r) == TotalChips(g)
  {
    SameStackSum(g, r, 0);
  }

  /** THEOREM.  No step of the dealer creates or takes a chip. */
  lemma DealerSound(t: PokerTable, s: DealerStep, now: nat)
    requires TableOk(t) && MayStep(t, s)
    ensures Sound(DealerTurn(t, s, now)) && DealerTurn(t, s, now).table == t
  {
    hide PotOk, BoardNext, StackSum, BondSum, SeatsWorth, AllShown, TotalChips;
    PlayShaped(t);
    HandWorth(t);
    OwnSeats(t);
    if s.BoardCard? {
      BoardSound(t, s.card);
    }
  }

  // ---------------------------------------------------------------- the start of a hand

  ghost function StartTurn(t: PokerTable, d: Dealing, now: nat): Turn
    requires TableOk(t) && MayStart(t, d)
  {
    var b := Between(t);
    Taken(t.(button := Some(NextButton(b))), StartPlay(b, d), StartNext(Posted(b), StartPlay(b, d)), Some(now))
  }

  lemma StartWorth(t: PokerTable)
    requires TableOk(t) && t.hand.None? && FundedSeats(Between(t), 0) >= 2
    ensures var g := Posted(Between(t));
      TotalChips(g) + BondSum(t.seats, 0) == Worth(t) && SameSeats(t.seats, g.stack)
  {
    hide PotOk, SeatsWorth, StackSum, BondSum, Posted, SbSeat, BbSeat, NextButton, FundedSeats, Posts;
    var b := Between(t);
    var g := Posted(b);
    PostedSeats(b);
    NoPost(b);
    PostedTotal(b, g, 0);
    SeatsSplit(t.seats, g.(stack := b.stack), 0);
  }

  lemma NoPost(b: Table)
    requires TableShaped(b)
    ensures forall i :: 0 <= i < SEATS && b.stack[i].None? ==> Posts(b, i) == 0
  {
  }

  lemma StartBoard(b: Table, d: Dealing)
    requires TableShaped(b) && FundedSeats(b, 0) >= 2 && !d.NoDealing?
    ensures var p := StartPlay(b, d); var o := StartNext(Posted(b), p);
      && o.g == Posted(b) && (o.Goes? || o.ShowsDown?) && (o.Goes? ==> BoardOk(Continued(p, o))) && (o.ShowsDown? ==> |o.board| == 5)
  {
    hide PotOk, Posted, SbSeat, BbSeat, NextButton, FundedSeats, Holes, DealOrder, Posts;
    PostedSeats(b);
  }

  /** THEOREM.  Starting a hand moves the blinds into the pot and loses nothing, not even when it is settled at once. */
  lemma StartSound(t: PokerTable, d: Dealing, now: nat)
    requires TableOk(t) && MayStart(t, d)
    ensures Sound(StartTurn(t, d, now)) && Worth(StartTurn(t, d, now).table) == Worth(t)
    ensures Lost(StartTurn(t, d, now)) == 0
  {
    hide PotOk, BoardOk, SeatsWorth, StackSum, BondSum, Posted, SbSeat, BbSeat, NextButton, FundedSeats, StartPlay, StartNext, Posts, Unopened;
    var b := Between(t);
    PostedSeats(b);
    SeatsFunded(b);
    StartWorth(t);
    StartBoard(b, d);
    var o := StartNext(Posted(b), StartPlay(b, d));
    if o.ShowsDown? {
      UnfoldedPaysAll(Posted(b), o.board, StartPlay(b, d).hole);
    }
  }
}
