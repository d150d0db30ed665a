/** `poker/start_hand` (apps/chain/internal/app/app.go): button, blinds, hole cards and who is first to act. */
module ChainStart {
  import opened Outcome
  import opened Pots
  import opened Betting
  import opened BettingSafety
  import opened BettingStart
  import opened BettingChips
  import opened ChainTable
  import DealerHand
  import DealerProgress

  const DECK := 52

  type FullDeck = d: seq<nat> | |d| == DECK witness seq(DECK, i => i)

  /** Where the cards of a hand come from: a dealer epoch (with or without a key for every funded seat), a plain
      deck, or nowhere. */
  datatype Dealing = FromDealer(keys: bool) | FromDeck(deck: FullDeck) | NoDealing

  function Between(t: PokerTable): Table { Table(BettingParams(t.rules), Stacks(t.seats), t.button) }

  ghost predicate MayStart(t: PokerTable, d: Dealing)
    requires TableOk(t)
  {
    t.hand.None? && FundedSeats(Between(t), 0) >= 2 && (d.FromDeck? || (d.FromDealer? && d.keys))
  }

  // ---------------------------------------------------------------- blinds

  /** The blinds are posted by funded seats: heads-up the button posts the small one. */
  ghost function SbSeat(t: Table): nat
    requires TableShaped(t)
  {
    if FundedSeats(t, 0) == 2 then NextButton(t) else NextFunded(t, NextButton(t), 1)
  }

  ghost function BbSeat(t: Table): nat
    requires TableShaped(t)
  {
    NextFunded(t, SbSeat(t), 1)
  }

  /** From any seat the next funded one is another seat. */
  lemma NextIsAnother(t: Table, from: nat)
    requires TableShaped(t) && FundedSeats(t, 0) >= 2 && from < SEATS
    ensures NextFunded(t, from, 1) < SEATS && Funded(t, NextFunded(t, from, 1)) && NextFunded(t, from, 1) != from
  {
    hide NextFunded, FundedSeats;
    TwoFunded(t, 0);
    var a, b :| 0 <= a < b < SEATS && Funded(t, a) && Funded(t, b);
    NextFundedFound(t, from, 1, Distance(from, if from == a then b else a));
  }

  lemma SeatsFunded(t: Table)
    requires TableShaped(t) && FundedSeats(t, 0) >= 2
    ensures NextButton(t) < SEATS && Funded(t, NextButton(t))
    ensures SbSeat(t) < SEATS && Funded(t, SbSeat(t)) && BbSeat(t) < SEATS && Funded(t, BbSeat(t)) && SbSeat(t) != BbSeat(t)
  {
    hide NextFunded, FundedSeats, Funded;
    NextIsAnother(t, if t.button.None? then SEATS - 1 else t.button.value);
    NextIsAnother(t, NextButton(t));
    NextIsAnother(t, SbSeat(t));
  }

  ghost function Fresh(t: Table): Game
    requires TableShaped(t)
  {
    Game(t.params, t.stack, FreshHand(t).(sbSeat := SbSeat(t), bbSeat := BbSeat(t)))
  }

  /** The small blind posted. */
  ghost function HalfPosted(t: Table): (g: Game)
    requires TableShaped(t) && FundedSeats(t, 0) >= 2
    ensures Shaped(g) && BbSeat(t) < SEATS && t.stack[BbSeat(t)].Some? && g.stack[BbSeat(t)] == t.stack[BbSeat(t)]
  {
    SeatsFunded(t);
    FreshShaped(t);
    var pay := BlindPay(t.stack[SbSeat(t)], t.params.smallBlind);
    CommitShaped(Fresh(t), SbSeat(t), pay);
    Commit(Fresh(t), SbSeat(t), pay)
  }

  /** `pay` put in by the seat that sets the bet, and the seat left of it to act. */
  ghost function BetBy(g: Game, seat: nat, pay: nat): (r: Game)
    requires Shaped(g) && seat < SEATS && g.stack[seat].Some? && pay <= g.stack[seat].value
    ensures Shaped(r)
  {
    CommitShaped(g, seat, pay);
    var c := Commit(g, seat, pay);
    var h := c.h.(betTo := pay);
    c.(h := h.(actionOn := NextToAct(h, seat, 1)))
  }

  /** Both blinds posted and the seat left of the big blind to act. */
  ghost function Posted(t: Table): (g: Game)
    requires TableShaped(t) && FundedSeats(t, 0) >= 2
    ensures Shaped(g)
  {
    BetBy(HalfPosted(t), BbSeat(t), BlindPay(HalfPosted(t).stack[BbSeat(t)], t.params.bigBlind))
  }

  /** What a seat posts. */
  ghost function Posts(t: Table, i: nat): nat
    requires TableShaped(t) && i < SEATS
  {
    if i == SbSeat(t) then BlindPay(t.stack[i], t.params.smallBlind)
    else if i == BbSeat(t) then BlindPay(t.stack[i], t.params.bigBlind)
    else 0
  }

  lemma PostedFields(t: Table)
    requires TableShaped(t) && FundedSeats(t, 0) >= 2
    ensures var g := Posted(t);
      && g.params == t.params && g.h.street == Preflop && g.h.button == NextButton(t)
      && g.h.sbSeat == SbSeat(t) < SEATS && g.h.bbSeat == BbSeat(t) && g.h.deadline.None?
      && g.h.inHand == FreshHand(t).inHand && g.h.folded == FreshHand(t).folded
      && (forall i :: 0 <= i < SEATS ==> g.h.streetCommit[i] == g.h.totalCommit[i] == Posts(t, i))
      && (forall i :: 0 <= i < SEATS ==> (g.stack[i].Some? <==> t.stack[i].Some?))
      && (forall i :: 0 <= i < SEATS && t.stack[i].Some? ==> g.stack[i].value + Posts(t, i) == t.stack[i].value)
      && (forall i :: 0 <= i < SEATS && g.h.allIn[i] ==> g.stack[i] == Some(0))
  {
    hide SbSeat, BbSeat, NextButton, FundedSeats, NextToAct;
    SeatsFunded(t);
    FreshShaped(t);
    var g1 := Commit(Fresh(t), SbSeat(t), Posts(t, SbSeat(t)));
    assert g1.stack[BbSeat(t)] == t.stack[BbSeat(t)];
  }

  /** THEOREM.  A started hand, seat by seat: every funded seat is in, the two blind seats have posted their blind or
      all they had, nobody else paid anything, and no chip is lost. */
  lemma PostedSeats(t: Table)
    requires TableShaped(t) && FundedSeats(t, 0) >= 2
    ensures var g := Posted(t);
      && PotOk(g) && g.params == t.params && g.h.street == Preflop && g.h.button == NextButton(t)
      && g.h.sbSeat == SbSeat(t) < SEATS && g.h.bbSeat == BbSeat(t) && g.h.deadline.None?
      && (forall i :: 0 <= i < SEATS ==> (g.h.inHand[i] <==> Funded(t, i)) && !g.h.folded[i])
      && (forall i :: 0 <= i < SEATS ==> g.h.streetCommit[i] == g.h.totalCommit[i] == Posts(t, i))
      && (forall i :: 0 <= i < SEATS ==> (g.stack[i].Some? <==> t.stack[i].Some?))
      && (forall i :: 0 <= i < SEATS && t.stack[i].Some? ==> g.stack[i].value + Posts(t, i) == t.stack[i].value)
  {
    hide SbSeat, BbSeat, NextButton, FundedSeats, Contenders, Posted, Posts;
    PostedFields(t);
    var g := Posted(t);
    FreshContenders(t, g.h, 0);
    SeatsFunded(t);
    forall i | 0 <= i < SEATS && !Funded(t, i)
      ensures Posts(t, i) == 0
    {
      OnlyBlindsPost(t, i);
    }
  }

  lemma OnlyBlindsPost(t: Table, i: nat)
    requires TableShaped(t) && i < SEATS && FundedSeats(t, 0) >= 2 && !Funded(t, i)
    ensures Posts(t, i) == 0
  {
    hide SbSeat, BbSeat, FundedSeats;
    SeatsFunded(t);
  }

  lemma {:induction false} PostedTotal(t: Table, g: Game, i: nat)
    requires |t.stack| == |g.stack| == |g.h.totalCommit| == SEATS
    requires forall k :: 0 <= k < SEATS ==> (g.stack[k].Some? <==> t.stack[k].Some?) && (t.stack[k].None? ==> g.h.totalCommit[k] == 0)
    requires forall k :: 0 <= k < SEATS && t.stack[k].Some? ==> g.stack[k].value + g.h.totalCommit[k] == t.stack[k].value
    ensures StackSum(g, i) + Sum(g.h.totalCommit, i) == StackSum(g.(stack := t.stack), i)
    decreases SEATS - i
  {
    if i < SEATS { PostedTotal(t, g, i + 1); }
  }

  // ---------------------------------------------------------------- hole cards

  /** The hole cards once the first `n` seats of the deal order have theirs. */
  ghost function Holes(order: seq<nat>, deck: seq<nat>, n: nat): (hole: seq<(nat, nat)>)
    requires n <= |order| && 2 * |order| <= |deck| && forall k :: 0 <= k < |order| ==> order[k] < SEATS
    ensures |hole| == SEATS
  {
    if n == 0 then seq(SEATS, _ => (0, 0)) else Holes(order, deck, n - 1)[order[n - 1] := (deck[n - 1], deck[|order| + n - 1])]
  }

  /** The `k`-th seat of the deal order holds the `k`-th card of each round. */
  lemma {:induction false} HolesDealt(order: seq<nat>, deck: seq<nat>, n: nat, k: nat)
    requires n <= |order| && 2 * |order| <= |deck| && forall j :: 0 <= j < |order| ==> order[j] < SEATS
    requires DealerProgress.NoRepeat(order) && k < n
    ensures Holes(order, deck, n)[order[k]] == (deck[k], deck[|order| + k])
  {
    if k < n - 1 { HolesDealt(order, deck, n - 1, k); }
  }

  ghost function DealOrder(t: Table): (o: seq<nat>)
    requires TableShaped(t)
    ensures |o| <= SEATS && forall k :: 0 <= k < |o| ==> o[k] < SEATS
  {
    var inHand := FreshHand(t).inHand;
    DealerProgress.OrderLength(inHand, SbSeat(t), 0);
    DealerHand.Order(inHand, SbSeat(t))
  }

  /** The hand before its first action. */
  ghost function StartPlay(t: Table, d: Dealing): (p: Play)
    requires TableShaped(t) && FundedSeats(t, 0) >= 2 && !d.NoDealing?
    ensures |p.hole| == SEATS && p.board == [] && (!p.dealer ==> p.stage == Playing && p.cursor + 5 <= |p.deck|)
  {
    var h := Posted(t).h;
    if d.FromDealer? then Play(h, Shuffling, true, [], 0, [], seq(SEATS, _ => (0, 0)), {})
    else
      var o := DealOrder(t);
      Play(h, Playing, false, d.deck, 2 * |o|, [], Holes(o, d.deck, |o|), {})
  }

  /** What the start of a hand leads to: without a dealer and with nobody left to act it is settled at once. */
  ghost function StartNext(g: Game, p: Play): Next
    requires p.dealer || p.cursor + 5 <= |p.deck|
  {
    if p.dealer || g.h.actionOn.Some? then Goes(g, p.stage, p.board, p.cursor) else ShowsDown(g, DealBoard(p, 5))
  }

  /** THEOREM.  The deal begins with the small blind and goes clockwise over exactly the funded seats. */
  lemma DealFromSmallBlind(t: Table, s: nat)
    requires TableShaped(t) && FundedSeats(t, 0) >= 2 && s < SEATS
    ensures var o := DealOrder(t);
      && |o| > 0 && o[0] == SbSeat(t) < SEATS && DealerProgress.Clockwise(o, SbSeat(t)) && DealerProgress.NoRepeat(o) && (s in o <==> Funded(t, s))
  {
    hide SbSeat, FundedSeats, DealerHand.SeatAfter;
    SeatsFunded(t);
    var inHand := FreshHand(t).inHand;
    DealerProgress.OrderSpec(inHand, SbSeat(t), s);
    DealerProgress.OrderClockwise(inHand, SbSeat(t), 0);
    DealerProgress.OrderStep(inHand, SbSeat(t), 0);
    DealerProgress.SeatAt(SbSeat(t), 0, SbSeat(t));
  }

  /** THEOREM.  From a deck without repeats no card is dealt twice: the hole cards of all seats and the five board cards
      are different. */
  lemma NoCardTwice(t: Table, deck: FullDeck, a: nat, b: nat, n: nat)
    requires TableShaped(t) && FundedSeats(t, 0) >= 2 && (forall i, j :: 0 <= i < j < DECK ==> deck[i] != deck[j])
    requires a < SEATS && b < SEATS && Funded(t, a) && Funded(t, b) && n < 5
    ensures var p := StartPlay(t, FromDeck(deck));
      && 0 <= BoardFrom(p) && BoardFrom(p) + 5 <= DECK
      && p.hole[a].0 != p.hole[a].1 && p.hole[a].0 != deck[BoardFrom(p) + n] && p.hole[a].1 != deck[BoardFrom(p) + n]
      && (a != b ==> p.hole[a].0 != p.hole[b].0 && p.hole[a].0 != p.hole[b].1 && p.hole[a].1 != p.hole[b].0 && p.hole[a].1 != p.hole[b].1)
  {
    hide SbSeat, FundedSeats, Posted, Holes, DealerHand.Order;
    DealFromSmallBlind(t, a);
    DealFromSmallBlind(t, b);
    var o := DealOrder(t);
    var i :| 0 <= i < |o| && o[i] == a;
    var j :| 0 <= j < |o| && o[j] == b;
    HolesDealt(o, deck, |o|, i);
    HolesDealt(o, deck, |o|, j);
  }
}
