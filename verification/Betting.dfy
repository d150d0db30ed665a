/** The no-limit betting engine (packages/poker-engine/src/engine.ts): state and operations.
    The exported operations clone the table and change the clone, so each is a function of the state. */
module Betting {
  import opened Outcome
  import opened Pots

  const SEATS := 9

  datatype Street = Preflop | Flop | Turn | River

  datatype Phase = Betting | AtShowdown | Complete | Aborted

  datatype Params = Params(smallBlind: nat, bigBlind: nat, timeout: nat, refundBlinds: bool)

  datatype Hand = Hand(
    phase: Phase, street: Street, button: nat, sbSeat: nat, bbSeat: nat,
    actionOn: Option<nat>, deadline: Option<nat>,
    betTo: nat, minRaise: nat, interval: nat,
    acted: seq<int>,          // the interval in which a seat last acted, -1 for not on this street
    streetCommit: seq<nat>, totalCommit: seq<nat>,
    inHand: seq<bool>, folded: seq<bool>, allIn: seq<bool>,
    pots: seq<Pot>, winner: Option<nat>)

  /** A table with a hand; an empty seat has no stack. */
  datatype Game = Game(params: Params, stack: seq<Option<nat>>, h: Hand)

  datatype Action = Fold | Check | Call | BetTo(amount: int)

  /** The fixed-size arrays, and no street commitment beyond the commitment of the whole hand. */
  ghost predicate Shaped(g: Game) {
    && |g.stack| == SEATS
    && |g.h.acted| == |g.h.streetCommit| == |g.h.totalCommit| == SEATS
    && |g.h.inHand| == |g.h.folded| == |g.h.allIn| == SEATS
    && g.h.button < SEATS
    && (forall i :: 0 <= i < SEATS ==> g.h.streetCommit[i] <= g.h.totalCommit[i])
    && (forall i :: 0 <= i < SEATS && g.h.inHand[i] ==> g.stack[i].Some?)
  }

  function Stack(g: Game, i: nat): nat
    requires i < |g.stack|
  {
    if g.stack[i].Some? then g.stack[i].value else 0
  }

  // ---------------------------------------------------------------- reading the hand

  ghost predicate Contends(h: Hand, i: nat)
    requires i < |h.inHand| == |h.folded|
  {
    h.inHand[i] && !h.folded[i]
  }

  ghost predicate NeedsToAct(h: Hand, i: nat)
    requires i < |h.inHand| == |h.folded| == |h.allIn| == |h.acted| == |h.streetCommit|
  {
    h.inHand[i] && !h.folded[i] && !h.allIn[i] && (h.acted[i] != h.interval || h.streetCommit[i] != h.betTo)
  }

  ghost function ToCall(h: Hand, i: nat): nat
    requires i < |h.streetCommit|
  {
    if h.betTo > h.streetCommit[i] then h.betTo - h.streetCommit[i] else 0
  }

  /** How many seats from `i` on contend. */
  ghost function Contenders(h: Hand, i: nat): nat
    requires |h.inHand| == |h.folded| == SEATS
    decreases SEATS - i
  {
    if i >= SEATS then 0 else (if Contends(h, i) then 1 else 0) + Contenders(h, i + 1)
  }

  ghost function WithChips(g: Game, i: nat): nat
    requires Shaped(g)
    decreases SEATS - i
  {
    if i >= SEATS then 0 else (if Contends(g.h, i) && Stack(g, i) > 0 then 1 else 0) + WithChips(g, i + 1)
  }

  ghost predicate StreetComplete(h: Hand)
    requires |h.inHand| == |h.folded| == |h.allIn| == |h.acted| == |h.streetCommit| == SEATS
  {
    forall i :: 0 <= i < SEATS && h.inHand[i] && !h.folded[i] && !h.allIn[i] ==>
      h.streetCommit[i] == h.betTo && h.acted[i] == h.interval
  }

  /** The first seat at clockwise distance `off` or more from `from` that needs to act. */
  ghost function NextToAct(h: Hand, from: int, off: nat): Option<nat>
    requires |h.inHand| == |h.folded| == |h.allIn| == |h.acted| == |h.streetCommit| == SEATS && from >= -1
    decreases SEATS + 1 - off
  {
    if off > SEATS || off == 0 then None
    else
      var s := (from + off) % SEATS;
      if NeedsToAct(h, s) then Some(s) else NextToAct(h, from, off + 1)
  }

  /** `nextOccupiedSeat`: it does not skip seats without chips. */
  ghost function NextOccupied(stack: seq<Option<nat>>, from: nat, off: nat): nat
    requires |stack| == SEATS && off > 0
    decreases SEATS + 1 - off
  {
    if off > SEATS then from
    else
      var s := (from + off) % SEATS;
      if stack[s].Some? then s else NextOccupied(stack, from, off + 1)
  }

  // ---------------------------------------------------------------- uncalled bets

  ghost function MaxOf(v: seq<nat>, i: nat): nat
    decreases |v| - i
  {
    if i >= |v| then 0 else var r := MaxOf(v, i + 1); if v[i] > r then v[i] else r
  }

  /** The largest value other than `m`. */
  ghost function SecondOf(v: seq<nat>, m: nat, i: nat): nat
    decreases |v| - i
  {
    if i >= |v| then 0 else var r := SecondOf(v, m, i + 1); if v[i] != m && v[i] > r then v[i] else r
  }

  /** `s` alone holds the largest street commitment. */
  ghost predicate SoleMax(v: seq<nat>, s: nat) {
    s < |v| && v[s] > 0 && forall i :: 0 <= i < |v| && i != s ==> v[i] < v[s]
  }

  /** The seat that alone holds the largest street commitment, if there is one. */
  ghost function SoleSeat(v: seq<nat>): (r: Option<nat>)
    ensures r.Some? ==> SoleMax(v, r.value)
    ensures r.None? ==> forall s: nat :: !SoleMax(v, s)
  {
    if exists s: nat :: SoleMax(v, s) then var s: nat :| SoleMax(v, s); Some(s) else None
  }

  lemma SoleSeatIs(v: seq<nat>, s: nat)
    requires SoleMax(v, s)
    ensures SoleSeat(v) == Some(s)
  {
  }

  /** `returnUncalledStreetExcess`: what nobody called goes back to the one seat that bet it. */
  ghost function ReturnUncalled(g: Game): Game
    requires Shaped(g)
  {
    var v := g.h.streetCommit;
    var sole := SoleSeat(v);
    if sole.None? || g.stack[sole.value].None? then g
    else
      var s := sole.value;
      SecondBelow(v, v[s], 0);
      var second := SecondOf(v, v[s], 0);
      var excess := v[s] - second;
      g.(stack := g.stack[s := Some(g.stack[s].value + excess)],
         h := g.h.(streetCommit := v[s := second],
                   totalCommit := g.h.totalCommit[s := g.h.totalCommit[s] - excess],
                   allIn := g.h.allIn[s := false]))
  }

  lemma {:induction false} SecondBelow(v: seq<nat>, m: nat, i: nat)
    requires m > 0 && forall k :: 0 <= k < |v| ==> v[k] <= m
    ensures SecondOf(v, m, i) < m
    decreases |v| - i
  {
    if i < |v| { SecondBelow(v, m, i + 1); }
  }

  // ---------------------------------------------------------------- street ends

  function NextStreet(s: Street): Street {
    match s case Preflop => Flop case Flop => Turn case Turn => River case River => River
  }

  ghost function AdvanceStreet(g: Game, now: nat): Game
    requires Shaped(g)
  {
    var h := g.h.(street := NextStreet(g.h.street), betTo := 0, minRaise := g.params.bigBlind, interval := 0,
                  streetCommit := seq(SEATS, _ => 0), acted := seq(SEATS, _ => -1));
    var start := NextOccupied(g.stack, g.h.button, 1);
    var on := NextToAct(h, start - 1, 1);
    g.(h := h.(actionOn := on, deadline := if on.None? then None else Some(now + g.params.timeout)))
  }

  function Eligible(h: Hand): (e: seq<bool>)
    requires |h.inHand| == |h.folded| == SEATS
    ensures |e| == SEATS && forall i :: 0 <= i < SEATS ==> (e[i] <==> Contends(h, i))
  {
    seq(SEATS, i requires 0 <= i < SEATS => h.inHand[i] && !h.folded[i])
  }

  ghost function ReachShowdown(g: Game): Game
    requires Shaped(g)
  {
    g.(h := g.h.(phase := AtShowdown, actionOn := None, deadline := None, pots := SidePots(g.h.totalCommit, Eligible(g.h))))
  }

  /** The contender with the lowest seat number from `i` on. */
  ghost function FirstContender(h: Hand, i: nat): Option<nat>
    requires |h.inHand| == |h.folded| == SEATS
    decreases SEATS - i
  {
    if i >= SEATS then None else if Contends(h, i) then Some(i) else FirstContender(h, i + 1)
  }

  ghost function CompleteByFolds(g: Game): Game
    requires Shaped(g)
  {
    var w := FirstContender(g.h, 0);
    if w.None? then g
    else
      var r := ReturnUncalled(g);
      if w.value >= |r.stack| || r.stack[w.value].None? then r
      else
        r.(stack := r.stack[w.value := Some(r.stack[w.value].value + Sum(r.h.totalCommit, 0))],
           h := r.h.(streetCommit := seq(SEATS, _ => 0), totalCommit := seq(SEATS, _ => 0),
                     phase := Complete, winner := w, actionOn := None, deadline := None, pots := []))
  }

  ghost function MaybeAdvance(g: Game, now: nat): Game
    requires Shaped(g)
  {
    if Contenders(g.h, 0) <= 1 then CompleteByFolds(g)
    else if !StreetComplete(g.h) then
      var next := NextToAct(g.h, if g.h.actionOn.Some? then g.h.actionOn.value else 0, 1);
      g.(h := g.h.(actionOn := next, deadline := if next.None? then None else Some(now + g.params.timeout)))
    else
      ReturnShaped(g);
      var r := ReturnUncalled(g);
      if r.h.street == River then ReachShowdown(r)
      else if WithChips(r, 0) < 2 then ReachShowdown(r)
      else AdvanceStreet(r, now)
  }

  lemma ReturnShaped(g: Game)
    requires Shaped(g)
    ensures Shaped(ReturnUncalled(g))
  {
    var sole := SoleSeat(g.h.streetCommit);
    if sole.Some? {
      SecondBelow(g.h.streetCommit, g.h.streetCommit[sole.value], 0);
    }
  }

  // ---------------------------------------------------------------- actions

  /** Move `pay` chips from the stack of `s` into the pot. */
  ghost function Commit(g: Game, s: nat, pay: nat): Game
    requires Shaped(g) && s < SEATS && g.stack[s].Some? && pay <= g.stack[s].value
  {
    g.(stack := g.stack[s := Some(g.stack[s].value - pay)],
       h := g.h.(streetCommit := g.h.streetCommit[s := g.h.streetCommit[s] + pay],
                 totalCommit := g.h.totalCommit[s := g.h.totalCommit[s] + pay],
                 allIn := if g.stack[s].value == pay then g.h.allIn[s := true] else g.h.allIn))
  }

  ghost function ApplyBetTo(g: Game, s: nat, desired: int): Result<Game>
    requires Shaped(g) && s < SEATS && g.stack[s].Some?
  {
    var h := g.h;
    var max := h.streetCommit[s] + g.stack[s].value;
    if desired <= h.streetCommit[s] || desired > max || desired <= h.betTo || h.acted[s] == h.interval then Err
    else
      var raiseSize := desired - h.betTo;
      var paid := Commit(g, s, desired - h.streetCommit[s]);
      if h.betTo == 0 then
        if desired < g.params.bigBlind && desired != max then Err
        else Ok(paid.(h := paid.h.(interval := h.interval + 1, acted := h.acted[s := h.interval + 1], betTo := desired,
                                   minRaise := if desired >= g.params.bigBlind then desired else g.params.bigBlind)))
      else if raiseSize < h.minRaise then
        if desired != max then Err
        else Ok(paid.(h := paid.h.(acted := h.acted[s := h.interval], betTo := desired)))
      else
        Ok(paid.(h := paid.h.(interval := h.interval + 1, acted := h.acted[s := h.interval + 1], betTo := desired, minRaise := raiseSize)))
  }

  ghost function ApplyCall(g: Game, s: nat): Result<Game>
    requires Shaped(g) && s < SEATS && g.stack[s].Some?
  {
    var need := ToCall(g.h, s);
    if need == 0 then Err
    else
      var paid := Commit(g, s, Min(need, g.stack[s].value));
      Ok(paid.(h := paid.h.(acted := g.h.acted[s := g.h.interval])))
  }

  ghost function ApplyCheck(g: Game, s: nat): Result<Game>
    requires Shaped(g) && s < SEATS
  {
    if ToCall(g.h, s) != 0 then Err else Ok(g.(h := g.h.(acted := g.h.acted[s := g.h.interval])))
  }

  ghost function ApplyFold(g: Game, s: nat): Result<Game>
    requires Shaped(g) && s < SEATS
  {
    Ok(g.(h := g.h.(folded := g.h.folded[s := true], acted := g.h.acted[s := g.h.interval])))
  }

  /** What an action does to the hand before the hand moves on. */
  ghost function Move(g: Game, s: nat, a: Action): Result<Game>
    requires Shaped(g) && s < SEATS && g.stack[s].Some?
  {
    match a
    case Fold => ApplyFold(g, s)
    case Check => ApplyCheck(g, s)
    case Call => ApplyCall(g, s)
    case BetTo(amount) => ApplyBetTo(g, s, amount)
  }

  lemma MoveShaped(g: Game, s: nat, a: Action)
    requires Shaped(g) && s < SEATS && g.stack[s].Some?
    ensures Move(g, s, a).Ok? ==> Shaped(Move(g, s, a).value)
  {
  }

  /** `applyAction` */
  ghost function ApplyAction(g: Game, seat: int, a: Action, now: nat): Result<Game>
    requires Shaped(g)
  {
    if g.h.phase != Betting || seat < 0 || seat >= SEATS || g.stack[seat].None? then Err
    else if !g.h.inHand[seat] || g.h.folded[seat] || g.h.allIn[seat] || g.h.actionOn != Some(seat) then Err
    else
      var m := Move(g, seat, a);
      MoveShaped(g, seat, a);
      if m.Err? then Err else Ok(MaybeAdvance(m.value, now))
  }

  /** The action a timeout applies. */
  ghost function DefaultAction(h: Hand, s: nat): Action
    requires s < |h.streetCommit|
  {
    if ToCall(h, s) == 0 then Check else Fold
  }

  /** `applyTick`: nothing happens before the deadline. */
  ghost function ApplyTick(g: Game, now: nat): Result<Game>
    requires Shaped(g)
  {
    if g.h.phase != Betting || g.h.actionOn.None? || g.h.deadline.None? || now < g.h.deadline.value then Ok(g)
    else if g.h.actionOn.value >= SEATS then Err
    else ApplyAction(g, g.h.actionOn.value, DefaultAction(g.h, g.h.actionOn.value), now)
  }

  /** Whether `abortHand` gives seat `i` its commitment back. */
  ghost predicate Refunded(g: Game, i: nat)
    requires i < |g.stack|
  {
    g.stack[i].Some? && (g.params.refundBlinds || (i != g.h.sbSeat && i != g.h.bbSeat))
  }

  ghost function AbortHand(g: Game): Game
    requires Shaped(g)
  {
    if g.h.phase == Complete || g.h.phase == Aborted then g
    else
      g.(stack := seq(SEATS, i requires 0 <= i < SEATS => if Refunded(g, i) then Some(g.stack[i].value + g.h.totalCommit[i]) else g.stack[i]),
         h := g.h.(phase := Aborted, actionOn := None, deadline := None, pots := [], winner := None,
                   totalCommit := seq(SEATS, i requires 0 <= i < SEATS => if Refunded(g, i) then 0 else g.h.totalCommit[i]),
                   streetCommit := seq(SEATS, i requires 0 <= i < SEATS => if Refunded(g, i) then 0 else g.h.streetCommit[i])))
  }

  // ---------------------------------------------------------------- starting a hand

  /** A table between hands. */
  datatype Table = Table(params: Params, stack: seq<Option<nat>>, button: Option<nat>)

  ghost predicate TableShaped(t: Table) {
    |t.stack| == SEATS && (t.button.Some? ==> t.button.value < SEATS)
  }

  ghost predicate Funded(t: Table, i: nat)
    requires i < |t.stack|
  {
    t.stack[i].Some? && t.stack[i].value > 0
  }

  ghost function FundedSeats(t: Table, i: nat): nat
    requires TableShaped(t)
    decreases SEATS - i
  {
    if i >= SEATS then 0 else (if Funded(t, i) then 1 else 0) + FundedSeats(t, i + 1)
  }

  /** The first funded seat at clockwise distance `off` or more, or `from` itself. */
  ghost function NextFunded(t: Table, from: nat, off: nat): nat
    requires TableShaped(t) && off > 0
    decreases SEATS + 1 - off
  {
    if off > SEATS then from
    else
      var s := (from + off) % SEATS;
      if Funded(t, s) then s else NextFunded(t, from, off + 1)
  }

  /** The button of the next hand: the lowest funded seat, or the next one after the old button. */
  ghost function NextButton(t: Table): nat
    requires TableShaped(t)
  {
    if t.button.None? then NextFunded(t, SEATS - 1, 1) else NextFunded(t, t.button.value, 1)
  }

  ghost function SmallBlindSeat(t: Table): nat
    requires TableShaped(t)
  {
    if FundedSeats(t, 0) == 2 then NextButton(t) else NextOccupied(t.stack, NextButton(t), 1)
  }

  ghost function BigBlindSeat(t: Table): nat
    requires TableShaped(t)
  {
    NextOccupied(t.stack, SmallBlindSeat(t), 1)
  }

  /** What a blind costs a seat: the blind, or all it has. */
  ghost function BlindPay(stack: Option<nat>, blind: nat): nat {
    if stack.Some? then Min(stack.value, blind) else 0
  }

  /** The hand before any blind is posted. */
  ghost function FreshHand(t: Table): Hand
    requires TableShaped(t)
  {
    Hand(Betting, Preflop, NextButton(t), SmallBlindSeat(t), BigBlindSeat(t), None, None, 0, t.params.bigBlind, 0,
         seq(SEATS, _ => -1), seq(SEATS, _ => 0), seq(SEATS, _ => 0),
         seq(SEATS, i requires 0 <= i < SEATS => t.stack[i].Some? && t.stack[i].value > 0),
         seq(SEATS, _ => false), seq(SEATS, _ => false), [], None)
  }

  lemma {:induction false} NextOccupiedFound(stack: seq<Option<nat>>, from: nat, off: nat, k: nat)
    requires |stack| == SEATS && from < SEATS && 0 < off <= k <= SEATS && stack[(from + k) % SEATS].Some?
    ensures NextOccupied(stack, from, off) < SEATS && stack[NextOccupied(stack, from, off)].Some?
    ensures k < SEATS ==> NextOccupied(stack, from, off) != from
    decreases k - off
  {
    if stack[(from + off) % SEATS].None? { NextOccupiedFound(stack, from, off + 1, k); }
  }

  lemma {:induction false} NextFundedFound(t: Table, from: nat, off: nat, k: nat)
    requires TableShaped(t) && from < SEATS && 0 < off <= k <= SEATS && Funded(t, (from + k) % SEATS)
    ensures NextFunded(t, from, off) < SEATS && Funded(t, NextFunded(t, from, off))
    ensures k < SEATS ==> NextFunded(t, from, off) != from
    decreases k - off
  {
    if !Funded(t, (from + off) % SEATS) { NextFundedFound(t, from, off + 1, k); }
  }

  /** The clockwise distance from `a` to `b`, between 1 and 9. */
  ghost function Distance(a: nat, b: nat): (k: nat)
    requires a < SEATS && b < SEATS
    ensures 1 <= k <= SEATS && (a + k) % SEATS == b && (a != b ==> k < SEATS)
  {
    if b > a then b - a else b + SEATS - a
  }

  lemma {:induction false} TwoFunded(t: Table, i: nat)
    requires TableShaped(t)
    ensures FundedSeats(t, i) >= 1 ==> exists a :: i <= a < SEATS && Funded(t, a)
    ensures FundedSeats(t, i) >= 2 ==> exists a, b :: i <= a < b < SEATS && Funded(t, a) && Funded(t, b)
    decreases SEATS - i
  {
    if i < SEATS { TwoFunded(t, i + 1); }
  }

  /** The blinds are posted by two different occupied seats. */
  lemma BlindSeats(t: Table)
    requires TableShaped(t) && FundedSeats(t, 0) >= 2
    ensures NextButton(t) < SEATS && Funded(t, NextButton(t))
    ensures SmallBlindSeat(t) < SEATS && t.stack[SmallBlindSeat(t)].Some?
    ensures BigBlindSeat(t) < SEATS && t.stack[BigBlindSeat(t)].Some?
    ensures SmallBlindSeat(t) != BigBlindSeat(t)
  {
    hide NextOccupied, NextFunded, FundedSeats;
    TwoFunded(t, 0);
    var a, b :| 0 <= a < b < SEATS && Funded(t, a) && Funded(t, b);
    var from := if t.button.None? then SEATS - 1 else t.button.value;
    NextFundedFound(t, from, 1, Distance(from, a));
    var button := NextButton(t);
    var c := if button == a then b else a;
    NextOccupiedFound(t.stack, button, 1, Distance(button, c));
    var sb := SmallBlindSeat(t);
    var d := if sb == a then b else a;
    NextOccupiedFound(t.stack, sb, 1, Distance(sb, d));
  }

  lemma CommitShaped(g: Game, s: nat, pay: nat)
    requires Shaped(g) && s < SEATS && g.stack[s].Some? && pay <= g.stack[s].value
    ensures Shaped(Commit(g, s, pay))
    ensures forall i :: 0 <= i < SEATS && i != s ==> Commit(g, s, pay).stack[i] == g.stack[i]
  {
  }

  lemma FreshShaped(t: Table)
    requires TableShaped(t) && NextButton(t) < SEATS
    ensures Shaped(Game(t.params, t.stack, FreshHand(t)))
  {
  }

  /** The table with both blinds posted and nobody to act yet. */
  ghost function BlindsPosted(t: Table): (g: Game)
    requires TableShaped(t) && FundedSeats(t, 0) >= 2
    ensures Shaped(g)
  {
    BlindSeats(t);
    FreshShaped(t);
    var sb, bb := SmallBlindSeat(t), BigBlindSeat(t);
    var g0 := Game(t.params, t.stack, FreshHand(t));
    CommitShaped(g0, sb, BlindPay(t.stack[sb], t.params.smallBlind));
    var g1 := Commit(g0, sb, BlindPay(t.stack[sb], t.params.smallBlind));
    CommitShaped(g1, bb, BlindPay(t.stack[bb], t.params.bigBlind));
    assert g1.stack[bb] == t.stack[bb];
    var g2 := Commit(g1, bb, BlindPay(t.stack[bb], t.params.bigBlind));
    g2.(h := g2.h.(betTo := BlindPay(t.stack[bb], t.params.bigBlind)))
  }

  /** `startHand` */
  ghost function StartHand(t: Table, now: nat): Result<Game>
    requires TableShaped(t)
  {
    if FundedSeats(t, 0) < 2 then Err
    else
      var g := BlindsPosted(t);
      var on := NextToAct(g.h, BigBlindSeat(t), 1);
      if on.None? then Ok(ReachShowdown(g))
      else Ok(g.(h := g.h.(actionOn := on, deadline := Some(now + t.params.timeout))))
  }
}
