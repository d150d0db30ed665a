/** The betting engine as it runs: loops over the seats and in-place updates, tied to the functions in `Betting`. */
module BettingEngine {
  import opened Outcome
  import opened Pots
  import opened Betting
  import opened BettingSafety

  // ---------------------------------------------------------------- reading loops

  predicate Lengths(h: Hand) {
    |h.inHand| == |h.folded| == |h.allIn| == |h.acted| == |h.streetCommit| == |h.totalCommit| == SEATS
  }

  /** `needsToAct` */
  predicate Needs(h: Hand, i: nat)
    requires Lengths(h) && i < SEATS
  {
    h.inHand[i] && !h.folded[i] && !h.allIn[i] && (h.acted[i] != h.interval || h.streetCommit[i] != h.betTo)
  }

  /** `nextActiveInHand` */
  method FindNext(h: Hand, from: int) returns (r: Option<nat>)
    requires Lengths(h) && from >= -1
    ensures r == NextToAct(h, from, 1)
  {
    for off := 1 to SEATS + 1
      invariant NextToAct(h, from, off) == NextToAct(h, from, 1)
    {
      var s := (from + off) % SEATS;
      assert Needs(h, s) <==> NeedsToAct(h, s);
      if Needs(h, s) {
        return Some(s);
      }
    }
    r := None;
  }

  /** `nextOccupiedSeat` */
  method FindOccupied(stack: seq<Option<nat>>, from: nat) returns (r: nat)
    requires |stack| == SEATS
    ensures r == NextOccupied(stack, from, 1)
  {
    for off := 1 to SEATS + 1
      invariant NextOccupied(stack, from, off) == NextOccupied(stack, from, 1)
    {
      var s := (from + off) % SEATS;
      if stack[s].Some? {
        return s;
      }
    }
    r := from;
  }

  /** `countNotFolded` */
  method CountNotFolded(h: Hand) returns (n: nat)
    requires Lengths(h)
    ensures n == Contenders(h, 0)
  {
    n := 0;
    for i := 0 to SEATS
      invariant n + Contenders(h, i) == Contenders(h, 0)
    {
      if h.inHand[i] && !h.folded[i] {
        n := n + 1;
      }
    }
  }

  /** `countWithChips` */
  method CountWithChips(stack: seq<Option<nat>>, h: Hand, ghost g: Game) returns (n: nat)
    requires Shaped(g) && g.stack == stack && g.h == h
    ensures n == WithChips(g, 0)
  {
    n := 0;
    for i := 0 to SEATS
      invariant n + WithChips(g, i) == WithChips(g, 0)
    {
      if h.inHand[i] && !h.folded[i] && stack[i].Some? && stack[i].value > 0 {
        n := n + 1;
      }
    }
  }

  /** `streetComplete` */
  method IsStreetComplete(h: Hand) returns (b: bool)
    requires Lengths(h)
    ensures b <==> StreetComplete(h)
  {
    for i := 0 to SEATS
      invariant forall j :: 0 <= j < i && h.inHand[j] && !h.folded[j] && !h.allIn[j] ==> h.streetCommit[j] == h.betTo && h.acted[j] == h.interval
    {
      if h.inHand[i] && !h.folded[i] && !h.allIn[i] && (h.streetCommit[i] != h.betTo || h.acted[i] != h.interval) {
        return false;
      }
    }
    b := true;
  }

  method FindContender(h: Hand) returns (w: Option<nat>)
    requires Lengths(h)
    ensures w == FirstContender(h, 0)
  {
    for i := 0 to SEATS
      invariant FirstContender(h, i) == FirstContender(h, 0)
    {
      if h.inHand[i] && !h.folded[i] {
        return Some(i);
      }
    }
    w := None;
  }

  // ---------------------------------------------------------------- uncalled bets

  /** `maxCommitThisStreet` */
  method MaxCommit(v: seq<nat>) returns (m: nat)
    ensures m == MaxOf(v, 0)
  {
    m := 0;
    var i := 0;
    while i < |v|
      invariant 0 <= i <= |v|
      invariant MaxOf(v, 0) == if m > MaxOf(v, i) then m else MaxOf(v, i)
    {
      if v[i] > m {
        m := v[i];
      }
      i := i + 1;
    }
  }

  /** `secondMaxCommitThisStreet` */
  method SecondMax(v: seq<nat>, max: nat) returns (s: nat)
    ensures s == SecondOf(v, max, 0)
  {
    s := 0;
    var i := 0;
    while i < |v|
      invariant 0 <= i <= |v|
      invariant SecondOf(v, max, 0) == if s > SecondOf(v, max, i) then s else SecondOf(v, max, i)
    {
      if v[i] != max && v[i] > s {
        s := v[i];
      }
      i := i + 1;
    }
  }

  lemma {:induction false} MaxBounds(v: seq<nat>, i: nat)
    ensures forall k :: i <= k < |v| ==> v[k] <= MaxOf(v, i)
    ensures MaxOf(v, i) > 0 ==> exists k :: i <= k < |v| && v[k] == MaxOf(v, i)
    decreases |v| - i
  {
    if i < |v| { MaxBounds(v, i + 1); }
  }

  /** The seat that alone holds the maximum, found the way the engine finds it. */
  method FindSole(v: seq<nat>) returns (r: Option<nat>)
    ensures r == SoleSeat(v)
  {
    var max := MaxCommit(v);
    MaxBounds(v, 0);
    r := None;
    if max == 0 {
      return;
    }
    var i := 0;
    while i < |v|
      invariant 0 <= i <= |v|
      invariant r.None? ==> forall k :: 0 <= k < i ==> v[k] != max
      invariant r.Some? ==> r.value < i && v[r.value] == max && forall k :: 0 <= k < i && k != r.value ==> v[k] != max
    {
      if v[i] == max {
        if r.Some? {
          TwoAtMax(v, r.value, i, max);
          return None;
        }
        r := Some(i);
      }
      i := i + 1;
    }
    assert SoleMax(v, r.value);
    SoleSeatIs(v, r.value);
  }

  lemma TwoAtMax(v: seq<nat>, a: nat, b: nat, max: nat)
    requires a < b < |v| && v[a] == v[b] == max && forall k :: 0 <= k < |v| ==> v[k] <= max
    ensures SoleSeat(v) == None
  {
    assert forall s: nat :: !SoleMax(v, s);
  }

  // ---------------------------------------------------------------- the engine

  class Engine {
    const params: Params
    var stack: seq<Option<nat>>
    var h: Hand

    ghost function View(): Game
      reads this
    {
      Game(params, stack, h)
    }

    constructor (p: Params, st: seq<Option<nat>>, hand: Hand)
      ensures View() == Game(p, st, hand)
    {
      params, stack, h := p, st, hand;
    }

    /** `returnUncalledStreetExcess` */
    method ReturnExcess()
      requires Shaped(View())
      modifies this
      ensures View() == ReturnUncalled(old(View()))
    {
      var v := h.streetCommit;
      var sole := FindSole(v);
      if sole.None? || stack[sole.value].None? {
        return;
      }
      var s := sole.value;
      SecondBelow(v, v[s], 0);
      var second := SecondMax(v, v[s]);
      var excess := v[s] - second;
      stack := stack[s := Some(stack[s].value + excess)];
      h := h.(streetCommit := v[s := second], totalCommit := h.totalCommit[s := h.totalCommit[s] - excess], allIn := h.allIn[s := false]);
    }

    /** `advanceStreet` */
    method NextStreetOpens(now: nat)
      requires Shaped(View())
      modifies this`h
      ensures View() == AdvanceStreet(old(View()), now)
    {
      hide NextToAct, NextOccupied;
      var blank := h.(street := NextStreet(h.street), betTo := 0, minRaise := params.bigBlind, interval := 0,
                       streetCommit := seq(SEATS, _ => 0), acted := seq(SEATS, _ => -1));
      var start := FindOccupied(stack, h.button);
      var before: int := start as int - 1;
      var on := FindNext(blank, before);
      h := blank.(actionOn := on, deadline := if on.None? then None else Some(now + params.timeout));
    }

    /** `reachShowdown` */
    method ShowCards()
      requires Shaped(View())
      modifies this`h
      ensures View() == ReachShowdown(old(View()))
    {
      hide SidePots;
      var pots := ComputeSidePots(h.totalCommit, Eligible(h));
      h := h.(phase := AtShowdown, actionOn := None, deadline := None, pots := pots);
    }

    /** `completeByFolds` */
    method LastOneWins()
      requires Shaped(View())
      modifies this
      ensures View() == CompleteByFolds(old(View()))
    {
      hide ReturnUncalled, FirstContender;
      ghost var g := View();
      var w := FindContender(h);
      if w.None? {
        return;
      }
      ReturnShaped(g);
      ReturnExcess();
      if w.value >= |stack| || stack[w.value].None? {
        return;
      }
      var pot := SumAll(h.totalCommit);
      stack := stack[w.value := Some(stack[w.value].value + pot)];
      h := h.(streetCommit := seq(SEATS, _ => 0), totalCommit := seq(SEATS, _ => 0),
              phase := Complete, winner := w, actionOn := None, deadline := None, pots := []);
    }

    /** `maybeAdvance` */
    method MoveOn(now: nat)
      requires Shaped(View())
      modifies this
      ensures View() == MaybeAdvance(old(View()), now)
    {
      hide ReturnUncalled, Contenders, StreetComplete, NextToAct, WithChips, CompleteByFolds, AdvanceStreet, ReachShowdown;
      ghost var g := View();
      var n := CountNotFolded(h);
      if n <= 1 {
        LastOneWins();
        return;
      }
      var done := IsStreetComplete(h);
      if !done {
        var next := FindNext(h, if h.actionOn.Some? then h.actionOn.value else 0);
        h := h.(actionOn := next, deadline := if next.None? then None else Some(now + params.timeout));
        return;
      }
      ReturnShaped(g);
      ReturnExcess();
      var chips := CountWithChips(stack, h, View());
      if h.street == River || chips < 2 {
        ShowCards();
      } else {
        NextStreetOpens(now);
      }
    }

    /** Put `pay` chips of seat `s` into the pot. */
    method PutIn(s: nat, pay: nat)
      requires Shaped(View()) && s < SEATS && stack[s].Some? && pay <= stack[s].value
      modifies this
      ensures View() == Commit(old(View()), s, pay)
    {
      var left := stack[s].value - pay;
      stack := stack[s := Some(left)];
      h := h.(streetCommit := h.streetCommit[s := h.streetCommit[s] + pay], totalCommit := h.totalCommit[s := h.totalCommit[s] + pay]);
      if left == 0 {
        h := h.(allIn := h.allIn[s := true]);
      }
    }

    /** `applyBetTo` */
    method BetUpTo(s: nat, desired: int) returns (ok: bool)
      requires Shaped(View()) && s < SEATS && stack[s].Some?
      modifies this
      ensures ok <==> ApplyBetTo(old(View()), s, desired).Ok?
      ensures View() == if ok then ApplyBetTo(old(View()), s, desired).value else old(View())
    {
      var max := h.streetCommit[s] + stack[s].value;
      if desired <= h.streetCommit[s] || desired > max || desired <= h.betTo || h.acted[s] == h.interval {
        return false;
      }
      var raiseSize, opening := desired - h.betTo, h.betTo == 0;
      if opening {
        if desired < params.bigBlind && desired != max {
          return false;
        }
      } else if raiseSize < h.minRaise && desired != max {
        return false;
      }
      var full := opening || raiseSize >= h.minRaise;
      var minRaise := if opening then (if desired >= params.bigBlind then desired else params.bigBlind) else if full then raiseSize else h.minRaise;
      PutIn(s, desired - h.streetCommit[s]);
      var interval := if full then h.interval + 1 else h.interval;
      h := h.(interval := interval, acted := h.acted[s := interval], betTo := desired, minRaise := minRaise);
      ok := true;
    }

    /** `applyCall` */
    method CallBet(s: nat) returns (ok: bool)
      requires Shaped(View()) && s < SEATS && stack[s].Some?
      modifies this
      ensures ok <==> ApplyCall(old(View()), s).Ok?
      ensures View() == if ok then ApplyCall(old(View()), s).value else old(View())
    {
      var need := if h.betTo > h.streetCommit[s] then h.betTo - h.streetCommit[s] else 0;
      if need == 0 {
        return false;
      }
      PutIn(s, if need > stack[s].value then stack[s].value else need);
      h := h.(acted := h.acted[s := h.interval]);
      ok := true;
    }

    method Apply(s: nat, a: Action) returns (ok: bool)
      requires Shaped(View()) && s < SEATS && stack[s].Some?
      modifies this
      ensures ok <==> Move(old(View()), s, a).Ok?
      ensures View() == if ok then Move(old(View()), s, a).value else old(View())
    {
      hide ApplyBetTo, ApplyCall;
      match a {
        case Fold =>
          h := h.(folded := h.folded[s := true], acted := h.acted[s := h.interval]);
          ok := true;
        case Check =>
          if h.betTo > h.streetCommit[s] {
            return false;
          }
          h := h.(acted := h.acted[s := h.interval]);
          ok := true;
        case Call => ok := CallBet(s);
        case BetTo(amount) => ok := BetUpTo(s, amount);
      }
    }

    /** `applyAction`: a rejected action changes nothing. */
    method Act(seat: int, a: Action, now: nat) returns (ok: bool)
      requires Shaped(View())
      modifies this
      ensures ok <==> ApplyAction(old(View()), seat, a, now).Ok?
      ensures View() == if ok then ApplyAction(old(View()), seat, a, now).value else old(View())
    {
      hide Move, MaybeAdvance;
      ghost var g := View();
      if h.phase != Phase.Betting || seat < 0 || seat >= SEATS || stack[seat].None? {
        return false;
      }
      if !h.inHand[seat] || h.folded[seat] || h.allIn[seat] || h.actionOn != Some(seat) {
        return false;
      }
      MoveShaped(g, seat, a);
      ok := Apply(seat, a);
      if ok {
        MoveOn(now);
      }
    }

    /** `applyTick` */
    method Tick(now: nat) returns (ok: bool)
      requires Shaped(View())
      modifies this
      ensures ok <==> ApplyTick(old(View()), now).Ok?
      ensures View() == if ok then ApplyTick(old(View()), now).value else old(View())
    {
      hide ApplyAction;
      if h.phase != Phase.Betting || h.actionOn.None? || h.deadline.None? || now < h.deadline.value {
        return true;
      }
      var s := h.actionOn.value;
      if s >= SEATS {
        return false;
      }
      ok := Act(s, if h.betTo > h.streetCommit[s] then Fold else Check, now);
    }

    /** `abortHand` */
    method AbortAndRefund()
      requires Shaped(View())
      modifies this
      ensures View() == AbortHand(old(View()))
    {
      if h.phase == Complete || h.phase == Aborted {
        return;
      }
      ghost var g := View();
      var st, total, street := stack, h.totalCommit, h.streetCommit;
      for i := 0 to SEATS
        invariant |st| == |total| == |street| == SEATS && View() == g
        invariant forall j :: 0 <= j < i ==> st[j] == (if Refunded(g, j) then Some(g.stack[j].value + g.h.totalCommit[j]) else g.stack[j])
        invariant forall j :: 0 <= j < i ==> total[j] == (if Refunded(g, j) then 0 else g.h.totalCommit[j])
        invariant forall j :: 0 <= j < i ==> street[j] == (if Refunded(g, j) then 0 else g.h.streetCommit[j])
        invariant forall j :: i <= j < SEATS ==> st[j] == g.stack[j] && total[j] == g.h.totalCommit[j] && street[j] == g.h.streetCommit[j]
      {
        if stack[i].Some? && (params.refundBlinds || (i != h.sbSeat && i != h.bbSeat)) {
          st := st[i := Some(st[i].value + total[i])];
          total, street := total[i := 0], street[i := 0];
        }
      }
      stack := st;
      h := h.(phase := Aborted, actionOn := None, deadline := None, pots := [], winner := None, totalCommit := total, streetCommit := street);
      assert stack == AbortHand(g).stack && total == AbortHand(g).h.totalCommit && street == AbortHand(g).h.streetCommit;
    }
  }

  method SumAll(v: seq<nat>) returns (t: nat)
    ensures t == Sum(v, 0)
  {
    t := 0;
    var i := 0;
    while i < |v|
      invariant 0 <= i <= |v| && t + Sum(v, i) == Sum(v, 0)
    {
      t := t + v[i];
      i := i + 1;
    }
  }

  // ---------------------------------------------------------------- starting a hand

  method CountFunded(t: Table) returns (n: nat)
    requires TableShaped(t)
    ensures n == FundedSeats(t, 0)
  {
    n := 0;
    for i := 0 to SEATS
      invariant n + FundedSeats(t, i) == FundedSeats(t, 0)
    {
      if t.stack[i].Some? && t.stack[i].value > 0 {
        n := n + 1;
      }
    }
  }

  method FindFunded(t: Table, from: nat) returns (r: nat)
    requires TableShaped(t)
    ensures r == NextFunded(t, from, 1)
  {
    for off := 1 to SEATS + 1
      invariant NextFunded(t, from, off) == NextFunded(t, from, 1)
    {
      var s := (from + off) % SEATS;
      if t.stack[s].Some? && t.stack[s].value > 0 {
        return s;
      }
    }
    r := from;
  }

  /** The seats of a new hand: button, small blind and big blind. */
  method ChooseSeats(t: Table) returns (n: nat, button: nat, sb: nat, bb: nat)
    requires TableShaped(t)
    ensures n == FundedSeats(t, 0)
    ensures n >= 2 ==> button == NextButton(t) && sb == SmallBlindSeat(t) && bb == BigBlindSeat(t)
  {
    hide NextFunded, NextOccupied, FundedSeats;
    n := CountFunded(t);
    button, sb, bb := 0, 0, 0;
    if n >= 2 {
      button := FindFunded(t, if t.button.None? then SEATS - 1 else t.button.value);
      sb := button;
      if n != 2 { sb := FindOccupied(t.stack, button); }
      bb := FindOccupied(t.stack, sb);
    }
  }

  function Blind(stack: Option<nat>, amount: nat): nat {
    if stack.Some? then (if stack.value < amount then stack.value else amount) else 0
  }

  /** `startHand` */
  method DealHand(t: Table, now: nat) returns (e: Engine?)
    requires TableShaped(t)
    ensures e == null <==> StartHand(t, now).Err?
    ensures e != null ==> fresh(e) && StartHand(t, now) == Ok(e.View())
  {
    hide NextToAct, SmallBlindSeat, BigBlindSeat, NextButton, FundedSeats, ReachShowdown;
    var n, button, sb, bb := ChooseSeats(t);
    if n < 2 {
      return null;
    }
    BlindSeats(t);
    FreshShaped(t);
    var hand := Hand(Phase.Betting, Preflop, button, sb, bb, None, None, 0, t.params.bigBlind, 0,
                     seq(SEATS, _ => -1), seq(SEATS, _ => 0), seq(SEATS, _ => 0),
                     seq(SEATS, i requires 0 <= i < SEATS => t.stack[i].Some? && t.stack[i].value > 0),
                     seq(SEATS, _ => false), seq(SEATS, _ => false), [], None);
    assert hand == FreshHand(t);
    e := new Engine(t.params, t.stack, hand);
    CommitShaped(e.View(), sb, Blind(t.stack[sb], t.params.smallBlind));
    e.PutIn(sb, Blind(t.stack[sb], t.params.smallBlind));
    assert e.stack[bb] == t.stack[bb];
    e.PutIn(bb, Blind(t.stack[bb], t.params.bigBlind));
    e.h := e.h.(betTo := Blind(t.stack[bb], t.params.bigBlind));
    assert e.View() == BlindsPosted(t);
    var on := FindNext(e.h, bb);
    if on.None? {
      e.ShowCards();
    } else {
      e.h := e.h.(actionOn := on, deadline := Some(now + t.params.timeout));
    }
  }
}
