/** Whose chips a transaction may take: accounts, stacks and bonds fall only by the doing of their owner, by a blind, or
    by a penalty the rules fix. */
module LedgerOwners {
  import opened Outcome
  import opened Pots
  import opened Betting
  import opened BettingChips
  import opened ChainTable
  import opened ChainStart
  import opened ChainTurn
  import opened ChainPlay
  import opened LedgerState
  import Settlement

  // ---------------------------------------------------------------- accounts

  /** Who signs a transaction that spends from an account. */
  function Spender(tx: Tx): Option<string> {
    match tx
    case Send(from, _, _) => Some(from)
    case Sit(_, player, _, _) => Some(player)
    case BondChips(id, _) => Some(id)
    case _ => None
  }

  lemma {:induction false} PunishedBalances(s: State, ids: seq<string>, bps: nat, a: string)
    ensures Balance(PunishEach(s, ids, bps).accounts, a) >= Balance(s.accounts, a)
    decreases |ids|
  {
    hide SlashAmount;
    if ids != [] { PunishedBalances(Punish(s, ids[0], bps), ids[1..], bps, a); }
  }

  lemma PlayedBalances(s: State, id: nat, u: Turn, s1: State, a: string)
    requires Plays(s, id, u, s1)
    ensures Balance(s1.accounts, a) >= Balance(s.accounts, a)
  {
    hide PaidOut, Leads, OwedTo;
    var r :| Leads(u, r) && s1 == Ejecting(s, id, r);
    PaidOutExactly(s.accounts, r.seats, a, 0);
  }

  /** THEOREM.  The balance of an account falls only by a transaction of its owner. */
  lemma BalanceFallsOnlyByOwner(s: State, tx: Tx, s1: State, a: string)
    requires StateOk(s) && Accepts(s, tx) && Effect(s, tx, s1)
    ensures Balance(s1.accounts, a) < Balance(s.accounts, a) ==> Spender(tx) == Some(a)
  {
    hide StateOk, TableOk, MayStart, MayTick, MayStep, Legal, InHand, TurnOf, PunishEach, Plays, SeatOf;
    match tx
    case Start(id, _, _, _) => PlayedBalances(s, id, TurnOf(s, tx), s1, a);
    case Act(id, _, _, _) => PlayedBalances(s, id, TurnOf(s, tx), s1, a);
    case Tick(id, _) => PlayedBalances(s, id, TurnOf(s, tx), s1, a);
    case Dkg(ids) => PunishedBalances(s, ids, BPS_DKG, a);
    case Dealer(id, ids, step, _) =>
      PunishedBalances(s, ids, BPS_HAND, a);
      if step.Some? { PlayedBalances(PunishEach(s, ids, BPS_HAND), id, TurnOf(s, tx), s1, a); }
    case _ =>
  }

  // ---------------------------------------------------------------- stacks

  /** Every seat has at least the stack it had. */
  ghost predicate NobodyPays(v: seq<Option<nat>>, w: seq<Option<nat>>) {
    |v| == |w| && forall i :: 0 <= i < |v| ==> (v[i].Some? <==> w[i].Some?) && (v[i].Some? ==> v[i].value <= w[i].value)
  }

  lemma ReturnPaysNobody(m: Game)
    requires Shaped(m)
    ensures NobodyPays(m.stack, ReturnUncalled(m).stack)
  {
    var sole := SoleSeat(m.h.streetCommit);
    if sole.Some? { SecondBelow(m.h.streetCommit, m.h.streetCommit[sole.value], 0); }
  }

  lemma FoldOutPaysNobody(m: Game)
    requires Shaped(m)
    ensures NobodyPays(m.stack, CompleteByFolds(m).stack)
  {
    hide ReturnUncalled, FirstContender;
    ReturnPaysNobody(m);
  }

  lemma AfterMovePaysNobody(p: Play, m: Game)
    requires Shaped(m) && BoardOk(p) && p.stage == Playing && m.h.street == p.h.street
    ensures NobodyPays(m.stack, AfterMove(p, m).g.stack)
  {
    hide Contenders, StreetComplete, WithChips, CompleteByFolds, NextToAct, ReturnUncalled, OpenStreet;
    ReturnPaysNobody(m);
    FoldOutPaysNobody(m);
    ReturnShaped(m);
    OpenStreetIs(ReturnUncalled(m), NextStreet(ReturnUncalled(m).h.street));
  }

  /** The table after a turn: the same players and bonds, and no stack below what the outcome holds. */
  lemma BecomesPaysNobody(u: Turn, r: PokerTable, i: nat)
    requires Sound(u) && Becomes(u, r) && i < SEATS && u.table.seats[i].Some?
    ensures |r.seats| == SEATS && r.seats[i].Some? && u.o.g.stack[i].Some?
    ensures r.seats[i].value.player == u.table.seats[i].value.player && r.seats[i].value.bond == u.table.seats[i].value.bond
    ensures r.seats[i].value.stack >= u.o.g.stack[i].value
  {
    hide PotOk, BoardOk, Worth, StackSum, BondSum, Settlement.Undecidable, Settlement.Decided, Settlement.Payout, SidePots;
    match u.o
    case Goes(_, _, _, _) =>
    case FoldsOut(_) =>
    case Refunds(g) =>
      PotShaped(g);
      assert Stacks(r.seats)[i] == Settlement.Credited(g.stack[i], g.h.totalCommit[i]);
    case ShowsDown(g, board) =>
      PotShaped(g);
      assert Stacks(r.seats)[i] == Some(r.seats[i].value.stack);
      var d := ShowdownOf(g, board, u.p.hole);
      if !Settlement.Undecidable(d) {
        var ws :| Awarded(d, ws, g.stack, Stacks(r.seats));
      }
  }

  lemma MoveOthers(g: Game, s: nat, a: Action, i: nat)
    requires Shaped(g) && s < SEATS && g.stack[s].Some? && Move(g, s, a).Ok? && i < SEATS && i != s
    ensures Shaped(Move(g, s, a).value) && Move(g, s, a).value.stack[i] == g.stack[i]
  {
    MoveShaped(g, s, a);
  }

  lemma ActPaysOnly(t: PokerTable, seat: nat, a: ChainAction, now: nat, r: PokerTable, i: nat)
    requires TableOk(t) && Legal(t, seat, a) && Leads(ActTurn(t, seat, a, now), r) && i < SEATS && t.seats[i].Some?
    ensures |r.seats| == SEATS && r.seats[i].Some? && r.seats[i].value.player == t.seats[i].value.player && r.seats[i].value.bond == t.seats[i].value.bond
    ensures var m := Move(GameOf(t), seat, MoveOf(t.hand.value.h, a).value).value;
      |m.stack| == SEATS && m.stack[i].Some? && r.seats[i].value.stack >= m.stack[i].value && (i != seat ==> m.stack[i].value == t.seats[i].value.stack)
  {
    hide Contenders, Move, AfterMove, BoardOk, PotOk, Sound, Becomes;
    PlayShaped(t);
    var m := MoveOf(t.hand.value.h, a).value;
    MoveShaped(GameOf(t), seat, m);
    MoveStreet(GameOf(t), seat, m);
    BoardFits(t);
    AfterMovePaysNobody(t.hand.value, Move(GameOf(t), seat, m).value);
    BecomesPaysNobody(ActTurn(t, seat, a, now), r, i);
    if i != seat { MoveOthers(GameOf(t), seat, m, i); }
  }

  lemma TickPaysNobody(t: PokerTable, now: nat, r: PokerTable, i: nat)
    requires TableOk(t) && MayTick(t, now) && Leads(TickTurn(t, now), r) && i < SEATS && t.seats[i].Some?
    ensures |r.seats| == SEATS && r.seats[i].Some? && r.seats[i].value.player == t.seats[i].value.player
    ensures r.seats[i].value.stack >= t.seats[i].value.stack
  {
    hide Contenders, BoardOk, PotOk, Sound, Becomes, Legal, Move, ActTurn;
    PlayShaped(t);
    ChargedSame(t);
    var p := t.hand.value;
    if p.h.deadline.None? {
      BecomesPaysNobody(TickTurn(t, now), r, i);
    } else {
      var seat := p.h.actionOn.value;
      TimeoutFoldsIff(Charged(t), seat);
      ActPaysOnly(Charged(t), seat, TimeoutAction(p.h, seat), now, r, i);
      assert GameOf(t).stack[i] == Some(t.seats[i].value.stack);
    }
  }

  lemma DealerPaysNobody(t: PokerTable, s: DealerStep, now: nat, r: PokerTable, i: nat)
    requires TableOk(t) && MayStep(t, s) && Leads(DealerTurn(t, s, now), r) && i < SEATS && t.seats[i].Some?
    ensures |r.seats| == SEATS && r.seats[i].Some? && r.seats[i].value.player == t.seats[i].value.player
    ensures r.seats[i].value.stack >= t.seats[i].value.stack
  {
    hide Contenders, BoardOk, PotOk, Sound, Becomes, BoardNext, AllShown;
    PlayShaped(t);
    if s.BoardCard? { BoardSound(t, s.card); }
    DealerSound(t, s, now);
    BecomesPaysNobody(DealerTurn(t, s, now), r, i);
    assert DealerTurn(t, s, now).o.g.stack == GameOf(t).stack;
  }

  lemma StartPaysBlinds(t: PokerTable, d: Dealing, now: nat, r: PokerTable, i: nat)
    requires TableOk(t) && MayStart(t, d) && Leads(StartTurn(t, d, now), r) && i < SEATS && t.seats[i].Some?
    ensures |r.seats| == SEATS && r.seats[i].Some? && r.seats[i].value.player == t.seats[i].value.player
    ensures r.seats[i].value.stack + Posts(Between(t), i) >= t.seats[i].value.stack
  {
    hide PotOk, BoardOk, Sound, Becomes, Posted, SbSeat, BbSeat, NextButton, FundedSeats, StartPlay, Posts;
    PostedSeats(Between(t));
    BecomesPaysNobody(StartTurn(t, d, now), r, i);
    assert Between(t).stack[i] == Some(t.seats[i].value.stack);
  }

  /** THEOREM.  Whatever happens at a table, a seat keeps its player until the hand is over, and its stack falls only by
      an action of that player or by the blind it posts. */
  lemma StackFallsOnlyByOwner(s: State, tx: Tx, r: PokerTable, i: nat)
    requires StateOk(s) && Accepts(s, tx) && IsTurn(tx) && Leads(TurnOf(s, tx), r) && i < SEATS && TableOf(s, tx).seats[i].Some?
    ensures var t := TableOf(s, tx);
      && |r.seats| == SEATS && r.seats[i].Some? && r.seats[i].value.player == t.seats[i].value.player
      && (r.seats[i].value.stack < t.seats[i].value.stack ==>
            || (tx.Act? && t.seats[i].value.player == tx.player)
            || (tx.Start? && t.seats[i].value.stack <= r.seats[i].value.stack + Posts(Between(t), i)))
  {
    hide TableOk, Sound, Becomes, Leads, MayStart, MayTick, MayStep, Legal, StartTurn, ActTurn, TickTurn, DealerTurn, Posts, Move, MoveOf, SeatOf, FundedSeats, Stacks;
    var t := s.tables[tx.table];
    match tx
    case Start(_, _, d, now) => StartPaysBlinds(t, d, now, r, i);
    case Act(_, _, a, now) => ActPaysOnly(t, t.hand.value.h.actionOn.value, a, now, r, i);
    case Tick(_, now) => TickPaysNobody(t, now, r, i);
    case Dealer(_, _, step, now) => DealerPaysNobody(t, step.value, now, r, i);
  }

  // ---------------------------------------------------------------- sitting and leaving

  /** THEOREM.  A player sits with a stack inside the buy-in bounds and the bond of the table, and pays both from the
      account; leaving gives back exactly what the seat then holds. */
  lemma SitThenLeave(s: State, id: nat, player: string, seat: nat, buyIn: nat, s1: State, s2: State)
    requires StateOk(s) && Accepts(s, Sit(id, player, seat, buyIn)) && Effect(s, Sit(id, player, seat, buyIn), s1) && StateOk(s1)
    ensures var t, p := s.tables[id], s1.tables[id].seats[seat].value;
      && s1.tables[id].seats[seat].Some? && p.player == player && p.bond == t.rules.playerBond
      && t.rules.minBuyIn <= p.stack <= t.rules.maxBuyIn
      && Balance(s1.accounts, player) + p.stack + p.bond == Balance(s.accounts, player)
    ensures SeatOf(s.tables[id].seats, player, 0).None? ==>
              && Accepts(s1, Leave(id, player))
              && (Effect(s1, Leave(id, player), s2) ==> s2.tables == s.tables && Balance(s2.accounts, player) == Balance(s.accounts, player))
  {
    hide PotOk, BoardOk;
    if SeatOf(s.tables[id].seats, player, 0).None? {
      FoundThere(s.tables[id].seats, player, seat, s1.tables[id].seats, 0);
      EmptySeatOut(s.tables[id], seat);
      assert s.tables[id].seats == s1.tables[id].seats[seat := None];
    }
  }

  lemma {:induction false} FoundThere(seats: seq<Option<Seat>>, player: string, k: nat, now: seq<Option<Seat>>, i: nat)
    requires k < |seats| == |now| && SeatOf(seats, player, i).None? && now == seats[k := now[k]] && now[k].Some? && now[k].value.player == player && i <= k
    ensures SeatOf(now, player, i) == Some(k)
    decreases |seats| - i
  {
    if i < k { FoundThere(seats, player, k, now, i + 1); }
  }

  /** THEOREM.  Between hands, at a table that asks for a bond, exactly the seats whose bond is used up are emptied, and
      their players get their stacks; during a hand nobody is ejected. */
  lemma EjectedIff(s: State, id: nat, r: PokerTable, i: nat)
    requires |r.seats| == SEATS && i < SEATS && r.seats[i].Some? && r.seats[i].value.player != ""
    ensures var s1 := Ejecting(s, id, r);
      && id in s1.tables && |s1.tables[id].seats| == SEATS
      && (s1.tables[id].seats[i].None? <==> r.hand.None? && r.rules.playerBond > 0 && r.seats[i].value.bond == 0)
      && (s1.tables[id].seats[i].None? ==> Balance(s1.accounts, r.seats[i].value.player) >= Balance(s.accounts, r.seats[i].value.player) + r.seats[i].value.stack)
      && (s1.tables[id].seats[i].Some? ==> s1.tables[id].seats[i] == r.seats[i])
  {
    hide PaidOut, OwedTo;
    PaidOutExactly(s.accounts, r.seats, r.seats[i].value.player, 0);
    if Bondless(r.seats[i]) { OwedAtLeast(r.seats, i, 0); }
  }

  lemma {:induction false} OwedAtLeast(seats: seq<Option<Seat>>, k: nat, i: nat)
    requires i <= k < |seats| && Bondless(seats[k])
    ensures OwedTo(seats, seats[k].value.player, i) >= seats[k].value.stack
    decreases |seats| - i
  {
    if i < k { OwedAtLeast(seats, k, i + 1); }
  }

  // ---------------------------------------------------------------- validators

  /** THEOREM.  A punished validator is jailed and counted, its bond falls by the slash and the treasury grows by as
      much; no other validator and no other account changes. */
  lemma PunishMeans(s: State, id: string, bps: nat)
    requires id != "" && id in s.validators
    ensures var r, v, x := Punish(s, id, bps), s.validators[id], SlashAmount(s.validators[id].bond, bps);
      && id in r.validators && r.validators[id].jailed && r.validators[id].slashes == v.slashes + 1
      && r.validators[id].bond + x == v.bond && r.validators[id].key == v.key
      && Balance(r.accounts, TREASURY) == Balance(s.accounts, TREASURY) + x
      && (forall a :: a != TREASURY ==> Balance(r.accounts, a) == Balance(s.accounts, a))
      && (forall j :: j != id ==> (j in r.validators <==> j in s.validators) && (j in s.validators ==> r.validators[j] == s.validators[j]))
  {
    hide SlashAmount;
  }

  ghost predicate Jailed(s: State, id: string) { id in s.validators && s.validators[id].jailed }

  lemma {:induction false} PunishedStayJailed(s: State, ids: seq<string>, bps: nat, id: string)
    requires Jailed(s, id)
    ensures Jailed(PunishEach(s, ids, bps), id)
    decreases |ids|
  {
    hide SlashAmount;
    if ids != [] { PunishedStayJailed(Punish(s, ids[0], bps), ids[1..], bps, id); }
  }

  lemma JailedStep(s: State, tx: Tx, s1: State, id: string)
    requires StateOk(s) && Accepts(s, tx) && Effect(s, tx, s1) && Jailed(s, id) && tx != Unjail(id)
    ensures Jailed(s1, id) && !(tx.Mint? && tx.signer == id)
  {
    hide StateOk, TableOk, MayStart, MayTick, MayStep, Legal, InHand, TurnOf, PunishEach, Leads, SeatOf, PaidOut;
    match tx
    case Dkg(ids) => PunishedStayJailed(s, ids, BPS_DKG, id);
    case Dealer(_, ids, _, _) => PunishedStayJailed(s, ids, BPS_HAND, id);
    case _ =>
  }

  /** THEOREM.  Over every run: a jailed validator stays jailed until its own unjailing, and mints nothing till then. */
  lemma {:induction false} JailedUntilUnjailed(ss: seq<State>, txs: seq<Tx>, oks: seq<bool>, id: string, i: nat, j: nat)
    requires Run(ss, txs, oks) && i <= j <= |txs| && Jailed(ss[i], id)
    requires forall k :: i <= k < j ==> txs[k] != Unjail(id)
    ensures Jailed(ss[j], id)
    ensures forall k :: i <= k < j && oks[k] ==> !(txs[k].Mint? && txs[k].signer == id)
    decreases j
  {
    hide StateOk, Accepts, Effect, Jailed;
    if i < j {
      var k := j - 1;
      JailedUntilUnjailed(ss, txs, oks, id, i, k);
      assert Delivered(ss[k], txs[k], oks[k], ss[k + 1]);
      if oks[k] { JailedStep(ss[k], txs[k], ss[k + 1], id); }
    }
  }

  // ---------------------------------------------------------------- the rules of a table

  ghost predicate Playable(r: Rules) { 0 < r.smallBlind <= r.bigBlind && 0 < r.minBuyIn <= r.maxBuyIn }

  ghost predicate AllGood(s: State) { forall id :: id in s.tables ==> Playable(s.tables[id].rules) }

  lemma PlayedRules(s: State, id: nat, u: Turn, s1: State)
    requires StateOk(s) && id in s.tables && Sound(u) && Plays(s, id, u, s1) && u.table.rules == s.tables[id].rules
    ensures s1.tables.Keys == s.tables.Keys && forall j :: j in s.tables ==> s1.tables[j].rules == s.tables[j].rules
  {
    hide Sound, Becomes, TableOk, PaidOut, Worth, Lost;
    var r :| Leads(u, r) && s1 == Ejecting(s, id, r);
    BecomesKeeps(u, r);
  }

  lemma TurnRules(s: State, tx: Tx)
    requires StateOk(s) && Accepts(s, tx) && IsTurn(tx)
    ensures TurnOf(s, tx).table.rules == s.tables[tx.table].rules
  {
    hide TableOk, MayStart, Legal, Sound, NextOf, BoardNext, StartPlay, StartNext, Posted, NextButton, AllShown;
    var t := s.tables[tx.table];
    if tx.Tick? { TickRules(t, tx.now); }
    if tx.Dealer? { DealerSound(t, tx.step.value, tx.now); }
  }

  lemma TickRules(t: PokerTable, now: nat)
    requires TableOk(t) && MayTick(t, now)
    ensures TickTurn(t, now).table.rules == t.rules
  {
    hide TableOk, Legal, NextOf;
    TickSound(t, now);
    ChargedSame(t);
  }

  /** THEOREM.  No transaction changes the rules of a table, and every table that is ever opened has a positive small
      blind, a big blind at least as large, and an ordered buy-in range. */
  lemma RulesStay(s: State, tx: Tx, s1: State)
    requires StateOk(s) && Accepts(s, tx) && Effect(s, tx, s1)
    ensures forall id :: id in s.tables ==> id in s1.tables && s1.tables[id].rules == s.tables[id].rules
    ensures AllGood(s) ==> AllGood(s1)
  {
    hide TableOk, MayStart, MayTick, MayStep, Legal, InHand, TurnOf, PunishEach, Plays, SeatOf;
    if IsTurn(tx) {
      TurnIsSound(s, tx);
      TurnRules(s, tx);
      if tx.Dealer? { PunishEachKeeps(s, tx.punished, BPS_HAND); }
      PlayedRules(if tx.Dealer? then PunishEach(s, tx.punished, BPS_HAND) else s, tx.table, TurnOf(s, tx), s1);
    } else if tx.Dkg? {
      PunishEachKeeps(s, tx.punished, BPS_DKG);
    } else if tx.Dealer? {
      PunishEachKeeps(s, tx.punished, BPS_HAND);
    } else if tx.CreateTable? {
      assert s.nextTable !in s.tables;
    }
  }

  /** The two penalties: half of the bond for the key generation, a tenth for a hand, rounded up. */
  lemma PenaltySizes(bond: nat)
    ensures SlashAmount(bond, BPS_DKG) == (bond + 1) / 2
    ensures SlashAmount(bond, BPS_HAND) == (bond + 9) / 10
  {
  }

  // ---------------------------------------------------------------- the action clock

  /** THEOREM.  Whenever a turn leaves a seat to act, the seat has the whole action timeout, thirty seconds unless the
      table says otherwise; only a hand opened by a dealer timeout starts without a clock. */
  lemma ActionClock(s: State, tx: Tx, r: PokerTable)
    requires StateOk(s) && Accepts(s, tx) && IsTurn(tx) && Leads(TurnOf(s, tx), r)
    requires r.hand.Some? && r.hand.value.stage == Playing && r.hand.value.h.actionOn.Some?
    ensures var t := if r.rules.actionTimeout == 0 then 30 else r.rules.actionTimeout;
      r.hand.value.h.deadline == if tx.Dealer? && tx.step.value == OpenBetting(true) then None else Some(tx.now + t)
  {
    hide TableOk, Sound, MayStart, MayTick, MayStep, Legal, NextOf, BoardNext, AllShown, StartPlay, StartNext, Posted, NextButton, Settled;
    TurnClock(s, tx);
    BecomesClock(TurnOf(s, tx), r);
  }

  lemma BecomesClock(u: Turn, r: PokerTable)
    requires Sound(u) && Becomes(u, r) && r.hand.Some? && r.hand.value.stage == Playing && r.hand.value.h.actionOn.Some?
    ensures r.rules == u.table.rules && r.hand.value.h.deadline == if u.clock.Some? then Some(u.clock.value + ActionTimeout(r.rules)) else None
  {
    hide Sound, Settled;
  }

  lemma TurnClock(s: State, tx: Tx)
    requires StateOk(s) && Accepts(s, tx) && IsTurn(tx)
    ensures TurnOf(s, tx).clock == if tx.Dealer? && tx.step.value == OpenBetting(true) then None else Some(tx.now)
  {
    hide TableOk, MayStart, Legal, NextOf, BoardNext, AllShown, StartPlay, StartNext, Posted, NextButton;
    if tx.Tick? {
      var t := s.tables[tx.table];
      TickClock(t, tx.now);
    }
  }

  lemma TickClock(t: PokerTable, now: nat)
    requires TableOk(t) && MayTick(t, now)
    ensures TickTurn(t, now).clock == Some(now)
  {
    hide TableOk, Legal, NextOf;
    TickSound(t, now);
  }
}
