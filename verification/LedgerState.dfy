/** The chain as one ledger: what every transaction does to accounts, tables and validator bonds, and what that
    means for the number of chips. */
module LedgerState {
  import opened Outcome
  import opened Betting
  import opened LedgerSums
  import opened ChainTable
  import opened ChainStart
  import opened ChainTurn
  import opened ChainPlay

  const TREASURY := "ocp/treasury"

  const BPS_DKG := 5000

  const BPS_HAND := 1000

  datatype Validator = Validator(key: string, bond: nat, jailed: bool, slashes: nat)

  datatype State = State(accounts: map<string, nat>, tables: map<nat, PokerTable>, nextTable: nat, validators: map<string, Validator>)

  // ---------------------------------------------------------------- every chip on the chain

  ghost function TableWorths(tables: map<nat, PokerTable>): map<nat, nat> {
    map id | id in tables :: Worth(tables[id])
  }

  ghost function Bonds(vs: map<string, Validator>): map<string, nat> {
    map id | id in vs :: vs[id].bond
  }

  /** Accounts, tables and validator bonds. */
  ghost function Total(s: State): nat {
    SumMap(s.accounts) + SumMap(TableWorths(s.tables)) + SumMap(Bonds(s.validators))
  }

  ghost predicate StateOk(s: State) {
    forall id :: id in s.tables ==> id < s.nextTable && TableOk(s.tables[id])
  }

  function Balance(accounts: map<string, nat>, a: string): nat {
    if a in accounts then accounts[a] else 0
  }

  function Credited(accounts: map<string, nat>, a: string, x: nat): map<string, nat> {
    accounts[a := Balance(accounts, a) + x]
  }

  function Debited(accounts: map<string, nat>, a: string, x: nat): map<string, nat>
    requires x <= Balance(accounts, a)
  {
    accounts[a := Balance(accounts, a) - x]
  }

  lemma CreditSum(accounts: map<string, nat>, a: string, x: nat)
    ensures SumMap(Credited(accounts, a, x)) == SumMap(accounts) + x
  {
    SumSet(accounts, a, Balance(accounts, a) + x);
  }

  lemma DebitSum(accounts: map<string, nat>, a: string, x: nat)
    requires x <= Balance(accounts, a)
    ensures SumMap(Debited(accounts, a, x)) + x == SumMap(accounts)
  {
    SumSet(accounts, a, Balance(accounts, a) - x);
  }

  lemma BalanceInSum(accounts: map<string, nat>, a: string)
    ensures Balance(accounts, a) <= SumMap(accounts)
  {
    if a in accounts { SumRemove(accounts, a); }
  }

  lemma TableSum(tables: map<nat, PokerTable>, id: nat, t: PokerTable)
    ensures SumMap(TableWorths(tables[id := t])) + (if id in tables then Worth(tables[id]) else 0) == SumMap(TableWorths(tables)) + Worth(t)
  {
    hide Worth;
    SumSet(TableWorths(tables), id, Worth(t));
    assert TableWorths(tables[id := t]) == TableWorths(tables)[id := Worth(t)];
  }

  lemma WorthInSum(tables: map<nat, PokerTable>, id: nat)
    requires id in tables
    ensures Worth(tables[id]) <= SumMap(TableWorths(tables))
  {
    hide Worth;
    SumRemove(TableWorths(tables), id);
  }

  lemma BondSumSet(vs: map<string, Validator>, id: string, v: Validator)
    ensures SumMap(Bonds(vs[id := v])) + (if id in vs then vs[id].bond else 0) == SumMap(Bonds(vs)) + v.bond
  {
    SumSet(Bonds(vs), id, v.bond);
    assert Bonds(vs[id := v]) == Bonds(vs)[id := v.bond];
  }

  lemma BondInSum(vs: map<string, Validator>, id: string)
    requires id in vs
    ensures vs[id].bond <= SumMap(Bonds(vs))
  {
    SumRemove(Bonds(vs), id);
  }

  // ---------------------------------------------------------------- slashing

  /** `slashAmount`: the share of the bond in basis points, rounded up, and never more than the bond. */
  function SlashAmount(bond: nat, bps: nat): (r: nat)
    ensures r <= bond
    ensures bps <= 10000 ==> bond * bps <= r * 10000 < bond * bps + 10000
    ensures r == 0 <==> bond == 0 || bps == 0
  {
    if bond == 0 || bps == 0 then 0
    else
      var q := bond * bps / 10000 + (if bond * bps % 10000 != 0 then 1 else 0);
      SlashBounds(bond, bps);
      if q > bond then bond else q
  }

  lemma SlashBounds(bond: nat, bps: nat)
    requires bond > 0 && bps > 0
    ensures var q := bond * bps / 10000 + (if bond * bps % 10000 != 0 then 1 else 0);
      q > 0 && bond * bps <= q * 10000 < bond * bps + 10000 && (bps <= 10000 ==> q <= bond)
  {
    var p := bond * bps;
    Positive(bond, bps);
    assert p == (p / 10000) * 10000 + p % 10000;
    if bps <= 10000 {
      Scaled(bond, bps);
    }
  }

  lemma Positive(a: nat, b: nat)
    requires a > 0 && b > 0
    ensures a * b > 0
  {
  }

  lemma Scaled(bond: nat, bps: nat)
    requires bps <= 10000
    ensures bond * bps <= bond * 10000
  {
  }

  /** `jailAndSlashValidator`: the treasury receives exactly what the bond loses. */
  function Punish(s: State, id: string, bps: nat): State {
    if id == "" || id !in s.validators then s
    else
      var v := s.validators[id];
      var x := SlashAmount(v.bond, bps);
      s.(accounts := if x > 0 then Credited(s.accounts, TREASURY, x) else s.accounts,
         validators := s.validators[id := v.(bond := v.bond - x, jailed := true, slashes := v.slashes + 1)])
  }

  function PunishEach(s: State, ids: seq<string>, bps: nat): State
    decreases |ids|
  {
    if ids == [] then s else PunishEach(Punish(s, ids[0], bps), ids[1..], bps)
  }

  lemma PunishKeeps(s: State, id: string, bps: nat)
    ensures var r := Punish(s, id, bps);
      Total(r) == Total(s) && r.tables == s.tables && r.nextTable == s.nextTable
  {
    hide SumMap, SlashAmount, TableWorths, Bonds;
    if id in s.validators {
      var x := SlashAmount(s.validators[id].bond, bps);
      CreditSum(s.accounts, TREASURY, x);
      BondSumSet(s.validators, id, s.validators[id].(bond := s.validators[id].bond - x, jailed := true, slashes := s.validators[id].slashes + 1));
    }
  }

  lemma {:induction false} PunishEachKeeps(s: State, ids: seq<string>, bps: nat)
    ensures var r := PunishEach(s, ids, bps);
      Total(r) == Total(s) && r.tables == s.tables && r.nextTable == s.nextTable
    decreases |ids|
  {
    hide Total, Punish;
    if ids != [] {
      PunishKeeps(s, ids[0], bps);
      PunishEachKeeps(Punish(s, ids[0], bps), ids[1..], bps);
    }
  }

  // ---------------------------------------------------------------- ejection

  /** A seat that has used up its bond. */
  predicate Bondless(s: Option<Seat>) { s.Some? && s.value.player != "" && s.value.bond == 0 }

  function Kept(seats: seq<Option<Seat>>): (r: seq<Option<Seat>>)
    ensures |r| == |seats| && forall i :: 0 <= i < |seats| ==> r[i] == if Bondless(seats[i]) then None else seats[i]
  {
    seq(|seats|, i requires 0 <= i < |seats| => if Bondless(seats[i]) then None else seats[i])
  }

  /** Every seat without a bond, from `i` on, gets its stack back. */
  function PaidOut(accounts: map<string, nat>, seats: seq<Option<Seat>>, i: nat): map<string, nat>
    decreases |seats| - i
  {
    if i >= |seats| then accounts
    else PaidOut(if Bondless(seats[i]) then Credited(accounts, seats[i].value.player, seats[i].value.stack) else accounts, seats, i + 1)
  }

  /** The stacks of the seats without a bond that `a` holds. */
  ghost function OwedTo(seats: seq<Option<Seat>>, a: string, i: nat): nat
    decreases |seats| - i
  {
    if i >= |seats| then 0
    else (if Bondless(seats[i]) && seats[i].value.player == a then seats[i].value.stack else 0) + OwedTo(seats, a, i + 1)
  }

  /** THEOREM.  An ejection pays every player exactly the stacks of their ejected seats, and nobody else anything. */
  lemma {:induction false} PaidOutExactly(accounts: map<string, nat>, seats: seq<Option<Seat>>, a: string, i: nat)
    ensures Balance(PaidOut(accounts, seats, i), a) == Balance(accounts, a) + OwedTo(seats, a, i)
    decreases |seats| - i
  {
    if i < |seats| {
      var next := if Bondless(seats[i]) then Credited(accounts, seats[i].value.player, seats[i].value.stack) else accounts;
      PaidOutExactly(next, seats, a, i + 1);
    }
  }

  lemma {:induction false} PaidOutSum(accounts: map<string, nat>, seats: seq<Option<Seat>>, i: nat)
    ensures SumMap(PaidOut(accounts, seats, i)) + SeatsWorth(Kept(seats), i) == SumMap(accounts) + SeatsWorth(seats, i)
    decreases |seats| - i
  {
    if i < |seats| {
      var next := if Bondless(seats[i]) then Credited(accounts, seats[i].value.player, seats[i].value.stack) else accounts;
      if Bondless(seats[i]) { CreditSum(accounts, seats[i].value.player, seats[i].value.stack); }
      PaidOutSum(next, seats, i + 1);
    }
  }

  /** Table `id` becomes `r`; between hands the seats without a bond are ejected (`ejectBondlessSeats`). */
  function Ejecting(s: State, id: nat, r: PokerTable): State {
    if r.hand.Some? || r.rules.playerBond == 0 then s.(tables := s.tables[id := r])
    else s.(accounts := PaidOut(s.accounts, r.seats, 0), tables := s.tables[id := r.(seats := Kept(r.seats))])
  }

  lemma EjectingKeeps(s: State, id: nat, r: PokerTable)
    requires StateOk(s) && id in s.tables && TableOk(r)
    ensures StateOk(Ejecting(s, id, r)) && Total(Ejecting(s, id, r)) + Worth(s.tables[id]) == Total(s) + Worth(r)
  {
    hide SumMap, SeatsWorth, TableWorths, Bonds, PotOk, BoardOk, PaidOut;
    var out := r.(seats := Kept(r.seats));
    TableSum(s.tables, id, r);
    TableSum(s.tables, id, out);
    PaidOutSum(s.accounts, r.seats, 0);
  }

  // ---------------------------------------------------------------- transactions

  datatype Tx =
    | Mint(signer: string, to: string, amount: nat, allowed: bool)
    | Send(from: string, to: string, amount: nat)
    | CreateTable(creator: string, rules: Rules)
    | Sit(table: nat, player: string, seat: nat, buyIn: nat)
    | Leave(table: nat, player: string)
    | Start(table: nat, player: string, dealing: Dealing, now: nat)
    | Act(table: nat, player: string, action: ChainAction, now: nat)
    | Tick(table: nat, now: nat)
    | Register(id: string, key: string)
    | BondChips(id: string, amount: nat)
    | Unbond(id: string, amount: nat)
    | Unjail(id: string)
    | Dkg(punished: seq<string>)
    | Dealer(table: nat, punished: seq<string>, step: Option<DealerStep>, now: nat)

  predicate GoodRules(r: Rules) {
    0 < r.smallBlind <= r.bigBlind && 0 < r.minBuyIn <= r.maxBuyIn && r.actionTimeout <= I64_MAX
  }

  /** The first seat of a player from `i` on (`seatOfPlayer`). */
  ghost function SeatOf(seats: seq<Option<Seat>>, player: string, i: nat): (r: Option<nat>)
    ensures r.Some? ==> r.value < |seats| && seats[r.value].Some? && seats[r.value].value.player == player
    decreases |seats| - i
  {
    if i >= |seats| then None
    else if seats[i].Some? && seats[i].value.player == player then Some(i)
    else SeatOf(seats, player, i + 1)
  }

  ghost predicate InHand(t: PokerTable, seat: nat)
    requires TableOk(t) && seat < SEATS
  {
    t.hand.Some? && (PlayShaped(t); t.hand.value.h.inHand[seat])
  }

  /** The message is valid in this state; overflow apart. */
  ghost predicate Accepts(s: State, tx: Tx)
    requires StateOk(s)
  {
    match tx
    case Mint(signer, to, amount, allowed) =>
      allowed && to != "" && amount > 0 && signer in s.validators && !s.validators[signer].jailed
    case Send(from, to, amount) => from != "" && to != "" && 0 < amount <= Balance(s.accounts, from)
    case CreateTable(creator, r) => creator != "" && GoodRules(r) && s.nextTable < U64_MAX
    case Sit(id, player, seat, buyIn) =>
      && player != "" && id in s.tables && seat < SEATS && s.tables[id].seats[seat].None?
      && s.tables[id].rules.minBuyIn <= buyIn <= s.tables[id].rules.maxBuyIn
      && buyIn + s.tables[id].rules.playerBond <= Balance(s.accounts, player)
    case Leave(id, player) =>
      && player != "" && id in s.tables && SeatOf(s.tables[id].seats, player, 0).Some?
      && !InHand(s.tables[id], SeatOf(s.tables[id].seats, player, 0).value)
    case Start(id, player, d, _) =>
      player != "" && id in s.tables && SeatOf(s.tables[id].seats, player, 0).Some? && MayStart(s.tables[id], d)
    case Act(id, player, a, _) =>
      && player != "" && id in s.tables && Waiting(s.tables[id])
      && var seat := s.tables[id].hand.value.h.actionOn.value;
      s.tables[id].seats[seat].value.player == player && Legal(s.tables[id], seat, a)
    case Tick(id, now) => id in s.tables && MayTick(s.tables[id], now)
    case Register(id, key) => id != "" && |key| == 32 && (id in s.validators ==> s.validators[id].key == key)
    case BondChips(id, amount) => id != "" && id in s.validators && 0 < amount <= Balance(s.accounts, id)
    case Unbond(id, amount) => id != "" && id in s.validators && 0 < amount <= s.validators[id].bond
    case Unjail(id) => id != "" && id in s.validators && s.validators[id].jailed
    case Dkg(_) => true
    case Dealer(id, _, step, _) => id in s.tables && (step.Some? ==> MayStep(s.tables[id], step.value))
  }

  predicate IsTurn(tx: Tx) { tx.Start? || tx.Act? || tx.Tick? || (tx.Dealer? && tx.step.Some?) }

  /** The table a turn is taken at. */
  ghost function TableOf(s: State, tx: Tx): (t: PokerTable)
    requires StateOk(s) && Accepts(s, tx) && IsTurn(tx)
    ensures TableOk(t) && |t.seats| == SEATS
  {
    s.tables[tx.table]
  }

  /** The turn of a table that a transaction is. */
  ghost function TurnOf(s: State, tx: Tx): Turn
    requires StateOk(s) && Accepts(s, tx) && IsTurn(tx)
  {
    var t := s.tables[tx.table];
    match tx
    case Start(_, _, d, now) => StartTurn(t, d, now)
    case Act(_, _, a, now) => ActTurn(t, t.hand.value.h.actionOn.value, a, now)
    case Tick(_, now) => TickTurn(t, now)
    case Dealer(_, _, step, now) => DealerTurn(t, step.value, now)
  }

  ghost predicate Plays(s0: State, id: nat, u: Turn, s1: State) {
    exists r :: Leads(u, r) && s1 == Ejecting(s0, id, r)
  }

  function NewTable(r: Rules): PokerTable { PokerTable(r, seq(SEATS, _ => None), None, None) }

  /** The state after an accepted transaction. */
  ghost predicate Effect(s: State, tx: Tx, s1: State)
    requires StateOk(s) && Accepts(s, tx)
  {
    match tx
    case Mint(_, to, amount, _) => s1 == s.(accounts := Credited(s.accounts, to, amount))
    case Send(from, to, amount) => s1 == s.(accounts := Credited(Debited(s.accounts, from, amount), to, amount))
    case CreateTable(_, r) => s1 == s.(tables := s.tables[s.nextTable := NewTable(r)], nextTable := s.nextTable + 1)
    case Sit(id, player, seat, buyIn) =>
      var t := s.tables[id];
      s1 == s.(accounts := Debited(s.accounts, player, buyIn + t.rules.playerBond),
               tables := s.tables[id := t.(seats := t.seats[seat := Some(Seat(player, buyIn, t.rules.playerBond))])])
    case Leave(id, player) =>
      var t := s.tables[id];
      var k := SeatOf(t.seats, player, 0).value;
      s1 == s.(accounts := Credited(s.accounts, player, t.seats[k].value.stack + t.seats[k].value.bond),
               tables := s.tables[id := t.(seats := t.seats[k := None])])
    case Start(id, _, _, _) => Plays(s, id, TurnOf(s, tx), s1)
    case Act(id, _, _, _) => Plays(s, id, TurnOf(s, tx), s1)
    case Tick(id, _) => Plays(s, id, TurnOf(s, tx), s1)
    case Register(id, key) => s1 == if id in s.validators then s else s.(validators := s.validators[id := Validator(key, 0, false, 0)])
    case BondChips(id, amount) =>
      s1 == s.(accounts := Debited(s.accounts, id, amount),
               validators := s.validators[id := s.validators[id].(bond := s.validators[id].bond + amount)])
    case Unbond(id, amount) =>
      s1 == s.(accounts := Credited(s.accounts, id, amount),
               validators := s.validators[id := s.validators[id].(bond := s.validators[id].bond - amount)])
    case Unjail(id) => s1 == s.(validators := s.validators[id := s.validators[id].(jailed := false)])
    case Dkg(ids) => s1 == PunishEach(s, ids, BPS_DKG)
    case Dealer(id, ids, step, _) =>
      var m := PunishEach(s, ids, BPS_HAND);
      if step.None? then s1 == m else Plays(m, id, TurnOf(s, tx), s1)
  }

  // ---------------------------------------------------------------- what a transaction creates and destroys

  function Minted(tx: Tx): nat { if tx.Mint? then tx.amount else 0 }

  /** The bond chips of a timed-out seat. */
  ghost function Burned(s: State, tx: Tx): nat
    requires StateOk(s) && Accepts(s, tx)
  {
    if tx.Tick? then Cut(s.tables[tx.table]) else 0
  }

  /** The pots of a showdown that nobody may win. */
  ghost function Dropped(s: State, tx: Tx): nat
    requires StateOk(s) && Accepts(s, tx)
  {
    if IsTurn(tx) then TurnIsSound(s, tx); Lost(TurnOf(s, tx)) else 0
  }

  lemma TurnIsSound(s: State, tx: Tx)
    requires StateOk(s) && Accepts(s, tx) && IsTurn(tx)
    ensures Sound(TurnOf(s, tx)) && Worth(TurnOf(s, tx).table) + Burned(s, tx) == Worth(TableOf(s, tx))
  {
    hide Worth, Sound, TableOk, MayStart, MayTick, MayStep, Legal, Cut, StartTurn, NextOf, TickTurn, DealerTurn, FairCut, SeatOf, Lost;
    var t := s.tables[tx.table];
    match tx
    case Start(_, _, d, now) => StartSound(t, d, now);
    case Act(_, _, a, now) => ActSound(t, t.hand.value.h.actionOn.value, a, now);
    case Tick(_, now) => TickSound(t, now);
    case Dealer(_, _, step, now) => DealerSound(t, step.value, now);
  }

  lemma PlaysKeeps(s0: State, id: nat, u: Turn, s1: State)
    requires StateOk(s0) && id in s0.tables && Sound(u) && Plays(s0, id, u, s1)
    ensures StateOk(s1) && Total(s1) + Worth(s0.tables[id]) + Lost(u) == Total(s0) + Worth(u.table)
  {
    hide Worth, Sound, TableOk, Becomes, Lost, Ejecting, Total;
    var r :| Leads(u, r) && s1 == Ejecting(s0, id, r);
    BecomesKeeps(u, r);
    EjectingKeeps(s0, id, r);
  }

  lemma {:induction false} NoSeats(seats: seq<Option<Seat>>, i: nat)
    requires forall k :: 0 <= k < |seats| ==> seats[k].None?
    ensures SeatsWorth(seats, i) == 0
    decreases |seats| - i
  {
    if i < |seats| { NoSeats(seats, i + 1); }
  }

  lemma OpenKeeps(s: State, creator: string, rules: Rules, s1: State)
    requires StateOk(s) && Accepts(s, CreateTable(creator, rules)) && Effect(s, CreateTable(creator, rules), s1)
    ensures StateOk(s1) && Total(s1) == Total(s)
  {
    hide SumMap, TableWorths, Bonds, PotOk, BoardOk, SeatsWorth;
    NoSeats(NewTable(rules).seats, 0);
    TableSum(s.tables, s.nextTable, NewTable(rules));
  }

  lemma SitKeeps(s: State, id: nat, player: string, seat: nat, buyIn: nat, s1: State)
    requires StateOk(s) && Accepts(s, Sit(id, player, seat, buyIn)) && Effect(s, Sit(id, player, seat, buyIn), s1)
    ensures StateOk(s1) && Total(s1) == Total(s)
  {
    hide SumMap, TableWorths, Bonds, PotOk, BoardOk, SeatsWorth;
    var t, t1 := s.tables[id], s1.tables[id];
    DebitSum(s.accounts, player, buyIn + t.rules.playerBond);
    SeatsUpdate(t.seats, seat, t1.seats[seat], 0);
    EmptySeatOut(t, seat);
    SeatedOk(t, t1, seat);
    TableSum(s.tables, id, t1);
  }

  lemma LeaveKeeps(s: State, id: nat, player: string, s1: State)
    requires StateOk(s) && Accepts(s, Leave(id, player)) && Effect(s, Leave(id, player), s1)
    ensures StateOk(s1) && Total(s1) == Total(s)
  {
    hide SumMap, TableWorths, Bonds, PotOk, BoardOk, SeatsWorth, SeatOf, InHand;
    var t, t1 := s.tables[id], s1.tables[id];
    var k := SeatOf(t.seats, player, 0).value;
    CreditSum(s.accounts, player, t.seats[k].value.stack + t.seats[k].value.bond);
    SeatsUpdate(t.seats, k, None, 0);
    SeatedOk(t, t1, k);
    TableSum(s.tables, id, t1);
  }

  lemma EmptySeatOut(t: PokerTable, k: nat)
    requires TableOk(t) && k < SEATS && t.seats[k].None?
    ensures !InHand(t, k)
  {
    hide BoardOk, Contenders;
  }

  /** A seat outside the hand may change hands. */
  lemma SeatedOk(t: PokerTable, t1: PokerTable, k: nat)
    requires TableOk(t) && k < SEATS && t1 == t.(seats := t1.seats) && |t1.seats| == SEATS
    requires forall i :: 0 <= i < SEATS && i != k ==> t1.seats[i] == t.seats[i]
    requires !InHand(t, k)
    ensures TableOk(t1)
  {
    hide BoardOk, Contenders;
  }

  /** THEOREM.  Every accepted transaction keeps the state consistent and every chip of the chain, up to exactly what
      it mints, the bond cut of a timeout, and the pots of a showdown that nobody may win. */
  lemma EffectConserves(s: State, tx: Tx, s1: State)
    requires StateOk(s) && Accepts(s, tx) && Effect(s, tx, s1)
    ensures StateOk(s1) && Total(s1) + Burned(s, tx) + Dropped(s, tx) == Total(s) + Minted(tx)
    ensures !tx.Tick? ==> Burned(s, tx) == 0
    ensures tx.Tick? ==>
              var t := s.tables[tx.table];
              var h := t.hand.value.h;
              if h.deadline.None? then Burned(s, tx) == 0 else FairCut(t.rules, t.seats[h.actionOn.value].value.bond, Burned(s, tx))
  {
    hide SumMap, TableWorths, Bonds, TableOk, Worth, Lost, Cut, MayStart, MayTick, MayStep, Legal, InHand, Plays, TurnOf, PunishEach;
    if IsTurn(tx) {
      TurnIsSound(s, tx);
      var m := if tx.Dealer? then PunishEach(s, tx.punished, BPS_HAND) else s;
      if tx.Dealer? { PunishEachKeeps(s, tx.punished, BPS_HAND); }
      PlaysKeeps(m, tx.table, TurnOf(s, tx), s1);
      if tx.Tick? { TickSound(s.tables[tx.table], tx.now); }
    } else if tx.Sit? {
      SitKeeps(s, tx.table, tx.player, tx.seat, tx.buyIn, s1);
    } else if tx.Leave? {
      LeaveKeeps(s, tx.table, tx.player, s1);
    } else if tx.CreateTable? {
      OpenKeeps(s, tx.creator, tx.rules, s1);
    } else {
      PlainKeeps(s, tx, s1);
    }
  }

  lemma PlainKeeps(s: State, tx: Tx, s1: State)
    requires StateOk(s) && !IsTurn(tx) && !tx.Sit? && !tx.Leave? && !tx.CreateTable? && Accepts(s, tx) && Effect(s, tx, s1)
    ensures StateOk(s1) && Total(s1) == Total(s) + Minted(tx)
  {
    hide SumMap, TableWorths, Bonds, TableOk, PunishEach;
    match tx
    case Mint(_, to, amount, _) => CreditSum(s.accounts, to, amount);
    case Send(from, to, amount) =>
      DebitSum(s.accounts, from, amount);
      CreditSum(Debited(s.accounts, from, amount), to, amount);
    case Register(id, key) => BondSumSet(s.validators, id, Validator(key, 0, false, 0));
    case BondChips(id, amount) =>
      DebitSum(s.accounts, id, amount);
      BondSumSet(s.validators, id, s1.validators[id]);
    case Unbond(id, amount) =>
      CreditSum(s.accounts, id, amount);
      BondSumSet(s.validators, id, s1.validators[id]);
    case Unjail(id) => BondSumSet(s.validators, id, s1.validators[id]);
    case Dkg(ids) => PunishEachKeeps(s, ids, BPS_DKG);
    case Dealer(_, ids, _, _) => PunishEachKeeps(s, ids, BPS_HAND);
  }

  // ---------------------------------------------------------------- runs

  /** One delivery: an accepted transaction takes effect, any other changes nothing. */
  ghost predicate Delivered(s: State, tx: Tx, ok: bool, s1: State) {
    if ok then StateOk(s) && Accepts(s, tx) && Effect(s, tx, s1) else s1 == s
  }

  ghost predicate Run(ss: seq<State>, txs: seq<Tx>, oks: seq<bool>) {
    && |ss| == |txs| + 1 && |oks| == |txs| && StateOk(ss[0])
    && forall i :: 0 <= i < |txs| ==> Delivered(ss[i], txs[i], oks[i], ss[i + 1])
  }

  /** What one delivery adds to (positive) or takes from (negative) the chips of the chain. */
  ghost function Change(s: State, tx: Tx, ok: bool): int
    requires ok ==> StateOk(s) && Accepts(s, tx)
  {
    if ok then Minted(tx) - Burned(s, tx) - Dropped(s, tx) else 0
  }

  ghost function Changes(ss: seq<State>, txs: seq<Tx>, oks: seq<bool>, n: nat): int
    requires Run(ss, txs, oks) && n <= |txs|
  {
    hide StateOk, Accepts, Effect;
    if n == 0 then 0
    else
      var k := n - 1;
      assert Delivered(ss[k], txs[k], oks[k], ss[k + 1]);
      Changes(ss, txs, oks, k) + Change(ss[k], txs[k], oks[k])
  }

  /** THEOREM.  Over every run of the chain: what it holds is what it held at the start plus all that was minted,
      minus exactly the bond cuts of timeouts and the pots nobody could win. */
  lemma {:induction false} RunConserves(ss: seq<State>, txs: seq<Tx>, oks: seq<bool>, n: nat)
    requires Run(ss, txs, oks) && n <= |txs|
    ensures StateOk(ss[n]) && Total(ss[n]) == Total(ss[0]) + Changes(ss, txs, oks, n)
  {
    hide Total, StateOk, Effect, Accepts, Burned, Dropped;
    if n > 0 {
      RunConserves(ss, txs, oks, n - 1);
      assert Delivered(ss[n - 1], txs[n - 1], oks[n - 1], ss[n - 1 + 1]);
      if oks[n - 1] {
        EffectConserves(ss[n - 1], txs[n - 1], ss[n]);
      }
    }
  }
}
