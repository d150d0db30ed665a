/** Delivery of transactions (apps/chain/internal/app/app.go): handlers that update the state in place, and the
    rollback of those that fail. */
module LedgerChain {
  import opened Outcome
  import opened Betting
  import opened LedgerSums
  import opened ChainTable
  import opened ChainStart
  import opened ChainTurn
  import opened ChainPlay
  import opened LedgerState

  /** All chips of the chain fit into 64 bits, and the deadline the transaction may set into 63. */
  ghost predicate Spacious(s: State, tx: Tx) {
    && Total(s) + Minted(tx) <= U64_MAX
    && (IsTurn(tx) && tx.table in s.tables ==> tx.now + ActionTimeout(s.tables[tx.table].rules) <= I64_MAX)
  }

  /** The parts of the chain against the whole. */
  lemma PartsFit(s: State, a: string, id: nat)
    ensures Balance(s.accounts, a) <= Total(s)
    ensures id in s.tables ==> Balance(s.accounts, a) + Worth(s.tables[id]) <= Total(s)
    ensures forall v :: v in s.validators ==> Balance(s.accounts, a) + s.validators[v].bond <= Total(s)
  {
    hide Worth, SumMap, TableWorths, Bonds;
    BalanceInSum(s.accounts, a);
    if id in s.tables { WorthInSum(s.tables, id); }
    forall v | v in s.validators
      ensures s.validators[v].bond <= SumMap(Bonds(s.validators))
    {
      BondInSum(s.validators, v);
    }
  }

  class Chain {
    var accounts: map<string, nat>
    var tables: map<nat, PokerTable>
    var nextTable: nat
    var validators: map<string, Validator>

    ghost function View(): State
      reads this
    {
      State(accounts, tables, nextTable, validators)
    }

    /** `Credit` */
    method Credit(a: string, x: nat) returns (ok: bool)
      modifies this`accounts
      ensures ok <==> Balance(old(accounts), a) + x <= U64_MAX
      ensures accounts == if ok then Credited(old(accounts), a, x) else old(accounts)
    {
      var b := Balance(accounts, a);
      if b + x > U64_MAX {
        return false;
      }
      accounts := accounts[a := b + x];
      ok := true;
    }

    /** `Debit` */
    method Debit(a: string, x: nat) returns (ok: bool)
      modifies this`accounts
      ensures ok <==> x <= Balance(old(accounts), a)
      ensures accounts == if ok then Debited(old(accounts), a, x) else old(accounts)
    {
      var b := Balance(accounts, a);
      if b < x {
        return false;
      }
      accounts := accounts[a := b - x];
      ok := true;
    }

    /** `bank/mint` and `bank/send` */
    method Bank(tx: Tx) returns (ok: bool)
      requires StateOk(View()) && (tx.Mint? || tx.Send?)
      modifies this`accounts
      ensures ok ==> Accepts(old(View()), tx) && Effect(old(View()), tx, View())
      ensures Accepts(old(View()), tx) && Spacious(old(View()), tx) ==> ok
    {
      hide SumMap, TableWorths, Bonds, StateOk;
      PartsFit(View(), tx.to, 0);
      if tx.to == "" || tx.amount == 0 {
        return false;
      }
      if tx.Mint? {
        if !tx.allowed || tx.signer !in validators || validators[tx.signer].jailed {
          return false;
        }
      } else {
        if tx.from == "" {
          return false;
        }
        ok := Debit(tx.from, tx.amount);
        if !ok {
          return;
        }
        DebitSum(old(accounts), tx.from, tx.amount);
        BalanceInSum(accounts, tx.to);
      }
      ok := Credit(tx.to, tx.amount);
    }

    /** `poker/create_table` */
    method Open(creator: string, r: Rules) returns (ok: bool)
      requires StateOk(View())
      modifies this`tables, this`nextTable
      ensures ok ==> Accepts(old(View()), CreateTable(creator, r)) && Effect(old(View()), CreateTable(creator, r), View())
      ensures Accepts(old(View()), CreateTable(creator, r)) ==> ok
    {
      hide StateOk;
      if creator == "" || !GoodRules(r) || nextTable >= U64_MAX {
        return false;
      }
      tables := tables[nextTable := PokerTable(r, seq(SEATS, _ => None), None, None)];
      nextTable := nextTable + 1;
      ok := true;
    }

    /** `poker/sit` */
    method SitDown(id: nat, player: string, seat: nat, buyIn: nat) returns (ok: bool)
      requires StateOk(View())
      modifies this`accounts, this`tables
      ensures var tx := Sit(id, player, seat, buyIn);
        && (ok ==> Accepts(old(View()), tx) && Effect(old(View()), tx, View()))
        && (Accepts(old(View()), tx) && Spacious(old(View()), tx) ==> ok)
    {
      hide PotOk, BoardOk, Total;
      PartsFit(View(), player, 0);
      if player == "" || id !in tables || seat >= SEATS {
        return false;
      }
      var t := tables[id];
      if t.seats[seat].Some? || buyIn < t.rules.minBuyIn || buyIn > t.rules.maxBuyIn || buyIn + t.rules.playerBond > U64_MAX {
        return false;
      }
      ok := Debit(player, buyIn + t.rules.playerBond);
      if ok {
        tables := tables[id := t.(seats := t.seats[seat := Some(Seat(player, buyIn, t.rules.playerBond))])];
      }
    }

    /** `poker/leave` */
    method StandUp(id: nat, player: string) returns (ok: bool)
      requires StateOk(View())
      modifies this`accounts, this`tables
      ensures var tx := Leave(id, player);
        && (ok ==> Accepts(old(View()), tx) && Effect(old(View()), tx, View()))
        && (Accepts(old(View()), tx) && Spacious(old(View()), tx) ==> ok)
    {
      hide PotOk, BoardOk, Total, SeatOf;
      PartsFit(View(), player, id);
      if player == "" || id !in tables {
        return false;
      }
      var t := tables[id];
      var seat := FindSeat(t.seats, player);
      if seat.None? {
        return false;
      }
      if t.hand.Some? {
        PlayShaped(t);
        if t.hand.value.h.inHand[seat.value] {
          return false;
        }
      }
      var s := t.seats[seat.value].value;
      SeatInWorth(t.seats, seat.value, 0);
      if s.stack + s.bond > U64_MAX {
        return false;
      }
      ok := Credit(player, s.stack + s.bond);
      if ok {
        tables := tables[id := t.(seats := t.seats[seat.value := None])];
      }
    }

    /** `jailAndSlashValidator` */
    method JailAndSlash(id: string, bps: nat) returns (ok: bool)
      modifies this`accounts, this`validators
      ensures ok ==> View() == Punish(old(View()), id, bps)
      ensures Total(old(View())) <= U64_MAX ==> ok
    {
      hide Total, SlashAmount;
      if id == "" || id !in validators {
        return true;
      }
      PartsFit(View(), TREASURY, 0);
      var v := validators[id];
      var amount := SlashAmount(v.bond, bps);
      if amount > 0 {
        ok := Credit(TREASURY, amount);
        if !ok {
          return;
        }
      }
      validators := validators[id := v.(bond := v.bond - amount, jailed := true, slashes := v.slashes + 1)];
      ok := true;
    }

    method PunishAll(ids: seq<string>, bps: nat) returns (ok: bool)
      modifies this`accounts, this`validators
      ensures ok ==> View() == PunishEach(old(View()), ids, bps)
      ensures Total(old(View())) <= U64_MAX ==> ok
    {
      hide Total, Punish;
      for i := 0 to |ids|
        invariant Total(View()) == Total(old(View()))
        invariant PunishEach(View(), ids[i..], bps) == PunishEach(old(View()), ids, bps)
      {
        assert ids[i..][0] == ids[i] && ids[i..][1..] == ids[i + 1..];
        PunishKeeps(View(), ids[i], bps);
        ok := JailAndSlash(ids[i], bps);
        if !ok {
          return;
        }
      }
      ok := true;
    }

    /** `stakingBond` and `stakingUnbond` */
    method MoveBond(id: string, amount: nat, bonding: bool) returns (ok: bool)
      requires StateOk(View())
      modifies this`accounts, this`validators
      ensures var tx := if bonding then BondChips(id, amount) else Unbond(id, amount);
        && (ok ==> Accepts(old(View()), tx) && Effect(old(View()), tx, View()))
        && (Accepts(old(View()), tx) && Spacious(old(View()), tx) ==> ok)
    {
      hide StateOk, Total;
      if id == "" || amount == 0 || id !in validators {
        return false;
      }
      PartsFit(View(), id, 0);
      var v := validators[id];
      if bonding {
        ok := Debit(id, amount);
        if !ok || v.bond + amount > U64_MAX {
          return false;
        }
        validators := validators[id := v.(bond := v.bond + amount)];
      } else {
        if v.bond < amount {
          return false;
        }
        validators := validators[id := v.(bond := v.bond - amount)];
        ok := Credit(id, amount);
      }
    }

    /** `stakingRegisterValidator` and `stakingUnjail` */
    method Staff(tx: Tx) returns (ok: bool)
      requires StateOk(View()) && (tx.Register? || tx.Unjail?)
      modifies this`validators
      ensures ok ==> Accepts(old(View()), tx) && Effect(old(View()), tx, View())
      ensures Accepts(old(View()), tx) ==> ok
    {
      hide StateOk;
      if tx.id == "" {
        return false;
      }
      if tx.Register? {
        if |tx.key| != 32 || (tx.id in validators && validators[tx.id].key != tx.key) {
          return false;
        }
        if tx.id !in validators {
          validators := validators[tx.id := Validator(tx.key, 0, false, 0)];
        }
      } else {
        if tx.id !in validators || !validators[tx.id].jailed {
          return false;
        }
        validators := validators[tx.id := validators[tx.id].(jailed := false)];
      }
      ok := true;
    }

    /** Store the table of a turn; between hands, seats without a bond get their stack back and lose the seat
        (`ejectBondlessSeats`). */
    method Store(id: nat, r: PokerTable) returns (ok: bool)
      requires |r.seats| == SEATS
      modifies this`accounts, this`tables
      ensures ok ==> View() == Ejecting(old(View()), id, r)
      ensures SumMap(old(accounts)) + SeatsWorth(r.seats, 0) <= U64_MAX ==> ok
    {
      hide SumMap;
      if r.hand.Some? || r.rules.playerBond == 0 {
        tables := tables[id := r];
        return true;
      }
      var seats := r.seats;
      for i := 0 to SEATS
        invariant |seats| == SEATS && tables == old(tables)
        invariant forall j :: 0 <= j < SEATS ==> seats[j] == if j < i then Kept(r.seats)[j] else r.seats[j]
        invariant PaidOut(accounts, r.seats, i) == PaidOut(old(accounts), r.seats, 0)
        invariant SumMap(accounts) + SeatsWorth(r.seats, i) <= SumMap(old(accounts)) + SeatsWorth(r.seats, 0)
      {
        var s := seats[i];
        if Bondless(s) {
          BalanceInSum(accounts, s.value.player);
          CreditSum(accounts, s.value.player, s.value.stack);
          ok := Credit(s.value.player, s.value.stack);
          if !ok {
            return;
          }
          seats := seats[i := None];
        }
      }
      assert seats == Kept(r.seats);
      tables := tables[id := r.(seats := seats)];
      ok := true;
    }

    /** Store what a turn of table `id` leads to. */
    method Finish(id: nat, r: PokerTable, ghost u: Turn) returns (ok: bool)
      requires StateOk(View()) && id in tables && Leads(u, r) && Worth(u.table) <= Worth(tables[id])
      modifies this`accounts, this`tables
      ensures ok ==> Plays(old(View()), id, u, View())
      ensures Total(old(View())) <= U64_MAX ==> ok
    {
      hide Worth, SumMap, TableWorths, Bonds, Sound, Becomes, Lost, StateOk, SeatsWorth;
      BecomesKeeps(u, r);
      WorthInSum(tables, id);
      SeatsOnly(r);
      ok := Store(id, r);
    }

    /** `poker/start_hand`, `poker/act` and `poker/tick` */
    method TakeTurn(tx: Tx) returns (ok: bool)
      requires StateOk(View()) && (tx.Start? || tx.Act? || tx.Tick?)
      modifies this`accounts, this`tables
      ensures ok ==> Accepts(old(View()), tx) && Effect(old(View()), tx, View())
      ensures Accepts(old(View()), tx) && Spacious(old(View()), tx) ==> ok
    {
      hide TableOk, Worth, Sound, Becomes, Total, Legal, MayStart, MayTick, StartTurn, ActTurn, TickTurn, Cut, Plays, Leads, SeatOf;
      if tx.table !in tables {
        return false;
      }
      var t := tables[tx.table];
      RoomFor(View(), tx);
      var r;
      match tx {
        case Start(_, player, d, now) =>
          var seat := FindSeat(t.seats, player);
          if player == "" || seat.None? {
            return false;
          }
          r := StartOn(t, d, now);
        case Act(_, player, a, now) =>
          if player == "" || !Waiting(t) || t.seats[t.hand.value.h.actionOn.value].value.player != player {
            return false;
          }
          r := ActOn(t, t.hand.value.h.actionOn.value, a, now);
        case Tick(_, now) =>
          r := TickOn(t, now);
      }
      if r.Err? {
        return false;
      }
      TurnIsSound(View(), tx);
      ok := Finish(tx.table, r.value, TurnOf(View(), tx));
    }

    /** A transaction of the dealer protocol: validators are punished, and the table may take a step. */
    method DealerTx(id: nat, ids: seq<string>, step: Option<DealerStep>, now: nat) returns (ok: bool)
      requires StateOk(View())
      modifies this
      ensures var tx := Dealer(id, ids, step, now);
        && (ok ==> Accepts(old(View()), tx) && Effect(old(View()), tx, View()))
        && (Accepts(old(View()), tx) && Spacious(old(View()), tx) ==> ok)
    {
      hide TableOk, Worth, Sound, Becomes, Total, MayStep, DealerTurn, Plays, Leads, PunishEach;
      ghost var s, tx := View(), Dealer(id, ids, step, now);
      if id !in tables {
        return false;
      }
      RoomFor(s, tx);
      PunishEachKeeps(s, ids, BPS_HAND);
      ok := PunishAll(ids, BPS_HAND);
      if !ok || step.None? {
        return;
      }
      var r := StepOn(tables[id], step.value, now);
      if r.Err? {
        return false;
      }
      TurnIsSound(s, tx);
      ok := Finish(id, r.value, TurnOf(s, tx));
    }

    method Handle(tx: Tx) returns (ok: bool)
      requires StateOk(View())
      modifies this
      ensures ok ==> Accepts(old(View()), tx) && Effect(old(View()), tx, View())
      ensures Accepts(old(View()), tx) && Spacious(old(View()), tx) ==> ok
    {
      hide StateOk, TableOk, Total, PunishEach, Legal, MayStart, MayTick, MayStep, TurnOf, Plays, SeatOf, InHand;
      if tx.Mint? || tx.Send? {
        ok := Bank(tx);
      } else if tx.Start? || tx.Act? || tx.Tick? {
        ok := TakeTurn(tx);
      } else if tx.Register? || tx.Unjail? {
        ok := Staff(tx);
      } else if tx.BondChips? || tx.Unbond? {
        ok := MoveBond(tx.id, tx.amount, tx.BondChips?);
      } else {
        match tx {
          case CreateTable(creator, r) => ok := Open(creator, r);
          case Sit(id, player, seat, buyIn) => ok := SitDown(id, player, seat, buyIn);
          case Leave(id, player) => ok := StandUp(id, player);
          case Dkg(ids) => ok := PunishAll(ids, BPS_DKG);
          case Dealer(id, ids, step, now) => ok := DealerTx(id, ids, step, now);
        }
      }
    }

    /** `deliverTx`: an accepted transaction has exactly its effect, any other leaves everything as it was; and
        while all chips fit into 64 bits every valid transaction is accepted. */
    method Deliver(tx: Tx) returns (ok: bool)
      requires StateOk(View())
      modifies this
      ensures StateOk(View()) && Delivered(old(View()), tx, ok, View())
      ensures Accepts(old(View()), tx) && Spacious(old(View()), tx) ==> ok
    {
      hide StateOk, Total, Effect, Accepts, Spacious, Burned, Dropped;
      var a, t, n, v := accounts, tables, nextTable, validators;
      ok := Handle(tx);
      if !ok {
        accounts, tables, nextTable, validators := a, t, n, v;
      } else {
        EffectConserves(old(View()), tx, View());
      }
    }

    /** THEOREM (as a contract).  Any sequence of transactions is a run: the chips at the end are those at the start
        plus what was minted, minus exactly the bond cuts of timeouts and the pots nobody could win. */
    method DeliverAll(txs: seq<Tx>) returns (oks: seq<bool>, ghost ss: seq<State>)
      requires StateOk(View())
      modifies this
      ensures Run(ss, txs, oks) && ss[0] == old(View()) && ss[|txs|] == View()
      ensures StateOk(View()) && Total(View()) == Total(old(View())) + Changes(ss, txs, oks, |txs|)
    {
      hide StateOk, Total, Effect, Accepts, Spacious, Change;
      oks, ss := [], [View()];
      for i := 0 to |txs|
        invariant StateOk(View()) && |oks| == i && |ss| == i + 1 && ss[0] == old(View()) && ss[i] == View() && StateOk(ss[0])
        invariant forall k :: 0 <= k < i ==> Delivered(ss[k], txs[k], oks[k], ss[k + 1])
      {
        var ok := Deliver(txs[i]);
        oks, ss := oks + [ok], ss + [View()];
      }
      RunConserves(ss, txs, oks, |txs|);
    }
  }

  /** `seatOfPlayer` */
  method FindSeat(seats: seq<Option<Seat>>, player: string) returns (r: Option<nat>)
    ensures r == SeatOf(seats, player, 0)
  {
    for i := 0 to |seats|
      invariant SeatOf(seats, player, i) == SeatOf(seats, player, 0)
    {
      if seats[i].Some? && seats[i].value.player == player {
        return Some(i);
      }
    }
    r := None;
  }

  lemma {:induction false} SeatInWorth(seats: seq<Option<Seat>>, k: nat, i: nat)
    requires i <= k < |seats|
    ensures SeatWorth(seats[k]) <= SeatsWorth(seats, i)
    decreases |seats| - i
  {
    if i < k { SeatInWorth(seats, k, i + 1); }
  }

  lemma SeatsOnly(t: PokerTable)
    ensures SeatsWorth(t.seats, 0) <= Worth(t)
  {
  }

  /** The table of a turn has room when the chain has. */
  lemma RoomFor(s: State, tx: Tx)
    requires StateOk(s) && (IsTurn(tx) || tx.Dealer?) && tx.table in s.tables
    ensures IsTurn(tx) && Spacious(s, tx) ==> Roomy(s.tables[tx.table], tx.now)
  {
    hide Worth, SumMap, TableWorths, Bonds;
    WorthInSum(s.tables, tx.table);
  }
}
