/** Every step of the dealer protocol keeps the state that timeouts rely on. */
module DealerKeeps {
  import opened Zq
  import opened Outcome
  import opened ElGamal
  import opened Dkg
  import opened DealerHand
  import opened DealerProgress
  import opened DealerTimeout
  import opened Threshold
  import ShuffleSoundness

  /** Everything `DeskOk` looks at except the phase, the board, the shares and the reveals. */
  ghost predicate SameTable(d: Desk, r: Desk) {
    && r.threshold == d.threshold && r.members == d.members && r.key == d.key && r.inHand == d.inHand && r.first == d.first
    && r.deck == d.deck && r.holePos == d.holePos && r.cursor == d.cursor
  }

  // ---------------------------------------------------------------- schedules

  /** What decides the schedule besides the card that is due. */
  lemma SetRevealMoves(d: Desk, now: int)
    requires Shaped(d)
    ensures var r := SetReveal(d, now);
      r.Ok? ==> r.value == d.(revealPos := r.value.revealPos, revealBy := r.value.revealBy)
  {
    hide ExpectedPos;
  }

  /** Scheduling the next reveal of a hand that has a card due puts it on schedule. */
  lemma SetRevealSchedules(d: Desk, now: int)
    requires Shaped(d) && d.phase !in {Shuffling, Dealing} && (Waits(d.phase) ==> Awaiting(d)) && SetReveal(d, now).Ok?
    ensures Shaped(SetReveal(d, now).value) && Scheduled(SetReveal(d, now).value)
  {
    hide ExpectedPos;
    SetRevealMoves(d, now);
    ExpectedSame(d, SetReveal(d, now).value);
  }

  lemma {:induction false} FirstHiddenFinds(d: Desk, p: nat, q: nat)
    requires Shaped(d) && p <= q < |d.deck| && Hidden(d, q)
    ensures FirstHidden(d, p).Some?
    decreases q - p
  {
    hide Hidden;
    if !Hidden(d, p) { FirstHiddenFinds(d, p + 1, q); }
  }

  /** When the showdown begins the hole cards of the contenders are still hidden, so one of them is due. */
  lemma ShowdownAwaits(d: Desk)
    requires Shaped(d) && Dealt(d) && |d.deck| == DECK && SomeContends(d) && d.phase == AwaitShowdown && |d.board| == 5
    requires forall p :: p in d.revealed ==> p >= d.cursor
    ensures Awaiting(d)
  {
    hide HolePositions, Order, FirstHidden;
    AllPlaced(d);
    CursorBelow(d);
    var s :| 0 <= s < SEATS && Contends(d, s);
    HoleCardsApart(d, s, 0, s, 0);
    var p := d.holePos[Slot(s, 0)].value;
    assert Hidden(d, p);
    FirstHiddenFinds(d, 0, p);
  }

  lemma BoardAwaits(d: Desk)
    requires Shaped(d) && Dealt(d) && |d.deck| == DECK && BoardFits(d) && d.phase in {AwaitFlop, AwaitTurn, AwaitRiver}
    ensures Awaiting(d)
  {
    CursorBelow(d);
  }

  // ---------------------------------------------------------------- moves within a hand

  lemma KeepsShuffle(d: Desk, now: int, who: Id, round: nat, out: Option<seq<Ciphertext>>)
    requires Live(d) && (out.Some? ==> |out.value| == |d.deck|)
    ensures var r := SubmitShuffle(d, now, who, round, out); r.Ok? ==> Live(r.value)
  {
    hide Qual, Order, HolePositions, ExpectedPos;
    if SubmitShuffle(d, now, who, round, out).Ok? { ContendsStays(d, SubmitShuffle(d, now, who, round, out).value); }
  }

  lemma ContendsStays(d: Desk, r: Desk)
    requires Shaped(d) && Shaped(r) && r.inHand == d.inHand && r.folded == d.folded && SomeContends(d)
    ensures SomeContends(r)
  {
    var s :| 0 <= s < SEATS && Contends(d, s);
    assert Contends(r, s);
  }

  lemma KeepsFinalizeDeck(d: Desk, now: int)
    requires Live(d)
    ensures var r := FinalizeDeck(d, now); r.Ok? ==> Live(r.value)
  {
    hide Qual, Order, HolePositions, ExpectedPos;
    if FinalizeDeck(d, now).Ok? {
      var r := FinalizeDeck(d, now).value;
      ContendsStays(d, r);
      OrderLength(d.inHand, d.first, 0);
      OrderIs(d.inHand, d.first);
    }
  }

  lemma OrderIs(inHand: seq<bool>, first: nat)
    requires |inHand| == SEATS
    ensures Order(inHand, first) == OrderFrom(inHand, first, 0)
  {
  }

  /** Moving on within a dealt hand. */
  lemma KeepsMove(d: Desk, r: Desk)
    requires DeskOk(d) && d.phase != Shuffling && SameTable(d, r) && Shaped(r) && r.phase != Shuffling && BoardFits(r)
    requires r.encShares == d.encShares && SomeContends(r) && RevealsFit(r)
    ensures DeskOk(r)
  {
    hide Order, HolePositions, Qual, SomeContends, RevealsFit;
    assert Dealt(r);
    forall s, c, id | 0 <= s < SEATS && 0 <= c < 2 && r.inHand[s] && r.holePos[Slot(s, c)].Some? && HandedIn(r, s, c, id)
      ensures r.encShares[(r.holePos[Slot(s, c)].value, id)] == r.key[s].value
    {
      assert HandedIn(d, s, c, id);
    }
  }

  /** A new hole share is encrypted to the key of its seat, and of no other: positions are not shared. */
  lemma KeepsRecord(d: Desk, who: Id, p: nat, k: Key)
    requires DeskOk(d) && d.phase == Dealing && KeyAt(d, p, k)
    ensures DeskOk(d.(encShares := d.encShares[(p, who) := k]))
  {
    hide Order, HolePositions, Qual, RevealsFit;
    var r := d.(encShares := d.encShares[(p, who) := k]);
    assert Dealt(r);
    ContendsStays(d, r);
    RevealsStay(d, r);
    CursorBelow(d);
    var s0, c0 :| 0 <= s0 < SEATS && 0 <= c0 < 2 && d.inHand[s0] && d.holePos[Slot(s0, c0)] == Some(p) && d.key[s0] == Some(k);
    forall s, c, id | 0 <= s < SEATS && 0 <= c < 2 && r.inHand[s] && r.holePos[Slot(s, c)].Some? && HandedIn(r, s, c, id)
      ensures r.encShares[(r.holePos[Slot(s, c)].value, id)] == r.key[s].value
    {
      if d.holePos[Slot(s, c)].value == p && id == who {
        HoleCardsApart(d, s, c, s0, c0);
      } else {
        assert HandedIn(d, s, c, id);
      }
    }
  }

  lemma RevealsStay(d: Desk, r: Desk)
    requires RevealsFit(d) && r.revealed == d.revealed && r.cursor == d.cursor && r.board == d.board
    requires r.phase == d.phase || r.phase in {AwaitShowdown, AllShown, Refunded} || d.phase !in {AwaitShowdown, AllShown, Refunded}
    ensures RevealsFit(r)
  {
  }

  lemma KeepsOpenBetting(d: Desk, now: int)
    requires DeskOk(d) && d.phase == Dealing
    ensures var r := OpenBetting(d, now); r.Ok? ==> Live(r.value)
  {
    hide SetReveal, DeskOk, ExpectedPos;
    DealingFacts(d);
    var b := d.(holeBy := None, phase := if d.actionOn.None? then AwaitFlop else Betting);
    SetRevealMoves(b, now);
    if SetReveal(b, now).Ok? {
      var r := SetReveal(b, now).value;
      ContendsStays(d, r);
      RevealsStay(d, r);
      KeepsMove(d, r);
      if b.phase == AwaitFlop {
        DealtSame(d, b);
        BoardAwaits(b);
      }
      SetRevealSchedules(b, now);
    }
  }

  lemma DealingFacts(d: Desk)
    requires DeskOk(d)
    ensures Shaped(d) && SomeContends(d) && RevealsFit(d) && |d.deck| == DECK
    ensures d.phase == Dealing ==> |d.board| == 0 && Dealt(d)
  {
  }

  lemma KeepsEncShare(d: Desk, now: int, who: Id, p: nat, k: Key, proven: bool)
    requires Live(d)
    ensures var r := SubmitEncShare(d, now, who, p, k, proven); r.Ok? ==> Live(r.value)
  {
    hide DeskOk, OpenBetting, SeatsPlaced, SeatsKeyed, AllReady, KeyAt, ExpectedPos;
    DealingFacts(d);
    if SubmitEncShare(d, now, who, p, k, proven).Ok? {
      KeepsRecord(d, who, p, k);
      var r := d.(encShares := d.encShares[(p, who) := k]);
      KeepsOpenBetting(r, now);
    }
  }

  lemma KeepsPubShare(d: Desk, now: int, who: Id, p: nat, share: Point, proven: bool)
    requires Live(d)
    ensures var r := SubmitPubShare(d, now, who, p, share, proven); r.Ok? ==> Live(r.value)
  {
    hide ExpectedPos, Order, HolePositions, Qual, SomeContends, RevealsFit;
    if SubmitPubShare(d, now, who, p, share, proven).Ok? {
      var r := SubmitPubShare(d, now, who, p, share, proven).value;
      NotShuffling(d);
      ContendsStays(d, r);
      RevealsStay(d, r);
      KeepsMove(d, r);
      ExpectedSame(d, r);
    }
  }

  lemma NotShuffling(d: Desk)
    requires Shaped(d) && ExpectedPos(d).Ok?
    ensures d.phase != Shuffling
  {
  }

  lemma KeepsSlash(d: Desk, ids: set<Id>)
    requires Live(d) && d.phase != Shuffling
    ensures Live(Slash(d, ids))
  {
    hide Order, HolePositions, Qual, SomeContends, RevealsFit, ExpectedPos;
    var r := Slash(d, ids);
    ContendsStays(d, r);
    RevealsStay(d, r);
    KeepsMove(d, r);
    ExpectedSame(d, r);
  }

  lemma KeepsAbort(d: Desk)
    requires DeskOk(d) && d.phase != Shuffling
    ensures Live(Abort(d))
  {
    hide Order, HolePositions, Qual, SomeContends, RevealsFit;
    var r := Abort(d);
    ContendsStays(d, r);
    RevealsStay(d, r);
    KeepsMove(d, r);
  }

  /** The position a public reveal opens: the next board card, or a hole card below the cursor. */
  lemma ExpectedBelow(d: Desk)
    requires DeskOk(d) && Awaiting(d)
    ensures var p := ExpectedPos(d).value.value;
      if d.phase == AwaitShowdown then p < d.cursor else p == d.cursor + |d.board|
    ensures Waits(d.phase)
  {
    hide Order, HolePositions, Qual, Hidden, ContendersPlaced, SharesMatchKeys, SomeContends, RevealsFit;
    if d.phase == AwaitShowdown {
      FirstHiddenSpec(d, 0);
      HiddenBelow(d, ExpectedPos(d).value.value);
    }
  }

  lemma HiddenBelow(d: Desk, p: nat)
    requires Shaped(d) && Dealt(d) && |d.deck| == DECK && Hidden(d, p)
    ensures p < d.cursor
  {
    hide Order, HolePositions;
    CursorBelow(d);
    var s, c :| 0 <= s < SEATS && 0 <= c < 2 && Contends(d, s) && d.holePos[Slot(s, c)] == Some(p);
    HoleCardsApart(d, s, c, s, c);
  }

  lemma KeepsReveal(d: Desk, now: int)
    requires DeskOk(d)
    ensures var r := FinalizeReveal(d, now); r.Ok? ==> Live(r.value)
  {
    hide DeskOk, ExpectedPos, ApplyReveal, MissingPub, SharersOf, OpenedCard;
    DealingFacts(d);
    if FinalizeReveal(d, now).Ok? {
      var p := ExpectedPos(d).value.value;
      ExpectedBelow(d);
      if d.phase == AwaitShowdown {
        KeepsHoleCard(d, p, OpenedCard(d, p).value, now);
      } else {
        KeepsBoardCard(d, OpenedCard(d, p).value, now);
      }
    }
  }

  lemma KeepsBoardCard(d: Desk, card: nat, now: int)
    requires DeskOk(d) && d.phase in {AwaitFlop, AwaitTurn, AwaitRiver}
    ensures var p := d.cursor + |d.board|;
      var r := ApplyReveal(d.(revealed := d.revealed[p := card]), p, card, now); r.Ok? ==> Live(r.value)
  {
    hide SetReveal, BoardGrown, Order, HolePositions, Qual, SharesMatchKeys, SeatsKeyed, ExpectedPos, SomeContends;
    var p := d.cursor + |d.board|;
    var b := d.(revealed := d.revealed[p := card]);
    GrownFacts(b, card);
    GrownRest(b, card);
    var n := BoardGrown(b, card);
    SetRevealMoves(n, now);
    if SetReveal(n, now).Ok? {
      var r := SetReveal(n, now).value;
      ContendsStays(d, r);
      ContendsStays(d, n);
      KeepsMove(d, r);
      DealtSame(d, n);
      if n.phase == AwaitShowdown {
        ShowdownAwaits(n);
      } else if n.phase != Betting {
        BoardAwaits(n);
      }
      SetRevealSchedules(n, now);
    }
  }

  lemma GrownRest(d: Desk, card: nat)
    requires Shaped(d)
    ensures SameTable(d, BoardGrown(d, card)) && BoardGrown(d, card).encShares == d.encShares && BoardGrown(d, card).revealed == d.revealed
    ensures BoardGrown(d, card).pubShares == d.pubShares && BoardGrown(d, card).slashed == d.slashed
  {
    hide WithChips, FirstToAct;
  }

  lemma KeepsHoleCard(d: Desk, p: nat, card: nat, now: int)
    requires DeskOk(d) && d.phase == AwaitShowdown && p < d.cursor
    ensures var r := ApplyReveal(d.(revealed := d.revealed[p := card]), p, card, now); r.Ok? ==> Live(r.value)
  {
    hide SetReveal, Order, HolePositions, Qual, SharesMatchKeys, SeatsKeyed, ContendersPlaced, FirstHidden, SomeContends;
    var b := d.(revealed := d.revealed[p := card]);
    SetRevealMoves(b, now);
    var r := ApplyReveal(b, p, card, now);
    if r.Ok? {
      ContendsStays(d, r.value);
      KeepsMove(d, r.value);
      if FirstHidden(b, 0).Some? {
        ShowdownDue(b);
        SetRevealSchedules(b, now);
      }
    }
  }

  lemma ShowdownDue(d: Desk)
    requires Shaped(d) && d.phase == AwaitShowdown && |d.board| == 5 && |d.deck| > 0 && ContendersPlaced(d) && FirstHidden(d, 0).Some?
    ensures Awaiting(d)
  {
    hide FirstHidden, ContendersPlaced;
  }

  /** The end of a betting round: the next public card is due. */
  lemma KeepsCloseStreet(d: Desk, b: Bets, now: int)
    requires DeskOk(d) && d.phase == Betting
    requires |b.folded| == SEATS && exists s :: 0 <= s < SEATS && d.inHand[s] && !b.folded[s]
    ensures var r := CloseStreet(d, b, now); r.Ok? ==> Live(r.value)
  {
    hide SetReveal, Order, HolePositions, Qual, SharesMatchKeys, SeatsKeyed, ExpectedPos;
    if CloseStreet(d, b, now).Ok? {
      var next := if |d.board| == 0 then AwaitFlop else if |d.board| == 3 then AwaitTurn else if |d.board| == 4 then AwaitRiver else AwaitShowdown;
      var n := d.(stack := b.stack, commit := b.commit, folded := b.folded, allIn := b.allIn, phase := next, actionOn := None);
      SetRevealMoves(n, now);
      var s :| 0 <= s < SEATS && d.inHand[s] && !b.folded[s];
      assert Contends(n, s);
      var r := SetReveal(n, now).value;
      ContendsStays(n, r);
      KeepsMove(d, r);
      DealtSame(d, n);
      if n.phase == AwaitShowdown {
        ShowdownAwaits(n);
      } else {
        BoardAwaits(n);
      }
      SetRevealSchedules(n, now);
    }
  }

  // ---------------------------------------------------------------- timeouts

  lemma KeepsShuffleTimeout(d: Desk, now: int)
    requires Live(d) && d.phase == Shuffling
    ensures var r := ShuffleTimeout(d, now); r.Ok? ==> r.value.phase == Refunded || Live(r.value)
  {
    hide Qual, Order, HolePositions, FinalizeDeck, SomeContends, ExpectedPos;
    if d.step == |QualOf(d)| {
      KeepsFinalizeDeck(d, now);
    } else {
      SlashOne(d.members, d.slashed, d.step);
      var r := Slash(d, {QualOf(d)[d.step].id});
      assert |QualOf(r)| == |QualOf(d)| - 1;
      ContendsStays(d, r);
      KeepsFinalizeDeck(r, now);
      ContendsStays(d, r.(shuffleBy := Some(now + d.timeout)));
    }
  }

  lemma KeepsHoleTimeout(d: Desk, now: int)
    requires Live(d) && d.phase == Dealing
    ensures var r := HoleTimeout(d, now); r.Ok? ==> Live(r.value)
  {
    hide DeskOk, OpenBetting, SeatsKeyed, AllReady, MissingHole, ExpectedPos;
    DealingFacts(d);
    if HoleTimeout(d, now).Ok? {
      KeepsSlash(d, MissingHole(d));
      KeepsAbort(Slash(d, MissingHole(d)));
      KeepsOpenBetting(Slash(d, MissingHole(d)), now);
    }
  }

  lemma KeepsRevealTimeout(d: Desk, now: int)
    requires Live(d) && d.phase !in {Shuffling, Dealing}
    ensures var r := RevealTimeout(d, now); r.Ok? ==> Live(r.value)
  {
    hide DeskOk, ExpectedPos, FinalizeReveal, MissingPub;
    DealingFacts(d);
    if RevealTimeout(d, now).Ok? {
      var r := Slash(d, MissingPub(d, ExpectedPos(d).value.value));
      KeepsSlash(d, MissingPub(d, ExpectedPos(d).value.value));
      KeepsAbort(r);
      KeepsReveal(r, now);
    }
  }

  /** THEOREM.  An accepted timeout leaves a live hand behind, or a refunded one. */
  lemma KeepsExpiry(d: Desk, now: int)
    requires Live(d)
    ensures var r := Expiry(d, now); r.Ok? ==> r.value.phase == Refunded || Live(r.value)
  {
    hide DeskOk, ShuffleTimeout, HoleTimeout, RevealTimeout, ExpectedPos;
    DealingFacts(d);
    if d.phase == Shuffling {
      KeepsShuffleTimeout(d, now);
    } else if d.phase == Dealing {
      KeepsHoleTimeout(d, now);
    } else {
      KeepsRevealTimeout(d, now);
    }
  }

  // ---------------------------------------------------------------- the deck stays sealed

  /** A public share that is a share of `F` keeps the desk sealed. */
  lemma SealsPubShare(d: Desk, now: int, who: Id, p: nat, share: Point, proven: bool, F: seq<int>, k: Scalar)
    requires Shaped(d) && Sealed(d, F, k)
    requires p < |d.deck| && InCommittee(d, who) ==> ValidShare(F, k, d.deck[p].c1, Share(IndexOf(d.members, who).value, share))
    ensures var r := SubmitPubShare(d, now, who, p, share, proven); r.Ok? ==> Sealed(r.value, F, k)
  {
    hide ValidShare, ExpectedPos;
    if SubmitPubShare(d, now, who, p, share, proven).Ok? {
      var r := SubmitPubShare(d, now, who, p, share, proven).value;
      forall e | e in r.pubShares
        ensures SealedShare(r, F, k, e.0, e.1)
      {
        if e != (p, who) { assert SealedShare(d, F, k, e.0, e.1); }
      }
    }
  }

  /** A shuffle that keeps the plaintexts keeps a desk without public shares sealed. */
  lemma SealsShuffle(d: Desk, now: int, who: Id, round: nat, out: Option<seq<Ciphertext>>, F: seq<int>, k: Scalar)
    requires Sealed(d, F, k) && d.pubShares == map[]
    requires out.Some? ==> multiset(ShuffleSoundness.Plaintexts(HandSecret(F, k), out.value)) == multiset(ShuffleSoundness.Plaintexts(HandSecret(F, k), d.deck))
    ensures var r := SubmitShuffle(d, now, who, round, out); r.Ok? ==> Sealed(r.value, F, k)
  {
  }

  /** Nothing else touches the deck, the committee or the shares. */
  lemma ApplyRevealSame(d: Desk, p: nat, card: nat, now: int)
    requires Shaped(d)
    ensures var r := ApplyReveal(d, p, card, now);
      r.Ok? ==> r.value.deck == d.deck && r.value.pubShares == d.pubShares && r.value.members == d.members && r.value.threshold == d.threshold
                && r.value.slashed == d.slashed
  {
    hide SetReveal, BoardGrown, FirstHidden, ContendersPlaced;
    SetRevealMoves(d, now);
    GrownRest(d, card);
    SetRevealMoves(BoardGrown(d, card), now);
  }

  /** Deck, shares and committee are the same, and unless the hand was refunded the committee is at the threshold. */
  ghost predicate SameSecrets(d: Desk, r: Desk) {
    && r.deck == d.deck && r.pubShares == d.pubShares && r.members == d.members && r.threshold == d.threshold
    && (r.phase == Refunded || |QualOf(r)| >= d.threshold)
  }

  lemma ShuffleTimeoutSame(d: Desk, now: int)
    requires Shaped(d) && |QualOf(d)| >= d.threshold
    ensures ShuffleTimeout(d, now).Ok? ==> SameSecrets(d, ShuffleTimeout(d, now).value)
  {
    hide Qual, HolePositions, Order;
  }

  lemma HoleTimeoutSame(d: Desk, now: int)
    requires Shaped(d)
    ensures HoleTimeout(d, now).Ok? ==> SameSecrets(d, HoleTimeout(d, now).value)
  {
    hide Qual, SetReveal, MissingHole, AllReady, SeatsKeyed;
    if SeatsPlaced(d) {
      var b := Slash(d, MissingHole(d));
      SetRevealMoves(b.(holeBy := None, phase := if b.actionOn.None? then AwaitFlop else Betting), now);
    }
  }

  lemma FinalizeRevealSame(d: Desk, now: int)
    requires Shaped(d) && |QualOf(d)| >= d.threshold
    ensures FinalizeReveal(d, now).Ok? ==> SameSecrets(d, FinalizeReveal(d, now).value)
  {
    hide Qual, ApplyReveal, MissingPub, ExpectedPos, OpenedCard, SharersOf;
    if FinalizeReveal(d, now).Ok? {
      var p := ExpectedPos(d).value.value;
      ApplyRevealSame(d.(revealed := d.revealed[p := OpenedCard(d, p).value]), p, OpenedCard(d, p).value, now);
    }
  }

  lemma RevealTimeoutSame(d: Desk, now: int)
    requires Shaped(d)
    ensures RevealTimeout(d, now).Ok? ==> SameSecrets(d, RevealTimeout(d, now).value)
  {
    hide Qual, FinalizeReveal, MissingPub, ExpectedPos;
    if RevealTimeout(d, now).Ok? {
      var r := Slash(d, MissingPub(d, ExpectedPos(d).value.value));
      if |QualOf(r)| >= d.threshold { FinalizeRevealSame(r, now); }
    }
  }

  lemma ExpirySame(d: Desk, now: int)
    requires Shaped(d) && |QualOf(d)| >= d.threshold
    ensures Expiry(d, now).Ok? ==> SameSecrets(d, Expiry(d, now).value)
  {
    hide ShuffleTimeout, HoleTimeout, RevealTimeout, SameSecrets, Qual;
    ShuffleTimeoutSame(d, now);
    HoleTimeoutSame(d, now);
    RevealTimeoutSame(d, now);
  }

  // ---------------------------------------------------------------- runs of timeouts

  /** How many timeouts a hand can still take before it rests. */
  ghost function Patience(d: Desk): nat
    requires Shaped(d)
  {
    if Resting(d) then 0
    else if d.phase == Shuffling then 200 + (if |QualOf(d)| >= d.step then |QualOf(d)| - d.step else 0)
    else if d.phase == Dealing then 150
    else if d.phase == AwaitShowdown then HiddenCount(d, 0)
    else if |d.board| <= 5 then 105 - |d.board| else 0
  }

  lemma {:induction false} HiddenAtMost(d: Desk, p: nat)
    requires Shaped(d)
    ensures HiddenCount(d, p) <= if p <= |d.deck| then |d.deck| - p else 0
    decreases |d.deck| - p
  {
    hide Hidden;
    if p < |d.deck| { HiddenAtMost(d, p + 1); }
  }

  lemma {:induction false} HiddenAtLeast(d: Desk, p: nat)
    requires Shaped(d) && FirstHidden(d, p).Some?
    ensures HiddenCount(d, p) >= 1
    decreases |d.deck| - p
  {
    hide Hidden;
    if p < |d.deck| && !Hidden(d, p) { HiddenAtLeast(d, p + 1); }
  }

  /** A hand the committee has to move: live, sealed, with a committee at the threshold. */
  ghost predicate Moving(d: Desk, F: seq<int>, k: Scalar) {
    Live(d) && Sealed(d, F, k) && |QualOf(d)| >= d.threshold && !Resting(d)
  }

  /** Progress wears down the patience. */
  lemma PatienceFalls(d: Desk, r: Desk)
    requires Live(d) && !Resting(d) && Shaped(r) && Progress(d, r) && (r.phase == Refunded || Live(r))
    ensures Patience(r) < Patience(d)
  {
    hide HiddenCount, Hidden, Qual, Dealt, SharesMatchKeys, FirstHidden, ContendersPlaced, SomeContends, RevealsFit;
    HiddenAtMost(r, 0);
    if d.phase == AwaitShowdown { HiddenAtLeast(d, 0); }
  }

  /** THEOREM.  A timeout of a moving hand past its deadline succeeds, and leaves a hand that rests or is moving with
      less patience. */
  lemma ExpiryMoves(d: Desk, now: int, F: seq<int>, k: Scalar)
    requires Moving(d, F, k) && Overdue(d, now)
    ensures var r := Expiry(d, now);
      r.Ok? && Shaped(r.value) && Patience(r.value) < Patience(d) && (Resting(r.value) || Moving(r.value, F, k))
  {
    hide Sealed, Progress, Patience, Expiry, DeskOk, Scheduled, Qual;
    DealingFacts(d);
    TimeoutProgresses(d, now, F, k);
    KeepsExpiry(d, now);
    ExpirySame(d, now);
    var r := Expiry(d, now).value;
    PatienceFalls(d, r);
    SealedSame(d, r, F, k);
  }

  /** `ds` are the states of a hand that nothing but timeouts moves, each past the deadline of its phase. */
  ghost predicate TimeoutRun(ds: seq<Desk>) {
    ds != [] && forall i, j :: 0 <= i && j == i + 1 && j < |ds| ==> TimesOut(ds[i], ds[j])
  }

  ghost predicate TimesOut(d: Desk, r: Desk) {
    Live(d) && !Resting(d) && exists now :: Overdue(d, now) && Expiry(d, now) == Ok(r)
  }

  /** THEOREM.  However late the timeouts come, a moving hand rests after no more of them than its patience: it is
      refunded, handed to the players, or has all its cards shown. */
  lemma {:induction false} TimeoutsEnd(ds: seq<Desk>, F: seq<int>, k: Scalar)
    requires TimeoutRun(ds) && Moving(ds[0], F, k)
    ensures Shaped(ds[0]) && |ds| <= Patience(ds[0]) + 1
    ensures forall i :: 0 <= i < |ds| - 1 ==> Moving(ds[i], F, k)
    ensures Resting(ds[|ds| - 1]) || Moving(ds[|ds| - 1], F, k)
  {
    hide Moving, Patience, Expiry, Overdue, TimesOut;
    MovingShaped(ds[0], F, k);
    if |ds| > 1 {
      var rest := ds[1..];
      assert forall i :: 0 <= i < |rest| ==> rest[i] == ds[i + 1];
      assert TimesOut(ds[0], ds[1]);
      TimesOutMoves(ds[0], ds[1], F, k);
      if |ds| > 2 { assert TimesOut(ds[1], ds[2]); StillMoving(ds[1], ds[2]); }
      if Moving(ds[1], F, k) {
        TimeoutsEnd(rest, F, k);
        forall i | 0 <= i < |ds| - 1
          ensures Moving(ds[i], F, k)
        {
          if i > 0 { assert ds[i] == rest[i - 1]; }
        }
      }
    }
  }

  lemma MovingShaped(d: Desk, F: seq<int>, k: Scalar)
    requires Moving(d, F, k)
    ensures Shaped(d)
  {
  }

  lemma StillMoving(d: Desk, r: Desk)
    requires TimesOut(d, r)
    ensures !Resting(d)
  {
  }

  lemma TimesOutMoves(d: Desk, r: Desk, F: seq<int>, k: Scalar)
    requires Moving(d, F, k) && TimesOut(d, r)
    ensures Shaped(d) && Shaped(r) && Patience(r) < Patience(d) && (Resting(r) || Moving(r, F, k))
  {
    hide Patience, Expiry, Overdue, Sealed, DeskOk, Scheduled;
    DealingFacts(d);
    var now :| Overdue(d, now) && Expiry(d, now) == Ok(r);
    ExpiryMoves(d, now, F, k);
  }

  // ---------------------------------------------------------------- the start

  /** Everything a hand starts from: seats, keys and a fresh deck under the key of the hand. */
  ghost predicate StartOk(d: Desk) {
    && Shaped(d) && DistinctIds(d.members) && d.threshold > 0 && SeatsKeyed(d) && |d.deck| == DECK && SomeContends(d)
  }

  /** THEOREM.  The desk a hand starts with is live, and waits for the committee. */
  lemma InitialLive(e: Epoch, timeout: nat, stack: seq<Option<nat>>, key: seq<Option<Key>>, button: nat, first: nat,
                    actionOn: Option<nat>, inHand: seq<bool>, allIn: seq<bool>, commit: seq<nat>, deck: seq<Ciphertext>, now: int)
    requires StartOk(InitialDesk(e, timeout, stack, key, button, first, actionOn, inHand, allIn, commit, deck, now))
    ensures var d := InitialDesk(e, timeout, stack, key, button, first, actionOn, inHand, allIn, commit, deck, now);
      Live(d) && !Resting(d) && Patience(d) <= 200 + |e.members|
  {
    hide ExpectedPos, SomeContends, SeatsKeyed, DistinctIds;
    QualSpec(e.members, e.slashed);
  }
}
