/** Who may do what in a hand, and until when: the exact guards of the dealer messages, in terms of the committee. */
module DealerWindows {
  import opened Zq
  import opened Outcome
  import opened ElGamal
  import opened Dkg
  import opened DealerHand
  import opened DealerProgress
  import opened DealerTimeout
  import opened Threshold

  ghost predicate Qualified(d: Desk, id: Id) { exists i :: 0 <= i < |QualOf(d)| && QualOf(d)[i].id == id }

  lemma QualifiedIs(d: Desk, id: Id)
    requires DistinctIds(d.members)
    ensures Qualified(d, id) <==> InCommittee(d, id) && id !in d.slashed
  {
    hide Qual;
    QualSpec(d.members, d.slashed);
    if Qualified(d, id) {
      var i :| 0 <= i < |QualOf(d)| && QualOf(d)[i].id == id;
      assert QualOf(d)[i] in d.members;
      var j :| 0 <= j < |d.members| && d.members[j] == QualOf(d)[i];
      IndexFound(d.members, j);
    }
    if InCommittee(d, id) && id !in d.slashed {
      IndexIn(d.members, id);
      var j :| 0 <= j < |d.members| && d.members[j].id == id;
      assert d.members[j] in QualOf(d);
    }
  }

  /** THEOREM.  A shuffle is accepted if and only if it comes before the deadline, with a verified deck, from the one
      qualified member whose turn it is. */
  lemma ShuffleAcceptedIff(d: Desk, now: int, who: Id, round: nat, out: Option<seq<Ciphertext>>)
    requires Live(d) && d.phase == Shuffling && who != ""
    ensures SubmitShuffle(d, now, who, round, out).Ok? <==>
      now < d.shuffleBy.value && out.Some? && round == d.step + 1 && d.step < |QualOf(d)| && QualOf(d)[d.step].id == who
  {
    hide Qual, SomeContends, RevealsFit, SeatsKeyed;
    if d.step < |QualOf(d)| && QualOf(d)[d.step].id == who { QualifiedIs(d, who); }
  }

  /** THEOREM.  A deck is finalized if and only if as many shuffles have been accepted as there are qualified members,
      and those are enough; the hole shares are then due one timeout later. */
  lemma DeckFinalizedIff(d: Desk, now: int)
    requires Live(d) && d.phase == Shuffling
    ensures FinalizeDeck(d, now).Ok? <==> d.threshold <= |QualOf(d)| == d.step
    ensures FinalizeDeck(d, now).Ok? ==> FinalizeDeck(d, now).value.phase == Dealing && FinalizeDeck(d, now).value.holeBy == Some(now + d.timeout)
  {
    hide Qual, HolePositions, Order;
  }

  /** THEOREM.  An encrypted share is accepted if and only if it comes before the deadline, with a verified proof, from a
      qualified member that has not shared the position, under the key of the seat dealt that position. */
  lemma EncShareAcceptedIff(d: Desk, now: int, who: Id, p: nat, key: Key, proven: bool)
    requires Live(d) && d.phase == Dealing && who != ""
    ensures SubmitEncShare(d, now, who, p, key, proven).Ok? <==>
      now < d.holeBy.value && proven && Qualified(d, who) && (p, who) !in d.encShares && p < |d.deck| && KeyAt(d, p, key)
  {
    hide Qual, Qualified, SharesMatchKeys, SomeContends, RevealsFit, KeyAt, AllReady, SeatsPlaced, ContendersPlaced, Dealt;
    AllPlaced(d);
    CursorBelow(d);
    QualifiedIs(d, who);
    var r := d.(encShares := d.encShares[(p, who) := key]);
    var b := r.(holeBy := None, phase := if r.actionOn.None? then AwaitFlop else Phase.Betting);
    PlacedStays(d, b);
    SetRevealOk(b, now);
    PlacedSame(d, r);
  }

  lemma PlacedSame(d: Desk, r: Desk)
    requires Shaped(d) && r == d.(encShares := r.encShares)
    ensures (SeatsPlaced(r) <==> SeatsPlaced(d)) && (SeatsKeyed(r) <==> SeatsKeyed(d))
  {
  }

  /** THEOREM.  A public share is accepted if and only if it is of the one position due, comes before the deadline, with
      a verified proof, from a qualified member that has not shared it. */
  lemma PubShareAcceptedIff(d: Desk, now: int, who: Id, p: nat, share: Point, proven: bool)
    requires Live(d) && Waits(d.phase) && who != ""
    ensures SubmitPubShare(d, now, who, p, share, proven).Ok? <==>
      d.revealPos == Some(p) && now < d.revealBy.value && proven && Qualified(d, who) && (p, who) !in d.pubShares
  {
    hide Qual, Qualified, SharesMatchKeys, SomeContends, RevealsFit, SeatsKeyed, ContendersPlaced, Dealt, FirstHidden;
    QualifiedIs(d, who);
    DueInDeck(d);
  }

  /** THEOREM.  The card due is opened if and only if a threshold of members have shared it, and either the deadline has
      not passed or every qualified member has shared it. */
  lemma RevealAcceptedIff(d: Desk, now: int, F: seq<int>, k: Scalar)
    requires Live(d) && Sealed(d, F, k) && Waits(d.phase)
    ensures FinalizeReveal(d, now).Ok? <==>
      && |SharersOf(d, d.revealPos.value)| >= d.threshold
      && (now < d.revealBy.value || forall i :: 0 <= i < |QualOf(d)| ==> (d.revealPos.value, QualOf(d)[i].id) in d.pubShares)
    ensures FinalizeReveal(d, now).Ok? ==> d.revealPos.value < |d.deck| && Opened(d, FinalizeReveal(d, now).value, d.revealPos.value, F, k)
  {
    hide Qual, SharesMatchKeys, SomeContends, RevealsFit, SeatsKeyed, ContendersPlaced, Dealt, FirstHidden, OpenedCard, ApplyReveal, Sealed, SharersOf,
      CardPoint, Decrypt;
    DueInDeck(d);
    var p := d.revealPos.value;
    NobodyMissingIff(d, p);
    if |SharersOf(d, p)| >= d.threshold {
      CardOpens(d, F, k, p);
      var card := OpenedCard(d, p).value;
      var b := d.(revealed := d.revealed[p := card]);
      RevealGoesOn(d, b, p, card, now);
      ApplyKeeps(b, p, card, now);
    }
  }

  lemma NobodyMissingIff(d: Desk, p: nat)
    ensures MissingPub(d, p) == {} <==> forall i :: 0 <= i < |QualOf(d)| ==> (p, QualOf(d)[i].id) in d.pubShares
  {
    hide Qual;
    if i :| 0 <= i < |QualOf(d)| && (p, QualOf(d)[i].id) !in d.pubShares {
      assert QualOf(d)[i].id in MissingPub(d, p);
    }
  }

  /** A committee whose members have all shuffled: once one of them is slashed at another table, neither
      the timeout nor the finalization of this hand can succeed. */
  lemma SlashedElsewhere(d: Desk, now: int, i: nat)
    requires Live(d) && d.phase == Shuffling && Overdue(d, now) && i < d.step == |QualOf(d)| && 2 <= |QualOf(d)|
    ensures var r := Slash(d, {QualOf(d)[i].id}); Expiry(r, now).Err? && FinalizeDeck(r, now).Err?
  {
    hide Qual, SomeContends, RevealsFit, SeatsKeyed, HolePositions, Order;
    SlashOne(d.members, d.slashed, i);
    ShuffleStuckIff(Slash(d, {QualOf(d)[i].id}), now);
  }

  // ---------------------------------------------------------------- the clock

  /** The deadline of the phase the hand is in lies one timeout ahead. */
  ghost predicate ClockAt(d: Desk, now: int) {
    && (d.phase == Shuffling ==> d.shuffleBy == Some(now + d.timeout))
    && (d.phase == Dealing ==> d.holeBy == Some(now + d.timeout))
    && (Waits(d.phase) && d.revealPos.Some? ==> d.revealBy == Some(now + d.timeout))
  }

  lemma RevealClock(d: Desk, now: int)
    requires Shaped(d) && SetReveal(d, now).Ok? && d.phase !in {Shuffling, Dealing}
    ensures ClockAt(SetReveal(d, now).value, now) && SetReveal(d, now).value.timeout == d.timeout
  {
    hide ExpectedPos;
  }

  lemma ApplyClock(d: Desk, p: nat, card: nat, now: int)
    requires Shaped(d) && ApplyReveal(d, p, card, now).Ok?
    ensures ClockAt(ApplyReveal(d, p, card, now).value, now)
  {
    hide SetReveal, ContendersPlaced, FirstHidden, WithChips, FirstToAct;
    if d.phase in {AwaitFlop, AwaitTurn, AwaitRiver} {
      RevealClock(BoardGrown(d, card), now);
    } else if FirstHidden(d, 0).Some? {
      RevealClock(d, now);
    }
  }

  /** THEOREM.  Every step that moves the hand on restarts the clock: whoever is waited for next has one whole timeout. */
  lemma ClockRestarts(d: Desk, now: int, b: Bets, who: Id, round: nat, out: Option<seq<Ciphertext>>)
    requires Shaped(d)
    ensures SubmitShuffle(d, now, who, round, out).Ok? ==> ClockAt(SubmitShuffle(d, now, who, round, out).value, now)
    ensures FinalizeDeck(d, now).Ok? ==> ClockAt(FinalizeDeck(d, now).value, now)
    ensures FinalizeReveal(d, now).Ok? ==> ClockAt(FinalizeReveal(d, now).value, now)
    ensures CloseStreet(d, b, now).Ok? ==> ClockAt(CloseStreet(d, b, now).value, now)
  {
    hide SetReveal, ApplyReveal, Qual, HolePositions, Order, OpenedCard, ExpectedPos, MissingPub, SharersOf;
    if FinalizeReveal(d, now).Ok? {
      var p := ExpectedPos(d).value.value;
      ApplyClock(d.(revealed := d.revealed[p := OpenedCard(d, p).value]), p, OpenedCard(d, p).value, now);
    }
    if CloseStreet(d, b, now).Ok? {
      var next := if |d.board| == 0 then AwaitFlop else if |d.board| == 3 then AwaitTurn else if |d.board| == 4 then AwaitRiver else AwaitShowdown;
      RevealClock(d.(stack := b.stack, commit := b.commit, folded := b.folded, allIn := b.allIn, phase := next, actionOn := None), now);
    }
  }

  /** THEOREM.  So does a timeout. */
  lemma ExpiryRestarts(d: Desk, now: int)
    requires Shaped(d) && Expiry(d, now).Ok?
    ensures ClockAt(Expiry(d, now).value, now)
  {
    hide SetReveal, FinalizeReveal, Qual, HolePositions, Order, MissingPub, MissingHole, AllReady, SeatsPlaced, SeatsKeyed, ExpectedPos;
    if d.phase == Dealing {
      var r := Slash(d, MissingHole(d));
      var o := r.(holeBy := None, phase := if r.actionOn.None? then AwaitFlop else Phase.Betting);
      if SetReveal(o, now).Ok? { RevealClock(o, now); }
    } else if d.phase != Shuffling {
      var r := Slash(d, MissingPub(d, ExpectedPos(d).value.value));
      ClockRestarts(r, now, Bets([], [], [], []), "", 0, None);
    }
  }
}
