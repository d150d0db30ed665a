/** The dealer hand as the chain runs it: an object its transactions update in place, tied to the steps in `DealerHand`. */
module DealerMachine {
  import opened Zq
  import opened Outcome
  import opened ElGamal
  import opened Primitives
  import opened Dkg
  import opened DealerHand
  import opened DealerProgress
  import ShuffleFormat
  import ShuffleVerifier
  import Threshold

  /** `holeDealOrder` */
  method DealOrder(inHand: seq<bool>, first: nat) returns (o: seq<nat>)
    requires |inHand| == SEATS
    ensures o == Order(inHand, first)
  {
    hide SeatAfter;
    o := [];
    for off := 0 to SEATS
      invariant o + OrderFrom(inHand, first, off) == Order(inHand, first)
    {
      var s := SeatAfter(first, off);
      OrderStep(inHand, first, off, o);
      if inHand[s] {
        o := o + [s];
      }
    }
    assert o + [] == o;
  }

  lemma OrderStep(inHand: seq<bool>, first: nat, off: nat, o: seq<nat>)
    requires |inHand| == SEATS && off < SEATS
    ensures var s := SeatAfter(first, off);
      o + OrderFrom(inHand, first, off) == (if inHand[s] then o + [s] else o) + OrderFrom(inHand, first, off + 1)
  {
    hide SeatAfter;
  }

  lemma OrderGood(inHand: seq<bool>, first: nat)
    requires |inHand| == SEATS && first < SEATS
    ensures NoRepeat(Order(inHand, first)) && forall i :: 0 <= i < |Order(inHand, first)| ==> Order(inHand, first)[i] < SEATS
  {
    OrderNoRepeat(inHand, first, 0);
  }

  lemma FindSame(o: seq<nat>, i: nat)
    requires NoRepeat(o) && i < |o|
    ensures Find(o, o[i]) == Some(i)
  {
    var j := Find(o, o[i]).value;
    assert o[j] == o[i];
  }

  /** Slot (s, c') has been dealt once `i` seats of round `c` are done. */
  ghost predicate Done(o: seq<nat>, s: nat, c': nat, c: nat, i: nat) {
    c' < c || (c' == c && Find(o, s).Some? && Find(o, s).value < i)
  }

  ghost predicate DealtSoFar(p: seq<Option<nat>>, o: seq<nat>, cards: nat, c: nat, i: nat) {
    && |p| == 2 * SEATS
    && forall s, c' :: 0 <= s < SEATS && 0 <= c' < 2 ==> p[Slot(s, c')] == if Done(o, s, c', c, i) then HolePosition(o, cards, s, c') else None
  }

  lemma DealOne(p: seq<Option<nat>>, o: seq<nat>, cards: nat, c: nat, i: nat, pos: nat)
    requires NoRepeat(o) && c < 2 && i < |o| && o[i] < SEATS && DealtSoFar(p, o, cards, c, i) && pos == c * |o| + i < cards
    ensures DealtSoFar(p[Slot(o[i], c) := Some(pos)], o, cards, c, i + 1)
  {
    hide Find, HolePosition, Done;
    var q := p[Slot(o[i], c) := Some(pos)];
    forall s, c' | 0 <= s < SEATS && 0 <= c' < 2
      ensures q[Slot(s, c')] == if Done(o, s, c', c, i + 1) then HolePosition(o, cards, s, c') else None
    {
      assert p[Slot(s, c')] == if Done(o, s, c', c, i) then HolePosition(o, cards, s, c') else None;
      DoneNext(o, s, c', c, i);
      if s == o[i] && c' == c { PositionNow(o, cards, c, i); }
    }
  }

  lemma DoneNext(o: seq<nat>, s: nat, c': nat, c: nat, i: nat)
    requires NoRepeat(o) && i < |o|
    ensures Done(o, s, c', c, i + 1) <==> Done(o, s, c', c, i) || (s == o[i] && c' == c)
  {
    hide Find;
    FindSame(o, i);
    if Find(o, s) == Some(i) { assert s == o[i]; }
  }

  lemma PositionNow(o: seq<nat>, cards: nat, c: nat, i: nat)
    requires NoRepeat(o) && i < |o| && c * |o| + i < cards
    ensures HolePosition(o, cards, o[i], c) == Some(c * |o| + i)
  {
    hide Find;
    FindSame(o, i);
  }

  /** Once the deck has run out the remaining slots stay empty. */
  lemma DealNoMore(p: seq<Option<nat>>, o: seq<nat>, cards: nat, c: nat, i: nat)
    requires c < 2 && i <= |o| && DealtSoFar(p, o, cards, c, i) && c * |o| + i >= cards
    ensures DealtSoFar(p, o, cards, c, |o|)
  {
    hide Find;
    forall s, c' | 0 <= s < SEATS && 0 <= c' < 2
      ensures p[Slot(s, c')] == if Done(o, s, c', c, |o|) then HolePosition(o, cards, s, c') else None
    {
      assert p[Slot(s, c')] == if Done(o, s, c', c, i) then HolePosition(o, cards, s, c') else None;
    }
  }

  lemma RoundDone(p: seq<Option<nat>>, o: seq<nat>, cards: nat, c: nat)
    requires c < 2 && DealtSoFar(p, o, cards, c, |o|)
    ensures DealtSoFar(p, o, cards, c + 1, 0)
  {
    hide Find;
    forall s, c' | 0 <= s < SEATS && 0 <= c' < 2
      ensures p[Slot(s, c')] == if Done(o, s, c', c + 1, 0) then HolePosition(o, cards, s, c') else None
    {
      assert p[Slot(s, c')] == if Done(o, s, c', c, |o|) then HolePosition(o, cards, s, c') else None;
    }
  }

  /** Two rounds of dealing, from the top of the deck until it runs out. */
  method DealPositions(o: seq<nat>, cards: nat) returns (p: seq<Option<nat>>, pos: nat)
    requires NoRepeat(o) && forall i :: 0 <= i < |o| ==> o[i] < SEATS
    ensures p == HolePositions(o, cards) && pos == if 2 * |o| <= cards then 2 * |o| else cards
  {
    hide Find, HolePosition, NoRepeat, DealtSoFar;
    p, pos := seq(2 * SEATS, _ => None), 0;
    NothingDealt(p, o, cards);
    for c := 0 to 2
      invariant DealtSoFar(p, o, cards, c, 0)
      invariant pos == if c * |o| <= cards then c * |o| else cards
    {
      var i := 0;
      while i < |o| && pos < cards
        invariant 0 <= i <= |o| && DealtSoFar(p, o, cards, c, i)
        invariant pos == if c * |o| + i <= cards then c * |o| + i else cards
      {
        DealOne(p, o, cards, c, i, pos);
        SoFarLength(p, o, cards, c, i);
        p := p[Slot(o[i], c) := Some(pos)];
        pos := pos + 1;
        i := i + 1;
      }
      if i < |o| { DealNoMore(p, o, cards, c, i); }
      RoundDone(p, o, cards, c);
    }
    AllDealt(p, o, cards);
  }

  lemma NothingDealt(p: seq<Option<nat>>, o: seq<nat>, cards: nat)
    requires |p| == 2 * SEATS && forall j :: 0 <= j < |p| ==> p[j] == None
    ensures DealtSoFar(p, o, cards, 0, 0)
  {
  }

  lemma SoFarLength(p: seq<Option<nat>>, o: seq<nat>, cards: nat, c: nat, i: nat)
    requires DealtSoFar(p, o, cards, c, i)
    ensures |p| == 2 * SEATS
  {
  }

  lemma AllDealt(p: seq<Option<nat>>, o: seq<nat>, cards: nat)
    requires DealtSoFar(p, o, cards, 2, 0)
    ensures p == HolePositions(o, cards)
  {
    hide Find, HolePosition;
    forall j | 0 <= j < 2 * SEATS
      ensures p[j] == HolePositions(o, cards)[j]
    {
      assert j == Slot(j / 2, j % 2);
    }
  }

  class Machine {
    const threshold: nat
    const members: seq<Member>
    const timeout: nat
    var slashed: set<Id>
    var stack: seq<Option<nat>>
    var key: seq<Option<Key>>
    var phase: Phase
    var button: nat
    var first: nat
    var actionOn: Option<nat>
    var inHand: seq<bool>
    var folded: seq<bool>
    var allIn: seq<bool>
    var commit: seq<nat>
    var board: seq<nat>
    var deck: seq<Ciphertext>
    var step: nat
    var shuffleBy: Option<int>
    var holeBy: Option<int>
    var holePos: seq<Option<nat>>
    var cursor: nat
    var encShares: map<(nat, Id), Key>
    var pubShares: map<(nat, Id), Point>
    var revealed: map<nat, nat>
    var revealPos: Option<nat>
    var revealBy: Option<int>

    ghost function View(): Desk
      reads this
    {
      Desk(threshold, members, slashed, timeout, stack, key, phase, button, first, actionOn, inHand, folded, allIn, commit, board,
           deck, step, shuffleBy, holeBy, holePos, cursor, encShares, pubShares, revealed, revealPos, revealBy)
    }

    method QualMembers() returns (q: seq<Member>)
      ensures q == QualOf(View())
    {
      q := [];
      for i := 0 to |members|
        invariant q == Qual(members[..i], slashed)
      {
        QualStep(members, slashed, i);
        if members[i].id !in slashed {
          q := q + [members[i]];
        }
      }
      assert members[..|members|] == members;
    }

    method Knows(id: Id) returns (b: bool)
      ensures b <==> InCommittee(View(), id)
    {
      for i := 0 to |members|
        invariant IndexOf(members, id) == IndexOf(members[i..], id)
      {
        assert members[i..][1..] == members[i + 1..];
        if members[i].id == id {
          return true;
        }
      }
      b := false;
    }

    /** `dealerSubmitShuffle`, verifying the proof bytes. */
    method SubmitShuffle(S: Suite, pk: Point, now: int, who: Id, round: nat, proof: Bytes) returns (ok: bool)
      modifies this`deck, this`step, this`shuffleBy
      ensures ok <==> DealerHand.SubmitShuffle(old(View()), now, who, round, Verified(S, pk, old(deck), proof)).Ok?
      ensures View() == Try(old(View()), DealerHand.SubmitShuffle(old(View()), now, who, round, Verified(S, pk, old(deck), proof)))
    {
      hide Verified, ShuffleTurn, DealerHand.SubmitShuffle;
      ghost var d := View();
      ShuffleWhen(d, now, who, round, Verified(S, pk, deck, proof));
      var turn := IsTurn(now, who, round);
      if !turn {
        return false;
      }
      var out := Verify(S, pk, deck, proof);
      if out.None? {
        return false;
      }
      deck, step, shuffleBy := out.value, round, Some(now + timeout);
      ok := true;
    }

    method IsTurn(now: int, who: Id, round: nat) returns (turn: bool)
      ensures turn <==> ShuffleTurn(View(), now, who, round)
    {
      hide Qual, InCommittee;
      if phase != Shuffling || (shuffleBy.Some? && now >= shuffleBy.value) || round != step + 1 || who == "" {
        return false;
      }
      var known := Knows(who);
      if !known || who in slashed {
        return false;
      }
      var q := QualMembers();
      turn := step < |q| && q[step].id == who;
    }

    /** `dealerFinalizeDeck` */
    method FinalizeDeck(now: int) returns (ok: bool)
      requires Shaped(View())
      modifies this`phase, this`holePos, this`cursor, this`shuffleBy, this`holeBy, this`revealPos, this`revealBy
      ensures ok <==> DealerHand.FinalizeDeck(old(View()), now).Ok?
      ensures View() == Try(old(View()), DealerHand.FinalizeDeck(old(View()), now))
    {
      hide Qual, HolePositions, Order, HolePosition, DealerHand.FinalizeDeck;
      ghost var d := View();
      FinalizeWhen(d, now);
      if phase != Shuffling {
        return false;
      }
      var q := QualMembers();
      if |q| < threshold || step != |q| {
        return false;
      }
      var p, pos := PlanDeal();
      phase, holePos, cursor := Dealing, p, pos;
      shuffleBy, holeBy, revealPos, revealBy := None, Some(now + timeout), None, None;
      ok := true;
    }

    method PlanDeal() returns (p: seq<Option<nat>>, pos: nat)
      requires Shaped(View())
      ensures p == HolePositions(Order(inHand, first), |deck|)
      ensures pos == if 2 * |Order(inHand, first)| <= |deck| then 2 * |Order(inHand, first)| else |deck|
    {
      hide HolePositions, Order, HolePosition;
      var o := DealOrder(inHand, first);
      OrderGood(inHand, first);
      p, pos := DealPositions(o, |deck|);
    }

    /** `abortHandRefundAllCommits` */
    method RefundAll()
      requires Shaped(View())
      modifies this
      ensures View() == Abort(old(View()))
    {
      ghost var was := stack;
      for i := 0 to SEATS
        invariant |stack| == SEATS
        invariant View() == old(View()).(stack := stack)
        invariant forall j :: 0 <= j < i ==> stack[j] == if was[j].Some? then Some(was[j].value + commit[j]) else None
        invariant forall j :: i <= j < SEATS ==> stack[j] == was[j]
      {
        if stack[i].Some? {
          stack := stack[i := Some(stack[i].value + commit[i])];
        }
      }
      phase, actionOn := Refunded, None;
      assert stack == Abort(old(View())).stack;
    }

    /** The shuffle branch of `dealerTimeout`. */
    method ShuffleExpires(now: int) returns (ok: bool)
      requires Shaped(View()) && threshold > 0 && phase == Shuffling
      modifies this
      ensures var r := Expiry(old(View()), now);
        (ok <==> r.Ok?) && View() == if ok then r.value else old(View())
    {
      hide Qual, HolePositions, DealerHand.FinalizeDeck, Abort;
      if shuffleBy.None? || now < shuffleBy.value {
        return false;
      }
      var q := QualMembers();
      if |q| == 0 {
        RefundAll();
        return true;
      }
      if step == |q| {
        ok := FinalizeDeck(now);
        return;
      }
      if step > |q| {
        return false;
      }
      ghost var d := View();
      FinalizeAfterSlash(d, now);
      slashed := slashed + {q[step].id};
      q := QualMembers();
      if |q| < threshold {
        RefundAll();
        return true;
      }
      if step == |q| {
        ok := FinalizeDeck(now);
        return;
      }
      shuffleBy := Some(now + timeout);
      ok := true;
    }

    /** `dealerMissingHoleEncShares` for a table whose seats all have positions. */
    method FindMissingHole() returns (missing: set<Id>)
      requires Shaped(View()) && SeatsPlaced(View())
      ensures missing == MissingHole(View())
    {
      hide Qual;
      var q := QualMembers();
      missing := {};
      for i := 0 to |q|
        invariant missing == set j | 0 <= j < i && !AllHandedIn(View(), q[j].id) :: q[j].id
      {
        var all := HasHandedIn(q[i].id);
        if !all {
          missing := missing + {q[i].id};
        }
      }
    }

    method HasHandedIn(id: Id) returns (all: bool)
      requires Shaped(View()) && SeatsPlaced(View())
      ensures all <==> AllHandedIn(View(), id)
    {
      for s := 0 to SEATS
        invariant forall s', c :: 0 <= s' < s && 0 <= c < 2 && inHand[s'] ==> HandedIn(View(), s', c, id)
      {
        if inHand[s] {
          for c := 0 to 2
            invariant forall c' :: 0 <= c' < c ==> HandedIn(View(), s, c', id)
          {
            assert holePos[Slot(s, c)].Some?;
            if (holePos[Slot(s, c)].value, id) !in encShares {
              assert !HandedIn(View(), s, c, id);
              return false;
            }
          }
        }
      }
      all := true;
    }

    /** The decision of `dealerFinalizeReveal` for position `p`: the card the recorded shares combine to. */
    method OpenCard(p: nat) returns (card: Result<nat>)
      requires p < |deck| && 2 <= |deck| <= Threshold.DECK && Numbered(members)
      ensures card == OpenedCard(View(), p)
    {
      hide Threshold.RevealedCard, SharesFrom;
      var shares := SharesFor(View(), members, pubShares, p);
      InMemberOrder(View(), p, 0);
      ghost var sorted;
      card, sorted := Threshold.RevealCard(shares, threshold, deck[p], |deck|);
    }
  }

  /** The committee numbers its members from one, in order. */
  ghost predicate Numbered(ms: seq<Member>) {
    forall i :: 0 <= i < |ms| ==> ms[i].index == i + 1
  }

  /** Shares collected in member order are in index order. */
  lemma {:induction false} InMemberOrder(d: Desk, p: nat, i: nat)
    requires Numbered(d.members)
    ensures Threshold.ByIndex(SharesFrom(d, p, i)) && forall n :: 0 <= n < |SharesFrom(d, p, i)| ==> SharesFrom(d, p, i)[n].index > i
    decreases |d.members| - i
  {
    if i < |d.members| { InMemberOrder(d, p, i + 1); }
  }

  /** The shares of position `p`, in member order. */
  method SharesFor(ghost d: Desk, members: seq<Member>, pubShares: map<(nat, Id), Point>, p: nat) returns (shares: seq<Threshold.Share>)
    requires d.members == members && d.pubShares == pubShares
    ensures shares == SharesFrom(d, p, 0)
  {
    shares := [];
    for i := 0 to |members|
      invariant shares + SharesFrom(d, p, i) == SharesFrom(d, p, 0)
    {
      SharesNext(d, p, i, shares);
      if (p, members[i].id) in pubShares {
        shares := shares + [Threshold.Share(members[i].index, pubShares[(p, members[i].id)])];
      }
    }
    assert shares + [] == shares;
  }

  lemma SharesNext(d: Desk, p: nat, i: nat, shares: seq<Threshold.Share>)
    requires i < |d.members|
    ensures shares + SharesFrom(d, p, i) ==
      (if (p, d.members[i].id) in d.pubShares then shares + [Threshold.Share(d.members[i].index, d.pubShares[(p, d.members[i].id)])] else shares)
      + SharesFrom(d, p, i + 1)
  {
  }

  /** The deck of a proof the verifier accepts. */
  ghost function Verified(S: Suite, pk: Point, deck: seq<Ciphertext>, proof: Bytes): Option<seq<Ciphertext>> {
    if ShuffleFormat.Accepts(S, pk, deck, proof, None) then Some(ShuffleFormat.DeckOut(S, deck, proof, None)) else None
  }

  method Verify(S: Suite, pk: Point, deck: seq<Ciphertext>, proof: Bytes) returns (out: Option<seq<Ciphertext>>)
    ensures out == Verified(S, pk, deck, proof)
  {
    hide ShuffleFormat.Accepts, ShuffleFormat.DeckOut;
    out := ShuffleVerifier.ShuffleVerify(S, pk, deck, proof, None);
  }

  /** It is the turn of `who` to shuffle, in time. */
  ghost predicate ShuffleTurn(d: Desk, now: int, who: Id, round: nat) {
    && d.phase == Shuffling && !(d.shuffleBy.Some? && now >= d.shuffleBy.value) && round == d.step + 1 && who != ""
    && InCommittee(d, who) && who !in d.slashed && d.step < |QualOf(d)| && QualOf(d)[d.step].id == who
  }

  lemma ShuffleWhen(d: Desk, now: int, who: Id, round: nat, out: Option<seq<Ciphertext>>)
    ensures var r := DealerHand.SubmitShuffle(d, now, who, round, out);
      && (r.Ok? <==> ShuffleTurn(d, now, who, round) && out.Some?)
      && (r.Ok? ==> r.value == d.(deck := out.value, step := round, shuffleBy := Some(now + d.timeout)))
  {
    hide Qual, InCommittee;
  }

  lemma FinalizeWhen(d: Desk, now: int)
    requires Shaped(d)
    ensures var r := DealerHand.FinalizeDeck(d, now);
      var n := |Order(d.inHand, d.first)|;
      && (r.Ok? <==> d.phase == Shuffling && |QualOf(d)| >= d.threshold && d.step == |QualOf(d)|)
      && (r.Ok? ==> r.value == d.(phase := Dealing, holePos := HolePositions(Order(d.inHand, d.first), |d.deck|),
                                  cursor := if 2 * n <= |d.deck| then 2 * n else |d.deck|, shuffleBy := None,
                                  holeBy := Some(now + d.timeout), revealPos := None, revealBy := None))
  {
    hide Qual, HolePositions, Order, HolePosition;
  }

  /** Nothing in the shuffle branch depends on whether the expected member was already slashed. */
  lemma FinalizeAfterSlash(d: Desk, now: int)
    requires Shaped(d) && d.phase == Shuffling && d.step < |QualOf(d)|
    ensures var r := Slash(d, {QualOf(d)[d.step].id});
      DealerHand.FinalizeDeck(r, now).Ok? <==> |QualOf(r)| >= d.threshold && d.step == |QualOf(r)|
  {
  }
}
