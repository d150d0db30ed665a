/** One hand under the dealer protocol (apps/chain/internal/app/dealer.go, poker.go): shuffling by the committee,
    encrypted hole shares, public reveals, deadlines and aborts.  A step either fails and changes nothing or gives
    the next state. */
module DealerHand {
  import opened Zq
  import opened Outcome
  import opened ElGamal
  import opened Dkg
  import Threshold

  const SEATS := 9

  type Key = Point

  /** The shuffle phase of the chain before and after deck finalization, betting, the waits for public cards, and
      the two ways out: all cards shown, or aborted with the commitments refunded. */
  datatype Phase = Shuffling | Dealing | Betting | AwaitFlop | AwaitTurn | AwaitRiver | AwaitShowdown | AllShown | Refunded

  datatype Desk = Desk(
    threshold: nat, members: seq<Member>, slashed: set<Id>,                                          // the epoch
    timeout: nat, stack: seq<Option<nat>>, key: seq<Option<Key>>,                                    // the table
    phase: Phase, button: nat, first: nat, actionOn: Option<nat>,                                    // the hand
    inHand: seq<bool>, folded: seq<bool>, allIn: seq<bool>, commit: seq<nat>, board: seq<nat>,
    deck: seq<Ciphertext>, step: nat, shuffleBy: Option<int>, holeBy: Option<int>,                   // the dealer hand
    holePos: seq<Option<nat>>, cursor: nat, encShares: map<(nat, Id), Key>, pubShares: map<(nat, Id), Point>,
    revealed: map<nat, nat>, revealPos: Option<nat>, revealBy: Option<int>)

  ghost predicate Shaped(d: Desk) {
    && |d.stack| == |d.key| == |d.inHand| == |d.folded| == |d.allIn| == |d.commit| == SEATS
    && d.button < SEATS && d.first < SEATS && |d.holePos| == 2 * SEATS
  }

  ghost function QualOf(d: Desk): seq<Member> { Qual(d.members, d.slashed) }

  ghost predicate InCommittee(d: Desk, id: Id) { IndexOf(d.members, id).Some? }

  // ---------------------------------------------------------------- shuffling

  /** `dealerSubmitShuffle`; `out` is the deck of a proof the verifier accepts. */
  ghost function SubmitShuffle(d: Desk, now: int, who: Id, round: nat, out: Option<seq<Ciphertext>>): Result<Desk> {
    if d.phase != Shuffling || (d.shuffleBy.Some? && now >= d.shuffleBy.value) || round != d.step + 1 || who == "" then Err
    else if !InCommittee(d, who) || who in d.slashed || d.step >= |QualOf(d)| || QualOf(d)[d.step].id != who || out.None? then Err
    else Ok(d.(deck := out.value, step := round, shuffleBy := Some(now + d.timeout)))
  }

  /** `holeDealOrder` from clockwise distance `off` on. */
  function OrderFrom(inHand: seq<bool>, first: nat, off: nat): (o: seq<nat>)
    requires |inHand| == SEATS
    ensures forall i :: 0 <= i < |o| ==> o[i] < SEATS && inHand[o[i]]
    decreases SEATS - off
  {
    if off >= SEATS then []
    else (if inHand[SeatAfter(first, off)] then [SeatAfter(first, off)] else []) + OrderFrom(inHand, first, off + 1)
  }

  /** The seat at clockwise distance `off`. */
  function SeatAfter(first: nat, off: nat): (s: nat)
    ensures s < SEATS
  {
    (first + off) % SEATS
  }

  function Order(inHand: seq<bool>, first: nat): seq<nat>
    requires |inHand| == SEATS
  {
    OrderFrom(inHand, first, 0)
  }

  ghost function Find(o: seq<nat>, x: nat): (r: Option<nat>)
    ensures r.Some? <==> x in o
    ensures r.Some? ==> r.value < |o| && o[r.value] == x
  {
    if x in o then var i: nat :| i < |o| && o[i] == x; Some(i) else None
  }

  /** The deck position of hole card `c` of seat `s`: the cards go round twice. */
  ghost function HolePosition(o: seq<nat>, cards: nat, s: nat, c: nat): Option<nat> {
    var i := Find(o, s);
    if i.None? || c * |o| + i.value >= cards then None else Some(c * |o| + i.value)
  }

  ghost function HolePositions(o: seq<nat>, cards: nat): (p: seq<Option<nat>>)
    ensures |p| == 2 * SEATS
    ensures forall s, c :: 0 <= s < SEATS && 0 <= c < 2 ==> p[Slot(s, c)] == HolePosition(o, cards, s, c)
  {
    seq(2 * SEATS, j requires 0 <= j < 2 * SEATS => HolePosition(o, cards, j / 2, j % 2))
  }

  function Slot(s: nat, c: nat): nat { 2 * s + c }

  ghost function FinalizeDeck(d: Desk, now: int): Result<Desk>
    requires Shaped(d)
  {
    if d.phase != Shuffling || |QualOf(d)| < d.threshold || d.step != |QualOf(d)| then Err
    else
      var o := Order(d.inHand, d.first);
      Ok(d.(phase := Dealing, holePos := HolePositions(o, |d.deck|), cursor := if 2 * |o| <= |d.deck| then 2 * |o| else |d.deck|,
            shuffleBy := None, holeBy := Some(now + d.timeout), revealPos := None, revealBy := None))
  }

  // ---------------------------------------------------------------- waiting for public cards

  ghost predicate Contends(d: Desk, s: nat)
    requires Shaped(d) && s < SEATS
  {
    d.inHand[s] && !d.folded[s]
  }

  /** Position `p` holds a hole card of a contender that is not public yet. */
  ghost predicate Hidden(d: Desk, p: nat)
    requires Shaped(d)
  {
    p !in d.revealed && exists s, c :: 0 <= s < SEATS && 0 <= c < 2 && Contends(d, s) && d.holePos[Slot(s, c)] == Some(p)
  }

  ghost function FirstHidden(d: Desk, p: nat): Option<nat>
    requires Shaped(d)
    decreases |d.deck| - p
  {
    if p >= |d.deck| then None else if Hidden(d, p) then Some(p) else FirstHidden(d, p + 1)
  }

  ghost predicate ContendersPlaced(d: Desk)
    requires Shaped(d)
  {
    forall s, c :: 0 <= s < SEATS && 0 <= c < 2 && Contends(d, s) ==> d.holePos[Slot(s, c)].Some?
  }

  /** The board size that completes the street a hand waits for. */
  function StreetSize(p: Phase): nat { if p == AwaitFlop then 3 else if p == AwaitTurn then 4 else 5 }

  /** The wait that follows when nobody can bet. */
  function NextWait(p: Phase): Phase {
    if p == AwaitFlop then AwaitTurn else if p == AwaitTurn then AwaitRiver else AwaitShowdown
  }

  /** `dealerExpectedRevealPos`: the position to open next, nothing, or an inconsistency. */
  ghost function ExpectedPos(d: Desk): Result<Option<nat>>
    requires Shaped(d)
  {
    if d.phase == Shuffling || |d.deck| == 0 then Err
    else if d.phase in {AwaitFlop, AwaitTurn, AwaitRiver} then
      var fits := if d.phase == AwaitFlop then |d.board| <= 2 else |d.board| == StreetSize(d.phase) - 1;
      if !fits || d.cursor + |d.board| >= |d.deck| then Err else Ok(Some(d.cursor + |d.board|))
    else if d.phase == AwaitShowdown then
      if |d.board| != 5 || !ContendersPlaced(d) then Err else Ok(FirstHidden(d, 0))
    else Ok(None)
  }

  /** `setRevealDeadlineIfAwaiting` */
  ghost function SetReveal(d: Desk, now: int): Result<Desk>
    requires Shaped(d)
  {
    var p := ExpectedPos(d);
    if p.Err? then Err
    else if p.value.None? then Ok(d.(revealPos := None, revealBy := None))
    else Ok(d.(revealPos := p.value, revealBy := Some(now + d.timeout)))
  }

  // ---------------------------------------------------------------- hole shares

  /** Who has handed in an encrypted share of position `p` under the key `k`. */
  ghost function SharesUnder(d: Desk, p: nat, k: Key): set<Id> {
    set e | e in d.encShares && e.0 == p && d.encShares[e] == k :: e.1
  }

  ghost predicate CardReady(d: Desk, s: nat, c: nat)
    requires Shaped(d) && s < SEATS && c < 2 && d.key[s].Some? && d.holePos[Slot(s, c)].Some?
  {
    |SharesUnder(d, d.holePos[Slot(s, c)].value, d.key[s].value)| >= d.threshold
  }

  ghost predicate SeatsPlaced(d: Desk)
    requires Shaped(d)
  {
    forall s, c :: 0 <= s < SEATS && 0 <= c < 2 && d.inHand[s] ==> d.holePos[Slot(s, c)].Some?
  }

  ghost predicate SeatsKeyed(d: Desk)
    requires Shaped(d)
  {
    forall s :: 0 <= s < SEATS && d.inHand[s] ==> d.key[s].Some?
  }

  ghost predicate AllReady(d: Desk)
    requires Shaped(d) && SeatsPlaced(d) && SeatsKeyed(d)
  {
    forall s, c :: 0 <= s < SEATS && 0 <= c < 2 && d.inHand[s] ==> CardReady(d, s, c)
  }

  /** Leave the shuffle phase: to the flop when nobody can act, to betting otherwise. */
  ghost function OpenBetting(d: Desk, now: int): Result<Desk>
    requires Shaped(d)
  {
    SetReveal(d.(holeBy := None, phase := if d.actionOn.None? then AwaitFlop else Betting), now)
  }

  /** `dealerSubmitEncShare`; `proven` says whether the proof of the encrypted share verifies. */
  ghost function SubmitEncShare(d: Desk, now: int, who: Id, p: nat, k: Key, proven: bool): Result<Desk>
    requires Shaped(d)
  {
    if d.phase != Dealing || d.holeBy.None? || now >= d.holeBy.value || who == "" || p >= |d.deck| then Err
    else if !InCommittee(d, who) || who in d.slashed || !KeyAt(d, p, k) || (p, who) in d.encShares || !proven then Err
    else
      var r := d.(encShares := d.encShares[(p, who) := k]);
      if d.threshold == 0 || !SeatsPlaced(d) || !SeatsKeyed(d) then Err
      else if AllReady(r) then OpenBetting(r, now)
      else Ok(r)
  }

  /** `p` is a hole position of a seat in the hand whose key is `k`. */
  ghost predicate KeyAt(d: Desk, p: nat, k: Key)
    requires Shaped(d)
  {
    exists s, c :: 0 <= s < SEATS && 0 <= c < 2 && d.inHand[s] && d.holePos[Slot(s, c)] == Some(p) && d.key[s] == Some(k)
  }

  /** The qualified members that have not handed in every hole share. */
  ghost function MissingHole(d: Desk): set<Id>
    requires Shaped(d) && SeatsPlaced(d)
  {
    set i | 0 <= i < |QualOf(d)| && !AllHandedIn(d, QualOf(d)[i].id) :: QualOf(d)[i].id
  }

  ghost predicate AllHandedIn(d: Desk, id: Id)
    requires Shaped(d) && SeatsPlaced(d)
  {
    forall s, c :: 0 <= s < SEATS && 0 <= c < 2 && d.inHand[s] ==> HandedIn(d, s, c, id)
  }

  ghost predicate HandedIn(d: Desk, s: nat, c: nat, id: Id)
    requires Shaped(d) && s < SEATS && c < 2 && d.holePos[Slot(s, c)].Some?
  {
    (d.holePos[Slot(s, c)].value, id) in d.encShares
  }

  // ---------------------------------------------------------------- reveals

  /** `dealerSubmitPubShare`; `proven` says whether the share proof verifies. */
  ghost function SubmitPubShare(d: Desk, now: int, who: Id, p: nat, share: Point, proven: bool): Result<Desk>
    requires Shaped(d)
  {
    if who == "" || ExpectedPos(d) != Ok(Some(p)) || d.revealPos != Some(p) || d.revealBy.None? || now >= d.revealBy.value then Err
    else if p >= |d.deck| || !InCommittee(d, who) || who in d.slashed || (p, who) in d.pubShares || !proven then Err
    else Ok(d.(pubShares := d.pubShares[(p, who) := share]))
  }

  ghost function SharersOf(d: Desk, p: nat): set<Id> {
    set e | e in d.pubShares && e.0 == p :: e.1
  }

  ghost function MissingPub(d: Desk, p: nat): set<Id> {
    set i | 0 <= i < |QualOf(d)| && (p, QualOf(d)[i].id) !in d.pubShares :: QualOf(d)[i].id
  }

  ghost function WithChips(d: Desk, s: nat): nat
    requires Shaped(d)
    decreases SEATS - s
  {
    if s >= SEATS then 0
    else (if Contends(d, s) && d.stack[s].Some? && d.stack[s].value > 0 then 1 else 0) + WithChips(d, s + 1)
  }

  /** The first seat after the button that can act on a fresh street. */
  ghost function FirstToAct(d: Desk, off: nat): Option<nat>
    requires Shaped(d)
    decreases SEATS + 1 - off
  {
    if off > SEATS then None
    else
      var s := SeatAfter(d.button, off);
      if Contends(d, s) && !d.allIn[s] then Some(s) else FirstToAct(d, off + 1)
  }

  /** The street is out: bet on it, or wait for the next card when fewer than two contenders have chips. */
  ghost function StreetOut(d: Desk, next: Phase): Desk
    requires Shaped(d)
  {
    if WithChips(d, 0) < 2 then d.(phase := next, actionOn := None)
    else d.(phase := Betting, actionOn := FirstToAct(d, 1))
  }

  /** The board with one more card, and the street it may complete. */
  ghost function BoardGrown(d: Desk, card: nat): (r: Desk)
    requires Shaped(d)
    ensures Shaped(r)
  {
    var b := d.(board := d.board + [card]);
    if |b.board| == StreetSize(d.phase) then StreetOut(b, NextWait(d.phase)) else b
  }

  /** `applyDealerRevealToPoker`, up to the settlement that follows once all cards are shown. */
  ghost function ApplyReveal(d: Desk, p: nat, card: nat, now: int): Result<Desk>
    requires Shaped(d)
  {
    if d.phase in {AwaitFlop, AwaitTurn, AwaitRiver} then
      if p != d.cursor + |d.board| then Err
      else SetReveal(BoardGrown(d, card), now)
    else if d.phase == AwaitShowdown then
      if !exists s, c :: 0 <= s < SEATS && 0 <= c < 2 && Contends(d, s) && d.holePos[Slot(s, c)] == Some(p) then Err
      else if !ContendersPlaced(d) then Err
      else if FirstHidden(d, 0).None? then Ok(d.(phase := AllShown, actionOn := None, revealPos := None, revealBy := None))
      else SetReveal(d, now)
    else Err
  }

  /** The shares of position `p` of the members from `i` on, in member order. */
  ghost function SharesFrom(d: Desk, p: nat, i: nat): seq<Threshold.Share>
    decreases |d.members| - i
  {
    if i >= |d.members| then []
    else
      (if (p, d.members[i].id) in d.pubShares
       then [Threshold.Share(d.members[i].index, d.pubShares[(p, d.members[i].id)])] else [])
      + SharesFrom(d, p, i + 1)
  }

  /** The card the recorded shares of position `p` combine to. */
  ghost function OpenedCard(d: Desk, p: nat): Result<nat>
    requires p < |d.deck|
  {
    Threshold.RevealedCard(SharesFrom(d, p, 0), d.threshold, d.deck[p], |d.deck|)
  }

  /** `dealerFinalizeReveal` */
  ghost function FinalizeReveal(d: Desk, now: int): Result<Desk>
    requires Shaped(d)
  {
    var e := ExpectedPos(d);
    if e.Err? || e.value.None? then Err
    else
      var p := e.value.value;
      if d.revealPos != Some(p) || d.revealBy.None? || p >= |d.deck| then Err
      else if now >= d.revealBy.value && MissingPub(d, p) != {} then Err
      else if p in d.revealed || |SharersOf(d, p)| < d.threshold || OpenedCard(d, p).Err? then Err
      else ApplyReveal(d.(revealed := d.revealed[p := OpenedCard(d, p).value]), p, OpenedCard(d, p).value, now)
  }

  // ---------------------------------------------------------------- a betting round ends

  /** What players change while they bet. */
  datatype Bets = Bets(stack: seq<Option<nat>>, commit: seq<nat>, folded: seq<bool>, allIn: seq<bool>)

  /** The betting round is over with two contenders or more: wait for the next public card (`maybeAdvance` with a
      dealer, followed by `setRevealDeadlineIfAwaiting`). */
  ghost function CloseStreet(d: Desk, b: Bets, now: int): Result<Desk>
    requires Shaped(d)
  {
    if d.phase != Betting || |b.stack| != SEATS || |b.commit| != SEATS || |b.folded| != SEATS || |b.allIn| != SEATS then Err
    else
      var next := if |d.board| == 0 then AwaitFlop else if |d.board| == 3 then AwaitTurn else if |d.board| == 4 then AwaitRiver else AwaitShowdown;
      SetReveal(d.(stack := b.stack, commit := b.commit, folded := b.folded, allIn := b.allIn, phase := next, actionOn := None), now)
  }

  // ---------------------------------------------------------------- timeouts

  /** `abortHandRefundAllCommits` */
  ghost function Abort(d: Desk): Desk
    requires Shaped(d)
  {
    d.(phase := Refunded, actionOn := None,
       stack := seq(SEATS, i requires 0 <= i < SEATS => if d.stack[i].Some? then Some(d.stack[i].value + d.commit[i]) else None))
  }

  ghost function Slash(d: Desk, ids: set<Id>): Desk { d.(slashed := d.slashed + ids) }

  ghost function ShuffleTimeout(d: Desk, now: int): Result<Desk>
    requires Shaped(d)
  {
    if d.shuffleBy.None? || now < d.shuffleBy.value then Err
    else if |QualOf(d)| == 0 then Ok(Abort(d))
    else if d.step == |QualOf(d)| then FinalizeDeck(d, now)
    else if d.step > |QualOf(d)| then Err
    else
      var r := Slash(d, {QualOf(d)[d.step].id});
      if |QualOf(r)| < d.threshold then Ok(Abort(r))
      else if r.step == |QualOf(r)| then FinalizeDeck(r, now)
      else Ok(r.(shuffleBy := Some(now + d.timeout)))
  }

  ghost function HoleTimeout(d: Desk, now: int): Result<Desk>
    requires Shaped(d)
  {
    if d.holeBy.None? || now < d.holeBy.value || !SeatsPlaced(d) then Err
    else
      var r := Slash(d, MissingHole(d));
      if |QualOf(r)| < d.threshold then Ok(Abort(r))
      else if !SeatsKeyed(r) then Err
      else if !AllReady(r) then Ok(Abort(r))
      else OpenBetting(r, now)
  }

  ghost function RevealTimeout(d: Desk, now: int): Result<Desk>
    requires Shaped(d)
  {
    var e := ExpectedPos(d);
    if e.Err? || e.value.None? then Err
    else if d.revealPos != e.value || d.revealBy.None? || now < d.revealBy.value then Err
    else
      var r := Slash(d, MissingPub(d, e.value.value));
      if |QualOf(r)| < d.threshold then Ok(Abort(r)) else FinalizeReveal(r, now)
  }

  /** `dealerTimeout` */
  ghost function Expiry(d: Desk, now: int): Result<Desk>
    requires Shaped(d)
  {
    if d.threshold == 0 then Err
    else if d.phase == Shuffling then ShuffleTimeout(d, now)
    else if d.phase == Dealing then HoleTimeout(d, now)
    else RevealTimeout(d, now)
  }

  // ---------------------------------------------------------------- the start

  /** The desk `poker/start_hand` and `dealerInitHand` set up: blinds posted, everybody with chips dealt in, the fresh
      encrypted deck waiting for the first shuffle. */
  ghost function InitialDesk(e: Epoch, timeout: nat, stack: seq<Option<nat>>, key: seq<Option<Key>>, button: nat, first: nat,
                             actionOn: Option<nat>, inHand: seq<bool>, allIn: seq<bool>, commit: seq<nat>, deck: seq<Ciphertext>, now: int): Desk {
    Desk(e.threshold, e.members, e.slashed, timeout, stack, key, Shuffling, button, first, actionOn,
         inHand, seq(SEATS, _ => false), allIn, commit, [], deck, 0, Some(now + timeout), None,
         seq(2 * SEATS, _ => None), 0, map[], map[], map[], None, None)
  }
}
