/** What the dealer protocol guarantees over runs: who shuffled a finalized deck, and that timeouts make progress. */
module DealerProgress {
  import opened Zq
  import opened Outcome
  import opened ElGamal
  import opened Dkg
  import opened DealerHand

  // ---------------------------------------------------------------- qualified members

  ghost predicate DistinctIds(ms: seq<Member>) {
    forall i, j :: 0 <= i < j < |ms| ==> ms[i].id != ms[j].id
  }

  ghost function Ids(ms: seq<Member>): (r: seq<Id>)
    ensures |r| == |ms| && forall i :: 0 <= i < |ms| ==> r[i] == ms[i].id
  {
    seq(|ms|, i requires 0 <= i < |ms| => ms[i].id)
  }

  lemma {:induction false} QualDistinct(ms: seq<Member>, slashed: set<Id>)
    requires DistinctIds(ms)
    ensures DistinctIds(Qual(ms, slashed))
  {
    if ms != [] {
      var front := ms[..|ms| - 1];
      QualDistinct(front, slashed);
      QualSpec(front, slashed);
      var q := Qual(front, slashed);
      forall i | 0 <= i < |q|
        ensures q[i].id != ms[|ms| - 1].id
      {
        assert q[i] in front;
        var j :| 0 <= j < |front| && front[j] == q[i];
        assert ms[j] == front[j];
      }
    }
  }

  /** Slashing one qualified member takes it out of the list and leaves the others in order. */
  lemma {:induction false} SlashOne(ms: seq<Member>, slashed: set<Id>, k: nat)
    requires DistinctIds(ms) && k < |Qual(ms, slashed)|
    ensures Qual(ms, slashed + {Qual(ms, slashed)[k].id}) == Qual(ms, slashed)[..k] + Qual(ms, slashed)[k + 1..]
  {
    var q := Qual(ms, slashed);
    var x := q[k].id;
    var front, last := ms[..|ms| - 1], ms[|ms| - 1];
    var p := Qual(front, slashed);
    if k < |p| {
      SlashOne(front, slashed, k);
      QualSpec(front, slashed);
      assert p[k] in front;
      var j :| 0 <= j < |front| && front[j] == p[k];
      assert ms[j] == front[j];
      assert last.id != x;
      assert q == p || q == p + [last];
    } else {
      assert q == p + [last] && x == last.id;
      SlashOther(front, slashed, x);
    }
  }

  /** Slashing someone else changes nothing. */
  lemma {:induction false} SlashOther(ms: seq<Member>, slashed: set<Id>, x: Id)
    requires forall i :: 0 <= i < |ms| ==> ms[i].id != x
    ensures Qual(ms, slashed + {x}) == Qual(ms, slashed)
  {
    if ms != [] { SlashOther(ms[..|ms| - 1], slashed, x); }
  }

  // ---------------------------------------------------------------- who shuffled

  datatype Op =
    | Shuffle(now: int, who: Id, round: nat, out: Option<seq<Ciphertext>>)
    | Finalize(now: int)
    | Expire(now: int)

  ghost function Try(d: Desk, r: Result<Desk>): Desk { if r.Ok? then r.value else d }

  ghost function Apply(d: Desk, op: Op): (r: Desk)
    requires Shaped(d)
    ensures Shaped(r)
  {
    match op
    case Shuffle(now, who, round, out) => Try(d, SubmitShuffle(d, now, who, round, out))
    case Finalize(now) => Try(d, FinalizeDeck(d, now))
    case Expire(now) => if d.phase == Shuffling then Try(d, Expiry(d, now)) else d
  }

  /** The member whose shuffle the operation adds, if any. */
  ghost function Added(d: Desk, op: Op): seq<Id> {
    if op.Shuffle? && SubmitShuffle(d, op.now, op.who, op.round, op.out).Ok? then [op.who] else []
  }

  ghost function Run(d: Desk, ops: seq<Op>): (r: Desk)
    requires Shaped(d)
    ensures Shaped(r)
  {
    if ops == [] then d else Apply(Run(d, ops[..|ops| - 1]), ops[|ops| - 1])
  }

  /** Who has shuffled, in order. */
  ghost function Shufflers(d: Desk, ops: seq<Op>): seq<Id>
    requires Shaped(d)
  {
    if ops == [] then []
    else Shufflers(d, ops[..|ops| - 1]) + Added(Run(d, ops[..|ops| - 1]), ops[|ops| - 1])
  }

  /** The members that have shuffled are the first of the qualified ones, in their order. */
  ghost predicate FirstOf(d: Desk, who: seq<Id>) {
    && d.step <= |QualOf(d)| && who == Ids(QualOf(d)[..d.step])
    && (d.phase == Dealing ==> d.step == |QualOf(d)|)
  }

  lemma ShuffleOp(d: Desk, op: Op, who: seq<Id>)
    requires Shaped(d) && DistinctIds(d.members) && d.phase == Shuffling && FirstOf(d, who)
    ensures var r := Apply(d, op);
      r.members == d.members && (r.phase in {Shuffling, Dealing} ==> FirstOf(r, who + Added(d, op))) && r.phase in {Shuffling, Dealing, Refunded}
  {
    hide Qual, FirstOf, SubmitShuffle, FinalizeDeck, ShuffleTimeout;
    match op {
      case Shuffle(now, w, round, out) => AcceptedShuffle(d, now, w, round, out, who);
      case Finalize(now) => FinalizeFirst(d, now, who);
      case Expire(now) => ExpiredShuffle(d, now, who);
    }
    assert who + [] == who;
  }

  lemma AcceptedShuffle(d: Desk, now: int, w: Id, round: nat, out: Option<seq<Ciphertext>>, who: seq<Id>)
    requires d.phase == Shuffling && FirstOf(d, who)
    ensures var r := SubmitShuffle(d, now, w, round, out);
      r.Ok? ==> r.value.members == d.members && r.value.phase == Shuffling && FirstOf(r.value, who + [w])
  {
    hide Qual;
    var q := QualOf(d);
    if SubmitShuffle(d, now, w, round, out).Ok? {
      assert q[..d.step + 1] == q[..d.step] + [q[d.step]];
      assert Ids(q[..d.step + 1]) == Ids(q[..d.step]) + [w];
    }
  }

  lemma FinalizeFirst(d: Desk, now: int, who: seq<Id>)
    requires Shaped(d) && FirstOf(d, who)
    ensures var r := FinalizeDeck(d, now);
      r.Ok? ==> r.value.members == d.members && r.value.phase == Dealing && FirstOf(r.value, who)
  {
    hide Qual, HolePositions, Order;
  }

  lemma ExpiredShuffle(d: Desk, now: int, who: seq<Id>)
    requires Shaped(d) && DistinctIds(d.members) && d.phase == Shuffling && FirstOf(d, who)
    ensures var r := ShuffleTimeout(d, now);
      r.Ok? ==> r.value.members == d.members && (r.value.phase in {Shuffling, Dealing} ==> FirstOf(r.value, who))
                && r.value.phase in {Shuffling, Dealing, Refunded}
  {
    hide Qual, FinalizeDeck;
    var q := QualOf(d);
    if d.step == |q| {
      FinalizeFirst(d, now, who);
    } else {
      SlashOne(d.members, d.slashed, d.step);
      var r := Slash(d, {q[d.step].id});
      assert QualOf(r)[..d.step] == q[..d.step];
      FinalizeFirst(r, now, who);
    }
  }

  /** THEOREM.  Through any sequence of shuffles, finalizations and shuffle timeouts from a fresh dealer hand, the
      moment the deck is finalized the members that shuffled it are exactly the qualified ones, each once, in
      their order; until then they are the first of them. */
  lemma {:induction false} FinalizedByAll(d: Desk, ops: seq<Op>)
    requires Shaped(d) && DistinctIds(d.members) && d.phase == Shuffling && d.step == 0
    ensures var r := Run(d, ops); r.members == d.members
    ensures var r := Run(d, ops); r.phase == Shuffling ==> FirstOf(r, Shufflers(d, ops))
    ensures var r := Run(d, ops);
      ops != [] && r.phase == Dealing && Run(d, ops[..|ops| - 1]).phase == Shuffling ==>
        Shufflers(d, ops) == Ids(QualOf(r)) && DistinctIds(QualOf(r))
  {
    hide SubmitShuffle, FinalizeDeck, Expiry, FirstOf;
    if ops == [] {
      FreshFirst(d);
    } else {
      var front := ops[..|ops| - 1];
      FinalizedByAll(d, front);
      var m := Run(d, front);
      if m.phase == Shuffling {
        ShuffleOp(m, ops[|ops| - 1], Shufflers(d, front));
        AllOfThem(Run(d, ops), Shufflers(d, ops));
      } else {
        NotBack(m, ops[|ops| - 1]);
      }
    }
  }

  lemma FreshFirst(d: Desk)
    requires d.phase == Shuffling && d.step == 0
    ensures FirstOf(d, [])
  {
  }

  lemma AllOfThem(d: Desk, who: seq<Id>)
    requires DistinctIds(d.members)
    ensures FirstOf(d, who) && d.phase == Dealing ==> who == Ids(QualOf(d)) && DistinctIds(QualOf(d))
  {
    QualDistinct(d.members, d.slashed);
    if FirstOf(d, who) && d.phase == Dealing { assert QualOf(d)[..d.step] == QualOf(d); }
  }

  /** The shuffle is never reopened. */
  lemma NotBack(d: Desk, op: Op)
    requires Shaped(d) && d.phase != Shuffling
    ensures Apply(d, op) == d
  {
  }

  // ---------------------------------------------------------------- hole positions

  /** The clockwise distance from `first` to `s`. */
  function Distance(first: nat, s: nat): nat
    requires first < SEATS && s < SEATS
  {
    if s >= first then s - first else s + SEATS - first
  }

  lemma SeatAt(first: nat, off: nat, s: nat)
    requires first < SEATS && off < SEATS && s < SEATS
    ensures SeatAfter(first, off) == s <==> Distance(first, s) == off
  {
    assert (first + off) % SEATS == if first + off < SEATS then first + off else first + off - SEATS;
  }

  lemma {:induction false} OrderMembers(inHand: seq<bool>, first: nat, off: nat, s: nat)
    requires |inHand| == SEATS && first < SEATS && s < SEATS
    ensures s in OrderFrom(inHand, first, off) <==> inHand[s] && Distance(first, s) >= off
    decreases SEATS - off
  {
    hide SeatAfter;
    if off < SEATS {
      OrderMembers(inHand, first, off + 1, s);
      SeatAt(first, off, s);
      var x := SeatAfter(first, off);
      assert s in OrderFrom(inHand, first, off) <==> (inHand[x] && s == x) || s in OrderFrom(inHand, first, off + 1);
    }
  }

  /** No more seats are dealt in than there are. */
  lemma {:induction false} OrderLength(inHand: seq<bool>, first: nat, off: nat)
    requires |inHand| == SEATS
    ensures |OrderFrom(inHand, first, off)| <= if off <= SEATS then SEATS - off else 0
    decreases SEATS - off
  {
    hide SeatAfter;
    if off < SEATS { OrderLength(inHand, first, off + 1); }
  }

  ghost predicate NoRepeat(o: seq<nat>) {
    forall i, j :: 0 <= i < j < |o| ==> o[i] != o[j]
  }

  lemma {:induction false} OrderNoRepeat(inHand: seq<bool>, first: nat, off: nat)
    requires |inHand| == SEATS && first < SEATS
    ensures NoRepeat(OrderFrom(inHand, first, off))
    decreases SEATS - off
  {
    hide SeatAfter;
    if off < SEATS {
      OrderNoRepeat(inHand, first, off + 1);
      var x := SeatAfter(first, off);
      OrderMembers(inHand, first, off + 1, x);
      SeatAt(first, off, x);
    }
  }

  ghost predicate Clockwise(o: seq<nat>, first: nat)
    requires first < SEATS && forall i :: 0 <= i < |o| ==> o[i] < SEATS
  {
    forall i, j :: 0 <= i < j < |o| ==> Distance(first, o[i]) < Distance(first, o[j])
  }

  lemma OrderStep(inHand: seq<bool>, first: nat, off: nat)
    requires |inHand| == SEATS && off < SEATS
    ensures var x := SeatAfter(first, off);
      OrderFrom(inHand, first, off) == if inHand[x] then [x] + OrderFrom(inHand, first, off + 1) else OrderFrom(inHand, first, off + 1)
  {
  }

  lemma ClockwiseCons(x: nat, rest: seq<nat>, first: nat)
    requires first < SEATS && x < SEATS && (forall i :: 0 <= i < |rest| ==> rest[i] < SEATS) && Clockwise(rest, first)
    requires forall j :: 0 <= j < |rest| ==> Distance(first, rest[j]) > Distance(first, x)
    ensures Clockwise([x] + rest, first)
  {
    hide Distance;
    var o := [x] + rest;
    forall i, j | 0 <= i < j < |o|
      ensures Distance(first, o[i]) < Distance(first, o[j])
    {
      assert o[j] == rest[j - 1];
      if i > 0 { assert o[i] == rest[i - 1]; }
    }
  }

  lemma FartherOn(inHand: seq<bool>, first: nat, off: nat, j: nat)
    requires |inHand| == SEATS && first < SEATS && off < SEATS && j < |OrderFrom(inHand, first, off + 1)|
    ensures Distance(first, OrderFrom(inHand, first, off + 1)[j]) > Distance(first, SeatAfter(first, off))
  {
    hide SeatAfter, OrderFrom, Distance;
    SeatAt(first, off, SeatAfter(first, off));
    OrderMembers(inHand, first, off + 1, OrderFrom(inHand, first, off + 1)[j]);
  }

  lemma ClockwiseStep(inHand: seq<bool>, first: nat, off: nat)
    requires |inHand| == SEATS && first < SEATS && off < SEATS && Clockwise(OrderFrom(inHand, first, off + 1), first)
    ensures Clockwise(OrderFrom(inHand, first, off), first)
  {
    hide SeatAfter, OrderFrom, Distance, Clockwise;
    OrderStep(inHand, first, off);
    var rest := OrderFrom(inHand, first, off + 1);
    forall j | 0 <= j < |rest|
      ensures Distance(first, rest[j]) > Distance(first, SeatAfter(first, off))
    {
      FartherOn(inHand, first, off, j);
    }
    ClockwiseCons(SeatAfter(first, off), rest, first);
  }

  lemma ClockwiseEnd(inHand: seq<bool>, first: nat, off: nat)
    requires |inHand| == SEATS && first < SEATS && off >= SEATS
    ensures Clockwise(OrderFrom(inHand, first, off), first)
  {
    hide Distance;
  }

  /** THEOREM.  The deal goes clockwise from the first seat. */
  lemma {:induction false} OrderClockwise(inHand: seq<bool>, first: nat, off: nat)
    requires |inHand| == SEATS && first < SEATS
    ensures Clockwise(OrderFrom(inHand, first, off), first)
    decreases SEATS - off
  {
    hide OrderFrom, Clockwise;
    if off < SEATS {
      OrderClockwise(inHand, first, off + 1);
      ClockwiseStep(inHand, first, off);
    } else {
      ClockwiseEnd(inHand, first, off);
    }
  }

  /** Every seat in the hand is dealt, and only those. */
  lemma OrderSpec(inHand: seq<bool>, first: nat, s: nat)
    requires |inHand| == SEATS && first < SEATS && s < SEATS
    ensures NoRepeat(Order(inHand, first)) && (s in Order(inHand, first) <==> inHand[s])
  {
    hide OrderFrom;
    OrderNoRepeat(inHand, first, 0);
    OrderMembers(inHand, first, 0, s);
  }

  /** THEOREM.  With enough cards every hole card of the hand has its own deck position, all of them below the
      cursor from which the board is dealt. */
  lemma HoleCardsApart(d: Desk, s: nat, c: nat, s': nat, c': nat)
    requires Shaped(d) && s < SEATS && s' < SEATS && c < 2 && c' < 2 && d.inHand[s] && d.inHand[s']
    requires 2 * |Order(d.inHand, d.first)| <= |d.deck| && d.holePos == HolePositions(Order(d.inHand, d.first), |d.deck|)
    ensures d.holePos[Slot(s, c)].Some? && d.holePos[Slot(s, c)].value < 2 * |Order(d.inHand, d.first)|
    ensures d.holePos[Slot(s, c)] == d.holePos[Slot(s', c')] ==> s == s' && c == c'
  {
    hide Order, Find, HolePositions, HolePosition;
    var o := Order(d.inHand, d.first);
    OrderSpec(d.inHand, d.first, s);
    OrderSpec(d.inHand, d.first, s');
    assert d.holePos[Slot(s, c)] == HolePosition(o, |d.deck|, s, c);
    assert d.holePos[Slot(s', c')] == HolePosition(o, |d.deck|, s', c');
    PositionIs(o, |d.deck|, s, c);
    PositionIs(o, |d.deck|, s', c');
  }

  lemma PositionIs(o: seq<nat>, cards: nat, s: nat, c: nat)
    requires s in o && 2 * |o| <= cards && c < 2
    ensures HolePosition(o, cards, s, c) == Some(Find(o, s).value + (if c == 0 then 0 else |o|))
  {
  }
}
