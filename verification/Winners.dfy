/** The best five of seven cards and the winners of a showdown (packages/holdem-eval/src/evaluate.ts,
    `Winners` of apps/chain/internal/holdem/eval.go). */
module Winners {
  import opened Outcome
  import opened HandRank
  import opened Evaluate

  const COMBOS: seq<seq<nat>> := [
    [0, 1, 2, 3, 4], [0, 1, 2, 3, 5], [0, 1, 2, 3, 6], [0, 1, 2, 4, 5], [0, 1, 2, 4, 6], [0, 1, 2, 5, 6], [0, 1, 3, 4, 5],
    [0, 1, 3, 4, 6], [0, 1, 3, 5, 6], [0, 1, 4, 5, 6], [0, 2, 3, 4, 5], [0, 2, 3, 4, 6], [0, 2, 3, 5, 6], [0, 2, 4, 5, 6],
    [0, 3, 4, 5, 6], [1, 2, 3, 4, 5], [1, 2, 3, 4, 6], [1, 2, 3, 5, 6], [1, 2, 4, 5, 6], [1, 3, 4, 5, 6], [2, 3, 4, 5, 6]]

  predicate Ascending(c: seq<nat>) {
    |c| == 5 && c[0] < c[1] < c[2] < c[3] < c[4] <= 6
  }

  lemma CombosAscend(k: nat)
    requires k < |COMBOS|
    ensures Ascending(COMBOS[k])
  {
  }

  /** The index tuples are all the five-element subsets of seven positions. */
  lemma CombosComplete(c: seq<nat>)
    requires Ascending(c)
    ensures exists k :: 0 <= k < |COMBOS| && COMBOS[k] == c
  {
    assert c == [c[0], c[1], c[2], c[3], c[4]];
    if c[0] == 0 {
      if c[1] == 1 {
        CombosFrom01(c[2], c[3], c[4]);
      } else {
        CombosFrom0(c[1], c[2], c[3], c[4]);
      }
    } else {
      CombosFrom1(c[0], c[1], c[2], c[3], c[4]);
    }
  }

  lemma CombosFrom01(x: nat, y: nat, z: nat)
    requires 1 < x < y < z <= 6
    ensures exists k :: 0 <= k < |COMBOS| && COMBOS[k] == [0, 1, x, y, z]
  {
    var k := if x == 2 then (if y == 3 then z - 4 else if y == 4 then z - 2 else 5)
             else if x == 3 then (if y == 4 then z + 1 else 8) else 9;
    assert COMBOS[k] == [0, 1, x, y, z];
  }

  lemma CombosFrom0(w: nat, x: nat, y: nat, z: nat)
    requires 1 < w < x < y < z <= 6
    ensures exists k :: 0 <= k < |COMBOS| && COMBOS[k] == [0, w, x, y, z]
  {
    var k := if w == 3 then 14 else if x == 4 then 13 else if y == 5 then 12 else z + 5;
    assert COMBOS[k] == [0, w, x, y, z];
  }

  lemma CombosFrom1(v: nat, w: nat, x: nat, y: nat, z: nat)
    requires 0 < v < w < x < y < z <= 6
    ensures exists k :: 0 <= k < |COMBOS| && COMBOS[k] == [v, w, x, y, z]
  {
    var k := if v == 2 then 20 else if w == 3 then 19 else if x == 4 then 18 else if y == 5 then 17 else z + 10;
    assert COMBOS[k] == [v, w, x, y, z];
  }

  function Pick(cards: seq<nat>, c: seq<nat>): seq<nat>
    requires forall i :: 0 <= i < |c| ==> c[i] < |cards|
  {
    seq(|c|, i requires 0 <= i < |c| => cards[c[i]])
  }

  function ComboRank(cards: seq<nat>, k: nat): HandRank
    requires |cards| == 7 && k < |COMBOS|
  {
    CombosAscend(k);
    Evaluate5(Pick(cards, COMBOS[k]))
  }

  /** The best of the first `k` combinations, the earlier one on a tie. */
  function BestOf(cards: seq<nat>, k: nat): HandRank
    requires |cards| == 7 && 0 < k <= |COMBOS|
  {
    if k == 1 then ComboRank(cards, 0)
    else
      var best := BestOf(cards, k - 1);
      if Compare(ComboRank(cards, k - 1), best) == 1 then ComboRank(cards, k - 1) else best
  }

  function Rank7(cards: seq<nat>): HandRank
    requires |cards| == 7
  {
    BestOf(cards, |COMBOS|)
  }

  method Evaluate7(cards: seq<nat>) returns (r: Result<HandRank>)
    ensures r.Err? <==> |cards| != 7 || !ValidCards(cards)
    ensures r.Ok? ==> r.value == Rank7(cards)
  {
    if |cards| != 7 || !ValidCards(cards) {
      return Err;
    }
    hide ComboRank, Compare;
    var best: Option<HandRank> := None;
    for k := 0 to |COMBOS|
      invariant if k == 0 then best == None else best == Some(BestOf(cards, k))
    {
      var rank := ComboRank(cards, k);
      if best.None? || Compare(rank, best.value) == 1 {
        best := Some(rank);
      }
    }
    r := Ok(best.value);
  }

  // ---------------------------------------------------------------- the best of all five-card hands

  /** Five of the given cards, in any order. */
  ghost predicate FiveOf(cards: seq<nat>, five: seq<nat>) {
    |five| == 5 && multiset(five) <= multiset(cards)
  }

  ghost predicate IsBest(cards: seq<nat>, h: HandRank) {
    && (exists five :: FiveOf(cards, five) && h == Evaluate5(five))
    && (forall five :: FiveOf(cards, five) ==> Compare(Evaluate5(five), h) <= 0)
  }

  lemma {:induction false} BestOfPrefix(cards: seq<nat>, k: nat, j: nat)
    requires |cards| == 7 && j < k <= |COMBOS|
    ensures Compare(ComboRank(cards, j), BestOf(cards, k)) <= 0
  {
    hide ComboRank, Compare;
    var r := ComboRank(cards, k - 1);
    CompareFlips(r, r);
    if k > 1 {
      var best := BestOf(cards, k - 1);
      CompareMeans(r, best);
      CompareFlips(r, best);
      if j < k - 1 {
        BestOfPrefix(cards, k - 1, j);
        if Compare(r, best) == 1 {
          CompareTrans(ComboRank(cards, j), best, r);
        }
      }
    }
  }

  lemma {:induction false} BestOfAttained(cards: seq<nat>, k: nat)
    requires |cards| == 7 && 0 < k <= |COMBOS|
    ensures exists j :: 0 <= j < k && BestOf(cards, k) == ComboRank(cards, j)
  {
    if k == 1 {
      assert BestOf(cards, 1) == ComboRank(cards, 0);
    } else {
      BestOfAttained(cards, k - 1);
      assert BestOf(cards, k) == ComboRank(cards, k - 1) || BestOf(cards, k) == BestOf(cards, k - 1);
    }
  }

  /** The positions from `i` on whose card is one of `five`. */
  ghost function Positions(cards: seq<nat>, five: seq<nat>, i: nat): seq<nat>
    decreases |cards| - i
  {
    if i >= |cards| then []
    else if cards[i] in five then [i] + Positions(cards, five, i + 1)
    else Positions(cards, five, i + 1)
  }

  ghost predicate Climbs(p: seq<nat>, i: nat, n: nat) {
    && (forall k :: 0 <= k < |p| ==> i <= p[k] < n)
    && (forall j, k :: 0 <= j < k < |p| ==> p[j] < p[k])
  }

  lemma {:induction false} PositionsClimb(cards: seq<nat>, five: seq<nat>, i: nat)
    ensures Climbs(Positions(cards, five, i), i, |cards|)
    decreases |cards| - i
  {
    if i < |cards| { PositionsClimb(cards, five, i + 1); }
  }

  lemma {:induction false} PickedCounts(cards: seq<nat>, five: seq<nat>, i: nat, x: nat)
    requires Distinct(cards) && i <= |cards| && Climbs(Positions(cards, five, i), i, |cards|)
    ensures multiset(Pick(cards, Positions(cards, five, i)))[x] == if x in cards[i..] && x in five then 1 else 0
    decreases |cards| - i
  {
    hide Distinct;
    if i == |cards| {
      assert Pick(cards, []) == [];
    } else {
      PositionsClimb(cards, five, i + 1);
      PickedCounts(cards, five, i + 1, x);
      TailWithout(cards, i, x);
      if cards[i] in five { PickCons(cards, i, Positions(cards, five, i + 1), x); }
    }
  }

  lemma TailWithout(cards: seq<nat>, i: nat, x: nat)
    requires Distinct(cards) && i < |cards|
    ensures x in cards[i..] <==> x == cards[i] || x in cards[i + 1..]
    ensures cards[i] !in cards[i + 1..]
  {
    assert cards[i..] == [cards[i]] + cards[i + 1..];
  }

  lemma PickCons(cards: seq<nat>, i: nat, rest: seq<nat>, x: nat)
    requires i < |cards| && forall k :: 0 <= k < |rest| ==> rest[k] < |cards|
    ensures multiset(Pick(cards, [i] + rest))[x] == multiset(Pick(cards, rest))[x] + if x == cards[i] then 1 else 0
  {
    assert Pick(cards, [i] + rest) == [cards[i]] + Pick(cards, rest);
  }

  lemma DistinctCount(s: seq<nat>, x: nat)
    requires Distinct(s)
    ensures multiset(s)[x] <= 1
  {
    if s != [] {
      var t := s[1..];
      assert forall i :: 0 <= i < |t| ==> t[i] == s[i + 1];
      DistinctCount(t, x);
      assert s == [s[0]] + t;
      assert s[0] !in t;
    }
  }

  /** Every five of the seven cards are one of the index tuples, up to order. */
  lemma FiveIsCombo(cards: seq<nat>, five: seq<nat>)
    requires |cards| == 7 && Distinct(cards) && FiveOf(cards, five)
    ensures exists k :: 0 <= k < |COMBOS| && Evaluate5(five) == ComboRank(cards, k)
  {
    hide Evaluate5;
    var p := Positions(cards, five, 0);
    PositionsClimb(cards, five, 0);
    var picked := Pick(cards, p);
    var mp: multiset<nat>, mf: multiset<nat> := multiset(picked), multiset(five);
    forall x: nat
      ensures mp[x] == mf[x]
    {
      PickedCounts(cards, five, 0, x);
      DistinctCount(cards, x);
      assert cards[0..] == cards;
      assert x in five <==> mf[x] > 0;
      assert mf[x] <= multiset(cards)[x];
      assert x in cards <==> multiset(cards)[x] > 0;
    }
    assert mp == mf;
    assert |p| == |picked| == |multiset(picked)| == |multiset(five)| == 5;
    assert Ascending(p);
    CombosComplete(p);
    var k :| 0 <= k < |COMBOS| && COMBOS[k] == p;
    Evaluate5AnyOrder(five, picked);
    assert ComboRank(cards, k) == Evaluate5(picked);
  }

  lemma ComboIsFive(cards: seq<nat>, k: nat)
    requires |cards| == 7 && k < |COMBOS|
    ensures exists five :: FiveOf(cards, five) && ComboRank(cards, k) == Evaluate5(five)
  {
    hide Evaluate5;
    CombosAscend(k);
    var c := COMBOS[k];
    PickInside(cards, c);
    assert FiveOf(cards, Pick(cards, c));
  }

  lemma {:induction false} PickInside(cards: seq<nat>, c: seq<nat>)
    requires Climbs(c, 0, |cards|)
    ensures multiset(Pick(cards, c)) <= multiset(cards)
  {
    if c != [] {
      var d, l := c[..|c|-1], c[|c|-1];
      var low := cards[..l];
      PickInside(low, d);
      assert Pick(cards, c) == Pick(low, d) + [cards[l]];
      assert cards == low + [cards[l]] + cards[l + 1..];
    }
  }

  /** THEOREM.  `evaluate7` returns the best hand that any five of the seven cards make. */
  lemma Rank7IsBest(cards: seq<nat>)
    requires |cards| == 7 && ValidCards(cards)
    ensures IsBest(cards, Rank7(cards))
  {
    hide Evaluate5, ComboRank, Compare, FiveOf;
    var h := Rank7(cards);
    BestOfAttained(cards, |COMBOS|);
    var j :| 0 <= j < |COMBOS| && h == ComboRank(cards, j);
    ComboIsFive(cards, j);
    forall five | FiveOf(cards, five)
      ensures |five| == 5 && Compare(Evaluate5(five), h) <= 0
    {
      FiveSize(cards, five);
      FiveIsCombo(cards, five);
      var k :| 0 <= k < |COMBOS| && Evaluate5(five) == ComboRank(cards, k);
      BestOfPrefix(cards, |COMBOS|, k);
    }
  }

  lemma FiveSize(cards: seq<nat>, five: seq<nat>)
    requires FiveOf(cards, five)
    ensures |five| == 5
  {
  }

  // ---------------------------------------------------------------- winners

  datatype Holding = Holding(seat: nat, c0: nat, c1: nat)

  function Seven(board: seq<nat>, e: Holding): seq<nat> { board + [e.c0, e.c1] }

  predicate ValidHolding(board: seq<nat>, e: Holding) { ValidCards(Seven(board, e)) }

  /** No holding beats `e`. */
  ghost predicate Unbeaten(board: seq<nat>, entries: seq<Holding>, e: Holding)
    requires |board| == 5
  {
    forall i :: 0 <= i < |entries| ==> Compare(Rank7(Seven(board, entries[i])), Rank7(Seven(board, e))) <= 0
  }

  ghost predicate Increasing(s: seq<nat>) { forall i, j :: 0 <= i < j < |s| ==> s[i] < s[j] }

  ghost predicate DistinctSeats(entries: seq<Holding>) {
    forall i, j :: 0 <= i < j < |entries| ==> entries[i].seat != entries[j].seat
  }

  /** Insert a new seat into an ascending list. */
  method InsertSeat(s: seq<nat>, x: nat) returns (r: seq<nat>)
    requires Increasing(s) && x !in s
    ensures Increasing(r) && forall y :: y in r <==> y == x || y in s
  {
    var i := 0;
    while i < |s| && s[i] < x
      invariant 0 <= i <= |s| && forall k :: 0 <= k < i ==> s[k] < x
    {
      i := i + 1;
    }
    assert i < |s| ==> s[i] != x && s[i] in s;
    InsertedSeat(s, i, x);
    r := s[..i] + [x] + s[i..];
  }

  lemma InsertedSeat(s: seq<nat>, i: nat, x: nat)
    requires Increasing(s) && i <= |s| && (forall k :: 0 <= k < i ==> s[k] < x) && (i < |s| ==> x < s[i])
    ensures Increasing(s[..i] + [x] + s[i..])
    ensures forall y :: y in s[..i] + [x] + s[i..] <==> y == x || y in s
  {
    InsertedInOrder(s, i, x);
    InsertedMembers(s, i, x);
  }

  lemma InsertedInOrder(s: seq<nat>, i: nat, x: nat)
    requires Increasing(s) && i <= |s| && (forall k :: 0 <= k < i ==> s[k] < x) && (i < |s| ==> x < s[i])
    ensures Increasing(s[..i] + [x] + s[i..])
  {
    var r := s[..i] + [x] + s[i..];
    forall a, b | 0 <= a < b < |r|
      ensures r[a] < r[b]
    {
      InsertedAt(s, i, x, a);
      InsertedAt(s, i, x, b);
    }
  }

  lemma InsertedAt(s: seq<nat>, i: nat, x: nat, k: nat)
    requires i <= |s| && k <= |s|
    ensures (s[..i] + [x] + s[i..])[k] == if k < i then s[k] else if k == i then x else s[k - 1]
  {
  }

  lemma InsertedMembers(s: seq<nat>, i: nat, x: nat)
    requires i <= |s|
    ensures forall y :: y in s[..i] + [x] + s[i..] <==> y == x || y in s
  {
    assert s == s[..i] + s[i..];
  }

  /** `winners`: exactly the unbeaten seats in ascending order, whatever order the holdings come in. */
  method FindWinners(board: seq<nat>, entries: seq<Holding>) returns (r: Result<seq<nat>>)
    requires DistinctSeats(entries)
    ensures r.Ok? <==> |board| == 5 && ValidCards(board) && forall i :: 0 <= i < |entries| ==> ValidHolding(board, entries[i])
    ensures r.Ok? ==> Increasing(r.value)
    ensures r.Ok? ==> forall x :: x in r.value <==> exists i :: 0 <= i < |entries| && entries[i].seat == x && Unbeaten(board, entries, entries[i])
  {
    hide Rank7, Compare, ValidCards;
    if |board| != 5 || !ValidCards(board) {
      return Err;
    }
    var best: Option<HandRank> := None;
    var bestSeats: seq<nat> := [];
    for k := 0 to |entries|
      invariant forall i :: 0 <= i < k ==> ValidHolding(board, entries[i])
      invariant best.None? <==> k == 0
      invariant k == 0 ==> bestSeats == []
      invariant best.Some? ==> exists i :: 0 <= i < k && best.value == Rank7(Seven(board, entries[i]))
      invariant forall i :: 0 <= i < k ==> best.Some? && Compare(Rank7(Seven(board, entries[i])), best.value) <= 0
      invariant Increasing(bestSeats)
      invariant forall x :: x in bestSeats <==> exists i :: 0 <= i < k && entries[i].seat == x && best.Some? && Compare(Rank7(Seven(board, entries[i])), best.value) == 0
    {
      var e := entries[k];
      if !ValidCards(Seven(board, e)) {
        assert !ValidHolding(board, entries[k]);
        return Err;
      }
      var res := Evaluate7(Seven(board, e));
      var rank := res.value;
      assert forall i :: 0 <= i < k ==> entries[i].seat != e.seat;
      CompareFlips(rank, rank);
      if best.None? {
        best := Some(rank);
        bestSeats := [e.seat];
      } else {
        var cmp := Compare(rank, best.value);
        CompareMeans(rank, best.value);
        CompareFlips(rank, best.value);
        if cmp == 1 {
          forall i | 0 <= i < k
            ensures Compare(Rank7(Seven(board, entries[i])), rank) < 0
          {
            CompareTrans(Rank7(Seven(board, entries[i])), best.value, rank);
          }
          best := Some(rank);
          bestSeats := [e.seat];
        } else if cmp == 0 {
          bestSeats := InsertSeat(bestSeats, e.seat);
        }
      }
    }
    forall i | 0 <= i < |entries|
      ensures Compare(Rank7(Seven(board, entries[i])), best.value) == 0 <==> Unbeaten(board, entries, entries[i])
    {
      TopIsUnbeaten(board, entries, best.value, i);
    }
    r := Ok(bestSeats);
  }

  lemma TopIsUnbeaten(board: seq<nat>, entries: seq<Holding>, best: HandRank, i: nat)
    requires |board| == 5 && i < |entries|
    requires exists j :: 0 <= j < |entries| && best == Rank7(Seven(board, entries[j]))
    requires forall j :: 0 <= j < |entries| ==> Compare(Rank7(Seven(board, entries[j])), best) <= 0
    ensures Compare(Rank7(Seven(board, entries[i])), best) == 0 <==> Unbeaten(board, entries, entries[i])
  {
    hide Rank7, Compare;
    var r := Rank7(Seven(board, entries[i]));
    CompareFlips(r, best);
    if Compare(r, best) == 0 {
      forall j | 0 <= j < |entries|
        ensures Compare(Rank7(Seven(board, entries[j])), r) <= 0
      {
        CompareTrans(Rank7(Seven(board, entries[j])), best, r);
      }
    }
  }
}
