/** What `evaluate5` computes, stated by the rules of the game instead of by its branches. */
module Categories {
  import opened Outcome
  import opened HandRank
  import opened Evaluate

  /** The five ranks are consecutive down from `h`, or are A-5-4-3-2 with `h` the five. */
  ghost predicate IsStraight(ranks: seq<nat>, h: int) {
    || (h >= 4 && Of(ranks, h) == 1 && Of(ranks, h - 1) == 1 && Of(ranks, h - 2) == 1 && Of(ranks, h - 3) == 1 && Of(ranks, h - 4) == 1)
    || (h == 5 && Of(ranks, 14) == 1 && Of(ranks, 5) == 1 && Of(ranks, 4) == 1 && Of(ranks, 3) == 1 && Of(ranks, 2) == 1)
  }

  ghost predicate NoStraight(ranks: seq<nat>) { forall h: int :: !IsStraight(ranks, h) }

  ghost predicate Times(ranks: seq<nat>, x: int, c: nat) { x >= 0 && Of(ranks, x) == c }

  /** The ranks themselves, from high to low. */
  ghost predicate AllDescending(ranks: seq<nat>, t: seq<int>) {
    t == SortDesc(ranks) && Descending(SortDesc(ranks)) && multiset(SortDesc(ranks)) == multiset(ranks)
  }

  /** The rules: which hands have a category and what decides between two hands of it. */
  ghost predicate Rules(ranks: seq<nat>, flush: bool, h: HandRank) {
    var t := h.tiebreakers;
    if h.category == STRAIGHT_FLUSH then flush && |t| == 1 && IsStraight(ranks, t[0])
    else if h.category == QUADS then |t| == 2 && Times(ranks, t[0], 4) && Times(ranks, t[1], 1)
    else if h.category == FULL_HOUSE then |t| == 2 && Times(ranks, t[0], 3) && Times(ranks, t[1], 2)
    else if h.category == FLUSH then flush && NoStraight(ranks) && AllDescending(ranks, t)
    else if h.category == STRAIGHT then !flush && |t| == 1 && IsStraight(ranks, t[0])
    else if h.category == TRIPS then
      !flush && |t| == 3 && Times(ranks, t[0], 3) && Times(ranks, t[1], 1) && Times(ranks, t[2], 1) && t[1] > t[2]
    else if h.category == TWO_PAIR then
      !flush && |t| == 3 && Times(ranks, t[0], 2) && Times(ranks, t[1], 2) && Times(ranks, t[2], 1) && t[0] > t[1]
    else if h.category == ONE_PAIR then
      !flush && |t| == 4 && Times(ranks, t[0], 2) && Times(ranks, t[1], 1) && Times(ranks, t[2], 1) && Times(ranks, t[3], 1)
      && t[1] > t[2] > t[3]
    else h.category == HIGH_CARD && !flush && NoStraight(ranks) && AllDescending(ranks, t) && forall x :: Of(ranks, x) <= 1
  }

  // ---------------------------------------------------------------- shapes of the sorted groups

  lemma {:induction false} TotalAtLeast(g: seq<Group>)
    requires AllPositive(g)
    ensures CountTotal(g) >= |g|
  {
    if g != [] { TotalAtLeast(g[1..]); }
  }

  function Cnt(g: seq<Group>, i: nat): nat { if i < |g| then g[i].count else 0 }

  lemma TotalOfFive(g: seq<Group>)
    requires |g| <= 5
    ensures CountTotal(g) == Cnt(g, 0) + Cnt(g, 1) + Cnt(g, 2) + Cnt(g, 3) + Cnt(g, 4)
  {
    TotalTail(g, 0);
    TotalTail(g, 1);
    TotalTail(g, 2);
    TotalTail(g, 3);
    TotalTail(g, 4);
    assert g[Drop(g, 0)..] == g;
    assert g[Drop(g, 5)..] == [];
  }

  function Drop(g: seq<Group>, i: nat): (k: nat)
    ensures k <= |g|
  {
    if i <= |g| then i else |g|
  }

  lemma TotalTail(g: seq<Group>, i: nat)
    ensures CountTotal(g[Drop(g, i)..]) == Cnt(g, i) + CountTotal(g[Drop(g, i + 1)..])
  {
    if i < |g| {
      assert g[i..][1..] == g[i + 1..];
    }
  }

  lemma {:induction false} CountAt(g: seq<Group>, k: nat)
    requires k < |g| && NoRankTwice(g)
    ensures CountOf(g, g[k].rank) == g[k].count
  {
    var t := g[1..];
    assert forall i :: 0 <= i < |t| ==> t[i] == g[i + 1];
    if k == 0 {
      NoCount(t, g[0].rank);
    } else {
      CountAt(t, k - 1);
    }
  }

  lemma {:induction false} NoCount(g: seq<Group>, x: nat)
    requires !HasRank(g, x)
    ensures CountOf(g, x) == 0
  {
    if g != [] {
      assert g[0].rank != x;
      assert forall i :: 0 <= i < |g[1..]| ==> g[1..][i] == g[i + 1];
      NoCount(g[1..], x);
    }
  }

  /** Five different cards are not all of one rank. */
  lemma NotOneRank(cards: seq<nat>, x: nat)
    requires |cards| == 5 && ValidCards(cards)
    ensures exists i :: 0 <= i < 5 && CardRank(cards[i]) != x
  {
    hide CardSuit, CardRank;
    if forall i :: 0 <= i < 5 ==> CardRank(cards[i]) == x {
      SameRankSuits(cards[0], cards[1]);
      SameRankSuits(cards[0], cards[2]);
      SameRankSuits(cards[0], cards[3]);
      SameRankSuits(cards[0], cards[4]);
      SameRankSuits(cards[1], cards[2]);
      SameRankSuits(cards[1], cards[3]);
      SameRankSuits(cards[1], cards[4]);
      SameRankSuits(cards[2], cards[3]);
      SameRankSuits(cards[2], cards[4]);
      SameRankSuits(cards[3], cards[4]);
      FiveSuits(CardSuit(cards[0]), CardSuit(cards[1]), CardSuit(cards[2]), CardSuit(cards[3]), CardSuit(cards[4]));
    }
  }

  lemma FiveOf(r: seq<nat>, x: nat)
    requires |r| == 5
    ensures Of(r, x) > 4 ==> forall i :: 0 <= i < 5 ==> r[i] == x
  {
    assert r == [r[0], r[1], r[2], r[3], r[4]];
    if Of(r, x) > 4 { AllFive(r[0], r[1], r[2], r[3], r[4], x); }
  }

  /** At most four cards share a rank. */
  lemma FourSuits(cards: seq<nat>, x: nat)
    requires |cards| == 5 && ValidCards(cards)
    ensures Of(Ranks(cards), x) <= 4
  {
    hide CardSuit, CardRank, ValidCards, Of;
    NotOneRank(cards, x);
    var i :| 0 <= i < 5 && CardRank(cards[i]) != x;
    assert Ranks(cards)[i] == CardRank(cards[i]);
    FiveOf(Ranks(cards), x);
  }

  lemma AllFive(a: nat, b: nat, c: nat, d: nat, e: nat, x: nat)
    requires multiset([a, b, c, d, e])[x] > 4
    ensures a == b == c == d == e == x
  {
  }

  lemma SameRankSuits(c: nat, d: nat)
    requires c != d && c < 52 && d < 52 && CardRank(c) == CardRank(d)
    ensures CardSuit(c) != CardSuit(d) && CardSuit(c) < 4 && CardSuit(d) < 4
  {
  }

  lemma FiveSuits(a: nat, b: nat, c: nat, d: nat, e: nat)
    ensures a < 4 && b < 4 && c < 4 && d < 4 && e < 4 ==>
      a == b || a == c || a == d || a == e || b == c || b == d || b == e || c == d || c == e || d == e
  {
  }

  /** Everything the classification needs to know about the sorted groups. */
  ghost predicate GroupsOf(ranks: seq<nat>, g: seq<Group>) {
    && 2 <= |g| <= 5 && Ordered(g) && NoRankTwice(g) && AllPositive(g)
    && Cnt(g, 0) + Cnt(g, 1) + Cnt(g, 2) + Cnt(g, 3) + Cnt(g, 4) == 5
    && (forall k :: 0 <= k < |g| ==> Of(ranks, g[k].rank) == g[k].count)
    && (forall x :: Of(ranks, x) > 0 ==> HasRank(g, x))
  }

  lemma SortedGroups(cards: seq<nat>)
    requires |cards| == 5 && ValidCards(cards)
    ensures GroupsOf(Ranks(cards), SortGroups(Runs(SortDesc(Ranks(cards)))))
  {
    hide Ranks, ValidCards, Of, CountOf, CountTotal;
    var ranks := Ranks(cards);
    SortDescSpec(ranks);
    var s := SortDesc(ranks);
    RunsDescend(s);
    RunsCount(s, 0);
    var g := SortGroups(Runs(s));
    SortGroupsSpec(Runs(s), 0);
    TotalAtLeast(g);
    TotalOfFive(g);
    forall x: nat
      ensures Of(ranks, x) == CountOf(g, x)
    {
      RunsCount(s, x);
      SortGroupsSpec(Runs(s), x);
      OfSame(ranks, s, x);
    }
    forall k | 0 <= k < |g|
      ensures Of(ranks, g[k].rank) == g[k].count
    {
      CountAt(g, k);
    }
    forall x: nat | Of(ranks, x) > 0
      ensures HasRank(g, x)
    {
      if !HasRank(g, x) { NoCount(g, x); }
    }
    assert Of(ranks, g[0].rank) == g[0].count;
    FourSuits(cards, g[0].rank);
  }

  lemma OfSame(a: seq<nat>, b: seq<nat>, x: nat)
    requires multiset(a) == multiset(b)
    ensures Of(a, x) == Of(b, x)
  {
  }

  // ---------------------------------------------------------------- straights

  lemma GroupRanksAre(g: seq<Group>)
    requires |g| == 5
    ensures GroupRanks(g) == [g[0].rank, g[1].rank, g[2].rank, g[3].rank, g[4].rank]
  {
    RanksTail(g, 0);
    RanksTail(g, 1);
    RanksTail(g, 2);
    RanksTail(g, 3);
    RanksTail(g, 4);
    assert g[0..] == g && GroupRanks(g[5..]) == [];
  }

  lemma RanksTail(g: seq<Group>, i: nat)
    requires i < |g|
    ensures GroupRanks(g[i..]) == [g[i].rank] + GroupRanks(g[i + 1..])
  {
    assert g[i..][1..] == g[i + 1..];
  }

  lemma {:induction false} GroupRanksLength(g: seq<Group>)
    ensures |GroupRanks(g)| == |g|
  {
    if g != [] { GroupRanksLength(g[1..]); }
  }

  /** The runs of a hand, in descending order. */
  ghost predicate RunsOf(ranks: seq<nat>, g: seq<Group>) {
    && |g| <= 5
    && (forall i, j :: 0 <= i < j < |g| ==> g[i].rank > g[j].rank)
    && (forall x: nat :: Of(ranks, x) > 0 <==> HasRank(g, x))
    && (|g| == 5 ==> forall k :: 0 <= k < 5 ==> Of(ranks, g[k].rank) == 1)
  }

  lemma RunsAre(ranks: seq<nat>)
    requires |ranks| == 5
    ensures RunsOf(ranks, Runs(SortDesc(ranks)))
  {
    hide Of, CountOf, CountTotal;
    SortDescSpec(ranks);
    var s := SortDesc(ranks);
    var g := Runs(s);
    RunsDescend(s);
    RunsCount(s, 0);
    TotalAtLeast(g);
    TotalOfFive(g);
    forall x: nat
      ensures Of(ranks, x) > 0 <==> HasRank(g, x)
      ensures forall k :: 0 <= k < |g| && g[k].rank == x ==> Of(ranks, x) == g[k].count
    {
      RunsCount(s, x);
      OfSame(ranks, s, x);
      if k :| 0 <= k < |g| && g[k].rank == x {
        CountAt(g, k);
      } else {
        NoCount(g, x);
      }
    }
    if |g| == 5 {
      forall k | 0 <= k < 5
        ensures Of(ranks, g[k].rank) == 1
      {
        assert Cnt(g, 0) == Cnt(g, 1) == Cnt(g, 2) == Cnt(g, 3) == Cnt(g, 4) == 1;
        assert g[k].count == Cnt(g, k);
      }
    }
  }

  lemma StraightMeans(ranks: seq<nat>)
    requires |ranks| == 5
    ensures var high := StraightHigh(GroupRanks(Runs(SortDesc(ranks))));
      if high.Some? then IsStraight(ranks, high.value) else NoStraight(ranks)
  {
    hide Runs, SortDesc, Of;
    var g := Runs(SortDesc(ranks));
    RunsAre(ranks);
    GroupRanksLength(g);
    if |g| == 5 { GroupRanksAre(g); }
    var high := StraightHigh(GroupRanks(g));
    if high.None? {
      forall h: int
        ensures !IsStraight(ranks, h)
      {
        if IsStraight(ranks, h) { StraightFound(ranks, g, h); }
      }
    } else {
      StraightHolds(ranks, g, high.value);
    }
  }

  /** Five runs in a row are a straight. */
  lemma StraightHolds(ranks: seq<nat>, g: seq<Group>, h: nat)
    requires RunsOf(ranks, g) && |g| == 5 && StraightHigh([g[0].rank, g[1].rank, g[2].rank, g[3].rank, g[4].rank]) == Some(h)
    ensures IsStraight(ranks, h)
  {
    hide Of;
    assert Of(ranks, g[0].rank) == Of(ranks, g[1].rank) == Of(ranks, g[2].rank) == Of(ranks, g[3].rank) == Of(ranks, g[4].rank) == 1;
  }

  /** Five consecutive ranks leave no room for anything else. */
  lemma StraightFound(ranks: seq<nat>, g: seq<Group>, h: int)
    requires RunsOf(ranks, g) && IsStraight(ranks, h)
    ensures |g| == 5 && StraightHigh([g[0].rank, g[1].rank, g[2].rank, g[3].rank, g[4].rank]).Some?
  {
    hide Of;
    if h >= 4 && Of(ranks, h) == 1 && Of(ranks, h - 1) == 1 && Of(ranks, h - 2) == 1 && Of(ranks, h - 3) == 1 && Of(ranks, h - 4) == 1 {
      FiveRanks(g, h, h - 1, h - 2, h - 3, h - 4);
    } else {
      FiveRanks(g, 14, 5, 4, 3, 2);
    }
  }

  lemma FiveRanks(g: seq<Group>, a: nat, b: nat, c: nat, d: nat, e: nat)
    requires |g| <= 5 && (forall i, j :: 0 <= i < j < |g| ==> g[i].rank > g[j].rank) && a > b > c > d > e
    requires HasRank(g, a) && HasRank(g, b) && HasRank(g, c) && HasRank(g, d) && HasRank(g, e)
    ensures |g| == 5 && g[0].rank == a && g[1].rank == b && g[2].rank == c && g[3].rank == d && g[4].rank == e
  {
    var i :| 0 <= i < |g| && g[i].rank == a;
    var j :| 0 <= j < |g| && g[j].rank == b;
    var k :| 0 <= k < |g| && g[k].rank == c;
    var l :| 0 <= l < |g| && g[l].rank == d;
    var m :| 0 <= m < |g| && g[m].rank == e;
    assert i < j < k < l < m;
  }

  // ---------------------------------------------------------------- the theorem

  /** The kickers of each shape, already in descending order. */
  lemma KickersOf(g: seq<Group>)
    requires 2 <= |g| <= 5 && Ordered(g) && NoRankTwice(g)
    ensures |g| == 2 && g[0].count > 1 && g[1].count == 1 ==> Kickers(g) == [g[1].rank]
    ensures |g| == 3 && g[0].count > 1 && g[1].count > 1 && g[2].count == 1 ==> Kickers(g) == [g[2].rank]
    ensures |g| == 3 && g[0].count > 1 && g[1].count == 1 && g[2].count == 1 ==> Kickers(g) == [g[1].rank, g[2].rank] && g[1].rank > g[2].rank
    ensures |g| == 4 && g[0].count > 1 && g[1].count == 1 && g[2].count == 1 && g[3].count == 1 ==>
              Kickers(g) == [g[1].rank, g[2].rank, g[3].rank] && g[1].rank > g[2].rank > g[3].rank
  {
    NoKickers();
    hide Kickers;
    KickersTail(g, 0);
    KickersTail(g, 1);
    if |g| > 2 { KickersTail(g, 2); }
    if |g| > 3 { KickersTail(g, 3); }
    assert g[0..] == g && g[|g|..] == [];
  }

  lemma NoKickers()
    ensures Kickers([]) == []
  {
  }

  lemma KickersTail(g: seq<Group>, i: nat)
    requires i < |g|
    ensures Kickers(g[i..]) == (if g[i].count == 1 then [g[i].rank] else []) + Kickers(g[i + 1..])
  {
    assert g[i..][1..] == g[i + 1..];
  }

  lemma SortDescSorted(s: seq<nat>)
    requires Descending(s)
    ensures SortDesc(s) == s
  {
    SortDescSpec(s);
    DescendingUnique(SortDesc(s), s);
  }

  /** THEOREM.  The result of `evaluate5` on any five distinct cards is the one the rules prescribe. */
  lemma Evaluate5ByTheRules(cards: seq<nat>)
    requires |cards| == 5 && ValidCards(cards)
    ensures Rules(Ranks(cards), IsFlush(cards), Evaluate5(cards))
  {
    hide ValidCards, Of, IsFlush, IsStraight, NoStraight, Kickers, Runs, SortGroups, StraightHigh, Ranks, GroupRanks, SortDesc, InsertDesc;
    var ranks := Ranks(cards);
    SortDescSpec(ranks);
    var g := SortGroups(Runs(SortDesc(ranks)));
    SortedGroups(cards);
    StraightMeans(ranks);
    KickersOf(g);
    if |g| == 3 || |g| == 4 { SortDescSorted(Kickers(g)); }
    PairOrder(g);
    if |g| == 5 { AllSingle(ranks, g); }
  }

  lemma PairOrder(g: seq<Group>)
    requires 2 <= |g| && Ordered(g) && NoRankTwice(g)
    ensures g[0].count == g[1].count ==> SortDesc([g[0].rank, g[1].rank]) == [g[0].rank, g[1].rank] && g[0].rank > g[1].rank
  {
    if g[0].count == g[1].count { SortDescSorted([g[0].rank, g[1].rank]); }
  }

  lemma AllSingle(ranks: seq<nat>, g: seq<Group>)
    requires GroupsOf(ranks, g) && |g| == 5
    ensures forall x :: Of(ranks, x) <= 1
  {
    forall x: nat
      ensures Of(ranks, x) <= 1
    {
      if Of(ranks, x) > 0 {
        var k :| 0 <= k < |g| && g[k].rank == x;
        assert g[k].count == Cnt(g, k);
      }
    }
  }
}
