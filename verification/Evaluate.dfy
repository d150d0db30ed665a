/** Evaluating hands (packages/holdem-eval/src/evaluate.ts, packages/holdem-eval/src/cards.ts). */
module Evaluate {
  import opened Outcome
  import opened HandRank

  function CardSuit(c: nat): nat { c / 13 }

  function CardRank(c: nat): nat { c % 13 + 2 }

  predicate Distinct(s: seq<nat>) { forall i, j :: 0 <= i < j < |s| ==> s[i] != s[j] }

  /** What `assertDistinct` lets through. */
  predicate ValidCards(cards: seq<nat>) { Distinct(cards) && forall i :: 0 <= i < |cards| ==> cards[i] < 52 }

  // ---------------------------------------------------------------- sorting

  function InsertDesc(x: nat, s: seq<nat>): seq<nat> {
    if s == [] || x >= s[0] then [x] + s else [s[0]] + InsertDesc(x, s[1..])
  }

  function SortDesc(s: seq<nat>): seq<nat> {
    if s == [] then [] else InsertDesc(s[0], SortDesc(s[1..]))
  }

  ghost predicate Descending(s: seq<nat>) { forall i, j :: 0 <= i < j < |s| ==> s[i] >= s[j] }

  lemma {:induction false} InsertDescElements(x: nat, s: seq<nat>)
    ensures multiset(InsertDesc(x, s)) == multiset{x} + multiset(s) && |InsertDesc(x, s)| == |s| + 1
  {
    if s != [] && x < s[0] {
      InsertDescElements(x, s[1..]);
      assert s == [s[0]] + s[1..];
    }
  }

  lemma {:induction false} InsertDescBound(x: nat, s: seq<nat>, m: nat)
    requires x <= m && forall i :: 0 <= i < |s| ==> s[i] <= m
    ensures forall i :: 0 <= i < |InsertDesc(x, s)| ==> InsertDesc(x, s)[i] <= m
  {
    if s != [] && x < s[0] { InsertDescBound(x, s[1..], m); }
  }

  lemma {:induction false} InsertDescSorted(x: nat, s: seq<nat>)
    requires Descending(s)
    ensures Descending(InsertDesc(x, s))
  {
    if s != [] && x < s[0] {
      InsertDescSorted(x, s[1..]);
      InsertDescBound(x, s[1..], s[0]);
    }
  }

  lemma {:induction false} SortDescSpec(s: seq<nat>)
    ensures Descending(SortDesc(s)) && multiset(SortDesc(s)) == multiset(s) && |SortDesc(s)| == |s|
  {
    if s != [] {
      SortDescSpec(s[1..]);
      InsertDescElements(s[0], SortDesc(s[1..]));
      InsertDescSorted(s[0], SortDesc(s[1..]));
      assert s == [s[0]] + s[1..];
    }
  }

  /** A descending list is determined by its elements. */
  lemma {:induction false} DescendingUnique(s: seq<nat>, t: seq<nat>)
    requires Descending(s) && Descending(t) && multiset(s) == multiset(t)
    ensures s == t
  {
    assert |s| == |multiset(s)| == |multiset(t)| == |t|;
    if s != [] {
      assert s[0] in multiset(t) && t[0] in multiset(s);
      assert s[0] in t && t[0] in s;
      assert s[0] == t[0];
      assert s == [s[0]] + s[1..] && t == [t[0]] + t[1..];
      assert multiset(s[1..]) == multiset(s) - multiset{s[0]};
      assert multiset(t[1..]) == multiset(t) - multiset{t[0]};
      DescendingUnique(s[1..], t[1..]);
    }
  }

  // ---------------------------------------------------------------- counting ranks

  datatype Group = Group(rank: nat, count: nat)

  /** The entries of the count map, in the order the ranks are first met in a sorted list. */
  function Runs(s: seq<nat>): seq<Group> {
    if s == [] then []
    else
      var rest := Runs(s[1..]);
      if rest != [] && rest[0].rank == s[0] then [Group(s[0], rest[0].count + 1)] + rest[1..]
      else [Group(s[0], 1)] + rest
  }

  predicate Before(a: Group, b: Group) {
    if a.count != b.count then a.count > b.count else a.rank >= b.rank
  }

  function InsertGroup(g: Group, s: seq<Group>): seq<Group> {
    if s == [] || Before(g, s[0]) then [g] + s else [s[0]] + InsertGroup(g, s[1..])
  }

  function SortGroups(s: seq<Group>): seq<Group> {
    if s == [] then [] else InsertGroup(s[0], SortGroups(s[1..]))
  }

  function GroupRanks(s: seq<Group>): seq<nat> {
    if s == [] then [] else [s[0].rank] + GroupRanks(s[1..])
  }

  /** `straightHighFromRanksDesc`: the wheel A-5-4-3-2 is a straight to the five. */
  function StraightHigh(u: seq<nat>): Option<nat> {
    if |u| != 5 then None
    else if u[0] == 14 && u[1] == 5 && u[2] == 4 && u[3] == 3 && u[4] == 2 then Some(5)
    else if u[0] == u[1] + 1 && u[1] == u[2] + 1 && u[2] == u[3] + 1 && u[3] == u[4] + 1 then Some(u[0])
    else None
  }

  function Kickers(s: seq<Group>): seq<nat> {
    if s == [] then [] else if s[0].count == 1 then [s[0].rank] + Kickers(s[1..]) else Kickers(s[1..])
  }

  predicate IsFlush(cards: seq<nat>) {
    forall i :: 0 <= i < |cards| ==> CardSuit(cards[i]) == CardSuit(cards[0])
  }

  function Ranks(cards: seq<nat>): (r: seq<nat>)
    ensures |r| == |cards|
  {
    seq(|cards|, i requires 0 <= i < |cards| => CardRank(cards[i]))
  }

  /** The branches of `evaluate5`, on the descending ranks. */
  function Classify(ranks: seq<nat>, flush: bool): HandRank
    requires |ranks| == 5
  {
    var counts := Runs(ranks);
    var high := StraightHigh(GroupRanks(counts));
    var groups := SortGroups(counts);
    var g0 := if |groups| > 0 then groups[0] else Group(0, 0);
    var g1 := if |groups| > 1 then groups[1] else Group(0, 0);
    if high.Some? && flush then HandRank(STRAIGHT_FLUSH, [high.value])
    else if g0.count == 4 then HandRank(QUADS, [g0.rank] + Take(Kickers(groups), 1))
    else if g0.count == 3 && g1.count == 2 then HandRank(FULL_HOUSE, [g0.rank, g1.rank])
    else if flush then HandRank(FLUSH, ranks)
    else if high.Some? then HandRank(STRAIGHT, [high.value])
    else if g0.count == 3 then HandRank(TRIPS, [g0.rank] + SortDesc(Kickers(groups)))
    else if g0.count == 2 && g1.count == 2 then HandRank(TWO_PAIR, SortDesc([g0.rank, g1.rank]) + Take(Kickers(groups), 1))
    else if g0.count == 2 then HandRank(ONE_PAIR, [g0.rank] + SortDesc(Kickers(groups)))
    else HandRank(HIGH_CARD, ranks)
  }

  function Take(s: seq<nat>, k: nat): seq<nat> { if |s| <= k then s else s[..k] }

  function Evaluate5(cards: seq<nat>): HandRank
    requires |cards| == 5
  {
    SortDescSpec(Ranks(cards));
    Classify(SortDesc(Ranks(cards)), IsFlush(cards))
  }

  // ---------------------------------------------------------------- order of the cards

  lemma {:induction false} RanksOfConcat(a: seq<nat>, b: seq<nat>)
    ensures Ranks(a + b) == Ranks(a) + Ranks(b)
  {
  }

  lemma RemoveOne(b: seq<nat>, j: nat)
    requires j < |b|
    ensures multiset(b[..j] + b[j + 1..]) == multiset(b) - multiset{b[j]}
    ensures multiset(Ranks(b[..j] + b[j + 1..])) == multiset(Ranks(b)) - multiset{CardRank(b[j])}
  {
    assert b == b[..j] + [b[j]] + b[j + 1..];
    RanksOfConcat(b[..j], b[j + 1..]);
    RanksOfConcat(b[..j] + [b[j]], b[j + 1..]);
    RanksOfConcat(b[..j], [b[j]]);
    assert Ranks([b[j]]) == [CardRank(b[j])];
    assert Ranks(b) == Ranks(b[..j]) + [CardRank(b[j])] + Ranks(b[j + 1..]);
  }

  lemma RemoveCard(b: seq<nat>, j: nat)
    requires j < |b|
    ensures multiset(b[..j] + b[j + 1..]) == multiset(b) - multiset{b[j]}
  {
    assert b == b[..j] + [b[j]] + b[j + 1..];
  }

  /** The first card of `a`, found in `b`, and the same cards left over. */
  lemma SameHead(a: seq<nat>, b: seq<nat>) returns (j: nat)
    requires multiset(a) == multiset(b) && a != []
    ensures j < |b| && b[j] == a[0] && multiset(a[1..]) == multiset(b[..j] + b[j + 1..])
  {
    assert a[0] in multiset(b);
    j :| 0 <= j < |b| && b[j] == a[0];
    assert a == [a[0]] + a[1..];
    RemoveCard(b, j);
  }

  lemma {:induction false} RanksMultiset(a: seq<nat>, b: seq<nat>)
    requires multiset(a) == multiset(b)
    ensures multiset(Ranks(a)) == multiset(Ranks(b))
  {
    hide Ranks, CardRank;
    if a == [] {
      assert |b| == |multiset(b)| == 0;
    } else {
      var j := SameHead(a, b);
      var b' := b[..j] + b[j + 1..];
      RemoveOne(a, 0);
      RemoveOne(b, j);
      assert a[..0] + a[1..] == a[1..];
      RanksMultiset(a[1..], b');
      RankThere(a, 0);
      RankThere(b, j);
      AddBack(multiset(Ranks(a)), multiset(Ranks(b)), CardRank(a[0]));
    }
  }

  lemma AddBack(m: multiset<nat>, k: multiset<nat>, x: nat)
    requires multiset{x} <= m && multiset{x} <= k && m - multiset{x} == k - multiset{x}
    ensures m == k
  {
    assert m == (m - multiset{x}) + multiset{x};
    assert k == (k - multiset{x}) + multiset{x};
  }

  lemma RankThere(b: seq<nat>, j: nat)
    requires j < |b|
    ensures multiset{CardRank(b[j])} <= multiset(Ranks(b))
  {
    assert Ranks(b)[j] in multiset(Ranks(b));
  }

  lemma FlushAny(a: seq<nat>, b: seq<nat>)
    requires multiset(a) == multiset(b) && IsFlush(a)
    ensures IsFlush(b)
  {
    forall i | 0 <= i < |b|
      ensures CardSuit(b[i]) == CardSuit(b[0])
    {
      assert b[i] in multiset(a) && b[0] in multiset(a);
      assert b[i] in a && b[0] in a;
    }
  }

  /** `evaluate5` ignores the order of its cards. */
  lemma Evaluate5AnyOrder(a: seq<nat>, b: seq<nat>)
    requires |a| == 5 && multiset(a) == multiset(b)
    ensures |b| == 5 && Evaluate5(a) == Evaluate5(b)
  {
    hide Classify, IsFlush;
    assert |b| == |multiset(b)| == |multiset(a)| == 5;
    RanksMultiset(a, b);
    SortDescSpec(Ranks(a));
    SortDescSpec(Ranks(b));
    DescendingUnique(SortDesc(Ranks(a)), SortDesc(Ranks(b)));
    if IsFlush(a) { FlushAny(a, b); }
    if IsFlush(b) { FlushAny(b, a); }
  }

  // ---------------------------------------------------------------- what the categories mean

  /** How many of the cards have rank `x`. */
  function Of(ranks: seq<nat>, x: nat): nat { multiset(ranks)[x] }

  function CountTotal(s: seq<Group>): nat { if s == [] then 0 else s[0].count + CountTotal(s[1..]) }

  function CountOf(s: seq<Group>, x: nat): nat {
    if s == [] then 0 else (if s[0].rank == x then s[0].count else 0) + CountOf(s[1..], x)
  }

  ghost predicate HasRank(s: seq<Group>, x: nat) { exists i :: 0 <= i < |s| && s[i].rank == x }

  ghost predicate NoRankTwice(s: seq<Group>) { forall i, j :: 0 <= i < j < |s| ==> s[i].rank != s[j].rank }

  ghost predicate AllPositive(s: seq<Group>) { forall i :: 0 <= i < |s| ==> s[i].count >= 1 }

  ghost predicate Ordered(s: seq<Group>) { forall i, j :: 0 <= i < j < |s| ==> Before(s[i], s[j]) }

  lemma {:induction false} RunsCount(s: seq<nat>, x: nat)
    ensures CountTotal(Runs(s)) == |s| && CountOf(Runs(s), x) == Of(s, x) && AllPositive(Runs(s))
  {
    if s != [] {
      RunsCount(s[1..], x);
      assert s == [s[0]] + s[1..];
      var g, h := Runs(s), Runs(s[1..]);
      if h != [] && h[0].rank == s[0] {
        assert g[1..] == h[1..];
      } else {
        assert g[1..] == h;
      }
    }
  }

  lemma {:induction false} RunsDescend(s: seq<nat>)
    requires Descending(s)
    ensures s != [] ==> Runs(s) != [] && Runs(s)[0].rank == s[0]
    ensures forall i, j :: 0 <= i < j < |Runs(s)| ==> Runs(s)[i].rank > Runs(s)[j].rank
  {
    if s != [] {
      RunsDescend(s[1..]);
      var g, h := Runs(s), Runs(s[1..]);
      if h != [] && h[0].rank == s[0] {
        assert forall i :: 0 <= i < |g| ==> g[i].rank == h[i].rank;
      } else {
        assert forall i :: 0 < i < |g| ==> g[i] == h[i - 1];
        if |s| > 1 { assert s[0] >= s[1] == s[1..][0]; }
      }
    }
  }

  lemma {:induction false} InsertGroupCounts(g: Group, s: seq<Group>, x: nat)
    ensures CountTotal(InsertGroup(g, s)) == g.count + CountTotal(s)
    ensures CountOf(InsertGroup(g, s), x) == (if g.rank == x then g.count else 0) + CountOf(s, x)
    ensures AllPositive(s) && g.count >= 1 ==> AllPositive(InsertGroup(g, s))
    ensures HasRank(InsertGroup(g, s), x) ==> g.rank == x || HasRank(s, x)
  {
    if s == [] || Before(g, s[0]) {
      assert ([g] + s)[1..] == s;
    } else {
      InsertGroupCounts(g, s[1..], x);
      assert InsertGroup(g, s)[1..] == InsertGroup(g, s[1..]);
      if HasRank(s[1..], x) {
        var i :| 0 <= i < |s[1..]| && s[1..][i].rank == x;
        assert s[i + 1].rank == x;
      }
      if HasRank(InsertGroup(g, s), x) && s[0].rank != x {
        var i :| 0 <= i < |InsertGroup(g, s)| && InsertGroup(g, s)[i].rank == x;
        assert InsertGroup(g, s[1..])[i - 1].rank == x;
      }
    }
  }

  lemma {:induction false} InsertGroupDistinct(g: Group, s: seq<Group>)
    requires NoRankTwice(s) && !HasRank(s, g.rank)
    ensures NoRankTwice(InsertGroup(g, s))
  {
    if s != [] && !Before(g, s[0]) {
      var t, r := s[1..], InsertGroup(g, s);
      assert forall i :: 0 <= i < |t| ==> t[i] == s[i + 1];
      InsertGroupDistinct(g, t);
      InsertGroupCounts(g, t, s[0].rank);
      assert forall i :: 0 < i < |r| ==> r[i] == InsertGroup(g, t)[i - 1];
    }
  }

  lemma {:induction false} InsertGroupBelow(g: Group, s: seq<Group>, b: Group)
    requires Before(b, g) && forall i :: 0 <= i < |s| ==> Before(b, s[i])
    ensures forall i :: 0 <= i < |InsertGroup(g, s)| ==> Before(b, InsertGroup(g, s)[i])
  {
    if s != [] && !Before(g, s[0]) { InsertGroupBelow(g, s[1..], b); }
  }

  lemma {:induction false} InsertGroupOrdered(g: Group, s: seq<Group>)
    requires Ordered(s)
    ensures Ordered(InsertGroup(g, s))
  {
    if s == [] || Before(g, s[0]) {
    } else {
      InsertGroupOrdered(g, s[1..]);
      InsertGroupBelow(g, s[1..], s[0]);
    }
  }

  lemma {:induction false} SortGroupsSpec(s: seq<Group>, x: nat)
    requires NoRankTwice(s) && AllPositive(s)
    ensures var g := SortGroups(s);
      Ordered(g) && NoRankTwice(g) && AllPositive(g) && CountTotal(g) == CountTotal(s) && CountOf(g, x) == CountOf(s, x)
    ensures HasRank(SortGroups(s), x) ==> HasRank(s, x)
  {
    if s != [] {
      var t := s[1..];
      assert forall i :: 0 <= i < |t| ==> t[i] == s[i + 1];
      SortGroupsSpec(t, x);
      SortGroupsSpec(t, s[0].rank);
      InsertGroupCounts(s[0], SortGroups(t), x);
      InsertGroupOrdered(s[0], SortGroups(t));
      InsertGroupDistinct(s[0], SortGroups(t));
      if HasRank(t, x) {
        var i :| 0 <= i < |t| && t[i].rank == x;
        assert s[i + 1].rank == x;
      }
    }
  }
}
