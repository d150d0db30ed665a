/** Comparing hands (packages/holdem-eval/src/handRank.ts). */
module HandRank {

  const HIGH_CARD := 0
  const ONE_PAIR := 1
  const TWO_PAIR := 2
  const TRIPS := 3
  const STRAIGHT := 4
  const FLUSH := 5
  const FULL_HOUSE := 6
  const QUADS := 7
  const STRAIGHT_FLUSH := 8

  datatype HandRank = HandRank(category: nat, tiebreakers: seq<int>)

  /** A missing tiebreaker counts as zero. */
  function At(t: seq<int>, i: nat): int { if i < |t| then t[i] else 0 }

  function Longest(a: HandRank, b: HandRank): nat {
    if |a.tiebreakers| >= |b.tiebreakers| then |a.tiebreakers| else |b.tiebreakers|
  }

  function CompareFrom(a: HandRank, b: HandRank, i: nat): int
    decreases Longest(a, b) - i
  {
    if i >= Longest(a, b) then 0
    else
      var av, bv := At(a.tiebreakers, i), At(b.tiebreakers, i);
      if av != bv then (if av < bv then -1 else 1) else CompareFrom(a, b, i + 1)
  }

  /** `compareHandRank` */
  function Compare(a: HandRank, b: HandRank): int {
    if a.category != b.category then (if a.category < b.category then -1 else 1)
    else CompareFrom(a, b, 0)
  }

  // ---------------------------------------------------------------- the order it computes

  /** `k` is the first place where the tiebreakers differ, and `a` is the smaller there. */
  ghost predicate LessAt(a: HandRank, b: HandRank, k: nat) {
    && At(a.tiebreakers, k) < At(b.tiebreakers, k)
    && forall i :: 0 <= i < k ==> At(a.tiebreakers, i) == At(b.tiebreakers, i)
  }

  ghost predicate Less(a: HandRank, b: HandRank) {
    a.category < b.category || (a.category == b.category && exists k: nat :: LessAt(a, b, k))
  }

  ghost predicate Same(a: HandRank, b: HandRank) {
    a.category == b.category && forall i: nat :: At(a.tiebreakers, i) == At(b.tiebreakers, i)
  }

  lemma {:induction false} CompareFromMeans(a: HandRank, b: HandRank, i: nat)
    requires forall k :: 0 <= k < i ==> At(a.tiebreakers, k) == At(b.tiebreakers, k)
    ensures CompareFrom(a, b, i) == -1 <==> exists k: nat :: LessAt(a, b, k)
    ensures CompareFrom(a, b, i) == 1 <==> exists k: nat :: LessAt(b, a, k)
    ensures CompareFrom(a, b, i) == 0 <==> forall k: nat :: At(a.tiebreakers, k) == At(b.tiebreakers, k)
    ensures CompareFrom(a, b, i) in {-1, 0, 1}
    decreases Longest(a, b) - i
  {
    if i < Longest(a, b) {
      var av, bv := At(a.tiebreakers, i), At(b.tiebreakers, i);
      if av < bv {
        assert LessAt(a, b, i);
      } else if av > bv {
        assert LessAt(b, a, i);
      } else {
        CompareFromMeans(a, b, i + 1);
      }
    }
  }

  /** The comparison is the zero-padded lexicographic order, for lists of any and unequal lengths. */
  lemma CompareMeans(a: HandRank, b: HandRank)
    ensures Compare(a, b) == -1 <==> Less(a, b)
    ensures Compare(a, b) == 1 <==> Less(b, a)
    ensures Compare(a, b) == 0 <==> Same(a, b)
    ensures Compare(a, b) in {-1, 0, 1}
  {
    CompareFromMeans(a, b, 0);
  }

  /** Reversing the arguments reverses the sign. */
  lemma CompareFlips(a: HandRank, b: HandRank)
    ensures Compare(b, a) == -Compare(a, b)
  {
    CompareMeans(a, b);
    CompareMeans(b, a);
  }

  lemma LessTrans(a: HandRank, b: HandRank, c: HandRank)
    requires (Less(a, b) || Same(a, b)) && (Less(b, c) || Same(b, c))
    ensures Less(a, c) || Same(a, c)
    ensures Less(a, b) || Less(b, c) ==> Less(a, c)
  {
    if a.category == b.category == c.category {
      if Less(a, b) {
        var k: nat :| LessAt(a, b, k);
        if Less(b, c) {
          var l: nat :| LessAt(b, c, l);
          assert LessAt(a, c, if k <= l then k else l);
        } else {
          assert LessAt(a, c, k);
        }
      } else if Less(b, c) {
        var l: nat :| LessAt(b, c, l);
        assert LessAt(a, c, l);
      }
    }
  }

  /** The comparison is a total preorder, and strictness is inherited from either side. */
  lemma CompareTrans(a: HandRank, b: HandRank, c: HandRank)
    requires Compare(a, b) <= 0 && Compare(b, c) <= 0
    ensures Compare(a, c) <= 0
    ensures Compare(a, b) < 0 || Compare(b, c) < 0 ==> Compare(a, c) < 0
  {
    hide Compare;
    CompareMeans(a, b);
    CompareMeans(b, c);
    CompareMeans(a, c);
    LessTrans(a, b, c);
  }
}
