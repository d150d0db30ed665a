/** Side pots (packages/poker-engine/src/pots.ts, and `computeSidePots` in apps/chain/internal/app/poker.go). */
module Pots {

  datatype Pot = Pot(amount: nat, eligible: seq<nat>)

  function Min(a: nat, b: nat): nat { if a <= b then a else b }

  // ---------------------------------------------------------------- tiers over what each seat has left

  /** How many seats from `i` on still have something left. */
  function Positive(v: seq<nat>, i: nat): nat
    decreases |v| - i
  {
    if i >= |v| then 0 else (if v[i] > 0 then 1 else 0) + Positive(v, i + 1)
  }

  ghost predicate AtLeast(v: seq<nat>, m: nat) {
    0 < m && forall i :: 0 <= i < |v| ==> v[i] == 0 || m <= v[i]
  }

  /** The smallest amount left. */
  ghost predicate IsMin(v: seq<nat>, m: nat) {
    AtLeast(v, m) && exists i :: 0 <= i < |v| && v[i] == m
  }

  function Lower(v: seq<nat>, m: nat): (r: seq<nat>)
    ensures |r| == |v|
    ensures forall i :: 0 <= i < |v| ==> r[i] == if v[i] > m then v[i] - m else 0
  {
    seq(|v|, i requires 0 <= i < |v| => if v[i] > m then v[i] - m else 0)
  }

  lemma {:induction false} LowerCount(v: seq<nat>, m: nat, i: nat)
    requires AtLeast(v, m)
    ensures Positive(Lower(v, m), i) <= Positive(v, i)
    ensures (exists k :: i <= k < |v| && v[k] == m) ==> Positive(Lower(v, m), i) < Positive(v, i)
    decreases |v| - i
  {
    if i < |v| { LowerCount(v, m, i + 1); }
  }

  lemma {:induction false} SomePositive(v: seq<nat>, i: nat)
    ensures Positive(v, i) > 0 <==> exists k :: i <= k < |v| && v[k] > 0
    decreases |v| - i
  {
    if i < |v| { SomePositive(v, i + 1); }
  }

  lemma {:induction false} MinExists(v: seq<nat>, k: nat)
    requires k < |v| && v[k] > 0
    ensures exists m :: IsMin(v, m)
    decreases v[k]
  {
    if j :| 0 <= j < |v| && 0 < v[j] < v[k] {
      MinExists(v, j);
    } else {
      assert IsMin(v, v[k]);
    }
  }

  ghost function MinOf(v: seq<nat>): (m: nat)
    requires Positive(v, 0) > 0
    ensures IsMin(v, m)
  {
    SomePositive(v, 0);
    var k :| 0 <= k < |v| && v[k] > 0;
    MinExists(v, k);
    var m :| IsMin(v, m);
    m
  }

  /** The eligible seats from `i` on that still have something left, in seat order. */
  function Open(v: seq<nat>, eligible: seq<bool>, i: nat): seq<nat>
    requires |v| == |eligible|
    decreases |v| - i
  {
    if i >= |v| then []
    else if v[i] > 0 && eligible[i] then [i] + Open(v, eligible, i + 1)
    else Open(v, eligible, i + 1)
  }

  ghost function Tiers(v: seq<nat>, eligible: seq<bool>): seq<Pot>
    requires |v| == |eligible|
    decreases Positive(v, 0)
  {
    if Positive(v, 0) == 0 then []
    else
      var m := MinOf(v);
      LowerCount(v, m, 0);
      [Pot(m * Positive(v, 0), Open(v, eligible, 0))] + Tiers(Lower(v, m), eligible)
  }

  /** Merge `ps` into `done`, joining a tier to the last pot when both have the same seats. */
  function MergeInto(done: seq<Pot>, ps: seq<Pot>): seq<Pot>
    decreases |ps|
  {
    if ps == [] then done
    else MergeInto(MergeOne(done, ps[0]), ps[1..])
  }

  function MergeOne(done: seq<Pot>, p: Pot): seq<Pot> {
    if done != [] && done[|done|-1].eligible == p.eligible
    then done[..|done|-1] + [Pot(done[|done|-1].amount + p.amount, p.eligible)]
    else done + [p]
  }

  ghost function SidePots(commit: seq<nat>, eligible: seq<bool>): seq<Pot>
    requires |commit| == |eligible|
  {
    MergeInto([], Tiers(commit, eligible))
  }

  // ---------------------------------------------------------------- amounts

  function PotTotal(ps: seq<Pot>): nat {
    if ps == [] then 0 else ps[0].amount + PotTotal(ps[1..])
  }

  /** What the pots open to `seat` hold together. */
  function WinnableBy(ps: seq<Pot>, seat: nat): nat {
    if ps == [] then 0
    else (if seat in ps[0].eligible then ps[0].amount else 0) + WinnableBy(ps[1..], seat)
  }

  function Sum(v: seq<nat>, i: nat): nat
    decreases |v| - i
  {
    if i >= |v| then 0 else v[i] + Sum(v, i + 1)
  }

  /** The sum over the seats from `i` on of what they matched of a commitment of `c`. */
  function Matched(v: seq<nat>, c: nat, i: nat): nat
    decreases |v| - i
  {
    if i >= |v| then 0 else Min(v[i], c) + Matched(v, c, i + 1)
  }

  lemma MulStep(m: nat, k: nat)
    ensures m * (k + 1) == m + m * k
  {
  }

  /** One tier: the minimum is matched by everyone left, the rest by those who remain. */
  lemma {:induction false} MatchedTier(v: seq<nat>, m: nat, c: nat, i: nat)
    requires AtLeast(v, m) && m <= c
    ensures Matched(v, c, i) == m * Positive(v, i) + Matched(Lower(v, m), c - m, i)
    decreases |v| - i
  {
    if i < |v| {
      MatchedTier(v, m, c, i + 1);
      MulStep(m, Positive(v, i + 1));
    }
  }

  lemma {:induction false} MatchedNothing(v: seq<nat>, c: nat, i: nat)
    requires c == 0 || Positive(v, i) == 0
    ensures Matched(v, c, i) == 0
    decreases |v| - i
  {
    if i < |v| { MatchedNothing(v, c, i + 1); }
  }

  lemma {:induction false} MatchedAll(v: seq<nat>, c: nat, i: nat)
    requires forall k :: 0 <= k < |v| ==> v[k] <= c
    ensures Matched(v, c, i) == Sum(v, i)
    decreases |v| - i
  {
    if i < |v| { MatchedAll(v, c, i + 1); }
  }

  lemma {:induction false} SumBounds(v: seq<nat>, i: nat)
    ensures forall k :: i <= k < |v| ==> v[k] <= Sum(v, i)
    decreases |v| - i
  {
    if i < |v| { SumBounds(v, i + 1); }
  }

  lemma {:induction false} OpenSeats(v: seq<nat>, eligible: seq<bool>, i: nat, s: nat)
    requires |v| == |eligible|
    ensures s in Open(v, eligible, i) <==> i <= s < |v| && v[s] > 0 && eligible[s]
    decreases |v| - i
  {
    if i < |v| { OpenSeats(v, eligible, i + 1, s); }
  }

  /** The tiers open to a seat hold exactly what was matched of its commitment. */
  lemma {:induction false} TiersWinnable(v: seq<nat>, eligible: seq<bool>, s: nat)
    requires |v| == |eligible| && s < |v|
    ensures WinnableBy(Tiers(v, eligible), s) == if eligible[s] then Matched(v, v[s], 0) else 0
    decreases Positive(v, 0)
  {
    if Positive(v, 0) == 0 {
      MatchedNothing(v, v[s], 0);
    } else {
      var m := MinOf(v);
      LowerCount(v, m, 0);
      var low := Lower(v, m);
      TiersWinnable(low, eligible, s);
      OpenSeats(v, eligible, 0, s);
      TiersUnfold(v, eligible);
      if v[s] > 0 {
        MatchedTier(v, m, v[s], 0);
      } else {
        MatchedNothing(v, 0, 0);
        MatchedNothing(low, 0, 0);
      }
    }
  }

  lemma TiersUnfold(v: seq<nat>, eligible: seq<bool>)
    requires |v| == |eligible| && Positive(v, 0) > 0
    ensures var m, ps := MinOf(v), Tiers(v, eligible);
            |ps| > 0 && ps[0] == Pot(m * Positive(v, 0), Open(v, eligible, 0)) && ps[1..] == Tiers(Lower(v, m), eligible)
  {
    LowerCount(v, MinOf(v), 0);
  }

  lemma {:induction false} TiersTotal(v: seq<nat>, eligible: seq<bool>, c: nat)
    requires |v| == |eligible| && forall i :: 0 <= i < |v| ==> v[i] <= c
    ensures PotTotal(Tiers(v, eligible)) == Matched(v, c, 0)
    ensures forall p :: p in Tiers(v, eligible) ==> p.amount > 0
    decreases Positive(v, 0)
  {
    if Positive(v, 0) == 0 {
      MatchedNothing(v, c, 0);
    } else {
      var m := MinOf(v);
      LowerCount(v, m, 0);
      TiersTotal(Lower(v, m), eligible, c - m);
      MatchedTier(v, m, c, 0);
      TiersUnfold(v, eligible);
      PositiveProduct(m, Positive(v, 0));
    }
  }

  lemma PositiveProduct(m: nat, k: nat)
    requires m > 0 && k > 0
    ensures m * k > 0
  {
  }

  // ---------------------------------------------------------------- merging

  lemma {:induction false} TotalConcat(a: seq<Pot>, b: seq<Pot>, seat: nat)
    ensures PotTotal(a + b) == PotTotal(a) + PotTotal(b)
    ensures WinnableBy(a + b, seat) == WinnableBy(a, seat) + WinnableBy(b, seat)
  {
    if a == [] {
      assert a + b == b;
    } else {
      TotalConcat(a[1..], b, seat);
      assert (a + b)[1..] == a[1..] + b;
    }
  }

  lemma MergeOneKeeps(done: seq<Pot>, p: Pot, seat: nat)
    ensures PotTotal(MergeOne(done, p)) == PotTotal(done) + p.amount
    ensures WinnableBy(MergeOne(done, p), seat) == WinnableBy(done, seat) + (if seat in p.eligible then p.amount else 0)
  {
    if done != [] && done[|done|-1].eligible == p.eligible {
      var a, l := done[..|done|-1], done[|done|-1];
      var q := Pot(l.amount + p.amount, p.eligible);
      assert done == a + [l];
      TotalConcat(a, [l], seat);
      TotalConcat(a, [q], seat);
    } else {
      TotalConcat(done, [p], seat);
    }
  }

  lemma {:induction false} MergeKeeps(done: seq<Pot>, ps: seq<Pot>, seat: nat)
    ensures PotTotal(MergeInto(done, ps)) == PotTotal(done) + PotTotal(ps)
    ensures WinnableBy(MergeInto(done, ps), seat) == WinnableBy(done, seat) + WinnableBy(ps, seat)
    decreases |ps|
  {
    if ps != [] {
      MergeOneKeeps(done, ps[0], seat);
      MergeKeeps(MergeOne(done, ps[0]), ps[1..], seat);
    }
  }

  lemma {:induction false} MergePositive(done: seq<Pot>, ps: seq<Pot>)
    requires (forall p :: p in done ==> p.amount > 0) && (forall p :: p in ps ==> p.amount > 0)
    ensures forall p :: p in MergeInto(done, ps) ==> p.amount > 0
    decreases |ps|
  {
    if ps != [] {
      assert ps[0] in ps;
      MergePositive(MergeOne(done, ps[0]), ps[1..]);
    }
  }

  /** `b` is `a` with at least one seat left out. */
  ghost predicate StrictlyInside(b: seq<nat>, a: seq<nat>) {
    (forall x :: x in b ==> x in a) && exists x :: x in a && x !in b
  }

  /** The seats of a tier are those of the tier before it, or strictly fewer. */
  ghost predicate Narrows(a: seq<nat>, b: seq<nat>) { b == a || StrictlyInside(b, a) }

  /** Each pot is open to strictly fewer seats than the one before. */
  ghost predicate Nested(ps: seq<Pot>) {
    forall i, j :: 0 <= i && j == i + 1 && j < |ps| ==> StrictlyInside(ps[j].eligible, ps[i].eligible)
  }

  ghost predicate Shrinking(ps: seq<Pot>) {
    forall i, j :: 0 <= i && j == i + 1 && j < |ps| ==> Narrows(ps[i].eligible, ps[j].eligible)
  }

  lemma {:induction false} SameOpen(v: seq<nat>, w: seq<nat>, eligible: seq<bool>, i: nat)
    requires |v| == |w| == |eligible|
    requires forall k :: i <= k < |v| && eligible[k] ==> (v[k] > 0 <==> w[k] > 0)
    ensures Open(v, eligible, i) == Open(w, eligible, i)
    decreases |v| - i
  {
    if i < |v| { SameOpen(v, w, eligible, i + 1); }
  }

  lemma LowerNarrows(v: seq<nat>, eligible: seq<bool>, m: nat)
    requires |v| == |eligible|
    ensures Narrows(Open(v, eligible, 0), Open(Lower(v, m), eligible, 0))
  {
    var w := Lower(v, m);
    if k :| 0 <= k < |v| && eligible[k] && v[k] > 0 && w[k] == 0 {
      OpenSeats(v, eligible, 0, k);
      OpenSeats(w, eligible, 0, k);
      forall x | x in Open(w, eligible, 0)
        ensures x in Open(v, eligible, 0)
      {
        OpenSeats(v, eligible, 0, x);
        OpenSeats(w, eligible, 0, x);
      }
    } else {
      SameOpen(v, w, eligible, 0);
    }
  }

  lemma {:induction false} TiersShrink(v: seq<nat>, eligible: seq<bool>)
    requires |v| == |eligible|
    ensures Shrinking(Tiers(v, eligible))
    decreases Positive(v, 0)
  {
    hide StrictlyInside, Narrows;
    if Positive(v, 0) > 0 {
      var m := MinOf(v);
      LowerCount(v, m, 0);
      var low := Lower(v, m);
      LowerNarrows(v, eligible, m);
      TiersShrink(low, eligible);
      TiersUnfold(v, eligible);
      var ps, qs := Tiers(v, eligible), Tiers(low, eligible);
      if Positive(low, 0) > 0 { TiersUnfold(low, eligible); }
      assert forall i :: 0 <= i < |qs| ==> qs[i] == ps[i + 1];
      forall i, j | 0 <= i && j == i + 1 && j < |ps|
        ensures Narrows(ps[i].eligible, ps[j].eligible)
      {
        if i > 0 {
          assert ps[i] == qs[i - 1] && ps[j] == qs[j - 1];
        }
      }
    }
  }

  lemma {:induction false} MergeNests(done: seq<Pot>, ps: seq<Pot>)
    requires Nested(done) && Shrinking(ps)
    requires done != [] && ps != [] ==> Narrows(done[|done|-1].eligible, ps[0].eligible)
    ensures Nested(MergeInto(done, ps))
    decreases |ps|
  {
    hide StrictlyInside;
    if ps != [] {
      var next, rest := MergeOne(done, ps[0]), ps[1..];
      MergeOneNests(done, ps[0]);
      assert forall i :: 0 <= i < |rest| ==> rest[i] == ps[i + 1];
      MergeNests(next, rest);
    }
  }

  lemma MergeOneNests(done: seq<Pot>, p: Pot)
    requires Nested(done) && (done != [] ==> Narrows(done[|done|-1].eligible, p.eligible))
    ensures Nested(MergeOne(done, p))
    ensures MergeOne(done, p)[|MergeOne(done, p)|-1].eligible == p.eligible
  {
    hide StrictlyInside;
    var next := MergeOne(done, p);
    forall i, j | 0 <= i && j == i + 1 && j < |next|
      ensures StrictlyInside(next[j].eligible, next[i].eligible)
    {
      if j < |done| {
        assert next[i].eligible == done[i].eligible && next[j].eligible == done[j].eligible;
      }
    }
  }

  // ---------------------------------------------------------------- the closed form

  /** THEOREM.  The pots of any commitments: positive amounts that sum to all commitments, strictly nested
      seat sets, and for an eligible seat exactly the sum over all seats of what they matched. */
  lemma SidePotsClosedForm(commit: seq<nat>, eligible: seq<bool>)
    requires |commit| == |eligible|
    ensures var ps := SidePots(commit, eligible);
      && (forall p :: p in ps ==> p.amount > 0)
      && PotTotal(ps) == Sum(commit, 0)
      && Nested(ps)
      && (forall i :: 0 <= i < |commit| ==> WinnableBy(ps, i) == if eligible[i] then Matched(commit, commit[i], 0) else 0)
  {
    hide Nested, Shrinking, Tiers;
    var tiers, c := Tiers(commit, eligible), Sum(commit, 0);
    SumBounds(commit, 0);
    TiersTotal(commit, eligible, c);
    MatchedAll(commit, c, 0);
    MergeKeeps([], tiers, 0);
    MergePositive([], tiers);
    TiersShrink(commit, eligible);
    EmptyNested();
    MergeNests([], tiers);
    forall i | 0 <= i < |commit|
      ensures WinnableBy(SidePots(commit, eligible), i) == if eligible[i] then Matched(commit, commit[i], 0) else 0
    {
      MergeKeeps([], tiers, i);
      TiersWinnable(commit, eligible, i);
    }
  }

  lemma EmptyNested()
    ensures Nested([])
  {
  }

  // ---------------------------------------------------------------- the loops of the source

  /** An element of the source's `remaining` list. */
  datatype Entry = Entry(seat: nat, amount: nat, eligible: bool)

  /** The list the source keeps for the amounts `v`. */
  ghost function Remaining(v: seq<nat>, eligible: seq<bool>, i: nat): seq<Entry>
    requires |v| == |eligible|
    decreases |v| - i
  {
    if i >= |v| then []
    else if v[i] > 0 then [Entry(i, v[i], eligible[i])] + Remaining(v, eligible, i + 1)
    else Remaining(v, eligible, i + 1)
  }

  lemma {:induction false} RemainingHas(v: seq<nat>, eligible: seq<bool>, i: nat, s: nat) returns (k: nat)
    requires |v| == |eligible| && i <= s < |v| && v[s] > 0
    ensures k < |Remaining(v, eligible, i)| && Remaining(v, eligible, i)[k].seat == s
    decreases |v| - i
  {
    if s == i {
      k := 0;
    } else {
      k := RemainingHas(v, eligible, i + 1, s);
      if v[i] > 0 { k := k + 1; }
    }
  }

  lemma {:induction false} RemainingFacts(v: seq<nat>, eligible: seq<bool>, i: nat)
    requires |v| == |eligible|
    ensures var es := Remaining(v, eligible, i);
      && |es| == Positive(v, i)
      && SeatsOf(es) == Open(v, eligible, i)
      && (forall k :: 0 <= k < |es| ==> i <= es[k].seat < |v| && es[k].amount == v[es[k].seat] > 0)
      && (forall s :: i <= s < |v| && v[s] > 0 ==> exists k :: 0 <= k < |es| && es[k].seat == s)
    decreases |v| - i
  {
    if i < |v| {
      RemainingFacts(v, eligible, i + 1);
      var es, rest := Remaining(v, eligible, i), Remaining(v, eligible, i + 1);
      if v[i] > 0 { assert es[1..] == rest; }
      forall s | i <= s < |v| && v[s] > 0
        ensures exists k :: 0 <= k < |es| && es[k].seat == s
      {
        var k := RemainingHas(v, eligible, i, s);
      }
    }
  }

  /** The seats of the eligible entries. */
  function SeatsOf(es: seq<Entry>): seq<nat> {
    if es == [] then []
    else if es[0].eligible then [es[0].seat] + SeatsOf(es[1..])
    else SeatsOf(es[1..])
  }

  /** Subtracting `m` from each entry and dropping the exhausted ones. */
  function Spliced(es: seq<Entry>, m: nat): seq<Entry> {
    if es == [] then []
    else if es[0].amount > m then [Entry(es[0].seat, es[0].amount - m, es[0].eligible)] + Spliced(es[1..], m)
    else Spliced(es[1..], m)
  }

  lemma {:induction false} RemainingLower(v: seq<nat>, eligible: seq<bool>, m: nat, i: nat)
    requires |v| == |eligible|
    ensures Spliced(Remaining(v, eligible, i), m) == Remaining(Lower(v, m), eligible, i)
    decreases |v| - i
  {
    if i < |v| {
      RemainingLower(v, eligible, m, i + 1);
      var es := Remaining(v, eligible, i);
      assert v[i] > 0 ==> es[1..] == Remaining(v, eligible, i + 1);
    }
  }

  /** `computeSidePots`: repeated subtraction of the minimum with removal in place, then merging. */
  method ComputeSidePots(totalCommit: seq<nat>, eligibleForWin: seq<bool>) returns (merged: seq<Pot>)
    requires |totalCommit| == |eligibleForWin|
    ensures merged == SidePots(totalCommit, eligibleForWin)
  {
    hide Tiers, MergeInto;
    var potsByTier := SplitTiers(totalCommit, eligibleForWin);
    merged := [];
    assert potsByTier[0..] == potsByTier;
    for i := 0 to |potsByTier|
      invariant MergeInto(merged, potsByTier[i..]) == SidePots(totalCommit, eligibleForWin)
    {
      var p := potsByTier[i];
      MergeNext(merged, potsByTier, i);
      if |merged| > 0 && merged[|merged|-1].eligible == p.eligible {
        merged := merged[..|merged|-1] + [Pot(merged[|merged|-1].amount + p.amount, p.eligible)];
      } else {
        merged := merged + [p];
      }
    }
    MergeDone(merged);
    assert potsByTier[|potsByTier|..] == [];
  }

  /** One turn of the merging loop. */
  lemma MergeNext(merged: seq<Pot>, ps: seq<Pot>, i: nat)
    requires i < |ps|
    ensures MergeInto(merged, ps[i..]) ==
      if |merged| > 0 && merged[|merged|-1].eligible == ps[i].eligible
      then MergeInto(merged[..|merged|-1] + [Pot(merged[|merged|-1].amount + ps[i].amount, ps[i].eligible)], ps[i + 1..])
      else MergeInto(merged + [ps[i]], ps[i + 1..])
  {
    assert ps[i..][0] == ps[i] && ps[i..][1..] == ps[i + 1..];
  }

  lemma MergeDone(merged: seq<Pot>)
    ensures MergeInto(merged, []) == merged
  {
  }

  method SplitTiers(totalCommit: seq<nat>, eligibleForWin: seq<bool>) returns (potsByTier: seq<Pot>)
    requires |totalCommit| == |eligibleForWin|
    ensures potsByTier == Tiers(totalCommit, eligibleForWin)
  {
    hide Tiers, Positive, IsMin, Remaining, SeatsOf, Open, MinOf, AtLeast, Lower;
    var remaining := CollectRemaining(totalCommit, eligibleForWin);
    potsByTier := [];
    ghost var v := totalCommit;
    RemainingFacts(v, eligibleForWin, 0);
    NoTiers(v, eligibleForWin);
    while |remaining| > 0
      invariant |v| == |eligibleForWin| && remaining == Remaining(v, eligibleForWin, 0)
      invariant |remaining| == Positive(v, 0) && SeatsOf(remaining) == Open(v, eligibleForWin, 0)
      invariant potsByTier + Tiers(v, eligibleForWin) == Tiers(totalCommit, eligibleForWin)
      invariant |remaining| == 0 ==> Tiers(v, eligibleForWin) == []
      decreases |remaining|
    {
      var min := FindMin(remaining, v, eligibleForWin);
      var seats := CollectEligible(remaining);
      TiersUnfold(v, eligibleForWin);
      LowerCount(v, min, 0);
      potsByTier := potsByTier + [Pot(min * |remaining|, seats)];
      remaining := SubtractAndSplice(remaining, min);
      RemainingLower(v, eligibleForWin, min, 0);
      v := Lower(v, min);
      RemainingFacts(v, eligibleForWin, 0);
      NoTiers(v, eligibleForWin);
    }
  }

  lemma NoTiers(v: seq<nat>, eligible: seq<bool>)
    requires |v| == |eligible|
    ensures Positive(v, 0) == 0 ==> Tiers(v, eligible) == []
  {
  }

  method CollectRemaining(totalCommit: seq<nat>, eligibleForWin: seq<bool>) returns (remaining: seq<Entry>)
    requires |totalCommit| == |eligibleForWin|
    ensures remaining == Remaining(totalCommit, eligibleForWin, 0)
  {
    remaining := [];
    for i := 0 to |totalCommit|
      invariant remaining + Remaining(totalCommit, eligibleForWin, i) == Remaining(totalCommit, eligibleForWin, 0)
    {
      if totalCommit[i] > 0 {
        remaining := remaining + [Entry(i, totalCommit[i], eligibleForWin[i])];
      }
    }
  }

  method FindMin(es: seq<Entry>, ghost v: seq<nat>, ghost eligible: seq<bool>) returns (min: nat)
    requires |v| == |eligible| && es == Remaining(v, eligible, 0) && es != [] && Positive(v, 0) > 0
    ensures min == MinOf(v) && AtLeast(v, min)
    ensures forall k :: 0 <= k < |es| ==> min <= es[k].amount
    ensures exists k :: 0 <= k < |v| && v[k] == min
  {
    hide Positive, Remaining;
    min := es[0].amount;
    for i := 1 to |es|
      invariant forall k :: 0 <= k < i ==> min <= es[k].amount
      invariant exists k :: 0 <= k < i && min == es[k].amount
    {
      if es[i].amount < min {
        min := es[i].amount;
      }
    }
    RemainingFacts(v, eligible, 0);
    MinIsUnique(v, min, MinOf(v));
  }

  lemma MinIsUnique(v: seq<nat>, m: nat, m': nat)
    requires IsMin(v, m) && IsMin(v, m')
    ensures m == m'
  {
  }

  method CollectEligible(es: seq<Entry>) returns (seats: seq<nat>)
    ensures seats == SeatsOf(es)
  {
    seats := [];
    for i := 0 to |es|
      invariant seats + SeatsOf(es[i..]) == SeatsOf(es)
    {
      assert es[i..][1..] == es[i + 1..];
      if es[i].eligible {
        seats := seats + [es[i].seat];
      }
    }
  }

  /** Subtract in place, then splice the exhausted entries out from the back. */
  method SubtractAndSplice(es: seq<Entry>, min: nat) returns (r: seq<Entry>)
    requires forall k :: 0 <= k < |es| ==> min <= es[k].amount
    ensures r == Spliced(es, min)
  {
    r := es;
    for i := 0 to |es|
      invariant |r| == |es|
      invariant forall k :: 0 <= k < i ==> r[k] == Entry(es[k].seat, es[k].amount - min, es[k].eligible)
      invariant forall k :: i <= k < |es| ==> r[k] == es[k]
    {
      r := r[i := Entry(r[i].seat, r[i].amount - min, r[i].eligible)];
    }
    ghost var lowered := r;
    ghost var tail: seq<Entry> := [];
    for i := |es| downto 0
      invariant r == lowered[..i] + tail && tail == Spliced(es[i..], min)
    {
      assert es[i..][1..] == es[i + 1..];
      assert r[i] == lowered[i] && r[..i] == lowered[..i] && r[i + 1..] == tail;
      assert lowered[..i + 1] == lowered[..i] + [lowered[i]];
      if r[i].amount == 0 {
        r := r[..i] + r[i + 1..];
      } else {
        tail := [lowered[i]] + tail;
      }
    }
    assert es[0..] == es;
  }
}
