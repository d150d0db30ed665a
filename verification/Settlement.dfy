/** Showdown settlement (`settleKnownShowdown` and `runoutAndSettleHand` in apps/chain/internal/app/poker.go):
    side pots awarded by hand rank, with the odd chips of a split going to the first winner. */
module Settlement {
  import opened Outcome
  import opened Pots
  import HandRank
  import Evaluate
  import Winners

  const U64_MAX := 0xFFFF_FFFF_FFFF_FFFF

  /** What is on the table at showdown: who put in how much, who may win, and the cards. */
  datatype Showdown = Showdown(commit: seq<nat>, eligible: seq<bool>, board: seq<nat>, hole: seq<(nat, nat)>) {
    predicate WellFormed() { |commit| == |eligible| == |hole| && |board| == 5 }
  }

  function HoldingOf(d: Showdown, seat: nat): Winners.Holding
    requires d.WellFormed() && seat < |d.commit|
  {
    Winners.Holding(seat, d.hole[seat].0, d.hole[seat].1)
  }

  function RankOf(d: Showdown, seat: nat): HandRank.HandRank
    requires d.WellFormed() && seat < |d.commit|
  {
    Winners.Rank7(Winners.Seven(d.board, HoldingOf(d, seat)))
  }

  /** The cards of the seats `s` can be compared. */
  predicate Comparable(d: Showdown, s: seq<nat>)
    requires d.WellFormed()
  {
    && Evaluate.ValidCards(d.board)
    && forall i :: 0 <= i < |s| ==> s[i] < |d.commit| && Winners.ValidHolding(d.board, HoldingOf(d, s[i]))
  }

  /** `ws` are the winners of a pot open to `s`: its only seat, or every unbeaten seat in seat order. */
  ghost predicate AreWinners(d: Showdown, s: seq<nat>, ws: seq<nat>)
    requires d.WellFormed() && forall i :: 0 <= i < |s| ==> s[i] < |d.commit|
  {
    && Winners.Increasing(ws)
    && (forall x :: x in ws ==> x in s)
    && (s != [] ==> ws != [])
    && (|s| == 1 ==> ws == s)
    && (|s| > 1 ==> forall x :: x in s ==> (x in ws <==> forall y :: y in s ==> HandRank.Compare(RankOf(d, y), RankOf(d, x)) <= 0))
  }

  // ---------------------------------------------------------------- one pot

  function Share(amount: nat, ws: seq<nat>, seat: nat): nat {
    if ws == [] || seat !in ws then 0
    else amount / |ws| + (if seat == ws[0] then amount % |ws| else 0)
  }

  /** What the seats from `i` up to `n` receive. */
  function ShareTotal(amount: nat, ws: seq<nat>, i: nat, n: nat): nat
    decreases n - i
  {
    if i >= n then 0 else Share(amount, ws, i) + ShareTotal(amount, ws, i + 1, n)
  }

  /** How many of `ws` lie in [i, n). */
  ghost function Within(ws: seq<nat>, i: nat, n: nat): nat
    decreases n - i
  {
    if i >= n then 0 else (if i in ws then 1 else 0) + Within(ws, i + 1, n)
  }

  lemma {:induction false} WithinAll(ws: seq<nat>, i: nat, n: nat)
    requires Winners.Increasing(ws) && forall k :: 0 <= k < |ws| ==> i <= ws[k] < n
    ensures Within(ws, i, n) == |ws|
    decreases n - i
  {
    if i < n {
      if i in ws {
        var rest := ws[1..];
        assert ws[0] == i;
        assert forall k :: 0 <= k < |rest| ==> rest[k] == ws[k + 1] > i;
        WithinAll(rest, i + 1, n);
        WithinTail(ws, i + 1, n);
      } else {
        WithinAll(ws, i + 1, n);
      }
    }
  }

  lemma {:induction false} WithinTail(ws: seq<nat>, i: nat, n: nat)
    requires Winners.Increasing(ws) && ws != [] && i > ws[0]
    ensures Within(ws[1..], i, n) == Within(ws, i, n)
    decreases n - i
  {
    if i < n {
      WithinTail(ws, i + 1, n);
      assert i in ws <==> i in ws[1..] by { assert ws == [ws[0]] + ws[1..]; }
    }
  }

  lemma {:induction false} SharesAdd(amount: nat, ws: seq<nat>, i: nat, n: nat)
    requires ws != []
    ensures ShareTotal(amount, ws, i, n) == (amount / |ws|) * Within(ws, i, n) + (if i <= ws[0] < n then amount % |ws| else 0)
    decreases n - i
  {
    if i < n {
      SharesAdd(amount, ws, i + 1, n);
      var q, r := amount / |ws|, amount % |ws|;
      hide Share;
      ShareIs(amount, ws, i, q, r);
      MulStep(q, Within(ws, i + 1, n));
    }
  }

  lemma ShareIs(amount: nat, ws: seq<nat>, i: nat, q: nat, r: nat)
    requires ws != [] && q == amount / |ws| && r == amount % |ws|
    ensures Share(amount, ws, i) == (if i in ws then q else 0) + (if i == ws[0] then r else 0)
  {
    assert ws[0] in ws;
  }

  /** The shares of a pot add up to the pot, remainder included. */
  lemma SharesExact(amount: nat, ws: seq<nat>, n: nat)
    requires Winners.Increasing(ws) && ws != [] && forall k :: 0 <= k < |ws| ==> ws[k] < n
    ensures ShareTotal(amount, ws, 0, n) == amount
  {
    SharesAdd(amount, ws, 0, n);
    WithinAll(ws, 0, n);
    Division(amount, |ws|);
  }

  /** THEOREM.  A pot is split as evenly as chips allow: all winners but the lowest seat receive the same, the lowest
      seat at least that and fewer than one chip per winner more, and nobody else anything. */
  lemma SharesFair(amount: nat, ws: seq<nat>, a: nat, b: nat)
    requires Winners.Increasing(ws) && a in ws && b in ws && a < b
    ensures Share(amount, ws, b) <= Share(amount, ws, a) < Share(amount, ws, b) + |ws|
    ensures a != ws[0] ==> Share(amount, ws, a) == Share(amount, ws, b)
    ensures forall c: nat :: c !in ws ==> Share(amount, ws, c) == 0
    ensures forall c: nat :: c in ws ==> ws[0] <= c
  {
    Division(amount, |ws|);
    assert forall i :: 0 < i < |ws| ==> ws[0] < ws[i];
  }

  lemma Division(a: nat, b: nat)
    requires b > 0
    ensures (a / b) * b + a % b == a
  {
  }

  lemma NoShares(amount: nat, i: nat, n: nat)
    ensures ShareTotal(amount, [], i, n) == 0
    decreases n - i
  {
  }

  // ---------------------------------------------------------------- all pots

  /** What `seat` receives from the pots, pot by pot. */
  function Payout(ps: seq<Pot>, ws: seq<seq<nat>>, seat: nat): nat
    requires |ps| == |ws|
  {
    if ps == [] then 0 else Share(ps[0].amount, ws[0], seat) + Payout(ps[1..], ws[1..], seat)
  }

  function PayoutTotal(ps: seq<Pot>, ws: seq<seq<nat>>, i: nat, n: nat): nat
    requires |ps| == |ws|
    decreases n - i
  {
    if i >= n then 0 else Payout(ps, ws, i) + PayoutTotal(ps, ws, i + 1, n)
  }

  /** The pots that have an eligible seat. */
  function OpenTotal(ps: seq<Pot>): nat {
    if ps == [] then 0 else (if ps[0].eligible != [] then ps[0].amount else 0) + OpenTotal(ps[1..])
  }

  ghost predicate SeatsBelow(ps: seq<Pot>, n: nat) {
    forall p: Pot, x: nat :: p in ps && x in p.eligible ==> x < n
  }

  /** Every pot has its winners. */
  ghost predicate Decided(d: Showdown, ps: seq<Pot>, ws: seq<seq<nat>>)
    requires d.WellFormed()
  {
    && |ps| == |ws|
    && SeatsBelow(ps, |d.commit|)
    && forall i :: 0 <= i < |ps| ==> PotDecided(d, ps[i], ws[i])
  }

  ghost predicate PotDecided(d: Showdown, p: Pot, ws: seq<nat>)
    requires d.WellFormed()
  {
    (forall i :: 0 <= i < |p.eligible| ==> p.eligible[i] < |d.commit|) && AreWinners(d, p.eligible, ws)
  }

  lemma DecidedTail(d: Showdown, ps: seq<Pot>, ws: seq<seq<nat>>)
    requires d.WellFormed() && Decided(d, ps, ws) && ps != []
    ensures Decided(d, ps[1..], ws[1..]) && PotDecided(d, ps[0], ws[0])
  {
    hide PotDecided;
    assert forall p :: p in ps[1..] ==> p in ps;
    assert forall i :: 0 <= i < |ps| - 1 ==> ps[1..][i] == ps[i + 1] && ws[1..][i] == ws[i + 1];
  }

  lemma {:induction false} SplitTotal(ps: seq<Pot>, ws: seq<seq<nat>>, i: nat, n: nat)
    requires |ps| == |ws| && ps != []
    ensures PayoutTotal(ps, ws, i, n) == ShareTotal(ps[0].amount, ws[0], i, n) + PayoutTotal(ps[1..], ws[1..], i, n)
    decreases n - i
  {
    if i < n { SplitTotal(ps, ws, i + 1, n); }
  }

  lemma {:induction false} NothingToPay(i: nat, n: nat)
    ensures PayoutTotal([], [], i, n) == 0
    decreases n - i
  {
    if i < n { NothingToPay(i + 1, n); }
  }

  /** Payouts sum to the pots that have an eligible seat. */
  lemma {:induction false} PayoutsExact(d: Showdown, ps: seq<Pot>, ws: seq<seq<nat>>)
    requires d.WellFormed() && Decided(d, ps, ws)
    ensures PayoutTotal(ps, ws, 0, |d.commit|) == OpenTotal(ps)
  {
    hide AreWinners, Share;
    var n := |d.commit|;
    if ps == [] {
      NothingToPay(0, n);
    } else {
      SplitTotal(ps, ws, 0, n);
      DecidedTail(d, ps, ws);
      PayoutsExact(d, ps[1..], ws[1..]);
      PotPaid(d, ps[0], ws[0]);
    }
  }

  lemma FirstMember(ws: seq<nat>)
    ensures ws != [] ==> ws[0] in ws
    ensures |ws| > 1 && Winners.Increasing(ws) ==> ws[1] in ws && ws[0] < ws[1]
  {
  }

  lemma PotPaid(d: Showdown, p: Pot, ws: seq<nat>)
    requires d.WellFormed() && PotDecided(d, p, ws)
    ensures ShareTotal(p.amount, ws, 0, |d.commit|) == if p.eligible != [] then p.amount else 0
  {
    if p.eligible != [] {
      forall k | 0 <= k < |ws|
        ensures ws[k] < |d.commit|
      {
        assert ws[k] in p.eligible;
      }
      SharesExact(p.amount, ws, |d.commit|);
    } else {
      FirstMember(ws);
      NoShares(p.amount, 0, |d.commit|);
    }
  }

  lemma ShareBound(amount: nat, ws: seq<nat>, seat: nat)
    ensures Share(amount, ws, seat) <= amount
    ensures seat in ws && |ws| == 1 ==> Share(amount, ws, seat) == amount
    ensures seat !in ws ==> Share(amount, ws, seat) == 0
  {
    if ws != [] {
      Division(amount, |ws|);
      QuotientBound(amount / |ws|, |ws|);
    }
  }

  lemma QuotientBound(q: nat, b: nat)
    requires b >= 1
    ensures q <= q * b
  {
  }

  /** No seat receives more than the pots open to it hold. */
  lemma {:induction false} PayoutBound(d: Showdown, ps: seq<Pot>, ws: seq<seq<nat>>, seat: nat)
    requires d.WellFormed() && Decided(d, ps, ws)
    ensures Payout(ps, ws, seat) <= WinnableBy(ps, seat)
  {
    hide AreWinners, Share;
    if ps != [] {
      DecidedTail(d, ps, ws);
      PayoutBound(d, ps[1..], ws[1..], seat);
      ShareBound(ps[0].amount, ws[0], seat);
      OnlyEligibleWin(d, ps[0], ws[0], seat);
    }
  }

  lemma OnlyEligibleWin(d: Showdown, p: Pot, ws: seq<nat>, seat: nat)
    requires d.WellFormed() && PotDecided(d, p, ws)
    ensures seat in ws ==> seat in p.eligible
  {
  }

  /** `seat` may win and its hand is strictly better than every other hand that may win. */
  ghost predicate BeatsAll(d: Showdown, seat: nat)
    requires d.WellFormed()
  {
    && seat < |d.commit| && d.eligible[seat]
    && forall y :: 0 <= y < |d.commit| && y != seat && d.eligible[y] ==> HandRank.Compare(RankOf(d, y), RankOf(d, seat)) < 0
  }

  /** The pots list only seats that may win. */
  ghost predicate OnlyEligible(d: Showdown, ps: seq<Pot>)
    requires d.WellFormed()
  {
    forall p: Pot, x: nat :: p in ps && x in p.eligible ==> MayWin(d, x)
  }

  predicate MayWin(d: Showdown, x: nat)
    requires d.WellFormed()
  {
    x < |d.commit| && d.eligible[x]
  }

  lemma SoleWinner(d: Showdown, p: Pot, ws: seq<nat>, seat: nat)
    requires d.WellFormed() && PotDecided(d, p, ws) && BeatsAll(d, seat) && seat in p.eligible
    requires forall x: nat :: x in p.eligible ==> MayWin(d, x)
    ensures ws == [seat]
  {
    hide RankOf, HandRank.Compare;
    if |p.eligible| == 1 {
      assert p.eligible[0] == seat;
    } else {
      HandRank.CompareFlips(RankOf(d, seat), RankOf(d, seat));
      forall y | y in p.eligible
        ensures HandRank.Compare(RankOf(d, y), RankOf(d, seat)) <= 0
      {
      }
      assert seat in ws;
      forall x | x in ws
        ensures x == seat
      {
        if x != seat {
          HandRank.CompareFlips(RankOf(d, seat), RankOf(d, x));
        }
      }
      FirstMember(ws);
    }
  }

  /** The strictly best hand takes every pot open to it. */
  lemma {:induction false} BestTakesAll(d: Showdown, ps: seq<Pot>, ws: seq<seq<nat>>, seat: nat)
    requires d.WellFormed() && Decided(d, ps, ws) && BeatsAll(d, seat) && OnlyEligible(d, ps)
    ensures Payout(ps, ws, seat) == WinnableBy(ps, seat)
  {
    hide AreWinners, Share, BeatsAll;
    if ps != [] {
      DecidedTail(d, ps, ws);
      assert forall p :: p in ps[1..] ==> p in ps;
      BestTakesAll(d, ps[1..], ws[1..], seat);
      ShareBound(ps[0].amount, ws[0], seat);
      OnlyEligibleWin(d, ps[0], ws[0], seat);
      if seat in ps[0].eligible { SoleWinner(d, ps[0], ws[0], seat); }
    }
  }

  // ---------------------------------------------------------------- which pots have an eligible seat

  /** The eligible seat with the largest commitment is in every pot that has any eligible seat. */
  ghost predicate TopIsOpen(ps: seq<Pot>, top: nat) {
    forall p :: p in ps && p.eligible != [] ==> top in p.eligible
  }

  lemma {:induction false} TierTop(v: seq<nat>, eligible: seq<bool>, top: nat, p: Pot)
    requires |v| == |eligible| && top < |v| && eligible[top]
    requires forall j :: 0 <= j < |v| && eligible[j] ==> v[j] <= v[top]
    requires p in Tiers(v, eligible) && p.eligible != []
    ensures top in p.eligible
    decreases Positive(v, 0)
  {
    hide Tiers;
    TierOrLater(v, eligible, p);
    var m := MinOf(v);
    LowerCount(v, m, 0);
    if p in Tiers(Lower(v, m), eligible) {
      TierTop(Lower(v, m), eligible, top, p);
    } else {
      OpenSeats(v, eligible, 0, top);
      OpenSeats(v, eligible, 0, p.eligible[0]);
      assert p.eligible[0] in p.eligible;
    }
  }

  lemma TierOrLater(v: seq<nat>, eligible: seq<bool>, p: Pot)
    requires |v| == |eligible| && p in Tiers(v, eligible)
    ensures Positive(v, 0) > 0
    ensures p.eligible == Open(v, eligible, 0) || p in Tiers(Lower(v, MinOf(v)), eligible)
  {
    assert Positive(v, 0) > 0;
    TiersUnfold(v, eligible);
    var ps := Tiers(v, eligible);
    assert ps == [ps[0]] + ps[1..];
  }

  lemma {:induction false} TierSeat(v: seq<nat>, eligible: seq<bool>, p: Pot, x: nat)
    requires |v| == |eligible| && p in Tiers(v, eligible) && x in p.eligible
    ensures x < |v| && eligible[x]
    decreases Positive(v, 0)
  {
    hide Tiers;
    TierOrLater(v, eligible, p);
    var m := MinOf(v);
    LowerCount(v, m, 0);
    if p in Tiers(Lower(v, m), eligible) {
      TierSeat(Lower(v, m), eligible, p, x);
    } else {
      OpenSeats(v, eligible, 0, x);
    }
  }

  /** Merging makes no new seat lists. */
  lemma {:induction false} MergeSeats(done: seq<Pot>, ps: seq<Pot>, p: Pot)
    requires p in MergeInto(done, ps)
    ensures exists q :: (q in done || q in ps) && q.eligible == p.eligible
    decreases |ps|
  {
    if ps != [] {
      var next := MergeOne(done, ps[0]);
      MergeSeats(next, ps[1..], p);
      var q :| (q in next || q in ps[1..]) && q.eligible == p.eligible;
      assert ps[0] in ps;
      if q in next && q !in done {
        assert q.eligible == ps[0].eligible;
      } else if q in ps[1..] {
        assert q in ps;
      }
    }
  }

  lemma {:induction false} OpenIsWinnable(ps: seq<Pot>, top: nat)
    requires TopIsOpen(ps, top)
    ensures OpenTotal(ps) == WinnableBy(ps, top)
  {
    if ps != [] {
      assert ps[0] in ps && forall p :: p in ps[1..] ==> p in ps;
      OpenIsWinnable(ps[1..], top);
    }
  }

  /** THEOREM.  Settlement is exact.  With `top` an eligible seat of largest commitment, the seats together
      receive exactly what was matched of it (all commitments when nobody committed more); each seat receives
      at most what was matched of its own commitment, and exactly that when its hand beats all others. */
  lemma SettlementExact(d: Showdown, ws: seq<seq<nat>>, top: nat)
    requires d.WellFormed() && |ws| == |SidePots(d.commit, d.eligible)| && Decided(d, SidePots(d.commit, d.eligible), ws)
    requires top < |d.commit| && d.eligible[top] && forall j :: 0 <= j < |d.commit| && d.eligible[j] ==> d.commit[j] <= d.commit[top]
    ensures var ps, n := SidePots(d.commit, d.eligible), |d.commit|;
      && PayoutTotal(ps, ws, 0, n) == Matched(d.commit, d.commit[top], 0)
      && ((forall j :: 0 <= j < n ==> d.commit[j] <= d.commit[top]) ==> PayoutTotal(ps, ws, 0, n) == Sum(d.commit, 0))
      && (forall i :: 0 <= i < n ==> Payout(ps, ws, i) <= if d.eligible[i] then Matched(d.commit, d.commit[i], 0) else 0)
      && (forall i :: 0 <= i < n && BeatsAll(d, i) ==> Payout(ps, ws, i) == Matched(d.commit, d.commit[i], 0))
  {
    hide Decided, SidePots, Tiers, RankOf, BeatsAll, Payout, PayoutTotal, Nested;
    var ps, n := SidePots(d.commit, d.eligible), |d.commit|;
    SidePotsClosedForm(d.commit, d.eligible);
    PotSeats(d, top);
    PayoutsExact(d, ps, ws);
    OpenIsWinnable(ps, top);
    if forall j :: 0 <= j < n ==> d.commit[j] <= d.commit[top] {
      MatchedAll(d.commit, d.commit[top], 0);
    }
    forall i | 0 <= i < n
      ensures Payout(ps, ws, i) <= if d.eligible[i] then Matched(d.commit, d.commit[i], 0) else 0
    {
      PayoutBound(d, ps, ws, i);
    }
    forall i | 0 <= i < n && BeatsAll(d, i)
      ensures Payout(ps, ws, i) == Matched(d.commit, d.commit[i], 0)
    {
      BestTakesAll(d, ps, ws, i);
      BeatsAllEligible(d, i);
    }
  }

  lemma BeatsAllEligible(d: Showdown, i: nat)
    requires d.WellFormed() && BeatsAll(d, i)
    ensures i < |d.commit| && d.eligible[i]
  {
  }

  lemma PotSeats(d: Showdown, top: nat)
    requires d.WellFormed() && top < |d.commit| && d.eligible[top]
    requires forall j :: 0 <= j < |d.commit| && d.eligible[j] ==> d.commit[j] <= d.commit[top]
    ensures TopIsOpen(SidePots(d.commit, d.eligible), top) && OnlyEligible(d, SidePots(d.commit, d.eligible))
  {
    hide Tiers;
    var ps, tiers := SidePots(d.commit, d.eligible), Tiers(d.commit, d.eligible);
    forall p | p in ps && p.eligible != []
      ensures top in p.eligible
    {
      MergeSeats([], tiers, p);
      var q :| q in tiers && q.eligible == p.eligible;
      TierTop(d.commit, d.eligible, top, q);
    }
    forall p: Pot, x: nat | p in ps && x in p.eligible
      ensures MayWin(d, x)
    {
      MergeSeats([], tiers, p);
      var q :| q in tiers && q.eligible == p.eligible;
      TierSeat(d.commit, d.eligible, q, x);
    }
  }

  lemma {:induction false} MatchedAllIff(v: seq<nat>, c: nat, i: nat)
    ensures Matched(v, c, i) <= Sum(v, i)
    ensures Matched(v, c, i) == Sum(v, i) <==> forall k :: i <= k < |v| ==> v[k] <= c
    decreases |v| - i
  {
    if i < |v| { MatchedAllIff(v, c, i + 1); }
  }

  /** THEOREM.  A decided showdown pays out every committed chip if and only if no seat committed more than the
      best-covered eligible one. */
  lemma LossIffOutcommitted(d: Showdown, ws: seq<seq<nat>>, top: nat)
    requires d.WellFormed() && |ws| == |SidePots(d.commit, d.eligible)| && Decided(d, SidePots(d.commit, d.eligible), ws)
    requires top < |d.commit| && d.eligible[top] && forall j :: 0 <= j < |d.commit| && d.eligible[j] ==> d.commit[j] <= d.commit[top]
    ensures var paid := PayoutTotal(SidePots(d.commit, d.eligible), ws, 0, |d.commit|);
      && paid <= Sum(d.commit, 0)
      && (paid == Sum(d.commit, 0) <==> forall j :: 0 <= j < |d.commit| ==> d.commit[j] <= d.commit[top])
  {
    hide Decided, SidePots, Payout, PayoutTotal, BeatsAll;
    SettlementExact(d, ws, top);
    MatchedAllIff(d.commit, d.commit[top], 0);
  }

  // ---------------------------------------------------------------- the loops of the source

  /** A stack after receiving `x`, for an occupied seat. */
  function Credited(stack: Option<nat>, x: nat): Option<nat> {
    if stack.Some? then Some(stack.value + x) else None
  }

  /** The winners of one pot. */
  method PotWinners(d: Showdown, s: seq<nat>) returns (r: Result<seq<nat>>)
    requires d.WellFormed() && Winners.Increasing(s) && forall i :: 0 <= i < |s| ==> s[i] < |d.commit|
    ensures r.Err? <==> |s| > 1 && !Comparable(d, s)
    ensures r.Ok? ==> AreWinners(d, s, r.value)
  {
    hide RankOf, HandRank.Compare, Evaluate.ValidCards, Winners.Rank7;
    if |s| == 0 {
      return Ok([]);
    }
    if |s| == 1 {
      return Ok([s[0]]);
    }
    var entries: seq<Winners.Holding> := [];
    for k := 0 to |s|
      invariant |entries| == k
      invariant forall i :: 0 <= i < k ==> entries[i] == HoldingOf(d, s[i])
    {
      entries := entries + [HoldingOf(d, s[k])];
    }
    var ws := Winners.FindWinners(d.board, entries);
    if ws.Err? {
      return Err;
    }
    forall i | 0 <= i < |s|
      ensures s[i] in ws.value <==> forall y :: y in s ==> HandRank.Compare(RankOf(d, y), RankOf(d, s[i])) <= 0
    {
      UnbeatenMeans(d, s, entries, i);
    }
    SomeoneWins(d, s, ws.value);
    r := Ok(ws.value);
  }

  lemma UnbeatenMeans(d: Showdown, s: seq<nat>, entries: seq<Winners.Holding>, i: nat)
    requires d.WellFormed() && i < |s| == |entries| && Winners.Increasing(s)
    requires forall k :: 0 <= k < |s| ==> s[k] < |d.commit| && entries[k] == HoldingOf(d, s[k])
    ensures Winners.Unbeaten(d.board, entries, entries[i]) <==> forall y :: y in s ==> HandRank.Compare(RankOf(d, y), RankOf(d, s[i])) <= 0
    ensures forall k :: 0 <= k < |entries| && entries[k].seat == s[i] ==> k == i
  {
    hide HandRank.Compare, Winners.Rank7;
    if forall y :: y in s ==> HandRank.Compare(RankOf(d, y), RankOf(d, s[i])) <= 0 {
      forall k | 0 <= k < |entries|
        ensures HandRank.Compare(Winners.Rank7(Winners.Seven(d.board, entries[k])), Winners.Rank7(Winners.Seven(d.board, entries[i]))) <= 0
      {
        assert s[k] in s;
      }
    }
    if Winners.Unbeaten(d.board, entries, entries[i]) {
      forall y | y in s
        ensures HandRank.Compare(RankOf(d, y), RankOf(d, s[i])) <= 0
      {
        var k :| 0 <= k < |s| && s[k] == y;
        assert HandRank.Compare(Winners.Rank7(Winners.Seven(d.board, entries[k])), Winners.Rank7(Winners.Seven(d.board, entries[i]))) <= 0;
      }
    }
  }

  /** Among finitely many hands one is unbeaten. */
  lemma {:induction false} BestExists(d: Showdown, s: seq<nat>, k: nat) returns (b: nat)
    requires d.WellFormed() && 0 < k <= |s| && forall i :: 0 <= i < |s| ==> s[i] < |d.commit|
    ensures b < k && forall i :: 0 <= i < k ==> HandRank.Compare(RankOf(d, s[i]), RankOf(d, s[b])) <= 0
  {
    hide RankOf, HandRank.Compare;
    HandRank.CompareFlips(RankOf(d, s[k - 1]), RankOf(d, s[k - 1]));
    if k == 1 {
      b := 0;
    } else {
      b := BestExists(d, s, k - 1);
      var old_, new_ := RankOf(d, s[b]), RankOf(d, s[k - 1]);
      HandRank.CompareFlips(old_, new_);
      if HandRank.Compare(old_, new_) < 0 {
        forall i | 0 <= i < k - 1
          ensures HandRank.Compare(RankOf(d, s[i]), new_) <= 0
        {
          HandRank.CompareTrans(RankOf(d, s[i]), old_, new_);
        }
        b := k - 1;
      }
    }
  }

  lemma SomeoneWins(d: Showdown, s: seq<nat>, ws: seq<nat>)
    requires d.WellFormed() && s != [] && forall i :: 0 <= i < |s| ==> s[i] < |d.commit|
    requires forall i :: 0 <= i < |s| ==> (s[i] in ws <==> forall y :: y in s ==> HandRank.Compare(RankOf(d, y), RankOf(d, s[i])) <= 0)
    ensures ws != []
  {
    hide RankOf, HandRank.Compare;
    var b := BestExists(d, s, |s|);
    assert s[b] in ws;
  }

  /** Award one pot: everyone the quotient, the first winner the remainder as well. */
  method AwardPot(stacks: seq<Option<nat>>, amount: nat, ws: seq<nat>) returns (r: Result<seq<Option<nat>>>)
    requires Winners.Increasing(ws) && forall i :: 0 <= i < |ws| ==> ws[i] < |stacks|
    ensures r.Ok? ==> |r.value| == |stacks| && forall i :: 0 <= i < |stacks| ==> r.value[i] == Credited(stacks[i], Share(amount, ws, i))
    ensures (forall i :: 0 <= i < |stacks| && stacks[i].Some? ==> stacks[i].value + amount <= U64_MAX) ==> r.Ok?
  {
    var out := stacks;
    if |ws| == 0 {
      return Ok(out);
    }
    var share, rem := amount / |ws|, amount % |ws|;
    Division(amount, |ws|);
    QuotientBound(share, |ws|);
    for k := 0 to |ws|
      invariant |out| == |stacks|
      invariant forall i :: 0 <= i < |stacks| ==> out[i] == if i in ws[..k] then Credited(stacks[i], Share(amount, ws, i)) else stacks[i]
    {
      var seat := ws[k];
      assert ws[..k + 1] == ws[..k] + [seat];
      assert forall j :: 0 <= j < k ==> ws[j] < seat;
      if out[seat].Some? {
        if out[seat].value + share > U64_MAX {
          return Err;
        }
        out := out[seat := Some(out[seat].value + share)];
        if k == 0 {
          if out[seat].value + rem > U64_MAX {
            return Err;
          }
          out := out[seat := Some(out[seat].value + rem)];
        }
      }
    }
    assert ws[..|ws|] == ws;
    r := Ok(out);
  }

  lemma {:induction false} PayoutSnoc(ps: seq<Pot>, ws: seq<seq<nat>>, k: nat, seat: nat)
    requires |ps| == |ws| && k < |ps|
    ensures Payout(ps[..k + 1], ws[..k + 1], seat) == Payout(ps[..k], ws[..k], seat) + Share(ps[k].amount, ws[k], seat)
  {
    hide Share;
    if k == 0 {
      assert ps[..1][1..] == [] && ws[..1][1..] == [];
      assert ps[..0] == [] && ws[..0] == [];
    } else {
      PayoutSnoc(ps[1..], ws[1..], k - 1, seat);
      assert ps[..k + 1][1..] == ps[1..][..k] && ws[..k + 1][1..] == ws[1..][..k];
      assert ps[..k][1..] == ps[1..][..k - 1] && ws[..k][1..] == ws[1..][..k - 1];
    }
  }

  lemma {:induction false} PayoutPlusRest(ps: seq<Pot>, ws: seq<seq<nat>>, k: nat, seat: nat)
    requires |ps| == |ws| && k < |ps|
    ensures Payout(ps[..k], ws[..k], seat) + ps[k].amount <= PotTotal(ps)
  {
    hide Share;
    if k == 0 {
      assert ps[..0] == [] && ws[..0] == [];
    } else {
      PayoutPlusRest(ps[1..], ws[1..], k - 1, seat);
      assert ps[..k][1..] == ps[1..][..k - 1] && ws[..k][1..] == ws[1..][..k - 1];
      ShareBound(ps[0].amount, ws[0], seat);
    }
  }

  /** Award all pots. */
  method AwardPots(stacks: seq<Option<nat>>, ps: seq<Pot>, ws: seq<seq<nat>>) returns (r: Result<seq<Option<nat>>>)
    requires |ps| == |ws|
    requires forall k :: 0 <= k < |ws| ==> Winners.Increasing(ws[k]) && forall i :: 0 <= i < |ws[k]| ==> ws[k][i] < |stacks|
    ensures r.Ok? ==> |r.value| == |stacks| && forall i :: 0 <= i < |stacks| ==> r.value[i] == Credited(stacks[i], Payout(ps, ws, i))
    ensures (forall i :: 0 <= i < |stacks| && stacks[i].Some? ==> stacks[i].value + PotTotal(ps) <= U64_MAX) ==> r.Ok?
  {
    hide Share, Winners.Increasing;
    var out := stacks;
    for k := 0 to |ps|
      invariant |out| == |stacks|
      invariant forall i :: 0 <= i < |stacks| ==> out[i] == Credited(stacks[i], Payout(ps[..k], ws[..k], i))
    {
      forall i | 0 <= i < |stacks|
        ensures Payout(ps[..k + 1], ws[..k + 1], i) == Payout(ps[..k], ws[..k], i) + Share(ps[k].amount, ws[k], i)
        ensures Payout(ps[..k], ws[..k], i) + ps[k].amount <= PotTotal(ps)
      {
        PayoutSnoc(ps, ws, k, i);
        PayoutPlusRest(ps, ws, k, i);
      }
      var next := AwardPot(out, ps[k].amount, ws[k]);
      if next.Err? {
        return Err;
      }
      out := next.value;
    }
    assert ps[..|ps|] == ps && ws[..|ws|] == ws;
    r := Ok(out);
  }

  /** Give every seat its commitment back. */
  method RefundAll(stacks: seq<Option<nat>>, commit: seq<nat>) returns (r: Result<seq<Option<nat>>>)
    requires |stacks| == |commit|
    ensures r.Ok? ==> |r.value| == |stacks| && forall i :: 0 <= i < |stacks| ==> r.value[i] == Credited(stacks[i], commit[i])
    ensures r.Ok? <==> forall i :: 0 <= i < |stacks| && stacks[i].Some? ==> stacks[i].value + commit[i] <= U64_MAX
  {
    var out := stacks;
    for k := 0 to |stacks|
      invariant |out| == |stacks|
      invariant forall i :: 0 <= i < k ==> out[i] == Credited(stacks[i], commit[i])
      invariant forall i :: 0 <= i < k && stacks[i].Some? ==> stacks[i].value + commit[i] <= U64_MAX
      invariant forall i :: k <= i < |stacks| ==> out[i] == stacks[i]
    {
      if out[k].Some? {
        if out[k].value + commit[k] > U64_MAX {
          return Err;
        }
        out := out[k := Some(out[k].value + commit[k])];
      }
    }
    r := Ok(out);
  }

  /** Some pot with several eligible seats cannot be decided. */
  ghost predicate Undecidable(d: Showdown)
    requires d.WellFormed()
  {
    exists p :: p in SidePots(d.commit, d.eligible) && |p.eligible| > 1 && !Comparable(d, p.eligible)
  }

  lemma {:induction false} PotAtMost(ps: seq<Pot>, k: nat)
    requires k < |ps|
    ensures ps[k].amount <= PotTotal(ps)
  {
    if k > 0 { PotAtMost(ps[1..], k - 1); }
  }

  /** No pot overflows 64 bits. */
  method PotsFit(ps: seq<Pot>) returns (fit: bool)
    ensures fit <==> forall k :: 0 <= k < |ps| ==> ps[k].amount <= U64_MAX
    ensures PotTotal(ps) <= U64_MAX ==> fit
  {
    for k := 0 to |ps|
      invariant forall j :: 0 <= j < k ==> ps[j].amount <= U64_MAX
    {
      PotAtMost(ps, k);
      if ps[k].amount > U64_MAX {
        return false;
      }
    }
    fit := true;
  }

  /** Settle a showdown: award every pot to its winners, or refund all commitments when the cards of some
      contested pot cannot be compared.  It fails only when a pot or a stack would overflow. */
  method Settle(stacks: seq<Option<nat>>, d: Showdown) returns (r: Result<seq<Option<nat>>>, ghost ws: seq<seq<nat>>)
    requires d.WellFormed() && |stacks| == |d.commit|
    ensures r.Ok? ==> |r.value| == |stacks|
    ensures r.Ok? && Undecidable(d) ==> forall i :: 0 <= i < |stacks| ==> r.value[i] == Credited(stacks[i], d.commit[i])
    ensures r.Ok? && !Undecidable(d) ==>
      && |ws| == |SidePots(d.commit, d.eligible)| && Decided(d, SidePots(d.commit, d.eligible), ws)
      && forall i :: 0 <= i < |stacks| ==> r.value[i] == Credited(stacks[i], Payout(SidePots(d.commit, d.eligible), ws, i))
    ensures Sum(d.commit, 0) <= U64_MAX && (forall i :: 0 <= i < |stacks| && stacks[i].Some? ==> stacks[i].value + Sum(d.commit, 0) <= U64_MAX) ==> r.Ok?
  {
    hide Comparable, AreWinners, Nested, Winners.Increasing;
    var pots := ComputeSidePots(d.commit, d.eligible);
    ws := [];
    SidePotsClosedForm(d.commit, d.eligible);
    SumBounds(d.commit, 0);
    PotSeatLists(d);
    hide SidePots;
    var fit := PotsFit(pots);
    if !fit {
      return Err, [];
    }
    var won: seq<seq<nat>> := [];
    for k := 0 to |pots|
      invariant |won| == k
      invariant forall i :: 0 <= i < k ==> PotDecided(d, pots[i], won[i])
      invariant forall i :: 0 <= i < k ==> |pots[i].eligible| > 1 ==> Comparable(d, pots[i].eligible)
    {
      assert pots[k] in pots;
      var w := PotWinners(d, pots[k].eligible);
      if w.Err? {
        assert Undecidable(d);
        r := RefundAll(stacks, d.commit);
        return;
      }
      won := won + [w.value];
    }
    forall k | 0 <= k < |won|
      ensures Winners.Increasing(won[k]) && forall i :: 0 <= i < |won[k]| ==> won[k][i] < |stacks|
    {
      WinnersInRange(d, pots[k], won[k]);
    }
    ws := won;
    r := AwardPots(stacks, pots, won);
  }

  lemma WinnersInRange(d: Showdown, p: Pot, ws: seq<nat>)
    requires d.WellFormed() && PotDecided(d, p, ws)
    ensures Winners.Increasing(ws) && forall i :: 0 <= i < |ws| ==> ws[i] < |d.commit|
  {
    forall i | 0 <= i < |ws|
      ensures ws[i] < |d.commit|
    {
      assert ws[i] in ws;
    }
  }

  lemma {:induction false} OpenIncreasing(v: seq<nat>, eligible: seq<bool>, i: nat)
    requires |v| == |eligible|
    ensures Winners.Increasing(Open(v, eligible, i)) && forall k :: 0 <= k < |Open(v, eligible, i)| ==> i <= Open(v, eligible, i)[k] < |v|
    decreases |v| - i
  {
    if i < |v| { OpenIncreasing(v, eligible, i + 1); }
  }

  lemma {:induction false} TierIncreasing(v: seq<nat>, eligible: seq<bool>, p: Pot)
    requires |v| == |eligible| && p in Tiers(v, eligible)
    ensures Winners.Increasing(p.eligible) && forall k :: 0 <= k < |p.eligible| ==> p.eligible[k] < |v|
    decreases Positive(v, 0)
  {
    hide Tiers, Winners.Increasing;
    TierOrLater(v, eligible, p);
    var m := MinOf(v);
    LowerCount(v, m, 0);
    if p in Tiers(Lower(v, m), eligible) {
      TierIncreasing(Lower(v, m), eligible, p);
    } else {
      OpenIncreasing(v, eligible, 0);
    }
  }

  /** The seat list of a pot is in seat order and in range. */
  lemma PotSeatLists(d: Showdown)
    requires d.WellFormed()
    ensures forall p :: p in SidePots(d.commit, d.eligible) ==>
      Winners.Increasing(p.eligible) && forall k :: 0 <= k < |p.eligible| ==> p.eligible[k] < |d.commit|
    ensures SeatsBelow(SidePots(d.commit, d.eligible), |d.commit|)
  {
    hide Tiers, Winners.Increasing;
    var tiers := Tiers(d.commit, d.eligible);
    forall p | p in SidePots(d.commit, d.eligible)
      ensures Winners.Increasing(p.eligible) && forall k :: 0 <= k < |p.eligible| ==> p.eligible[k] < |d.commit|
    {
      MergeSeats([], tiers, p);
      var q :| q in tiers && q.eligible == p.eligible;
      TierIncreasing(d.commit, d.eligible, q);
    }
  }
}
