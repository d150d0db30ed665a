/** The odd-even transposition network behind the shuffle: which positions a round compares,
    what a round does to the sorting keys, and why `n` rounds sort every sequence of length `n`. */
module Network {

  /** Round `round` compares positions `i` and `i + 1`. */
  predicate Left(n: nat, round: nat, i: int) {
    0 <= i && i + 1 < n && i % 2 == round % 2
  }

  /** Round `round` compares position `i` with a neighbour. */
  predicate Paired(n: nat, round: nat, i: int) { Left(n, round, i) || Left(n, round, i - 1) }

  /** The position whose item a round moves to position `i`. */
  function Source(keys: seq<int>, round: nat, i: nat): (j: nat)
    requires i < |keys|
    ensures j < |keys|
  {
    if Left(|keys|, round, i) then (if keys[i] > keys[i + 1] then i + 1 else i)
    else if Left(|keys|, round, i - 1) then (if keys[i - 1] > keys[i] then i - 1 else i)
    else i
  }

  function RoundKeys(keys: seq<int>, round: nat): (out: seq<int>)
    ensures |out| == |keys|
    ensures forall i :: 0 <= i < |keys| ==> out[i] == keys[Source(keys, round, i)]
  {
    seq(|keys|, i requires 0 <= i < |keys| => keys[Source(keys, round, i)])
  }

  /** The keys after the first `r` rounds. */
  function RunKeys(keys: seq<int>, r: nat): (out: seq<int>)
    ensures |out| == |keys|
  {
    if r == 0 then keys else RoundKeys(RunKeys(keys, r - 1), r - 1)
  }

  ghost predicate Sorted(s: seq<int>) {
    forall i, j :: 0 <= i < j < |s| ==> s[i] <= s[j]
  }

  // ---------------------------------------------------------------- threshold counts

  /** How many of the positions from `j` on hold a key of at least `t`. */
  ghost function Above(s: seq<int>, t: int, j: nat): nat
    decreases |s| - j
  {
    if j >= |s| then 0 else (if s[j] >= t then 1 else 0) + Above(s, t, j + 1)
  }

  lemma {:induction false} AboveBound(s: seq<int>, t: int, j: nat)
    requires j <= |s|
    ensures Above(s, t, j) <= |s| - j
    decreases |s| - j
  {
    if j < |s| { AboveBound(s, t, j + 1); }
  }

  lemma {:induction false} AboveMonotone(s: seq<int>, t: int, i: nat, j: nat)
    requires i <= j <= |s|
    ensures Above(s, t, j) <= Above(s, t, i) <= Above(s, t, j) + (j - i)
    decreases j - i
  {
    if i < j { AboveMonotone(s, t, i + 1, j); }
  }

  /** A cut that no comparison of the round crosses keeps its count. */
  lemma {:induction false} RoundAcross(s: seq<int>, round: nat, t: int, j: nat)
    requires j <= |s| && !Left(|s|, round, j - 1)
    ensures Above(RoundKeys(s, round), t, j) == Above(s, t, j)
    decreases |s| - j
  {
    if j < |s| {
      if Left(|s|, round, j) {
        RoundAcross(s, round, t, j + 2);
      } else {
        RoundAcross(s, round, t, j + 1);
      }
    }
  }

  /** A cut inside a comparison gains as much as the pair and the room on the right allow. */
  lemma RoundInside(s: seq<int>, round: nat, t: int, j: nat)
    requires 0 < j < |s| && Left(|s|, round, j - 1)
    ensures Above(RoundKeys(s, round), t, j) >= Above(s, t, j)
    ensures Above(RoundKeys(s, round), t, j) >= Above(s, t, j - 1) || Above(RoundKeys(s, round), t, j) >= Above(s, t, j + 1) + 1
  {
    RoundAcross(s, round, t, j + 1);
  }

  /** Counts never fall: a large key never moves left. */
  lemma RoundGains(s: seq<int>, round: nat, t: int, j: nat)
    requires j <= |s|
    ensures Above(RoundKeys(s, round), t, j) >= Above(s, t, j)
    ensures j == 0 ==> Above(RoundKeys(s, round), t, j) == Above(s, t, j)
  {
    if Left(|s|, round, j - 1) {
      RoundInside(s, round, t, j);
    } else {
      RoundAcross(s, round, t, j);
    }
  }

  lemma {:induction false} RunTotal(s: seq<int>, r: nat, t: int)
    ensures Above(RunKeys(s, r), t, 0) == Above(s, t, 0)
  {
    if r > 0 {
      RunTotal(s, r - 1, t);
      RoundGains(RunKeys(s, r - 1), r - 1, t, 0);
    }
  }

  /** Where, after `r` rounds, the k-th largest of the keys above the threshold has at least arrived.
      The even offset makes the position one that round `r` compares with its right neighbour. */
  ghost function Frontier(n: nat, m: nat, r: nat, k: nat): int {
    var at := (if m % 2 == 0 then m else m + 1) - 2 * k + r;
    if at < n - k then at else n - k
  }

  ghost function Clip(x: int): nat { if x < 0 then 0 else x }

  /** A frontier moves by at most one per round, across a comparison of that round and with room behind it. */
  lemma FrontierStep(n: nat, m: nat, r: nat, k: nat)
    requires k <= m <= n && 0 < r
    ensures Frontier(n, m, r, k) <= n
    ensures Frontier(n, m, r - 1, k) <= Frontier(n, m, r, k) <= Frontier(n, m, r - 1, k) + 1
    ensures 0 < Frontier(n, m, r, k) != Frontier(n, m, r - 1, k) && 0 < k ==>
              && Left(n, r - 1, Frontier(n, m, r, k) - 1)
              && Frontier(n, m, r, k) + 1 <= Frontier(n, m, r - 1, k - 1) <= n
  {
  }

  /** The k-th of the `m` large keys counted from the right is at or beyond its frontier. */
  lemma {:induction false} Progress(s: seq<int>, r: nat, t: int, k: nat)
    requires k <= Above(s, t, 0)
    ensures Clip(Frontier(|s|, Above(s, t, 0), r, k)) <= |s|
    ensures Above(RunKeys(s, r), t, Clip(Frontier(|s|, Above(s, t, 0), r, k))) >= k
    decreases r, k
  {
    hide Above, RoundKeys, Source, Left;
    var n, m := |s|, Above(s, t, 0);
    AboveBound(s, t, 0);
    if r == 0 {
      AboveMonotone(s, t, 0, Clip(Frontier(n, m, 0, k)));
    } else if 0 < k {
      hide Frontier;
      var b, j := RunKeys(s, r - 1), Frontier(n, m, r, k);
      FrontierStep(n, m, r, k);
      Progress(s, r - 1, t, k);
      if j <= 0 {
        RunTotal(s, r, t);
      } else if j == Frontier(n, m, r - 1, k) {
        RoundGains(b, r - 1, t, j);
      } else {
        Progress(s, r - 1, t, k - 1);
        LeftRange(n, r - 1, j - 1);
        RoundInside(b, r - 1, t, j);
        AboveMonotone(b, t, j + 1, Frontier(n, m, r - 1, k - 1));
      }
    }
  }

  lemma LeftRange(n: nat, round: nat, i: int)
    requires Left(n, round, i)
    ensures 0 <= i < n - 1
  {
  }

  /** THEOREM.  The network sorts every sequence of `n` keys in `n` rounds, and keeps it sorted. */
  lemma NetworkSorts(s: seq<int>, r: nat)
    requires r >= |s|
    ensures Sorted(RunKeys(s, r))
  {
    var out, n := RunKeys(s, r), |s|;
    forall i, j | 0 <= i < j < n
      ensures out[i] <= out[j]
    {
      var t := out[i];
      var m := Above(s, t, 0);
      Progress(s, r, t, m);
      RunTotal(s, r, t);
      AboveBound(s, t, 0);
      SuffixFull(out, t, n - m, i, j);
    }
  }

  /** If the last `n - c` positions hold all keys of at least `t`, such a key is never left of a smaller one. */
  lemma SuffixFull(out: seq<int>, t: int, c: nat, i: nat, j: nat)
    requires i < j < |out| && c <= |out| && out[i] >= t
    requires Above(out, t, c) >= |out| - c == Above(out, t, 0)
    ensures out[j] >= t
  {
    AboveMonotone(out, t, 0, i);
    AboveMonotone(out, t, i + 1, j);
    AboveBound(out, t, j + 1);
    if i < c {
      AboveMonotone(out, t, i + 1, c);
    } else {
      AboveMonotone(out, t, c, j);
    }
  }

  // ---------------------------------------------------------------- permutations

  /** A permutation of 0, 1, ..., |p| - 1. */
  ghost predicate IsPermutation(p: seq<int>) {
    && (forall i :: 0 <= i < |p| ==> 0 <= p[i] < |p|)
    && (forall i, j :: 0 <= i < j < |p| ==> p[i] != p[j])
  }

  lemma SourceInjective(keys: seq<int>, round: nat, i: nat, j: nat)
    requires i < j < |keys|
    ensures Source(keys, round, i) != Source(keys, round, j)
  {
  }

  lemma RoundPermutes(keys: seq<int>, round: nat)
    requires IsPermutation(keys)
    ensures IsPermutation(RoundKeys(keys, round))
  {
    forall i, j | 0 <= i < j < |keys|
      ensures RoundKeys(keys, round)[i] != RoundKeys(keys, round)[j]
    {
      SourceInjective(keys, round, i, j);
    }
  }

  lemma {:induction false} RunPermutes(keys: seq<int>, r: nat)
    requires IsPermutation(keys)
    ensures IsPermutation(RunKeys(keys, r))
  {
    hide Source, RoundKeys, IsPermutation;
    if r > 0 {
      RunPermutes(keys, r - 1);
      RoundPermutes(RunKeys(keys, r - 1), r - 1);
    }
  }

  lemma {:induction false} SortedFloor(p: seq<int>, i: nat)
    requires IsPermutation(p) && Sorted(p) && i < |p|
    ensures p[i] >= i
  {
    if i > 0 { SortedFloor(p, i - 1); }
  }

  lemma {:induction false} SortedCeiling(p: seq<int>, i: nat)
    requires IsPermutation(p) && Sorted(p) && i < |p|
    ensures p[i] <= i
    decreases |p| - i
  {
    if i + 1 < |p| { SortedCeiling(p, i + 1); }
  }

  /** After at least `n` rounds the key at position `i` is `i`. */
  lemma FullySorted(keys: seq<int>, r: nat, i: nat)
    requires IsPermutation(keys) && r >= |keys| && i < |keys|
    ensures RunKeys(keys, r)[i] == i
  {
    NetworkSorts(keys, r);
    RunPermutes(keys, r);
    SortedFloor(RunKeys(keys, r), i);
    SortedCeiling(RunKeys(keys, r), i);
  }
}
