/** The Fisher-Yates loop of the prover as a map from draws to permutations: every permutation is drawn, and by exactly
    one list of draws. */
module FisherYates {
  import opened Network
  import opened Sets

  /** Draw `k` of `n` picks one of the positions that are still open. */
  ghost predicate Draws(js: seq<nat>) { forall k :: 0 <= k < |js| ==> js[k] <= |js| - k }

  ghost function Swapped(p: seq<int>, i: nat, j: nat): seq<int>
    requires i < |p| && j < |p|
  {
    p[i := p[j]][j := p[i]]
  }

  /** The array after the draws `js` for the positions `|js|` down to 1. */
  ghost function Mixed(p: seq<int>, js: seq<nat>): (q: seq<int>)
    requires Draws(js) && (js != [] ==> |js| < |p|)
    ensures |q| == |p|
    decreases |js|
  {
    if js == [] then p else DrawsTail(js); Mixed(Swapped(p, |js|, js[0]), js[1..])
  }

  lemma DrawsTail(js: seq<nat>)
    requires Draws(js) && js != []
    ensures Draws(js[1..])
  {
  }

  /** Positions above the draws stay as they are. */
  lemma {:induction false} MixedKeeps(p: seq<int>, js: seq<nat>, k: nat)
    requires Draws(js) && (js != [] ==> |js| < |p|) && |js| < k < |p|
    ensures Mixed(p, js)[k] == p[k]
    decreases |js|
  {
    if js != [] {
      DrawsTail(js);
      MixedKeeps(Swapped(p, |js|, js[0]), js[1..], k);
    }
  }

  lemma SwappedPermutes(p: seq<int>, i: nat, j: nat)
    requires IsPermutation(p) && i < |p| && j < |p|
    ensures IsPermutation(Swapped(p, i, j))
  {
  }

  lemma {:induction false} Reaches(p: seq<int>, q: seq<int>, i: nat) returns (js: seq<nat>)
    requires IsPermutation(p) && IsPermutation(q) && i < |p| == |q| && forall k :: i < k < |p| ==> p[k] == q[k]
    ensures |js| == i && Draws(js) && Mixed(p, js) == q
    decreases i
  {
    if i == 0 {
      js := [];
      LastFits(p, q);
    } else {
      var j := Placed(p, q, i);
      SwappedPermutes(p, i, j);
      var rest := Reaches(Swapped(p, i, j), q, i - 1);
      js := [j] + rest;
      assert js[1..] == rest;
    }
  }

  ghost function Below(n: nat): (b: set<int>)
    ensures |b| == n && forall x :: x in b <==> 0 <= x < n
  {
    if n == 0 then {} else Below(n - 1) + {n - 1}
  }

  ghost function Values(p: seq<int>, n: nat): set<int>
    requires n <= |p|
  {
    set i | 0 <= i < n :: p[i]
  }

  lemma {:induction false} ValuesSize(p: seq<int>, n: nat)
    requires n <= |p| && forall i, j :: 0 <= i < j < |p| ==> p[i] != p[j]
    ensures |Values(p, n)| == n
  {
    if n > 0 {
      ValuesSize(p, n - 1);
      assert Values(p, n) == Values(p, n - 1) + {p[n - 1]};
    }
  }

  /** A permutation takes every value. */
  lemma PositionOf(p: seq<int>, v: int) returns (j: nat)
    requires IsPermutation(p) && 0 <= v < |p|
    ensures j < |p| && p[j] == v
  {
    ValuesSize(p, |p|);
    if v !in Values(p, |p|) {
      SubsetSize(Values(p, |p|), Below(|p|) - {v});
    }
    j :| 0 <= j < |p| && p[j] == v;
  }

  /** The value due at `i` is at or below `i`. */
  lemma Placed(p: seq<int>, q: seq<int>, i: nat) returns (j: nat)
    requires IsPermutation(p) && IsPermutation(q) && i < |p| == |q| && forall k :: i < k < |p| ==> p[k] == q[k]
    ensures j <= i && p[j] == q[i]
  {
    j := PositionOf(p, q[i]);
  }

  lemma LastFits(p: seq<int>, q: seq<int>)
    requires IsPermutation(p) && IsPermutation(q) && |p| == |q| > 0 && forall k :: 0 < k < |p| ==> p[k] == q[k]
    ensures p == q
  {
    var j := Placed(p, q, 0);
  }

  /** THEOREM.  Every permutation is drawn from the identity by some list of draws. */
  lemma EveryPermutationDrawn(q: seq<int>) returns (js: seq<nat>)
    requires IsPermutation(q) && |q| > 0
    ensures |js| == |q| - 1 && Draws(js) && Mixed(Identity(|q|), js) == q
  {
    js := Reaches(Identity(|q|), q, |q| - 1);
  }

  /** THEOREM.  And by no other: different draws give different permutations, so uniform draws are a uniform shuffle. */
  lemma {:induction false} DrawnOnce(p: seq<int>, js: seq<nat>, js': seq<nat>)
    requires IsPermutation(p) && Draws(js) && Draws(js') && |js| == |js'| && (js != [] ==> |js| < |p|) && Mixed(p, js) == Mixed(p, js')
    ensures js == js'
    decreases |js|
  {
    if js != [] {
      var i := |js|;
      DrawsTail(js);
      DrawsTail(js');
      var a, b := Swapped(p, i, js[0]), Swapped(p, i, js'[0]);
      MixedKeeps(a, js[1..], i);
      MixedKeeps(b, js'[1..], i);
      assert a[i] == p[js[0]] && b[i] == p[js'[0]];
      assert js[0] == js'[0];
      SwappedPermutes(p, i, js[0]);
      DrawnOnce(a, js[1..], js'[1..]);
      assert js == [js[0]] + js[1..] && js' == [js'[0]] + js'[1..];
    }
  }

  function Identity(n: nat): (p: seq<int>)
    ensures |p| == n && IsPermutation(p) && forall i :: 0 <= i < n ==> p[i] == i
  {
    seq(n, i => i)
  }
}
