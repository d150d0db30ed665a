/** The prover: a Fisher-Yates permutation realised by an odd-even network of re-encryptions, with one
    proof per switch and per unpaired card, serialised into one byte string
    (packages/ocp-shuffle/src/shuffle_v1.ts, packages/ocp-shuffle/src/rng.ts). */
module ShuffleProver {
  import opened Zq
  import opened Outcome
  import opened ElGamal
  import opened Primitives
  import opened Sigma
  import opened Network
  import opened FisherYates
  import opened ShuffleFormat

  // ---------------------------------------------------------------- randomness

  /** From position `c` on, the stream yields a non-zero scalar other than `x` and `y`. */
  ghost predicate YieldsBeyond(stream: nat -> Scalar, c: nat, x: Scalar, y: Scalar) {
    exists k: nat :: c <= k && stream(k) != 0 && stream(k) != x && stream(k) != y
  }

  /** Rejection sampling from the stream always ends. */
  ghost predicate Usable(stream: nat -> Scalar) {
    forall c: nat, x: Scalar, y: Scalar :: YieldsBeyond(stream, c, x, y)
  }

  /** The 32-bit word at a position of the stream. */
  ghost function Word(S: Suite, stream: nat -> Scalar, c: nat): nat
    requires S.Canonical()
  {
    var b := S.encodeScalar(stream(c));
    U16(b[0], b[1]) + 0x1_0000 * U16(b[2], b[3])
  }

  /** `DeterministicRng`: a counter into a fixed stream of scalars. */
  class Rng {
    const stream: nat -> Scalar
    var counter: nat

    constructor (s: nat -> Scalar)
      ensures stream == s && counter == 0
    {
      stream := s;
      counter := 0;
    }

    method NextScalar() returns (s: Scalar)
      modifies this
      ensures s == stream(old(counter)) && counter == old(counter) + 1
    {
      s := stream(counter);
      counter := counter + 1;
    }

    /** The first four bytes of the next scalar, little endian. */
    method NextU32(S: Suite) returns (x: nat)
      requires S.Canonical()
      modifies this
      ensures counter == old(counter) + 1
      ensures x == Word(S, stream, old(counter)) < 0x1_0000_0000
    {
      var s := NextScalar();
      var b := S.encodeScalar(s);
      x := U16(b[0], b[1]) + 0x1_0000 * U16(b[2], b[3]);
    }
  }

  method SampleNonzeroScalar(rng: Rng) returns (s: Scalar)
    requires Usable(rng.stream)
    modifies rng
    ensures s != 0
    ensures old(rng.counter) < rng.counter && s == rng.stream(rng.counter - 1)
    ensures forall k :: old(rng.counter) <= k < rng.counter - 1 ==> rng.stream(k) == 0
  {
    ghost var c := rng.counter;
    assert YieldsBeyond(rng.stream, c, 0, 0);
    ghost var goal: nat :| c <= goal && rng.stream(goal) != 0;
    s := rng.NextScalar();
    while s == 0
      invariant c < rng.counter && s == rng.stream(rng.counter - 1)
      invariant forall k :: c <= k < rng.counter - 1 ==> rng.stream(k) == 0
      decreases goal - rng.counter
    {
      s := rng.NextScalar();
    }
  }

  /** `reencryptAvoidingC1Collisions` */
  method ReencryptAvoiding(rng: Rng, pk: Point, src: Ciphertext, a: Point, b: Point) returns (ct: Ciphertext, rho: Scalar)
    requires Usable(rng.stream)
    modifies rng
    ensures ct == Reencrypt(pk, src, rho)
    ensures ct.c1 != a && ct.c1 != b
  {
    ghost var x, y := PointSub(a, src.c1).log, PointSub(b, src.c1).log;
    assert YieldsBeyond(rng.stream, rng.counter, x, y);
    ghost var goal: nat :| rng.counter <= goal && rng.stream(goal) != 0 && rng.stream(goal) != x && rng.stream(goal) != y;
    rho := SampleNonzeroScalar(rng);
    ct := Reencrypt(pk, src, rho);
    CollisionIs(pk, src, rho, a);
    CollisionIs(pk, src, rho, b);
    while ct.c1 == a || ct.c1 == b
      invariant 0 < rng.counter <= goal + 1 && rho == rng.stream(rng.counter - 1)
      invariant ct == Reencrypt(pk, src, rho)
      invariant ct.c1 == a <==> rho == x
      invariant ct.c1 == b <==> rho == y
      decreases goal + 1 - rng.counter
    {
      rho := SampleNonzeroScalar(rng);
      ct := Reencrypt(pk, src, rho);
      CollisionIs(pk, src, rho, a);
      CollisionIs(pk, src, rho, b);
    }
  }

  lemma CollisionIs(pk: Point, src: Ciphertext, rho: Scalar, a: Point)
    ensures Reencrypt(pk, src, rho).c1 == a <==> rho == PointSub(a, src.c1).log
  {
    DifferenceIs(src.c1, a, MulBase(rho));
    MulBaseLog(rho);
  }

  /** A re-encryption with a non-zero exponent changes the first component. */
  lemma NonzeroMoves(pk: Point, src: Ciphertext, rho: Scalar)
    requires rho != 0
    ensures Reencrypt(pk, src, rho).c1 != src.c1
  {
    CollisionIs(pk, src, rho, src.c1);
    EqRefl(0);
    Canonical(PointSub(src.c1, src.c1).log, 0);
  }

  /** The draws the stream makes from position `c` on, for the array positions `i` down to 1. */
  ghost function DrawsFrom(S: Suite, stream: nat -> Scalar, c: nat, i: nat): (js: seq<nat>)
    requires S.Canonical()
    ensures |js| == i && Draws(js)
  {
    hide Word, S.Canonical;
    seq(i, k requires 0 <= k < i => Word(S, stream, c + k) % (i - k + 1))
  }

  lemma DrawsNext(S: Suite, stream: nat -> Scalar, c: nat, i: nat)
    requires S.Canonical() && i > 0
    ensures DrawsFrom(S, stream, c, i)[0] == Word(S, stream, c) % (i + 1) && DrawsFrom(S, stream, c, i)[1..] == DrawsFrom(S, stream, c + 1, i - 1)
  {
    hide Word, S.Canonical;
    var l, r := DrawsFrom(S, stream, c, i)[1..], DrawsFrom(S, stream, c + 1, i - 1);
    forall k | 0 <= k < |l|
      ensures l[k] == r[k]
    {
      assert c + (k + 1) == (c + 1) + k && i - (k + 1) + 1 == (i - 1) - k + 1;
    }
  }

  lemma MixStep(S: Suite, stream: nat -> Scalar, p: seq<int>, c: nat, i: nat)
    requires S.Canonical() && i < |p|
    ensures i == 0 ==> Mixed(p, DrawsFrom(S, stream, c, i)) == p
    ensures i > 0 ==> Mixed(p, DrawsFrom(S, stream, c, i)) == Mixed(Swapped(p, i, Word(S, stream, c) % (i + 1)), DrawsFrom(S, stream, c + 1, i - 1))
  {
    hide Word, S.Canonical, DrawsFrom, Swapped;
    if i > 0 { DrawsNext(S, stream, c, i); }
  }

  /** The Fisher-Yates loop: the permutation that the draws of the stream make of the identity. */
  method RandomPermutation(S: Suite, rng: Rng, n: nat) returns (perm: array<int>)
    requires S.Canonical()
    modifies rng
    ensures fresh(perm) && perm.Length == n && IsPermutation(perm[..])
    ensures n > 0 ==> perm[..] == Mixed(Identity(n), DrawsFrom(S, rng.stream, old(rng.counter), n - 1))
  {
    hide S.Canonical, DrawsFrom, Word, Mixed, IsPermutation;
    perm := new int[n](i => i);
    ghost var c := rng.counter;
    assert perm[..] == Identity(n);
    var i := n - 1;
    while i > 0
      invariant i < n && (i >= 0 || n == 0) && rng.counter == c + (n - 1 - i)
      invariant IsPermutation(perm[..])
      invariant i >= 0 ==> Mixed(perm[..], DrawsFrom(S, rng.stream, rng.counter, i)) == Mixed(Identity(n), DrawsFrom(S, rng.stream, c, n - 1))
    {
      MixStep(S, rng.stream, perm[..], rng.counter, i);
      var x := rng.NextU32(S);
      var j := x % (i + 1);
      ghost var before := perm[..];
      var tmp := perm[i];
      perm[i] := perm[j];
      perm[j] := tmp;
      assert perm[..] == Swapped(before, i, j);
      SwappedPermutes(before, i, j);
      i := i - 1;
    }
    if n > 0 { MixStep(S, rng.stream, perm[..], rng.counter, 0); }
  }

  /** `roundPairs`: the pairs and the unpaired positions of a round, in ascending order. */
  method RoundPairs(n: nat, round: nat) returns (pairs: seq<(nat, nat)>, singles: seq<nat>)
    requires n >= 2
    ensures |pairs| == Pairs(n, round) && forall k :: 0 <= k < |pairs| ==> pairs[k] == (PairAt(round, k), PairAt(round, k) + 1)
    ensures |singles| == Singles(n, round) && forall k :: 0 <= k < |singles| ==> singles[k] == SingleAt(n, round, k)
  {
    var used := new bool[n](_ => false);
    pairs := [];
    var i := round % 2;
    while i + 1 < n
      invariant i == PairAt(round, |pairs|) && |pairs| <= Pairs(n, round)
      invariant forall k :: 0 <= k < |pairs| ==> pairs[k] == (PairAt(round, k), PairAt(round, k) + 1)
      invariant forall j :: 0 <= j < n ==> (used[j] <==> round % 2 <= j < i)
    {
      pairs := pairs + [(i, i + 1)];
      used[i] := true;
      used[i + 1] := true;
      i := i + 2;
    }
    singles := [];
    for j := 0 to n
      invariant |singles| == (if j > 0 && round % 2 == 1 then 1 else 0) + (if j > i then 1 else 0)
      invariant forall k :: 0 <= k < |singles| ==> singles[k] == SingleAt(n, round, k)
    {
      if !used[j] {
        singles := singles + [j];
      }
    }
  }

  // ---------------------------------------------------------------- moving accepted rounds

  lemma SwitchesShift(S: Suite, pk: Point, cur: seq<Ciphertext>, next: seq<Ciphertext>, next': seq<Ciphertext>,
                      part: Bytes, off: nat, big: Bytes, at: nat, round: nat, count: nat, ctx: Option<Bytes>)
    requires 2 <= |cur| == |next| == |next'| && count <= Pairs(|cur|, round)
    requires Holds(big, at, part) && off + 416 * count <= |part|
    requires SwitchesOk(S, pk, cur, next, part, off, round, count, ctx)
    requires forall k :: 0 <= k < count ==> SwitchOf(cur, next, PairAt(round, k)) == SwitchOf(cur, next', PairAt(round, k))
    ensures SwitchesOk(S, pk, cur, next', big, at + off, round, count, ctx)
  {
    hide SwitchAt, VerifySwitch, Holds, SwitchOf;
    var to := at + off;
    forall k | 0 <= k < count
      ensures SwitchOk(S, pk, cur, next', big, to, round, k, ctx)
    {
      assert SwitchOk(S, pk, cur, next, part, off, round, k, ctx);
      ReadEmbeddedSwitch(S, big, at, part, off + 416 * k);
    }
  }

  lemma SinglesShift(S: Suite, pk: Point, cur: seq<Ciphertext>, next: seq<Ciphertext>, next': seq<Ciphertext>,
                     part: Bytes, off: nat, big: Bytes, at: nat, round: nat, count: nat, ctx: Option<Bytes>)
    requires 2 <= |cur| == |next| == |next'| && count <= Singles(|cur|, round)
    requires Holds(big, at, part) && off + 96 * count <= |part|
    requires SinglesOk(S, pk, cur, next, part, off, round, count, ctx)
    requires forall k :: 0 <= k < count ==> next[SingleAt(|cur|, round, k)] == next'[SingleAt(|cur|, round, k)]
    ensures SinglesOk(S, pk, cur, next', big, at + off, round, count, ctx)
  {
    hide EqDlogAt, VerifyEqDlog, Holds, SingleAt, DiffC1, DiffC2;
    var to := at + off;
    forall k | 0 <= k < count
      ensures SingleOk(S, pk, cur, next', big, to, round, k, ctx)
    {
      assert SingleOk(S, pk, cur, next, part, off, round, k, ctx);
      ReadEmbedded(S, big, at, part, off + 96 * k);
    }
  }

  /** An accepted round stays accepted inside a longer byte string. */
  lemma RoundShift(S: Suite, pk: Point, cur: seq<Ciphertext>, next: seq<Ciphertext>,
                   part: Bytes, off: nat, big: Bytes, at: nat, round: nat, ctx: Option<Bytes>)
    requires Holds(big, at, part) && RoundOk(S, pk, cur, next, part, off, round, ctx)
    ensures RoundOk(S, pk, cur, next, big, at + off, round, ctx)
  {
    hide SwitchesOk, SinglesOk, CiphertextAt, SingleAt, SwitchOf;
    var n := |cur|;
    forall i | 0 <= i < n
      ensures SnapshotAt(S, big, at + off, i) == Some(next[i])
    {
      assert SnapshotAt(S, part, off, i) == Some(next[i]);
      ReadEmbedded(S, big, at, part, off + 64 * i);
    }
    SwitchesShift(S, pk, cur, next, next, part, off + 64 * n, big, at, round, Pairs(n, round), ctx);
    SinglesShift(S, pk, cur, next, next, part, off + 64 * n + 416 * Pairs(n, round), big, at, round, Singles(n, round), ctx);
  }

  /** Appending bytes does not disturb the decks already written. */
  lemma DeckStable(S: Suite, pk: Point, deckIn: seq<Ciphertext>, b: Bytes, more: Bytes, h: nat, q: nat, ctx: Option<Bytes>)
    requires q > 0 ==> RoundAccepted(S, pk, deckIn, b, h, q - 1, ctx)
    ensures DeckAfter(S, deckIn, b + more, h, q) == DeckAfter(S, deckIn, b, h, q)
  {
    hide SwitchesOk, SinglesOk, CiphertextAt;
    if q > 0 {
      var at := RoundOff(|deckIn|, h, q - 1);
      var d, e := DeckAfter(S, deckIn, b + more, h, q), DeckAfter(S, deckIn, b, h, q);
      forall i | 0 <= i < |deckIn|
        ensures d[i] == e[i]
      {
        assert Holds(b + more, 0, b);
        ReadEmbedded(S, b + more, 0, b, at + 64 * i);
        assert SnapshotAt(S, b, at, i) == SnapshotAt(S, b + more, at, i);
      }
    }
  }

  lemma RoundStable(S: Suite, pk: Point, deckIn: seq<Ciphertext>, b: Bytes, more: Bytes, h: nat, q: nat, ctx: Option<Bytes>)
    requires RoundAccepted(S, pk, deckIn, b, h, q, ctx)
    requires q > 0 ==> RoundAccepted(S, pk, deckIn, b, h, q - 1, ctx)
    ensures RoundAccepted(S, pk, deckIn, b + more, h, q, ctx)
  {
    hide RoundOk, DeckAfter, RoundOff;
    assert Holds(b + more, 0, b);
    DeckStable(S, pk, deckIn, b, more, h, q, ctx);
    DeckStable(S, pk, deckIn, b, more, h, q + 1, ctx);
    RoundShift(S, pk, DeckAfter(S, deckIn, b, h, q), DeckAfter(S, deckIn, b, h, q + 1), b, RoundOff(|deckIn|, h, q), b + more, 0, q, ctx);
  }

  /** A round accepted on its own can be appended to an accepted proof. */
  lemma AppendRound(S: Suite, pk: Point, deckIn: seq<Ciphertext>, b: Bytes, chunk: Bytes, h: nat, r: nat,
                    next: seq<Ciphertext>, ctx: Option<Bytes>)
    requires RoundsOk(S, pk, deckIn, b, h, r, ctx) && |b| == RoundOff(|deckIn|, h, r)
    requires RoundOk(S, pk, DeckAfter(S, deckIn, b, h, r), next, chunk, 0, r, ctx)
    ensures RoundsOk(S, pk, deckIn, b + chunk, h, r + 1, ctx)
    ensures DeckAfter(S, deckIn, b + chunk, h, r + 1) == next
  {
    hide RoundOk, DeckAfter, RoundOff, RoundAccepted;
    var c := b + chunk;
    forall q | 0 <= q < r
      ensures RoundAccepted(S, pk, deckIn, c, h, q, ctx)
    {
      RoundStable(S, pk, deckIn, b, chunk, h, q, ctx);
    }
    DeckStable(S, pk, deckIn, b, chunk, h, r, ctx);
    assert Holds(c, |b|, chunk);
    RoundShift(S, pk, DeckAfter(S, deckIn, b, h, r), next, chunk, 0, c, |b|, r, ctx);
    LastDeck(S, pk, deckIn, c, h, r, next, ctx);
  }

  lemma LastDeck(S: Suite, pk: Point, deckIn: seq<Ciphertext>, b: Bytes, h: nat, r: nat, next: seq<Ciphertext>, ctx: Option<Bytes>)
    requires RoundOk(S, pk, DeckAfter(S, deckIn, b, h, r), next, b, RoundOff(|deckIn|, h, r), r, ctx)
    ensures DeckAfter(S, deckIn, b, h, r + 1) == next
    ensures RoundAccepted(S, pk, deckIn, b, h, r, ctx)
  {
    hide SwitchesOk, SinglesOk, CiphertextAt, RoundOff, RoundLen;
    var d, at := DeckAfter(S, deckIn, b, h, r + 1), RoundOff(|deckIn|, h, r);
    assert |d| == |next|;
    forall i | 0 <= i < |d|
      ensures d[i] == next[i]
    {
      assert SnapshotAt(S, b, at, i) == Some(next[i]);
    }
  }

  // ---------------------------------------------------------------- one round

  /** Position `i` holds the key and a re-encryption of the card that the network moves there. */
  ghost predicate Moved(pk: Point, cur: seq<Ciphertext>, keys: seq<int>, next: seq<Ciphertext>, nextKeys: seq<int>, round: nat, i: nat)
    requires |cur| == |keys| == |next| == |nextKeys| && i < |cur|
  {
    && nextKeys[i] == keys[Source(keys, round, i)]
    && Reencrypts(pk, cur[Source(keys, round, i)], next[i])
  }

  /** One switch: two re-encryptions that avoid the inputs' first components, and the proof. */
  method MakeSwitch(S: Suite, pk: Point, left0: Ciphertext, left1: Ciphertext, swap: bool, rng: Rng, ctx: Option<Bytes>)
    returns (out0: Ciphertext, out1: Ciphertext, proof: SwitchProof)
    requires Usable(rng.stream)
    modifies rng
    ensures VerifySwitch(S, pk, Switch(left0, left1, out0, out1), proof, ctx)
    ensures Reencrypts(pk, if swap then left1 else left0, out0) && Reencrypts(pk, if swap then left0 else left1, out1)
  {
    hide VerifySwitch, ProveSwitch, Reencrypt;
    var src0 := if swap then left1 else left0;
    var src1 := if swap then left0 else left1;
    var rho0, rho1;
    out0, rho0 := ReencryptAvoiding(rng, pk, src0, left0.c1, left1.c1);
    out1, rho1 := ReencryptAvoiding(rng, pk, src1, left0.c1, left1.c1);
    var eSim := rng.NextScalar();
    var zSim0 := rng.NextScalar();
    var zSim1 := rng.NextScalar();
    var w0 := rng.NextScalar();
    var w1 := rng.NextScalar();
    var sw, d := Switch(left0, left1, out0, out1), SwitchNonces(eSim, zSim0, zSim1, w0, w1);
    proof := ProveSwitch(S, pk, sw, swap, rho0, rho1, d, ctx);
    SwitchComplete(S, pk, sw, swap, rho0, rho1, d, ctx);
  }

  /** The switches of a round, in ascending order. */
  method ProveSwitches(S: Suite, pk: Point, cur: seq<Ciphertext>, keys: seq<int>, round: nat, pairs: seq<(nat, nat)>, rng: Rng, ctx: Option<Bytes>)
    returns (next: seq<Ciphertext>, nextKeys: seq<int>, bytes: Bytes)
    requires S.Canonical() && Usable(rng.stream) && 2 <= |cur| == |keys|
    requires |pairs| == Pairs(|cur|, round) && forall k :: 0 <= k < |pairs| ==> pairs[k] == (PairAt(round, k), PairAt(round, k) + 1)
    modifies rng
    ensures |next| == |nextKeys| == |cur| && |bytes| == 416 * |pairs|
    ensures SwitchesOk(S, pk, cur, next, bytes, 0, round, |pairs|, ctx)
    ensures forall i :: 0 <= i < |cur| && Paired(|cur|, round, i) ==> Moved(pk, cur, keys, next, nextKeys, round, i)
    ensures forall i :: 0 <= i < |cur| && !Paired(|cur|, round, i) ==> next[i] == cur[i] && nextKeys[i] == keys[i]
  {
    hide VerifySwitch, SwitchesOk, Reencrypts, EncodeSwitch, Paired, Source;
    next, nextKeys, bytes := cur, keys, [];
    NoSwitches(S, pk, cur, round, ctx);
    for k := 0 to |pairs|
      invariant |next| == |nextKeys| == |cur| && |bytes| == 416 * k
      invariant SwitchesOk(S, pk, cur, next, bytes, 0, round, k, ctx)
      invariant forall i :: round % 2 <= i < PairAt(round, k) ==> Moved(pk, cur, keys, next, nextKeys, round, i)
      invariant forall i :: 0 <= i < |cur| && !(round % 2 <= i < PairAt(round, k)) ==> next[i] == cur[i] && nextKeys[i] == keys[i]
    {
      var (i, j) := pairs[k];
      var swap := keys[i] > keys[j];
      var out0, out1, proof := MakeSwitch(S, pk, cur[i], cur[j], swap, rng, ctx);
      ghost var next0, keys0, bytes0 := next, nextKeys, bytes;
      bytes := bytes + EncodeSwitch(S, proof);
      next := next[i := out0][j := out1];
      if swap {
        nextKeys := nextKeys[i := keys[j]][j := keys[i]];
      }
      MorePairs(|cur|, round, k);
      SourceOfPair(keys, round, i);
      assert Moved(pk, cur, keys, next, nextKeys, round, i) && Moved(pk, cur, keys, next, nextKeys, round, j);
      forall m | round % 2 <= m < i
        ensures Moved(pk, cur, keys, next, nextKeys, round, m)
      {
        assert Moved(pk, cur, keys, next0, keys0, round, m);
      }
      AppendSwitch(S, pk, cur, next0, next, bytes0, proof, round, k, ctx);
    }
    forall i: nat | i < |cur|
      ensures Paired(|cur|, round, i) <==> round % 2 <= i < PairAt(round, |pairs|)
    {
      PairedRange(|cur|, round, i);
    }
  }

  lemma NoSwitches(S: Suite, pk: Point, cur: seq<Ciphertext>, round: nat, ctx: Option<Bytes>)
    requires 2 <= |cur|
    ensures SwitchesOk(S, pk, cur, cur, [], 0, round, 0, ctx)
  {
  }

  lemma MorePairs(n: nat, round: nat, k: nat)
    requires n >= 2 && k < Pairs(n, round)
    ensures Left(n, round, PairAt(round, k)) && PairAt(round, k) + 2 == PairAt(round, k + 1) <= n
  {
  }

  lemma PairedRange(n: nat, round: nat, i: nat)
    requires n >= 2 && i < n
    ensures Paired(n, round, i) <==> round % 2 <= i < PairAt(round, Pairs(n, round))
  {
  }

  lemma SourceOfPair(keys: seq<int>, round: nat, i: nat)
    requires i + 1 < |keys| && Left(|keys|, round, i)
    ensures Source(keys, round, i) == if keys[i] > keys[i + 1] then i + 1 else i
    ensures Source(keys, round, i + 1) == if keys[i] > keys[i + 1] then i else i + 1
  {
  }

  lemma AppendSwitch(S: Suite, pk: Point, cur: seq<Ciphertext>, next: seq<Ciphertext>, next': seq<Ciphertext>, b: Bytes,
                     proof: SwitchProof, round: nat, k: nat, ctx: Option<Bytes>)
    requires S.Canonical() && 2 <= |cur| == |next| == |next'| && k < Pairs(|cur|, round) && |b| == 416 * k
    requires SwitchesOk(S, pk, cur, next, b, 0, round, k, ctx)
    requires forall i :: 0 <= i < PairAt(round, k) ==> next'[i] == next[i]
    requires VerifySwitch(S, pk, SwitchOf(cur, next', PairAt(round, k)), proof, ctx)
    ensures SwitchesOk(S, pk, cur, next', b + EncodeSwitch(S, proof), 0, round, k + 1, ctx)
    ensures |EncodeSwitch(S, proof)| == 416
  {
    hide VerifySwitch, SwitchAt, EncodeSwitch;
    var e := EncodeSwitch(S, proof);
    ReadSwitch(S, proof);
    assert Holds(b + e, 0, b) && Holds(b + e, |b|, e);
    SwitchesShift(S, pk, cur, next, next', b, 0, b + e, 0, round, k, ctx);
    ReadEmbeddedSwitch(S, b + e, |b|, e, 0);
    assert SwitchOk(S, pk, cur, next', b + e, 0, round, k, ctx);
  }

  /** The unpaired cards of a round. */
  method ProveSingles(S: Suite, pk: Point, cur: seq<Ciphertext>, keys: seq<int>, round: nat, singles: seq<nat>,
                      next0: seq<Ciphertext>, rng: Rng, ctx: Option<Bytes>)
    returns (next: seq<Ciphertext>, bytes: Bytes)
    requires S.Canonical() && Usable(rng.stream) && 2 <= |cur| == |keys| == |next0|
    requires |singles| == Singles(|cur|, round) && forall k :: 0 <= k < |singles| ==> singles[k] == SingleAt(|cur|, round, k)
    modifies rng
    ensures |next| == |cur| && |bytes| == 96 * |singles|
    ensures SinglesOk(S, pk, cur, next, bytes, 0, round, |singles|, ctx)
    ensures forall i :: 0 <= i < |cur| && i !in singles ==> next[i] == next0[i]
    ensures forall i :: i in singles ==> 0 <= i < |cur| && Reencrypts(pk, cur[i], next[i])
  {
    hide VerifyEqDlog, SinglesOk, Reencrypts, EncodeEqDlog;
    next, bytes := next0, [];
    NoSingles(S, pk, cur, next0, round, ctx);
    for k := 0 to |singles|
      invariant |next| == |cur| && |bytes| == 96 * k
      invariant SinglesOk(S, pk, cur, next, bytes, 0, round, k, ctx)
      invariant forall i :: 0 <= i < |cur| && i !in singles[..k] ==> next[i] == next0[i]
      invariant forall i :: i in singles[..k] ==> 0 <= i < |cur| && Reencrypts(pk, cur[i], next[i])
    {
      var idx := singles[k];
      var rho := SampleNonzeroScalar(rng);
      var out, proof := MakeSingle(S, pk, cur[idx], rho, rng, ctx);
      ghost var nextBefore, bytesBefore := next, bytes;
      bytes := bytes + EncodeEqDlog(S, proof);
      next := next[idx := out];
      SinglesDistinct(|cur|, round);
      AppendSingle(S, pk, cur, nextBefore, next, bytesBefore, proof, round, k, ctx);
      assert singles[..k + 1] == singles[..k] + [idx];
    }
    assert singles[..|singles|] == singles;
  }

  lemma NoSingles(S: Suite, pk: Point, cur: seq<Ciphertext>, next: seq<Ciphertext>, round: nat, ctx: Option<Bytes>)
    requires 2 <= |cur| == |next|
    ensures SinglesOk(S, pk, cur, next, [], 0, round, 0, ctx)
  {
  }

  lemma SinglesDistinct(n: nat, round: nat)
    requires n >= 2
    ensures forall k, l :: 0 <= k < l < Singles(n, round) ==> SingleAt(n, round, k) != SingleAt(n, round, l)
    ensures forall k :: 0 <= k < Singles(n, round) ==> SingleAt(n, round, k) < n
  {
  }

  /** One unpaired card: a re-encryption and the proof of its exponent. */
  method MakeSingle(S: Suite, pk: Point, inCt: Ciphertext, rho: Scalar, rng: Rng, ctx: Option<Bytes>)
    returns (outCt: Ciphertext, proof: EqDlogProof)
    requires rho != 0
    modifies rng
    ensures outCt.c1 != inCt.c1 && Reencrypts(pk, inCt, outCt)
    ensures VerifyEqDlog(S, DOMAIN_REENC, G, pk, DiffC1(inCt, outCt), DiffC2(inCt, outCt), proof, ctx)
  {
    hide VerifyEqDlog, ProveEqDlog;
    outCt := Reencrypt(pk, inCt, rho);
    NonzeroMoves(pk, inCt, rho);
    var X := PointSub(outCt.c1, inCt.c1);
    var Y := PointSub(outCt.c2, inCt.c2);
    var w := rng.NextScalar();
    proof := ProveEqDlog(S, DOMAIN_REENC, G, pk, X, Y, rho, w, ctx);
    CommonLogIsReencryption(pk, inCt, outCt, rho);
    EqDlogComplete(S, DOMAIN_REENC, G, pk, X, Y, rho, w, ctx);
  }

  lemma AppendSingle(S: Suite, pk: Point, cur: seq<Ciphertext>, next: seq<Ciphertext>, next': seq<Ciphertext>, b: Bytes,
                     proof: EqDlogProof, round: nat, k: nat, ctx: Option<Bytes>)
    requires S.Canonical() && 2 <= |cur| == |next| == |next'| && k < Singles(|cur|, round) && |b| == 96 * k
    requires SinglesOk(S, pk, cur, next, b, 0, round, k, ctx)
    requires forall l :: 0 <= l < k ==> next'[SingleAt(|cur|, round, l)] == next[SingleAt(|cur|, round, l)]
    requires var i := SingleAt(|cur|, round, k);
             next'[i].c1 != cur[i].c1 &&
             VerifyEqDlog(S, DOMAIN_REENC, G, pk, DiffC1(cur[i], next'[i]), DiffC2(cur[i], next'[i]), proof, ctx)
    ensures SinglesOk(S, pk, cur, next', b + EncodeEqDlog(S, proof), 0, round, k + 1, ctx)
    ensures |EncodeEqDlog(S, proof)| == 96
  {
    hide VerifyEqDlog, EqDlogAt, EncodeEqDlog;
    var e := EncodeEqDlog(S, proof);
    ReadEqDlog(S, proof);
    assert Holds(b + e, 0, b) && Holds(b + e, |b|, e);
    SinglesShift(S, pk, cur, next, next', b, 0, b + e, 0, round, k, ctx);
    ReadEmbedded(S, b + e, |b|, e, 0);
    assert SingleOk(S, pk, cur, next', b + e, 0, round, k, ctx);
  }

  /** The deck snapshot of a round. */
  method EncodeDeck(S: Suite, deck: seq<Ciphertext>) returns (b: Bytes)
    requires S.Canonical()
    ensures |b| == 64 * |deck|
    ensures forall i :: 0 <= i < |deck| ==> SnapshotAt(S, b, 0, i) == Some(deck[i])
  {
    hide EncodeCiphertext, CiphertextAt;
    b := [];
    for i := 0 to |deck|
      invariant |b| == 64 * i
      invariant forall j :: 0 <= j < i ==> SnapshotAt(S, b, 0, j) == Some(deck[j])
    {
      ReadCiphertext(S, deck[i]);
      ghost var b0 := b;
      b := b + EncodeCiphertext(S, deck[i]);
      assert Holds(b, 0, b0) && Holds(b, |b0|, EncodeCiphertext(S, deck[i]));
      ReadEmbedded(S, b, |b0|, EncodeCiphertext(S, deck[i]), 0);
      forall j | 0 <= j < i
        ensures SnapshotAt(S, b, 0, j) == Some(deck[j])
      {
        assert SnapshotAt(S, b0, 0, j) == Some(deck[j]);
        ReadEmbedded(S, b, 0, b0, 64 * j);
      }
    }
  }

  /** One round of the prover. */
  method ProveRound(S: Suite, pk: Point, cur: seq<Ciphertext>, keys: seq<int>, round: nat, rng: Rng, ctx: Option<Bytes>)
    returns (next: seq<Ciphertext>, nextKeys: seq<int>, chunk: Bytes)
    requires S.Canonical() && Usable(rng.stream) && 2 <= |cur| == |keys|
    modifies rng
    ensures |next| == |cur| && nextKeys == RoundKeys(keys, round)
    ensures forall i :: 0 <= i < |cur| ==> Reencrypts(pk, cur[Source(keys, round, i)], next[i])
    ensures |chunk| == RoundLen(|cur|, round) && RoundOk(S, pk, cur, next, chunk, 0, round, ctx)
  {
    hide SwitchesOk, SinglesOk, Reencrypts, SnapshotAt;
    var n := |cur|;
    var pairs, singles := RoundPairs(n, round);
    var next0, switchBytes, singleBytes;
    next0, nextKeys, switchBytes := ProveSwitches(S, pk, cur, keys, round, pairs, rng, ctx);
    next, singleBytes := ProveSingles(S, pk, cur, keys, round, singles, next0, rng, ctx);
    var deckBytes := EncodeDeck(S, next);
    chunk := deckBytes + switchBytes + singleBytes;
    forall i: nat | i < n
      ensures i in singles <==> !Paired(n, round, i)
    {
      SinglesAre(n, round, singles, i);
    }
    forall i | 0 <= i < n
      ensures Reencrypts(pk, cur[Source(keys, round, i)], next[i]) && nextKeys[i] == keys[Source(keys, round, i)]
    {
      if i !in singles {
        assert Moved(pk, cur, keys, next0, nextKeys, round, i);
      }
    }
    AssembleRound(S, pk, cur, next0, next, deckBytes, switchBytes, singleBytes, round, ctx);
  }

  lemma SinglesAre(n: nat, round: nat, singles: seq<nat>, i: nat)
    requires n >= 2 && i < n
    requires |singles| == Singles(n, round) && forall k :: 0 <= k < |singles| ==> singles[k] == SingleAt(n, round, k)
    ensures i in singles <==> !Paired(n, round, i)
  {
    EveryPositionOnce(n, round, i);
  }

  lemma AssembleRound(S: Suite, pk: Point, cur: seq<Ciphertext>, next0: seq<Ciphertext>, next: seq<Ciphertext>,
                      deckBytes: Bytes, switchBytes: Bytes, singleBytes: Bytes, round: nat, ctx: Option<Bytes>)
    requires 2 <= |cur| == |next0| == |next|
    requires |deckBytes| == 64 * |cur| && |switchBytes| == 416 * Pairs(|cur|, round) && |singleBytes| == 96 * Singles(|cur|, round)
    requires forall i :: 0 <= i < |next| ==> SnapshotAt(S, deckBytes, 0, i) == Some(next[i])
    requires SwitchesOk(S, pk, cur, next0, switchBytes, 0, round, Pairs(|cur|, round), ctx)
    requires SinglesOk(S, pk, cur, next, singleBytes, 0, round, Singles(|cur|, round), ctx)
    requires forall i :: 0 <= i < |cur| && Paired(|cur|, round, i) ==> next[i] == next0[i]
    ensures RoundOk(S, pk, cur, next, deckBytes + switchBytes + singleBytes, 0, round, ctx)
  {
    hide SwitchesOk, SinglesOk, CiphertextAt;
    var n, b := |cur|, deckBytes + switchBytes + singleBytes;
    assert Holds(b, 0, deckBytes) && Holds(b, 64 * n, switchBytes) && Holds(b, 64 * n + 416 * Pairs(n, round), singleBytes);
    forall i | 0 <= i < n
      ensures SnapshotAt(S, b, 0, i) == Some(next[i])
    {
      assert SnapshotAt(S, deckBytes, 0, i) == Some(next[i]);
      ReadEmbedded(S, b, 0, deckBytes, 64 * i);
    }
    forall k | 0 <= k < Pairs(n, round)
      ensures SwitchOf(cur, next0, PairAt(round, k)) == SwitchOf(cur, next, PairAt(round, k))
    {
      MorePairs(n, round, k);
      assert Paired(n, round, PairAt(round, k)) && Paired(n, round, PairAt(round, k) + 1);
    }
    SwitchesShift(S, pk, cur, next0, next, switchBytes, 0, b, 64 * n, round, Pairs(n, round), ctx);
    SinglesShift(S, pk, cur, next, next, singleBytes, 0, b, 64 * n + 416 * Pairs(n, round), round, Singles(n, round), ctx);
  }

  // ---------------------------------------------------------------- the whole proof

  function HeaderBytes(n: nat, rounds: nat, ctx: Option<Bytes>): (b: Bytes)
    requires n <= 0xffff && rounds <= 0xffff && (ctx.Some? ==> |ctx.value| <= 0xffff)
  {
    if ctx.Some? then [VERSION_2] + U16Bytes(n) + U16Bytes(rounds) + U16Bytes(|ctx.value|) + ctx.value
    else [VERSION_1] + U16Bytes(n) + U16Bytes(rounds)
  }

  /** The verifier reads back the header, whatever follows it. */
  lemma HeaderReads(n: nat, rounds: nat, ctx: Option<Bytes>, rest: Bytes)
    requires n <= 0xffff && rounds <= 0xffff && (ctx.Some? ==> 0 < |ctx.value| <= 0xffff)
    ensures ParseHeader(HeaderBytes(n, rounds, ctx) + rest, ctx) == Some((n, rounds, |HeaderBytes(n, rounds, ctx)|))
  {
    var h := HeaderBytes(n, rounds, ctx);
    var b := h + rest;
    assert b[1] == n % 256 && b[2] == n / 256 && b[3] == rounds % 256 && b[4] == rounds / 256;
    if ctx.Some? {
      var len := |ctx.value|;
      assert b[5] == len % 256 && b[6] == len / 256;
      assert b[7..7 + len] == ctx.value;
    }
  }

  /** What the prover refuses. */
  predicate Refused(n: nat, rounds: int, ctx: Option<Bytes>) {
    || n < 2 || n > 0xffff || rounds <= 0 || rounds > 0xffff
    || (ctx.Some? && (|ctx.value| == 0 || |ctx.value| > 0xffff))
  }

  /** Where each input card is after the keys have moved. */
  ghost predicate Tracks(pk: Point, deckIn: seq<Ciphertext>, perm: seq<int>, cur: seq<Ciphertext>, keys: seq<int>) {
    && |deckIn| == |perm| == |cur| == |keys|
    && forall p, i :: 0 <= p < |cur| && 0 <= i < |perm| && keys[p] == perm[i] ==> Reencrypts(pk, deckIn[i], cur[p])
  }

  lemma TracksStart(pk: Point, deckIn: seq<Ciphertext>, perm: seq<int>)
    requires |deckIn| == |perm| && IsPermutation(perm)
    ensures Tracks(pk, deckIn, perm, deckIn, perm)
  {
    forall i | 0 <= i < |deckIn|
      ensures Reencrypts(pk, deckIn[i], deckIn[i])
    {
      ReencryptsRefl(pk, deckIn[i]);
    }
  }

  lemma TracksRound(pk: Point, deckIn: seq<Ciphertext>, perm: seq<int>, cur: seq<Ciphertext>, keys: seq<int>, next: seq<Ciphertext>, round: nat)
    requires Tracks(pk, deckIn, perm, cur, keys) && |next| == |cur|
    requires forall i :: 0 <= i < |cur| ==> Reencrypts(pk, cur[Source(keys, round, i)], next[i])
    ensures Tracks(pk, deckIn, perm, next, RoundKeys(keys, round))
  {
    hide Reencrypts, Source;
    var keys' := RoundKeys(keys, round);
    forall p, i | 0 <= p < |next| && 0 <= i < |perm| && keys'[p] == perm[i]
      ensures Reencrypts(pk, deckIn[i], next[p])
    {
      var s := Source(keys, round, p);
      ReencryptsTrans(pk, deckIn[i], cur[s], next[p]);
    }
  }

  /** `shuffleProveV1`.  For every deck and every round count the verifier accepts the bytes and returns the
      prover's deck; every output card re-encrypts the input card the network brought there; and with at
      least as many rounds as cards that is the drawn permutation: `deckOut[perm[i]]` re-encrypts `deckIn[i]`. */
  method ShuffleProve(S: Suite, pk: Point, deckIn: seq<Ciphertext>, roundsOpt: Option<int>, ctx: Option<Bytes>, rng: Rng)
    returns (r: Result<(seq<Ciphertext>, Bytes)>, ghost perm: seq<int>)
    requires S.Canonical() && Usable(rng.stream)
    modifies rng
    ensures var rounds := if roundsOpt.Some? then roundsOpt.value else |deckIn|;
            && (r.Err? <==> Refused(|deckIn|, rounds, ctx))
            && (r.Ok? ==>
                  && Accepts(S, pk, deckIn, r.value.1, ctx)
                  && r.value.0 == DeckOut(S, deckIn, r.value.1, ctx)
                  && |perm| == |deckIn| >= 2 && IsPermutation(perm)
                  && perm == Mixed(Identity(|deckIn|), DrawsFrom(S, rng.stream, old(rng.counter), |deckIn| - 1))
                  && Tracks(pk, deckIn, perm, r.value.0, RunKeys(perm, rounds))
                  && (rounds >= |deckIn| ==> forall i :: 0 <= i < |perm| ==> Reencrypts(pk, deckIn[i], r.value.0[perm[i]])))
  {
    hide RoundsOk, ParseHeader, HeaderBytes, DeckAfter, Tracks, Reencrypts, RoundOk, IsPermutation, Mixed, DrawsFrom, S.Canonical, Draws, VerifySwitch, VerifyEqDlog;
    var n := |deckIn|;
    var rounds: int := if roundsOpt.Some? then roundsOpt.value else n;
    perm := [];
    if n < 2 || rounds <= 0 || (ctx.Some? && |ctx.value| == 0) {
      return Err, perm;
    }
    var drawn := RandomPermutation(S, rng, n);
    perm := drawn[..];
    if (ctx.Some? && |ctx.value| > 0xffff) || n > 0xffff || rounds > 0xffff {
      return Err, perm;
    }
    var bytes := HeaderBytes(n, rounds, ctx);
    ghost var h := |bytes|;
    ghost var rest: Bytes := [];
    assert bytes == bytes + rest;
    var cur, keys := deckIn, drawn[..];
    TracksStart(pk, deckIn, perm);
    StartOfRounds(S, pk, deckIn, bytes, h, ctx);
    for round := 0 to rounds
      invariant |cur| == |keys| == n && keys == RunKeys(perm, round)
      invariant bytes == HeaderBytes(n, rounds, ctx) + rest && |bytes| == RoundOff(n, h, round)
      invariant RoundsOk(S, pk, deckIn, bytes, h, round, ctx) && cur == DeckAfter(S, deckIn, bytes, h, round)
      invariant Tracks(pk, deckIn, perm, cur, keys)
    {
      var next, nextKeys, chunk := ProveRound(S, pk, cur, keys, round, rng, ctx);
      AppendRound(S, pk, deckIn, bytes, chunk, h, round, next, ctx);
      TracksRound(pk, deckIn, perm, cur, keys, next, round);
      rest := rest + chunk;
      bytes := bytes + chunk;
      cur, keys := next, nextKeys;
    }
    HeaderReads(n, rounds, ctx, rest);
    r := Ok((cur, bytes));
    if rounds >= n {
      Delivered(pk, deckIn, perm, cur, rounds);
    }
  }

  lemma StartOfRounds(S: Suite, pk: Point, deckIn: seq<Ciphertext>, b: Bytes, h: nat, ctx: Option<Bytes>)
    ensures RoundsOk(S, pk, deckIn, b, h, 0, ctx) && DeckAfter(S, deckIn, b, h, 0) == deckIn
  {
  }

  /** With at least as many rounds as cards, the network realises the permutation exactly. */
  lemma Delivered(pk: Point, deckIn: seq<Ciphertext>, perm: seq<int>, cur: seq<Ciphertext>, rounds: nat)
    requires |perm| == |deckIn| == |cur| && rounds >= |deckIn| && IsPermutation(perm)
    requires Tracks(pk, deckIn, perm, cur, RunKeys(perm, rounds))
    ensures forall i :: 0 <= i < |perm| ==> 0 <= perm[i] < |cur| && Reencrypts(pk, deckIn[i], cur[perm[i]])
  {
    hide Reencrypts;
    forall i | 0 <= i < |perm|
      ensures 0 <= perm[i] < |cur| && Reencrypts(pk, deckIn[i], cur[perm[i]])
    {
      FullySorted(perm, rounds, perm[i]);
    }
  }
}
