/** The verifier: a moving reader over the proof bytes, one pass per round
    (packages/ocp-shuffle/src/shuffle_v1.ts, packages/ocp-shuffle/src/encoding.ts,
    apps/cosmos/internal/ocpshuffle/shuffle_v1.go). */
module ShuffleVerifier {
  import opened Zq
  import opened Outcome
  import opened ElGamal
  import opened Primitives
  import opened Sigma
  import opened Network
  import opened ShuffleFormat

  class Reader {
    const bytes: Bytes
    var off: nat

    constructor (b: Bytes)
      ensures bytes == b && off == 0
    {
      bytes := b;
      off := 0;
    }

    ghost predicate Valid()
      reads this
    {
      off <= |bytes|
    }

    /** `take`: the next `n` bytes, or a failure that leaves the reader where it was. */
    method Take(n: nat) returns (r: Option<Bytes>)
      requires Valid()
      modifies this
      ensures Valid()
      ensures r.Some? <==> old(off) + n <= |bytes|
      ensures r.Some? ==> off == old(off) + n && r.value == bytes[old(off)..off]
      ensures r.None? ==> off == old(off)
    {
      if off + n > |bytes| {
        return None;
      }
      r := Some(bytes[off..off + n]);
      off := off + n;
    }

    method TakeU16() returns (r: Option<nat>)
      requires Valid()
      modifies this
      ensures Valid()
      ensures r.Some? <==> old(off) + 2 <= |bytes|
      ensures r.Some? ==> off == old(off) + 2 && r.value == U16(bytes[old(off)], bytes[old(off) + 1])
      ensures r.None? ==> off == old(off)
    {
      var b := Take(2);
      if b.None? {
        return None;
      }
      r := Some(U16(b.value[0], b.value[1]));
    }

    method TakePoint(S: Suite) returns (r: Option<Point>)
      requires Valid()
      modifies this
      ensures Valid()
      ensures r == PointAt(S, bytes, old(off))
      ensures r.Some? ==> off == old(off) + 32
    {
      var b := Take(32);
      if b.None? {
        return None;
      }
      r := S.decodePoint(b.value);
    }

    method TakeScalar(S: Suite) returns (r: Option<Scalar>)
      requires Valid()
      modifies this
      ensures Valid()
      ensures r == ScalarAt(S, bytes, old(off))
      ensures r.Some? ==> off == old(off) + 32
    {
      var b := Take(32);
      if b.None? {
        return None;
      }
      r := S.decodeScalar(b.value);
    }

    /** `decodeEqDlogProofFromReader` */
    method TakeEqDlog(S: Suite) returns (r: Option<EqDlogProof>)
      requires Valid()
      modifies this
      ensures Valid()
      ensures r == EqDlogAt(S, bytes, old(off))
      ensures r.Some? ==> off == old(off) + 96
    {
      r := None;
      var t1 := TakePoint(S);
      if t1.None? { return; }
      var t2 := TakePoint(S);
      if t2.None? { return; }
      var z := TakeScalar(S);
      if z.None? { return; }
      r := Some(EqDlogProof(t1.value, t2.value, z.value));
    }

    /** `decodeSwitchProofFromReader` */
    method TakeSwitch(S: Suite) returns (r: Option<SwitchProof>)
      requires Valid()
      modifies this
      ensures Valid()
      ensures r == SwitchAt(S, bytes, old(off))
      ensures r.Some? ==> off == old(off) + 416
    {
      r := None;
      var e0 := TakeScalar(S);
      if e0.None? { return; }
      var r0 := TakeEqDlog(S);
      if r0.None? { return; }
      var r1 := TakeEqDlog(S);
      if r1.None? { return; }
      var r2 := TakeEqDlog(S);
      if r2.None? { return; }
      var r3 := TakeEqDlog(S);
      if r3.None? { return; }
      r := Some(SwitchProof(e0.value, r0.value, r1.value, r2.value, r3.value));
    }
  }

  /** The header checks, up to the comparison of the context. */
  method ReadHeader(rd: Reader, ctx: Option<Bytes>) returns (r: Option<(nat, nat, nat)>)
    requires rd.off == 0
    modifies rd
    ensures r == ParseHeader(rd.bytes, ctx)
    ensures r.Some? ==> rd.off == r.value.2 && rd.Valid()
  {
    r := None;
    var v := rd.Take(1);
    if v.None? { return; }
    var version := v.value[0];
    if version == VERSION_1 {
      if ctx.Some? { return; }
    } else if version == VERSION_2 {
      if ctx.None? || |ctx.value| == 0 { return; }
    } else {
      return;
    }
    var n := rd.TakeU16();
    if n.None? { return; }
    var rounds := rd.TakeU16();
    if rounds.None? { return; }
    if version == VERSION_2 {
      var len := rd.TakeU16();
      if len.None? { return; }
      var c := rd.Take(len.value);
      if c.None? || c.value != ctx.value { return; }
    }
    r := Some((n.value, rounds.value, rd.off));
  }

  /** The deck snapshot of a round: `n` ciphertexts of 64 bytes. */
  method ReadDeck(S: Suite, rd: Reader, n: nat) returns (r: Option<seq<Ciphertext>>)
    requires rd.Valid()
    modifies rd
    ensures rd.Valid()
    ensures r.Some? <==> old(rd.off) + 64 * n <= |rd.bytes| && forall i :: 0 <= i < n ==> SnapshotAt(S, rd.bytes, old(rd.off), i).Some?
    ensures r.Some? ==> |r.value| == n && rd.off == old(rd.off) + 64 * n
    ensures r.Some? ==> forall i :: 0 <= i < n ==> SnapshotAt(S, rd.bytes, old(rd.off), i) == Some(r.value[i])
  {
    ghost var at := rd.off;
    var deckBytes := rd.Take(n * 64);
    if deckBytes.None? {
      return None;
    }
    var next: seq<Ciphertext> := [];
    assert Holds(rd.bytes, at, deckBytes.value);
    for i := 0 to n
      invariant |next| == i
      invariant rd.Valid() && rd.off == at + 64 * n
      invariant forall j :: 0 <= j < i ==> SnapshotAt(S, rd.bytes, at, j) == Some(next[j])
    {
      ReadEmbedded(S, rd.bytes, at, deckBytes.value, 64 * i);
      var ct := CiphertextAt(S, deckBytes.value, 64 * i);
      if ct.None? {
        assert SnapshotAt(S, rd.bytes, at, i).None?;
        return None;
      }
      next := next + [ct.value];
    }
    r := Some(next);
  }

  /** The switch proofs of a round, in the order of the pairs. */
  method CheckSwitches(S: Suite, pk: Point, cur: seq<Ciphertext>, next: seq<Ciphertext>, rd: Reader, round: nat, ctx: Option<Bytes>)
    returns (ok: bool)
    requires rd.Valid() && 2 <= |cur| == |next|
    modifies rd
    ensures rd.Valid()
    ensures ok <==> SwitchesOk(S, pk, cur, next, rd.bytes, old(rd.off), round, Pairs(|cur|, round), ctx)
    ensures ok ==> rd.off == old(rd.off) + 416 * Pairs(|cur|, round)
  {
    hide VerifySwitch, SwitchAt;
    ghost var at := rd.off;
    var i := round % 2;
    ghost var k := 0;
    while i + 1 < |cur|
      invariant i == PairAt(round, k) && k <= Pairs(|cur|, round)
      invariant rd.Valid() && rd.off == at + 416 * k
      invariant SwitchesOk(S, pk, cur, next, rd.bytes, at, round, k, ctx)
    {
      var sp := rd.TakeSwitch(S);
      if sp.None? || !VerifySwitch(S, pk, Switch(cur[i], cur[i + 1], next[i], next[i + 1]), sp.value, ctx) {
        assert !SwitchOk(S, pk, cur, next, rd.bytes, at, round, k, ctx);
        return false;
      }
      assert SwitchOk(S, pk, cur, next, rd.bytes, at, round, k, ctx);
      i := i + 2;
      k := k + 1;
    }
    ok := true;
  }

  /** One unpaired card. */
  method CheckSingle(S: Suite, pk: Point, cur: seq<Ciphertext>, next: seq<Ciphertext>, rd: Reader, idx: nat,
                     round: nat, ghost at: nat, ghost k: nat, ctx: Option<Bytes>)
    returns (ok: bool)
    requires rd.Valid() && 2 <= |cur| == |next| && k < Singles(|cur|, round)
    requires idx == SingleAt(|cur|, round, k) && rd.off == at + 96 * k
    modifies rd
    ensures rd.Valid()
    ensures ok <==> SingleOk(S, pk, cur, next, rd.bytes, at, round, k, ctx)
    ensures ok ==> rd.off == at + 96 * (k + 1)
  {
    var p := rd.TakeEqDlog(S);
    if p.None? || next[idx].c1 == cur[idx].c1 {
      return false;
    }
    var X := PointSub(next[idx].c1, cur[idx].c1);
    var Y := PointSub(next[idx].c2, cur[idx].c2);
    ok := VerifyEqDlog(S, DOMAIN_REENC, G, pk, X, Y, p.value, ctx);
  }

  /** The unpaired cards of a round, by the verifier's own parity cases. */
  method CheckSingles(S: Suite, pk: Point, cur: seq<Ciphertext>, next: seq<Ciphertext>, rd: Reader, round: nat, ctx: Option<Bytes>)
    returns (ok: bool)
    requires rd.Valid() && 2 <= |cur| == |next|
    modifies rd
    ensures rd.Valid()
    ensures ok <==> SinglesOk(S, pk, cur, next, rd.bytes, old(rd.off), round, Singles(|cur|, round), ctx)
    ensures ok ==> rd.off == old(rd.off) + 96 * Singles(|cur|, round)
  {
    hide SingleOk;
    var n, start := |cur|, round % 2;
    ghost var at := rd.off;
    if n % 2 == 1 {
      var idx := if start == 0 then n - 1 else 0;
      ok := CheckSingle(S, pk, cur, next, rd, idx, round, at, 0, ctx);
    } else if start == 1 {
      ok := CheckSingle(S, pk, cur, next, rd, 0, round, at, 0, ctx);
      if !ok { return; }
      ok := CheckSingle(S, pk, cur, next, rd, n - 1, round, at, 1, ctx);
    } else {
      ok := true;
    }
  }

  /** A round that reads completely is the round the layout describes. */
  lemma RoundReads(S: Suite, pk: Point, deckIn: seq<Ciphertext>, b: Bytes, h: nat, q: nat, next: seq<Ciphertext>, ctx: Option<Bytes>)
    requires 2 <= |deckIn| == |next|
    requires forall i :: 0 <= i < |deckIn| ==> SnapshotAt(S, b, RoundOff(|deckIn|, h, q), i) == Some(next[i])
    ensures DeckAfter(S, deckIn, b, h, q + 1) == next
  {
    var d := DeckAfter(S, deckIn, b, h, q + 1);
    forall i | 0 <= i < |deckIn|
      ensures d[i] == next[i]
    {
    }
  }

  /** An accepted round determines what the verifier reads. */
  lemma RoundDecks(S: Suite, pk: Point, deckIn: seq<Ciphertext>, b: Bytes, h: nat, q: nat, r: nat, ctx: Option<Bytes>)
    requires RoundsOk(S, pk, deckIn, b, h, r, ctx) && q < r
    ensures RoundOk(S, pk, DeckAfter(S, deckIn, b, h, q), DeckAfter(S, deckIn, b, h, q + 1), b, RoundOff(|deckIn|, h, q), q, ctx)
  {
    assert RoundAccepted(S, pk, deckIn, b, h, q, ctx);
  }

  /** `shuffleVerifyV1`: it accepts exactly the byte strings of the format whose every proof verifies,
      and returns the deck of the last snapshot. */
  method ShuffleVerify(S: Suite, pk: Point, deckIn: seq<Ciphertext>, proofBytes: Bytes, ctx: Option<Bytes>)
    returns (r: Option<seq<Ciphertext>>)
    ensures r.Some? <==> Accepts(S, pk, deckIn, proofBytes, ctx)
    ensures r.Some? ==> r.value == DeckOut(S, deckIn, proofBytes, ctx)
  {
    hide SwitchesOk, SinglesOk, DeckAfter, ParseHeader, SnapshotAt, RoundLen;
    r := None;
    var rd := new Reader(proofBytes);
    var header := ReadHeader(rd, ctx);
    if header.None? { return; }
    var (n, rounds, h) := header.value;
    if n != |deckIn| || n < 2 || rounds <= 0 { return; }
    var cur := deckIn;
    DeckStart(S, deckIn, proofBytes, h);
    for round := 0 to rounds
      invariant rd.Valid() && rd.off == RoundOff(n, h, round)
      invariant cur == DeckAfter(S, deckIn, proofBytes, h, round)
      invariant RoundsOk(S, pk, deckIn, proofBytes, h, round, ctx)
    {
      ghost var at := rd.off;
      var next, ok := CheckRound(S, pk, cur, rd, round, ctx);
      if !ok {
        if RoundsOk(S, pk, deckIn, proofBytes, h, rounds, ctx) {
          RoundDecks(S, pk, deckIn, proofBytes, h, round, rounds, ctx);
        }
        return;
      }
      RoundContents(S, pk, cur, next, proofBytes, at, round, ctx);
      RoundReads(S, pk, deckIn, proofBytes, h, round, next, ctx);
      cur := next;
    }
    if rd.off != |proofBytes| { return; }
    r := Some(cur);
  }

  lemma DeckStart(S: Suite, deckIn: seq<Ciphertext>, b: Bytes, h: nat)
    ensures DeckAfter(S, deckIn, b, h, 0) == deckIn
  {
  }

  lemma RoundContents(S: Suite, pk: Point, cur: seq<Ciphertext>, next: seq<Ciphertext>, b: Bytes, at: nat, round: nat, ctx: Option<Bytes>)
    requires RoundOk(S, pk, cur, next, b, at, round, ctx)
    ensures 2 <= |next| == |cur|
    ensures forall i :: 0 <= i < |cur| ==> SnapshotAt(S, b, at, i) == Some(next[i])
  {
  }

  /** One round of the verifier: it succeeds exactly when some deck makes the round acceptable. */
  method CheckRound(S: Suite, pk: Point, cur: seq<Ciphertext>, rd: Reader, round: nat, ctx: Option<Bytes>)
    returns (next: seq<Ciphertext>, ok: bool)
    requires rd.Valid() && 2 <= |cur|
    modifies rd
    ensures rd.Valid()
    ensures ok ==> RoundOk(S, pk, cur, next, rd.bytes, old(rd.off), round, ctx)
    ensures ok ==> rd.off == old(rd.off) + RoundLen(|cur|, round)
    ensures !ok ==> forall d :: !RoundOk(S, pk, cur, d, rd.bytes, old(rd.off), round, ctx)
  {
    hide SwitchesOk, SinglesOk;
    next := [];
    ok := false;
    ghost var at := rd.off;
    forall d | RoundOk(S, pk, cur, d, rd.bytes, at, round, ctx)
      ensures at + 64 * |cur| <= |rd.bytes|
      ensures forall i :: 0 <= i < |cur| ==> SnapshotAt(S, rd.bytes, at, i).Some?
    {
      RoundContents(S, pk, cur, d, rd.bytes, at, round, ctx);
    }
    var deck := ReadDeck(S, rd, |cur|);
    if deck.None? { return; }
    next := deck.value;
    forall d | RoundOk(S, pk, cur, d, rd.bytes, at, round, ctx)
      ensures d == next
    {
      forall i | 0 <= i < |cur|
        ensures d[i] == next[i]
      {
        assert SnapshotAt(S, rd.bytes, at, i) == Some(d[i]);
      }
    }
    ok := CheckSwitches(S, pk, cur, next, rd, round, ctx);
    if !ok { return; }
    ok := CheckSingles(S, pk, cur, next, rd, round, ctx);
  }
}
