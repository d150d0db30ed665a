/** The byte format of a shuffle proof and what the verifier accepts
    (packages/ocp-shuffle/src/shuffle_v1.ts, apps/cosmos/internal/ocpshuffle/shuffle_v1.go).
    Every field has a fixed length, so a proof is described by what can be read at which offset. */
module ShuffleFormat {
  import opened Zq
  import opened Outcome
  import opened ElGamal
  import opened Primitives
  import opened Sigma
  import opened Network

  const VERSION_1 := 1
  const VERSION_2 := 2
  const DOMAIN_REENC := "ocp/v1/shuffle/reenc-eqdlog"

  // ---------------------------------------------------------------- layout of a round

  /** How many switches a round holds, and the left position of the k-th. */
  function Pairs(n: nat, round: nat): (c: nat)
    ensures n >= 2 ==> round % 2 + 2 * c <= n <= round % 2 + 2 * c + 1
  {
    if n < round % 2 then 0 else (n - round % 2) / 2
  }

  function PairAt(round: nat, k: nat): nat { round % 2 + 2 * k }

  /** How many positions a round leaves unpaired, and the k-th of them. */
  function Singles(n: nat, round: nat): nat {
    if n % 2 == 1 then 1 else if round % 2 == 1 then 2 else 0
  }

  function SingleAt(n: nat, round: nat, k: nat): nat
    requires n >= 2
  {
    if n % 2 == 1 then (if round % 2 == 0 then n - 1 else 0)
    else if k == 0 then 0 else n - 1
  }

  /** The verifier's inline parity cases cover every position of a deck exactly once. */
  lemma EveryPositionOnce(n: nat, round: nat, i: nat)
    requires n >= 2 && i < n
    ensures Left(n, round, i) <==> exists k :: 0 <= k < Pairs(n, round) && PairAt(round, k) == i
    ensures Left(n, round, i) ==> !Left(n, round, i - 1)
    ensures !Left(n, round, i) && !Left(n, round, i - 1) <==> exists k :: 0 <= k < Singles(n, round) && SingleAt(n, round, k) == i
  {
    if Left(n, round, i) {
      var k := (i - round % 2) / 2;
      assert PairAt(round, k) == i;
    }
    if !Left(n, round, i) && !Left(n, round, i - 1) {
      var k := if n % 2 == 1 || i == 0 then 0 else 1;
      assert SingleAt(n, round, k) == i;
    }
  }

  function RoundLen(n: nat, round: nat): nat { 64 * n + 416 * Pairs(n, round) + 96 * Singles(n, round) }

  /** The offset at which round `r` starts, after a header of `h` bytes. */
  function RoundOff(n: nat, h: nat, r: nat): (o: nat)
    ensures o >= h
  {
    if r == 0 then h else RoundOff(n, h, r - 1) + RoundLen(n, r - 1)
  }

  // ---------------------------------------------------------------- reading at an offset

  function PointAt(S: Suite, b: Bytes, off: nat): Option<Point> {
    if off + 32 <= |b| then S.decodePoint(b[off..off + 32]) else None
  }

  function ScalarAt(S: Suite, b: Bytes, off: nat): Option<Scalar> {
    if off + 32 <= |b| then S.decodeScalar(b[off..off + 32]) else None
  }

  function CiphertextAt(S: Suite, b: Bytes, off: nat): Option<Ciphertext> {
    match (PointAt(S, b, off), PointAt(S, b, off + 32))
    case (Some(c1), Some(c2)) => Some(Ciphertext(c1, c2))
    case _ => None
  }

  /** The i-th ciphertext of the deck snapshot that starts at `at`. */
  function SnapshotAt(S: Suite, b: Bytes, at: nat, i: nat): Option<Ciphertext> { CiphertextAt(S, b, at + 64 * i) }

  function EqDlogAt(S: Suite, b: Bytes, off: nat): Option<EqDlogProof> {
    match (PointAt(S, b, off), PointAt(S, b, off + 32), ScalarAt(S, b, off + 64))
    case (Some(t1), Some(t2), Some(z)) => Some(EqDlogProof(t1, t2, z))
    case _ => None
  }

  function SwitchAt(S: Suite, b: Bytes, off: nat): Option<SwitchProof> {
    match (ScalarAt(S, b, off), EqDlogAt(S, b, off + 32), EqDlogAt(S, b, off + 128),
           EqDlogAt(S, b, off + 224), EqDlogAt(S, b, off + 320))
    case (Some(e0), Some(r0), Some(r1), Some(r2), Some(r3)) => Some(SwitchProof(e0, r0, r1, r2, r3))
    case _ => None
  }

  function U16(lo: Byte, hi: Byte): (x: nat)
    ensures x <= 0xffff
  {
    lo as nat + 256 * hi as nat
  }

  // ---------------------------------------------------------------- writing

  function EncodeCiphertext(S: Suite, c: Ciphertext): Bytes { S.encodePoint(c.c1) + S.encodePoint(c.c2) }

  function EncodeEqDlog(S: Suite, p: EqDlogProof): Bytes {
    S.encodePoint(p.t1) + S.encodePoint(p.t2) + S.encodeScalar(p.z)
  }

  function EncodeSwitch(S: Suite, p: SwitchProof): Bytes {
    S.encodeScalar(p.e0) + EncodeEqDlog(S, p.r0) + EncodeEqDlog(S, p.r1) + EncodeEqDlog(S, p.r2) + EncodeEqDlog(S, p.r3)
  }

  function U16Bytes(x: nat): Bytes
    requires x <= 0xffff
  {
    [x % 256, x / 256]
  }

  /** A piece of `big` at offset `at` that reads as `part`. */
  ghost predicate Holds(big: Bytes, at: nat, part: Bytes) {
    at + |part| <= |big| && big[at..at + |part|] == part
  }

  lemma HoldsPart(big: Bytes, at: nat, part: Bytes, off: nat, len: nat)
    requires Holds(big, at, part) && off + len <= |part|
    ensures at + off + len <= |big| && big[at + off..at + off + len] == part[off..off + len]
  {
    var l, r := big[at + off..at + off + len], part[off..off + len];
    forall i | 0 <= i < len
      ensures l[i] == r[i]
    {
      assert big[at..at + |part|][off + i] == part[off + i];
    }
  }

  /** Reading inside an embedded piece is reading the piece. */
  lemma ReadEmbedded(S: Suite, big: Bytes, at: nat, part: Bytes, off: nat)
    requires Holds(big, at, part)
    ensures off + 32 <= |part| ==> PointAt(S, big, at + off) == PointAt(S, part, off)
    ensures off + 32 <= |part| ==> ScalarAt(S, big, at + off) == ScalarAt(S, part, off)
    ensures off + 64 <= |part| ==> CiphertextAt(S, big, at + off) == CiphertextAt(S, part, off)
    ensures off + 96 <= |part| ==> EqDlogAt(S, big, at + off) == EqDlogAt(S, part, off)
  {
    if off + 32 <= |part| { HoldsPart(big, at, part, off, 32); }
    if off + 64 <= |part| { HoldsPart(big, at, part, off + 32, 32); }
    if off + 96 <= |part| { HoldsPart(big, at, part, off + 64, 32); }
  }

  lemma ReadEmbeddedSwitch(S: Suite, big: Bytes, at: nat, part: Bytes, off: nat)
    requires Holds(big, at, part) && off + 416 <= |part|
    ensures SwitchAt(S, big, at + off) == SwitchAt(S, part, off)
  {
    hide PointAt, ScalarAt, EqDlogAt, Holds;
    ReadEmbedded(S, big, at, part, off);
    ReadEmbedded(S, big, at, part, off + 32);
    ReadEmbedded(S, big, at, part, off + 128);
    ReadEmbedded(S, big, at, part, off + 224);
    ReadEmbedded(S, big, at, part, off + 320);
  }

  lemma ReadCiphertext(S: Suite, c: Ciphertext)
    requires S.Canonical()
    ensures |EncodeCiphertext(S, c)| == 64 && CiphertextAt(S, EncodeCiphertext(S, c), 0) == Some(c)
  {
    var b := EncodeCiphertext(S, c);
    assert b[0..32] == S.encodePoint(c.c1) && b[32..64] == S.encodePoint(c.c2);
  }

  lemma ReadEqDlog(S: Suite, p: EqDlogProof)
    requires S.Canonical()
    ensures |EncodeEqDlog(S, p)| == 96 && EqDlogAt(S, EncodeEqDlog(S, p), 0) == Some(p)
  {
    var b := EncodeEqDlog(S, p);
    assert b[0..32] == S.encodePoint(p.t1) && b[32..64] == S.encodePoint(p.t2) && b[64..96] == S.encodeScalar(p.z);
  }

  lemma ReadSwitch(S: Suite, p: SwitchProof)
    requires S.Canonical()
    ensures |EncodeSwitch(S, p)| == 416 && SwitchAt(S, EncodeSwitch(S, p), 0) == Some(p)
  {
    ReadEqDlog(S, p.r0);
    ReadEqDlog(S, p.r1);
    ReadEqDlog(S, p.r2);
    ReadEqDlog(S, p.r3);
    hide PointAt, EqDlogAt, EncodeEqDlog;
    var b := EncodeSwitch(S, p);
    assert b[0..32] == S.encodeScalar(p.e0);
    assert Holds(b, 32, EncodeEqDlog(S, p.r0)) && Holds(b, 128, EncodeEqDlog(S, p.r1));
    assert Holds(b, 224, EncodeEqDlog(S, p.r2)) && Holds(b, 320, EncodeEqDlog(S, p.r3));
    ReadEmbedded(S, b, 32, EncodeEqDlog(S, p.r0), 0);
    ReadEmbedded(S, b, 128, EncodeEqDlog(S, p.r1), 0);
    ReadEmbedded(S, b, 224, EncodeEqDlog(S, p.r2), 0);
    ReadEmbedded(S, b, 320, EncodeEqDlog(S, p.r3), 0);
  }

  // ---------------------------------------------------------------- acceptance

  /** The switch of one pair of positions. */
  function SwitchOf(cur: seq<Ciphertext>, next: seq<Ciphertext>, i: nat): Switch
    requires i + 1 < |cur| == |next|
  {
    Switch(cur[i], cur[i + 1], next[i], next[i + 1])
  }

  /** The k-th switch of a round reads and verifies. */
  predicate SwitchOk(S: Suite, pk: Point, cur: seq<Ciphertext>, next: seq<Ciphertext>, b: Bytes, at: nat,
                     round: nat, k: nat, ctx: Option<Bytes>)
    requires 2 <= |cur| == |next| && k < Pairs(|cur|, round)
  {
    var p := SwitchAt(S, b, at + 416 * k);
    p.Some? && VerifySwitch(S, pk, SwitchOf(cur, next, PairAt(round, k)), p.value, ctx)
  }

  /** The k-th unpaired card of a round is re-randomized and its proof reads and verifies. */
  predicate SingleOk(S: Suite, pk: Point, cur: seq<Ciphertext>, next: seq<Ciphertext>, b: Bytes, at: nat,
                     round: nat, k: nat, ctx: Option<Bytes>)
    requires 2 <= |cur| == |next| && k < Singles(|cur|, round)
  {
    var i := SingleAt(|cur|, round, k);
    var p := EqDlogAt(S, b, at + 96 * k);
    && p.Some?
    && next[i].c1 != cur[i].c1
    && VerifyEqDlog(S, DOMAIN_REENC, G, pk, DiffC1(cur[i], next[i]), DiffC2(cur[i], next[i]), p.value, ctx)
  }

  ghost predicate SwitchesOk(S: Suite, pk: Point, cur: seq<Ciphertext>, next: seq<Ciphertext>, b: Bytes, at: nat,
                             round: nat, count: nat, ctx: Option<Bytes>)
    requires 2 <= |cur| == |next| && count <= Pairs(|cur|, round)
  {
    forall k :: 0 <= k < count ==> SwitchOk(S, pk, cur, next, b, at, round, k, ctx)
  }

  ghost predicate SinglesOk(S: Suite, pk: Point, cur: seq<Ciphertext>, next: seq<Ciphertext>, b: Bytes, at: nat,
                            round: nat, count: nat, ctx: Option<Bytes>)
    requires 2 <= |cur| == |next| && count <= Singles(|cur|, round)
  {
    forall k :: 0 <= k < count ==> SingleOk(S, pk, cur, next, b, at, round, k, ctx)
  }

  /** The bytes at `at` hold an accepted round that takes the deck `cur` to the deck `next`. */
  ghost predicate RoundOk(S: Suite, pk: Point, cur: seq<Ciphertext>, next: seq<Ciphertext>, b: Bytes, at: nat,
                          round: nat, ctx: Option<Bytes>) {
    var n := |cur|;
    && 2 <= |cur| == |next|
    && at + RoundLen(n, round) <= |b|
    && (forall i :: 0 <= i < n ==> SnapshotAt(S, b, at, i) == Some(next[i]))
    && SwitchesOk(S, pk, cur, next, b, at + 64 * n, round, Pairs(n, round), ctx)
    && SinglesOk(S, pk, cur, next, b, at + 64 * n + 416 * Pairs(n, round), round, Singles(n, round), ctx)
  }

  /** Version, deck size and round count, with the length of the header; the context must match the caller's. */
  function ParseHeader(b: Bytes, ctx: Option<Bytes>): Option<(nat, nat, nat)> {
    if |b| < 5 then None
    else
      var n, rounds := U16(b[1], b[2]), U16(b[3], b[4]);
      if b[0] == VERSION_1 then (if ctx.Some? then None else Some((n, rounds, 5)))
      else if b[0] != VERSION_2 || ctx.None? || |ctx.value| == 0 || |b| < 7 then None
      else
        var len := U16(b[5], b[6]);
        if 7 + len <= |b| && b[7..7 + len] == ctx.value then Some((n, rounds, 7 + len)) else None
  }

  /** The deck after `r` rounds of the proof in `b`. */
  function DeckAfter(S: Suite, deckIn: seq<Ciphertext>, b: Bytes, h: nat, r: nat): (d: seq<Ciphertext>)
    ensures |d| == |deckIn|
  {
    if r == 0 then deckIn
    else
      var at := RoundOff(|deckIn|, h, r - 1);
      seq(|deckIn|, i requires 0 <= i < |deckIn| =>
        match SnapshotAt(S, b, at, i) case Some(c) => c case None => Ciphertext(ZERO, ZERO))
  }

  /** Round `q` takes the deck of the previous snapshot to the deck of its own. */
  ghost predicate RoundAccepted(S: Suite, pk: Point, deckIn: seq<Ciphertext>, b: Bytes, h: nat, q: nat, ctx: Option<Bytes>) {
    RoundOk(S, pk, DeckAfter(S, deckIn, b, h, q), DeckAfter(S, deckIn, b, h, q + 1), b, RoundOff(|deckIn|, h, q), q, ctx)
  }

  /** The first `r` rounds are accepted. */
  ghost predicate RoundsOk(S: Suite, pk: Point, deckIn: seq<Ciphertext>, b: Bytes, h: nat, r: nat, ctx: Option<Bytes>) {
    forall q :: 0 <= q < r ==> RoundAccepted(S, pk, deckIn, b, h, q, ctx)
  }

  /** The proof in `b` is accepted for `deckIn` under the context `ctx`. */
  ghost predicate Accepts(S: Suite, pk: Point, deckIn: seq<Ciphertext>, b: Bytes, ctx: Option<Bytes>) {
    var header := ParseHeader(b, ctx);
    && header.Some?
    && var (n, rounds, h) := header.value;
    && n == |deckIn| && n >= 2 && rounds > 0
    && RoundsOk(S, pk, deckIn, b, h, rounds, ctx)
    && |b| == RoundOff(n, h, rounds)
  }

  /** The deck an accepted proof ends with. */
  function DeckOut(S: Suite, deckIn: seq<Ciphertext>, b: Bytes, ctx: Option<Bytes>): seq<Ciphertext>
    requires ParseHeader(b, ctx).Some?
  {
    var (n, rounds, h) := ParseHeader(b, ctx).value;
    DeckAfter(S, deckIn, b, h, rounds)
  }

  /** THEOREM.  No proper prefix and no proper extension of an accepted proof is accepted. */
  lemma AcceptedIsPrefixFree(S: Suite, pk: Point, deckIn: seq<Ciphertext>, b: Bytes, more: Bytes, ctx: Option<Bytes>)
    requires Accepts(S, pk, deckIn, b, ctx) && Accepts(S, pk, deckIn, b + more, ctx)
    ensures more == []
  {
    hide RoundsOk, RoundOff;
    var c := b + more;
    assert c[..|b|] == b;
    assert forall i :: 0 <= i < |b| ==> c[i] == b[i];
    if b[0] == VERSION_2 {
      var len := U16(b[5], b[6]);
      assert c[7..7 + len] == b[7..7 + len];
    }
    assert ParseHeader(c, ctx) == ParseHeader(b, ctx);
  }
}
