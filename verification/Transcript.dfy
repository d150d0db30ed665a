/** Fiat-Shamir transcripts (packages/ocp-crypto/src/utils/transcript.ts, apps/chain/internal/ocpcrypto/transcript.go):
    the bytes that are hashed, and that no two lists of messages have the same bytes. */
module Transcript {
  import opened Zq
  import opened Outcome
  import opened Primitives

  /** "OCPv1|transcript|" */
  const PREFIX: Bytes := [79, 67, 80, 118, 49, 124, 116, 114, 97, 110, 115, 99, 114, 105, 112, 116, 124]

  /** "msg" */
  const MSG: Bytes := [109, 115, 103]

  /** "challenge" */
  const CHALLENGE: Bytes := [99, 104, 97, 108, 108, 101, 110, 103, 101]

  const U32_LIMIT := 0x1_0000_0000

  /** `u32le`, which drops what does not fit. */
  function U32(n: nat): Bytes {
    [n % 256, n / 256 % 256, n / 65536 % 256, n / 16777216 % 256]
  }

  /** Bytes with their length before them. */
  function Framed(b: Bytes): Bytes { U32(|b|) + b }

  function Item(S: Suite, m: Message): Bytes { MSG + Framed(S.text(m.0)) + Framed(m.1) }

  function Items(S: Suite, ms: seq<Message>): Bytes {
    if ms == [] then [] else Item(S, ms[0]) + Items(S, ms[1..])
  }

  /** What follows the messages: the request for the challenge called "e". */
  function Closing(S: Suite): Bytes { CHALLENGE + Framed(S.text("e")) }

  /** The bytes hashed for the challenge. */
  function Hashed(S: Suite, domain: string, ms: seq<Message>): Bytes {
    PREFIX + Framed(S.text(domain)) + (Items(S, ms) + Closing(S))
  }

  // ---------------------------------------------------------------- different messages, different bytes

  lemma U32Injective(n: nat, m: nat)
    requires n < U32_LIMIT && m < U32_LIMIT && U32(n) == U32(m)
    ensures n == m
  {
    assert U32(n)[0] == U32(m)[0] && U32(n)[1] == U32(m)[1] && U32(n)[2] == U32(m)[2] && U32(n)[3] == U32(m)[3];
    Digits(n);
    Digits(m);
  }

  lemma Digits(n: nat)
    requires n < U32_LIMIT
    ensures n == n % 256 + 256 * (n / 256 % 256) + 65536 * (n / 65536 % 256) + 16777216 * (n / 16777216 % 256)
  {
  }

  /** A framed string can be told from what follows it. */
  lemma FramedInjective(a: Bytes, rest: Bytes, a': Bytes, rest': Bytes)
    requires |a| < U32_LIMIT && |a'| < U32_LIMIT && Framed(a) + rest == Framed(a') + rest'
    ensures a == a' && rest == rest'
  {
    hide U32;
    var l, r := Framed(a) + rest, Framed(a') + rest';
    FourBytes(|a|);
    FourBytes(|a'|);
    assert l[..4] == U32(|a|) && r[..4] == U32(|a'|);
    U32Injective(|a|, |a'|);
    assert l[4..4 + |a|] == a && r[4..4 + |a|] == a';
    assert l[4 + |a|..] == rest && r[4 + |a|..] == rest';
  }

  lemma FourBytes(n: nat)
    ensures |U32(n)| == 4
  {
  }

  /** Label and message are shorter than four gigabytes. */
  ghost predicate Fits(S: Suite, m: Message) { |S.text(m.0)| < U32_LIMIT && |m.1| < U32_LIMIT }

  lemma ItemInjective(S: Suite, m: Message, rest: Bytes, m': Message, rest': Bytes)
    requires S.Canonical() && Fits(S, m) && Fits(S, m') && Item(S, m) + rest == Item(S, m') + rest'
    ensures m == m' && rest == rest'
  {
    hide Framed;
    var a, b := Framed(S.text(m.0)), Framed(m.1);
    var a', b' := Framed(S.text(m'.0)), Framed(m'.1);
    assert Item(S, m) + rest == MSG + (a + (b + rest));
    assert Item(S, m') + rest' == MSG + (a' + (b' + rest'));
    SamePrefix(MSG, a + (b + rest), a' + (b' + rest'));
    FramedInjective(S.text(m.0), b + rest, S.text(m'.0), b' + rest');
    FramedInjective(m.1, rest, m'.1, rest');
  }

  lemma SamePrefix(p: Bytes, a: Bytes, b: Bytes)
    requires p + a == p + b
    ensures a == b
  {
    assert (p + a)[|p|..] == a && (p + b)[|p|..] == b;
  }

  ghost predicate AllFit(S: Suite, ms: seq<Message>) { forall i :: 0 <= i < |ms| ==> Fits(S, ms[i]) }

  /** A message never looks like the closing. */
  lemma ItemsStart(S: Suite, ms: seq<Message>, rest: Bytes)
    ensures var b := Items(S, ms) + (CHALLENGE + rest); |b| > 0 && b[0] == if ms == [] then 99 else 109
  {
    if ms != [] { assert Items(S, ms) == MSG + (Framed(S.text(ms[0].0)) + Framed(ms[0].1) + Items(S, ms[1..])); }
  }

  lemma {:induction false} ItemsInjective(S: Suite, ms: seq<Message>, ms': seq<Message>, rest: Bytes)
    requires S.Canonical() && AllFit(S, ms) && AllFit(S, ms')
    requires Items(S, ms) + (CHALLENGE + rest) == Items(S, ms') + (CHALLENGE + rest)
    ensures ms == ms'
    decreases |ms|
  {
    hide Item, S.Canonical;
    ItemsStart(S, ms, rest);
    ItemsStart(S, ms', rest);
    if ms != [] {
      var tail := CHALLENGE + rest;
      var t, t' := Items(S, ms[1..]) + tail, Items(S, ms'[1..]) + tail;
      assert Items(S, ms) + tail == Item(S, ms[0]) + t;
      assert Items(S, ms') + tail == Item(S, ms'[0]) + t';
      ItemInjective(S, ms[0], t, ms'[0], t');
      ItemsInjective(S, ms[1..], ms'[1..], rest);
      assert ms == [ms[0]] + ms[1..] && ms' == [ms'[0]] + ms'[1..];
    }
  }

  /** THEOREM.  The bytes hashed for a challenge determine the domain and every message appended, label and contents. */
  lemma HashedInjective(S: Suite, domain: string, ms: seq<Message>, domain': string, ms': seq<Message>)
    requires S.Canonical() && AllFit(S, ms) && AllFit(S, ms')
    requires |S.text(domain)| < U32_LIMIT && |S.text(domain')| < U32_LIMIT
    requires Hashed(S, domain, ms) == Hashed(S, domain', ms')
    ensures domain == domain' && ms == ms'
  {
    hide Framed, Items, AllFit, Fits;
    var d, d' := Framed(S.text(domain)), Framed(S.text(domain'));
    var b, b' := Items(S, ms) + Closing(S), Items(S, ms') + Closing(S);
    assert Hashed(S, domain, ms) == PREFIX + (d + b);
    assert Hashed(S, domain', ms') == PREFIX + (d' + b');
    SamePrefix(PREFIX, d + b, d' + b');
    FramedInjective(S.text(domain), b, S.text(domain'), b');
    ItemsInjective(S, ms, ms', Framed(S.text("e")));
  }

  // ---------------------------------------------------------------- messages of proofs

  ghost predicate ShortContext(ctx: Option<Bytes>) { ctx.Some? ==> |ctx.value| < U32_LIMIT }

  /** Points under short labels fit, whatever the context. */
  ghost predicate Points(S: Suite, ms: seq<Message>) {
    forall i :: 0 <= i < |ms| ==> |ms[i].0| <= 8 && |ms[i].1| == 32
  }

  lemma PointsFit(S: Suite, ctx: Option<Bytes>, ms: seq<Message>)
    requires S.Canonical() && ShortContext(ctx) && Points(S, ms)
    ensures AllFit(S, ContextMessage(ctx) + ms)
  {
    var all := ContextMessage(ctx) + ms;
    forall i | 0 <= i < |all|
      ensures Fits(S, all[i])
    {
      assert |S.text(all[i].0)| <= 4 * |all[i].0|;
      if i >= |ContextMessage(ctx)| { assert all[i] == ms[i - |ContextMessage(ctx)|]; }
    }
  }

  /** With and without a context no two lists of the same length agree. */
  lemma ContextSplit(ctx: Option<Bytes>, ms: seq<Message>, ctx': Option<Bytes>, ms': seq<Message>)
    requires |ms| == |ms'| && ContextMessage(ctx) + ms == ContextMessage(ctx') + ms'
    ensures ctx == ctx' && ms == ms'
  {
    var l, r := ContextMessage(ctx) + ms, ContextMessage(ctx') + ms';
    assert |l| == |r|;
    var n := |ContextMessage(ctx)|;
    assert l[n..] == ms && r[n..] == ms';
    if n > 0 { assert l[0] == ("ctx", ctx.value) && r[0] == ("ctx", ctx'.value); }
  }

  lemma EncodingInjective(S: Suite, p: Point, p': Point)
    requires S.Canonical() && S.encodePoint(p) == S.encodePoint(p')
    ensures p == p'
  {
    assert S.decodePoint(S.encodePoint(p)) == Some(p) && S.decodePoint(S.encodePoint(p')) == Some(p');
  }

  /** Points under their labels. */
  function Labelled(S: Suite, labels: seq<string>, ps: seq<Point>): (ms: seq<Message>)
    requires |labels| == |ps|
    ensures |ms| == |ps| && forall i :: 0 <= i < |ps| ==> ms[i] == (labels[i], S.encodePoint(ps[i]))
  {
    seq(|ps|, i requires 0 <= i < |ps| => (labels[i], S.encodePoint(ps[i])))
  }

  ghost predicate ShortLabels(labels: seq<string>) { forall i :: 0 <= i < |labels| ==> |labels[i]| <= 8 }

  /** THEOREM.  The bytes hashed for labelled points determine every one of the points, and the context. */
  lemma PointsBound(S: Suite, domain: string, ctx: Option<Bytes>, labels: seq<string>, ps: seq<Point>, domain': string, ctx': Option<Bytes>, ps': seq<Point>)
    requires S.Canonical() && ShortContext(ctx) && ShortContext(ctx') && |domain| <= 64 && |domain'| <= 64
    requires |ps| == |ps'| == |labels| && ShortLabels(labels)
    requires Hashed(S, domain, ContextMessage(ctx) + Labelled(S, labels, ps)) == Hashed(S, domain', ContextMessage(ctx') + Labelled(S, labels, ps'))
    ensures domain == domain' && ctx == ctx' && ps == ps'
  {
    hide Hashed, AllFit;
    var ms, ms' := Labelled(S, labels, ps), Labelled(S, labels, ps');
    PointsFit(S, ctx, ms);
    PointsFit(S, ctx', ms');
    HashedInjective(S, domain, ContextMessage(ctx) + ms, domain', ContextMessage(ctx') + ms');
    ContextSplit(ctx, ms, ctx', ms');
    forall i | 0 <= i < |ps|
      ensures ps[i] == ps'[i]
    {
      assert ms[i] == ms'[i];
      EncodingInjective(S, ps[i], ps'[i]);
    }
  }
}
