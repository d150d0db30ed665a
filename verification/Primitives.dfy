/** The primitives the proof system is built on, taken as parameters: a canonical 32-byte codec for
    points and scalars, the bytes of a text, and the hash to a scalar as an arbitrary function of bytes. */
module Primitives {
  import opened Zq
  import opened Outcome

  type Byte = x: nat | x < 256

  type Bytes = seq<Byte>

  type Message = (string, Bytes)

  datatype Suite = Suite(
    encodePoint: Point -> Bytes,
    decodePoint: Bytes -> Option<Point>,
    encodeScalar: Scalar -> Bytes,
    decodeScalar: Bytes -> Option<Scalar>,
    text: string -> Bytes,
    hash: Bytes -> Scalar)
  {
    /** Encodings are 32 bytes long and decoding inverts them; texts have different bytes, at most four a character. */
    ghost predicate Canonical() {
      && (forall p: Point :: |encodePoint(p)| == 32 && decodePoint(encodePoint(p)) == Some(p))
      && (forall s: Scalar :: |encodeScalar(s)| == 32 && decodeScalar(encodeScalar(s)) == Some(s))
      && (forall s: string :: |text(s)| <= 4 * |s|)
      && (forall s: string, t: string :: text(s) == text(t) ==> s == t)
    }
  }

  /** The context is appended right after the domain separator, when there is one. */
  function ContextMessage(ctx: Option<Bytes>): seq<Message> {
    if ctx.Some? then [("ctx", ctx.value)] else []
  }
}
