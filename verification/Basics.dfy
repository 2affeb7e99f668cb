/** Small shared vocabulary: optional values, results, bytes and message codecs. */
module Basics {

  datatype Option<+T> = None | Some(value: T)

  datatype Result<+T, +E> = Ok(value: T) | Err(error: E)

  type byte = b: int | 0 <= b < 256

  const TWO_TO_THE_64: nat := 0x1_0000_0000_0000_0000

  /** The time from `t` until `now`, which is zero for a later instant. */
  function Since(now: nat, t: nat): nat {
    if t <= now then now - t else 0
  }

  /** A message type together with its protobuf encoder and decoder. The generated encoders
      are not part of this model: a codec is any two functions. */
  datatype Codec<!M> = Codec(encode: M -> seq<byte>, decode: seq<byte> -> Option<M>)

  /** The length of the encoding is a 64-bit number. */
  predicate Fits<M>(c: Codec<M>, m: M) {
    |c.encode(m)| < TWO_TO_THE_64
  }

  /** The encoding of a message fits and is decoded to the message. */
  predicate Intact<M(==)>(c: Codec<M>, m: M) {
    Fits(c, m) && c.decode(c.encode(m)) == Some(m)
  }

  predicate AllIntact<M(==)>(c: Codec<M>, ms: seq<M>) {
    forall i :: 0 <= i < |ms| ==> Intact(c, ms[i])
  }

  /** Whatever is encoded is decoded to itself. */
  ghost predicate Lawful<M(!new)>(c: Codec<M>) {
    forall m {:trigger c.encode(m)} :: c.decode(c.encode(m)) == Some(m)
  }
}
