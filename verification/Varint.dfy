/** Base-128 varints, as the Protocol Buffers Encoding specification defines them in its
    section "Base 128 Varints": seven bits a byte, least significant group first, the high
    bit set on every byte but the last, at most ten bytes for a 64-bit value. */
module Varint {
  import opened Basics

  const MAX_LENGTH: nat := 10

  function Encode(n: nat): (bs: seq<byte>)
    ensures bs != []
  {
    if n < 128 then [n] else [n % 128 + 128] + Encode(n / 128)
  }

  /** The number of values that still fit when `count` of the ten bytes have been used. */
  function Room(count: nat): (r: nat)
    requires count < MAX_LENGTH
    ensures r >= if count == MAX_LENGTH - 1 then 2 else 128
    decreases MAX_LENGTH - count
  {
    if count == MAX_LENGTH - 1 then 2 else 128 * Room(count + 1)
  }

  lemma RoomIs64Bits()
    ensures Room(0) == TWO_TO_THE_64
  {
    assert Room(7) == 128 * 128 * 2;
    assert Room(4) == 128 * 128 * 128 * Room(7);
    assert Room(1) == 128 * 128 * 128 * Room(4);
  }

  /** Decodes one varint that fills `bs`, `count` bytes of it having been consumed before. */
  function DecodeFrom(bs: seq<byte>, count: nat): Option<nat>
    decreases |bs|
  {
    if bs == [] || count >= MAX_LENGTH then
      None
    else if bs[0] < 128 then
      if count == MAX_LENGTH - 1 && bs[0] >= 2 then None else Some(bs[0])
    else
      match DecodeFrom(bs[1..], count + 1)
      case None => None
      case Some(high) => Some(bs[0] - 128 + 128 * high)
  }

  function Decode(bs: seq<byte>): Option<nat> {
    DecodeFrom(bs, 0)
  }

  /** The bytes the delimiter loop collects from `bs` when it may take `limit` more. */
  function Collect(bs: seq<byte>, limit: nat): (p: seq<byte>)
    ensures p <= bs && |p| <= limit
    ensures bs != [] && limit > 0 ==> p != []
  {
    if bs == [] || limit == 0 then []
    else if bs[0] < 128 then [bs[0]]
    else [bs[0]] + Collect(bs[1..], limit - 1)
  }

  /** The loop stops by itself after these bytes; otherwise it ran out of input. */
  predicate Complete(p: seq<byte>, limit: nat) {
    p != [] && (p[|p| - 1] < 128 || |p| == limit)
  }

  predicate AllContinued(p: seq<byte>) {
    forall i :: 0 <= i < |p| ==> p[i] >= 128
  }

  /** Only the last byte lacks the continuation bit. */
  predicate Terminated(p: seq<byte>) {
    p != [] && p[|p| - 1] < 128 && forall i :: 0 <= i < |p| - 1 ==> p[i] >= 128
  }

  lemma {:induction false} EncodeIsTerminated(n: nat)
    ensures Terminated(Encode(n))
  {
    if n >= 128 {
      EncodeIsTerminated(n / 128);
    }
  }

  /** An encoding that starts after `count` bytes and fits is decoded to what was encoded. */
  lemma {:induction false} RoundTripFrom(n: nat, count: nat)
    requires count < MAX_LENGTH && n < Room(count)
    ensures |Encode(n)| + count <= MAX_LENGTH
    ensures DecodeFrom(Encode(n), count) == Some(n)
  {
    if n >= 128 {
      RoundTripFrom(n / 128, count + 1);
      assert Encode(n)[1..] == Encode(n / 128);
    }
  }

  lemma RoundTrip(n: nat)
    requires n < TWO_TO_THE_64
    ensures |Encode(n)| <= MAX_LENGTH && Decode(Encode(n)) == Some(n)
  {
    RoomIs64Bits();
    RoundTripFrom(n, 0);
  }

  /** Whatever is decoded fits in the bytes left, and its canonical encoding is no longer
      than the bytes it was read from. */
  lemma {:induction false} DecodeFits(bs: seq<byte>, count: nat)
    requires DecodeFrom(bs, count).Some?
    ensures count < MAX_LENGTH && DecodeFrom(bs, count).value < Room(count)
    ensures |Encode(DecodeFrom(bs, count).value)| <= |bs|
  {
    if bs[0] >= 128 {
      DecodeFits(bs[1..], count + 1);
      var high := DecodeFrom(bs[1..], count + 1).value;
      var n := bs[0] - 128 + 128 * high;
      assert DecodeFrom(bs, count) == Some(n);
      assert n / 128 == high && n % 128 == bs[0] - 128;
      assert Room(count) == 128 * Room(count + 1) && high <= Room(count + 1) - 1;
      assert n < 128 ==> |Encode(n)| == 1;
      assert n >= 128 ==> |Encode(n)| == 1 + |Encode(high)|;
    }
  }

  /** Collecting a terminated prefix takes exactly that prefix, whatever follows. */
  lemma {:induction false} CollectTerminated(p: seq<byte>, rest: seq<byte>, limit: nat)
    requires Terminated(p) && |p| <= limit
    ensures Collect(p + rest, limit) == p
  {
    if |p| == 1 {
      assert (p + rest)[0] == p[0];
    } else {
      assert (p + rest)[1..] == p[1..] + rest;
      assert p[0] >= 128;
      CollectTerminated(p[1..], rest, limit - 1);
      assert p == [p[0]] + p[1..];
    }
  }

  /** Bytes with the continuation bit are collected as they come, as far as the limit allows. */
  lemma {:induction false} CollectContinued(p: seq<byte>, rest: seq<byte>, limit: nat)
    requires |p| <= limit && AllContinued(p)
    ensures Collect(p + rest, limit) == p + Collect(rest, limit - |p|)
  {
    if p == [] {
      assert p + rest == rest;
    } else {
      assert (p + rest)[1..] == p[1..] + rest;
      CollectContinued(p[1..], rest, limit - 1);
      assert p == [p[0]] + p[1..];
    }
  }

  /** Collecting from a proper part of a terminated prefix takes it all and wants more. */
  lemma {:induction false} CollectCut(p: seq<byte>, k: nat, limit: nat)
    requires Terminated(p) && k < |p| <= limit
    ensures Collect(p[..k], limit) == p[..k] && !Complete(p[..k], limit)
  {
    if k > 0 {
      var tail := p[1..];
      assert p[..k][1..] == tail[..k - 1];
      CollectCut(tail, k - 1, limit - 1);
      assert p[..k] == [p[0]] + tail[..k - 1];
    }
  }

  /** A terminated prefix is found in one way only. */
  lemma SamePrefix(p: seq<byte>, s: seq<byte>, q: seq<byte>, t: seq<byte>)
    requires Terminated(p) && Terminated(q) && p + s == q + t
    ensures p == q && s == t
  {
    CollectTerminated(p, s, |p| + |q|);
    CollectTerminated(q, t, |p| + |q|);
    assert s == (p + s)[|p|..] && t == (q + t)[|q|..];
  }

  lemma {:induction false} EncodeIsInjective(m: nat, n: nat)
    requires Encode(m) == Encode(n)
    ensures m == n
  {
    assert Encode(m)[0] == Encode(n)[0];
    if m >= 128 && n >= 128 {
      assert Encode(m)[1..] == Encode(m / 128) && Encode(n)[1..] == Encode(n / 128);
      EncodeIsInjective(m / 128, n / 128);
    }
  }

  /** No encoding is the beginning of another one, so a stream splits in one way only. */
  lemma PrefixFree(m: nat, n: nat, s: seq<byte>, t: seq<byte>)
    requires Encode(m) + s == Encode(n) + t
    ensures m == n && s == t
  {
    EncodeIsTerminated(m);
    EncodeIsTerminated(n);
    SamePrefix(Encode(m), s, Encode(n), t);
    EncodeIsInjective(m, n);
  }

  lemma ShapeExtends(b: byte, q: seq<byte>)
    requires b >= 128
    ensures Terminated(q) ==> Terminated([b] + q)
    ensures AllContinued(q) ==> AllContinued([b] + q)
  {
    var p := [b] + q;
    assert forall i :: 0 < i < |p| ==> p[i] == q[i - 1];
  }

  /** The loop stops at a terminated prefix; otherwise it has taken only continued bytes, all
      there are or as many as it may. */
  lemma {:induction false} CollectShape(bs: seq<byte>, limit: nat)
    ensures var p := Collect(bs, limit);
      Terminated(p) || (AllContinued(p) && (p == bs || |p| == limit))
  {
    if bs != [] && limit > 0 && bs[0] >= 128 {
      CollectShape(bs[1..], limit - 1);
      ShapeExtends(bs[0], Collect(bs[1..], limit - 1));
      assert bs == [bs[0]] + bs[1..];
    }
  }

  /** Continued bytes alone decode to nothing. */
  lemma {:induction false} DecodeContinued(p: seq<byte>, count: nat)
    requires AllContinued(p)
    ensures DecodeFrom(p, count) == None
  {
    if p != [] {
      DecodeContinued(p[1..], count + 1);
    }
  }
  // ---------- The value of a varint ----------

  /** The number whose groups of seven bits, the least significant one first, are in the bytes. */
  function Groups(bs: seq<byte>): nat {
    if bs == [] then 0 else bs[0] % 128 + 128 * Groups(bs[1..])
  }

  /** An encoding holds the groups of its number, and no leading zero group. */
  lemma {:induction false} EncodeHoldsGroups(n: nat)
    ensures Groups(Encode(n)) == n && Terminated(Encode(n))
    ensures |Encode(n)| > 1 ==> Encode(n)[|Encode(n)| - 1] != 0
  {
    EncodeIsTerminated(n);
    if n >= 128 {
      EncodeHoldsGroups(n / 128);
      assert Encode(n)[1..] == Encode(n / 128);
      assert Encode(n)[|Encode(n)| - 1] == Encode(n / 128)[|Encode(n / 128)| - 1];
    } else {
      assert Encode(n)[1..] == [];
    }
  }

  lemma {:induction false} DecodeFromIff(bs: seq<byte>, count: nat)
    requires count < MAX_LENGTH && Terminated(bs)
    ensures DecodeFrom(bs, count) ==
            if |bs| + count <= MAX_LENGTH && Groups(bs) < Room(count) then Some(Groups(bs)) else None
  {
    if bs[0] < 128 {
      assert bs[1..] == [];
    } else if count + 1 < MAX_LENGTH {
      TerminatedTail(bs);
      DecodeFromIff(bs[1..], count + 1);
    }
  }

  lemma TerminatedTail(bs: seq<byte>)
    requires bs != [] && bs[0] >= 128
    ensures Terminated(bs) <==> Terminated(bs[1..])
  {
    if Terminated(bs[1..]) {
      assert bs[|bs| - 1] == bs[1..][|bs| - 2];
      assert forall i :: 0 < i < |bs| - 1 ==> bs[i] == bs[1..][i - 1];
    }
  }

  /** The bytes that the delimiter loop collects are decoded if and only if they are at most ten,
      the last one lacks the continuation bit, and their groups make up a number of 64 bits, which
      is the result. */
  lemma DecodeIff(bs: seq<byte>, n: nat)
    requires Terminated(bs) || AllContinued(bs)
    ensures Decode(bs) == Some(n) <==> Terminated(bs) && |bs| <= 10 && Groups(bs) == n < 0x1_0000_0000_0000_0000
  {
    RoomIs64Bits();
    if Terminated(bs) {
      DecodeFromIff(bs, 0);
    } else {
      DecodeContinued(bs, 0);
    }
  }
}
