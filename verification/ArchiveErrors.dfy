/** What the reader makes of any bytes, damaged ones included: which messages it shows, where it
    stops, and with which error. */
module ArchiveErrors {
  import opened Basics
  import opened ArchiveFormat
  import Reader
  import Varint

  // ---------- Chunks ----------

  /** A length prefix and a payload of that length. */
  datatype Chunk = Chunk(prefix: seq<byte>, payload: seq<byte>)

  ghost predicate WellFormed(k: Chunk) {
    PrefixFor(k.prefix, |k.payload|)
  }

  function Joined(ks: seq<Chunk>): seq<byte> {
    if ks == [] then [] else ks[0].prefix + ks[0].payload + Joined(ks[1..])
  }

  /** Well-formed chunks whose payloads are decoded to these messages. */
  ghost predicate Decode<M>(c: Codec<M>, ks: seq<Chunk>, ms: seq<M>) {
    |ks| == |ms| && forall i :: 0 <= i < |ks| ==> WellFormed(ks[i]) && c.decode(ks[i].payload) == Some(ms[i])
  }

  // ---------- Where reading stops ----------

  /** A prefix that breaks off, or a payload that is shorter than its prefix says. */
  ghost predicate BreaksOff(bs: seq<byte>) {
    || (bs != [] && |bs| < 10 && Varint.AllContinued(bs))
    || exists p, n, part :: CutPayload(bs, p, n, part)
  }

  ghost predicate CutPayload(bs: seq<byte>, p: seq<byte>, n: nat, part: seq<byte>) {
    bs == p + part && PrefixFor(p, n) && |part| < n
  }

  /** A prefix that is there in full, or ten bytes that are still continued, and is no number of 64
      bits. */
  ghost predicate BadPrefix(bs: seq<byte>, p: seq<byte>, tail: seq<byte>) {
    && bs == p + tail && |p| <= 10 && (Varint.Terminated(p) || (Varint.AllContinued(p) && |p| == 10))
    && Varint.Decode(p) == None
  }

  /** A message that is there in full and is not decoded. */
  ghost predicate BadMessage<M>(c: Codec<M>, bs: seq<byte>, k: Chunk, tail: seq<byte>) {
    bs == k.prefix + k.payload + tail && WellFormed(k) && c.decode(k.payload) == None
  }

  ghost predicate StopsWith<M>(c: Codec<M>, bs: seq<byte>, error: Option<ReadError>) {
    match error
    case None => bs == []
    case Some(UnexpectedEof) => BreaksOff(bs)
    case Some(InvalidPrefix) => exists p, tail :: BadPrefix(bs, p, tail)
    case Some(InvalidMessage) => exists k, tail :: BadMessage(c, bs, k, tail)
    case Some(MissingHeader) => false
  }

  lemma BreakIsRead<M>(c: Codec<M>, bs: seq<byte>)
    requires BreaksOff(bs)
    ensures MessageOf(c, bs).result == Err(UnexpectedEof)
  {
    if |bs| < 10 && Varint.AllContinued(bs) && bs != [] {
      DelimiterRanOut(bs);
    } else {
      var p, n, part :| CutPayload(bs, p, n, part);
      DelimiterAccepts(bs, p, n, part);
    }
  }

  lemma BadPrefixIsRead<M>(c: Codec<M>, bs: seq<byte>, p: seq<byte>, tail: seq<byte>)
    requires BadPrefix(bs, p, tail)
    ensures MessageOf(c, bs) == Read(Err(InvalidPrefix), tail)
  {
    DelimiterFound(p, tail);
  }

  lemma BadMessageIsRead<M>(c: Codec<M>, bs: seq<byte>, k: Chunk, tail: seq<byte>)
    requires BadMessage(c, bs, k, tail)
    ensures MessageOf(c, bs) == Read(Err(InvalidMessage), tail)
  {
    hide DelimiterOf;
    assert bs == k.prefix + (k.payload + tail);
    DelimiterAccepts(bs, k.prefix, |k.payload|, k.payload + tail);
    assert (k.payload + tail)[..|k.payload|] == k.payload && (k.payload + tail)[|k.payload|..] == tail;
  }

  /** Where there is no message, one of the four reasons holds. */
  lemma StopHasReason<M>(c: Codec<M>, bs: seq<byte>)
    requires var r := MessageOf(c, bs).result; r.Err? || r.value.None?
    ensures var r := MessageOf(c, bs).result;
      StopsWith(c, bs, if r.Err? then Some(r.error) else None)
  {
    hide Varint.Decode;
    var p := Varint.Collect(bs, Varint.MAX_LENGTH);
    var d := DelimiterOf(bs);
    Varint.CollectShape(bs, Varint.MAX_LENGTH);
    assert bs == p + bs[|p|..];
    if d.result.Err? {
      if d.result.error.InvalidPrefix? {
        assert BadPrefix(bs, p, bs[|p|..]);
      } else {
        assert bs == p;
      }
    } else if d.result.value.Some? {
      DelimiterAccepted(bs);
      var n := d.result.value.value;
      if |d.rest| < n {
        assert CutPayload(bs, p, n, d.rest);
      } else {
        assert d.rest == d.rest[..n] + d.rest[n..];
        assert bs == p + d.rest[..n] + d.rest[n..];
        assert BadMessage(c, bs, Chunk(p, d.rest[..n]), d.rest[n..]);
      }
    } else {
      assert bs == [];
    }
  }

  lemma StopsAtOnce<M>(c: Codec<M>, bs: seq<byte>, error: Option<ReadError>)
    requires StopsWith(c, bs, error)
    ensures ReadAll(c, bs) == Replay([], error)
  {
    hide MessageOf, BreaksOff, BadPrefix, BadMessage;
    match error
    case None => ReadNothing(c);
    case Some(UnexpectedEof) => BreakIsRead(c, bs);
    case Some(InvalidPrefix) =>
      var p, tail :| BadPrefix(bs, p, tail);
      BadPrefixIsRead(c, bs, p, tail);
    case Some(InvalidMessage) =>
      var k, tail :| BadMessage(c, bs, k, tail);
      BadMessageIsRead(c, bs, k, tail);
    case Some(MissingHeader) =>
  }

  // ---------- Everything that is read ----------

  lemma {:induction false} ReadPastChunks<M>(c: Codec<M>, ks: seq<Chunk>, ms: seq<M>, rest: seq<byte>)
    requires Decode(c, ks, ms)
    ensures ReadAll(c, Joined(ks) + rest) == Replay(ms + ReadAll(c, rest).items, ReadAll(c, rest).error)
  {
    hide MessageOf, WellFormed;
    if ks == [] {
      assert Joined(ks) + rest == rest && ms + ReadAll(c, rest).items == ReadAll(c, rest).items;
    } else {
      var tail := Joined(ks[1..]) + rest;
      var bs := Joined(ks) + rest;
      assert Decode(c, ks[1..], ms[1..]) && WellFormed(ks[0]) && c.decode(ks[0].payload) == Some(ms[0]);
      ReadPastChunks(c, ks[1..], ms[1..], rest);
      hide Decode, Joined;
      assert bs == ks[0].prefix + ks[0].payload + tail by {
        JoinedFirst(ks, rest);
      }
      OneChunk(c, bs, ks[0], ms[0], tail);
      assert [ms[0]] + (ms[1..] + ReadAll(c, rest).items) == ms + ReadAll(c, rest).items;
    }
  }

  lemma JoinedFirst(ks: seq<Chunk>, rest: seq<byte>)
    requires ks != []
    ensures Joined(ks) + rest == ks[0].prefix + ks[0].payload + (Joined(ks[1..]) + rest)
  {
  }

  lemma OneChunk<M>(c: Codec<M>, bs: seq<byte>, k: Chunk, m: M, tail: seq<byte>)
    requires bs == k.prefix + k.payload + tail && WellFormed(k) && c.decode(k.payload) == Some(m)
    ensures MessageOf(c, bs) == Read(Ok(Some(m)), tail)
  {
    ReadAccepts(c, bs, m, tail, k.prefix, k.payload);
  }

  /** Chunks that are decoded to the messages, and what follows them. */
  ghost predicate Divides<M>(c: Codec<M>, bs: seq<byte>, r: Replay<M>, ks: seq<Chunk>, rest: seq<byte>) {
    bs == Joined(ks) + rest && Decode(c, ks, r.items) && StopsWith(c, rest, r.error)
  }

  lemma {:induction false} Divided<M>(c: Codec<M>, bs: seq<byte>) returns (ks: seq<Chunk>, rest: seq<byte>)
    ensures Divides(c, bs, ReadAll(c, bs), ks, rest)
    decreases |bs|
  {
    hide MessageOf, StopsWith, WellFormed;
    var r := MessageOf(c, bs);
    if r.result.Err? || r.result.value.None? {
      StopHasReason(c, bs);
      ks, rest := [], bs;
      assert Joined(ks) + rest == bs;
    } else {
      var m := r.result.value.value;
      var k := FirstChunk(c, bs, m, r.rest);
      ks, rest := Divided(c, r.rest);
      assert ([k] + ks)[1..] == ks;
      assert bs == Joined([k] + ks) + rest;
      ks := [k] + ks;
    }
  }

  lemma FirstChunk<M>(c: Codec<M>, bs: seq<byte>, m: M, rest: seq<byte>) returns (k: Chunk)
    requires MessageOf(c, bs) == Read(Ok(Some(m)), rest)
    ensures bs == k.prefix + k.payload + rest && WellFormed(k) && c.decode(k.payload) == Some(m)
  {
    ReadSplits(c, bs, m, rest);
    var p, payload :| SplitsAs(c, bs, m, rest, p, payload);
    k := Chunk(p, payload);
  }

  /** The law of reading: on any bytes the reader shows `items` and stops with `error` if and only
      if the bytes are chunks that are decoded to these items, and then what stops it: nothing; a
      chunk that breaks off; a prefix that is no number of 64 bits; or a chunk that is not decoded. */
  lemma ReadAllIff<M(!new)>(c: Codec<M>, bs: seq<byte>, r: Replay<M>)
    ensures ReadAll(c, bs) == r <==> exists ks, rest :: Divides(c, bs, r, ks, rest)
  {
    hide ReadAll, StopsWith;
    if ReadAll(c, bs) == r {
      var ks, rest := Divided(c, bs);
    }
    forall ks, rest | Divides(c, bs, r, ks, rest) ensures ReadAll(c, bs) == r {
      StopsAtOnce(c, rest, r.error);
      ReadPastChunks(c, ks, r.items, rest);
      assert r.items + [] == r.items;
    }
  }

  /** A file that is replayed without error: a chunk decoded as the header, and then nothing other
      than chunks decoded as events. */
  ghost predicate Whole<H, E>(hc: Codec<H>, ec: Codec<E>, file: seq<byte>, k: Chunk, h: H, ks: seq<Chunk>, es: seq<E>) {
    && file == k.prefix + k.payload + Joined(ks)
    && WellFormed(k) && hc.decode(k.payload) == Some(h) && Decode(ec, ks, es)
  }

  /** A replay of a file shows no error if and only if the file is whole, and then it shows the
      events of its chunks. */
  lemma CleanIff<H(!new), E(!new)>(hc: Codec<H>, ec: Codec<E>, file: seq<byte>)
    ensures Reader.Clean(hc, ec, file) <==> exists k, h, ks, es :: Whole(hc, ec, file, k, h, ks, es)
    ensures forall k, h, ks, es :: Whole(hc, ec, file, k, h, ks, es) ==>
      ReadArchive(hc, ec, file) == ArchiveRead(Some(h), es, None)
  {
    hide MessageOf, ReadAll, Whole, StopsWith;
    if Reader.Clean(hc, ec, file) {
      var k, h, ks, es := CleanIsWhole(hc, ec, file);
    }
    forall k, h, ks, es | Whole(hc, ec, file, k, h, ks, es)
      ensures ReadArchive(hc, ec, file) == ArchiveRead(Some(h), es, None)
    {
      WholeIsRead(hc, ec, file, k, h, ks, es);
    }
  }

  lemma CleanIsWhole<H, E>(hc: Codec<H>, ec: Codec<E>, file: seq<byte>)
    returns (k: Chunk, h: H, ks: seq<Chunk>, es: seq<E>)
    requires Reader.Clean(hc, ec, file)
    ensures Whole(hc, ec, file, k, h, ks, es)
  {
    hide MessageOf, ReadAll, StopsWith, WellFormed, Decode;
    var r := MessageOf(hc, file);
    h, es := r.result.value.value, ReadAll(ec, r.rest).items;
    k := FirstChunk(hc, file, h, r.rest);
    var rest;
    ks, rest := Divided(ec, r.rest);
    NoReason(ec, rest);
    assert Joined(ks) + [] == Joined(ks);
  }

  lemma NoReason<M>(c: Codec<M>, rest: seq<byte>)
    requires StopsWith(c, rest, None)
    ensures rest == []
  {
  }

  lemma WholeIsRead<H, E>(hc: Codec<H>, ec: Codec<E>, file: seq<byte>, k: Chunk, h: H, ks: seq<Chunk>, es: seq<E>)
    requires Whole(hc, ec, file, k, h, ks, es)
    ensures ReadArchive(hc, ec, file) == ArchiveRead(Some(h), es, None)
  {
    hide MessageOf, WellFormed;
    OneChunk(hc, file, k, h, Joined(ks));
    ReadPastChunks(ec, ks, es, []);
    ReadNothing(ec);
    assert Joined(ks) + [] == Joined(ks) && es + [] == es;
  }

  // ---------- Damage behind what was written ----------

  /** What was written is chunks. */
  lemma {:induction false} StreamIsChunks<M>(c: Codec<M>, ms: seq<M>) returns (ks: seq<Chunk>)
    requires AllIntact(c, ms)
    ensures Stream(c, ms) == Joined(ks) && Decode(c, ks, ms)
  {
    hide Varint.Encode, Intact;
    if ms == [] {
      ks := [];
    } else {
      ks := StreamIsChunks(c, ms[1..]);
      assert Intact(c, ms[0]);
      var k := Chunk(Varint.Encode(|c.encode(ms[0])|), c.encode(ms[0]));
      FrameIsChunk(c, ms[0]);
      assert ([k] + ks)[1..] == ks;
      ks := [k] + ks;
    }
  }

  lemma FrameIsChunk<M>(c: Codec<M>, m: M)
    requires Intact(c, m)
    ensures WellFormed(Chunk(Varint.Encode(|c.encode(m)|), c.encode(m))) && c.decode(c.encode(m)) == Some(m)
  {
    Varint.RoundTrip(|c.encode(m)|);
    Varint.EncodeIsTerminated(|c.encode(m)|);
  }

  /** An archive is followed by bytes at which reading stops: all of the archive is shown, nothing
      of what follows, and the error is the one that belongs to these bytes. */
  lemma DamageBehind<H, E>(hc: Codec<H>, ec: Codec<E>, h: H, es: seq<E>, bad: seq<byte>, error: Option<ReadError>)
    requires Intact(hc, h) && AllIntact(ec, es) && StopsWith(ec, bad, error)
    ensures ReadArchive(hc, ec, ArchiveBytes(hc, ec, h, es) + bad) == ArchiveRead(Some(h), es, error)
  {
    hide ReadAll, ReadArchive, StopsWith, Frame;
    var ks := StreamIsChunks(ec, es);
    StopsAtOnce(ec, bad, error);
    ReadPastChunks(ec, ks, es, bad);
    assert ArchiveBytes(hc, ec, h, es) + bad == Frame(hc, h) + (Stream(ec, es) + bad);
    ReadBehindHeader(hc, ec, h, Stream(ec, es) + bad);
    assert es + [] == es;
  }

  /** A message that is not decoded, behind any archive and before any bytes: everything before it
      is shown and the error is `InvalidMessage`. */
  lemma BadMessageBehind<H, E>(hc: Codec<H>, ec: Codec<E>, h: H, es: seq<E>, k: Chunk, rest: seq<byte>)
    requires Intact(hc, h) && AllIntact(ec, es) && WellFormed(k) && ec.decode(k.payload) == None
    ensures ReadArchive(hc, ec, ArchiveBytes(hc, ec, h, es) + (k.prefix + k.payload + rest)) ==
            ArchiveRead(Some(h), es, Some(InvalidMessage))
  {
    hide ReadArchive, ArchiveBytes;
    assert BadMessage(ec, k.prefix + k.payload + rest, k, rest);
    DamageBehind(hc, ec, h, es, k.prefix + k.payload + rest, Some(InvalidMessage));
  }

  /** The same for a prefix that is no number of 64 bits. */
  lemma BadPrefixBehind<H, E>(hc: Codec<H>, ec: Codec<E>, h: H, es: seq<E>, p: seq<byte>, rest: seq<byte>)
    requires Intact(hc, h) && AllIntact(ec, es) && BadPrefix(p + rest, p, rest)
    ensures ReadArchive(hc, ec, ArchiveBytes(hc, ec, h, es) + (p + rest)) ==
            ArchiveRead(Some(h), es, Some(InvalidPrefix))
  {
    hide ReadArchive, ArchiveBytes;
    DamageBehind(hc, ec, h, es, p + rest, Some(InvalidPrefix));
  }

  /** A damaged header: nothing is shown, with the error that belongs to it; and an empty file
      lacks its header. */
  lemma DamagedHeader<H, E>(hc: Codec<H>, ec: Codec<E>, file: seq<byte>, error: Option<ReadError>)
    requires StopsWith(hc, file, error)
    ensures ReadArchive(hc, ec, file) ==
            ArchiveRead(None, [], Some(if error.Some? then error.value else MissingHeader))
  {
    hide MessageOf, BreaksOff, BadPrefix, BadMessage;
    match error
    case None => ReadNothing(hc);
    case Some(UnexpectedEof) => BreakIsRead(hc, file);
    case Some(InvalidPrefix) =>
      var p, tail :| BadPrefix(file, p, tail);
      BadPrefixIsRead(hc, file, p, tail);
    case Some(InvalidMessage) =>
      var k, tail :| BadMessage(hc, file, k, tail);
      BadMessageIsRead(hc, file, k, tail);
    case Some(MissingHeader) =>
  }
}
