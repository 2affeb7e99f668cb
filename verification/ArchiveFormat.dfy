/** The archive format: a header message and then event messages, each framed as a varint
    length and that many payload bytes. This module says what the reader returns on any
    byte sequence, and proves it against what a writer puts there. */
module ArchiveFormat {
  import opened Basics
  import Varint

  // `UnexpectedEof` has its own error kind in the reader; the others are `ErrorKind::Other`.
  datatype ReadError = UnexpectedEof | InvalidPrefix | InvalidMessage | MissingHeader

  /** The outcome of one read, and the bytes it left on the stream. `Ok(None)` is a clean end. */
  datatype Read<+T> = Read(result: Result<Option<T>, ReadError>, rest: seq<byte>)

  // ---------- What the reader does on a flat byte sequence ----------

  function DelimiterOf(bs: seq<byte>): Read<nat> {
    var p := Varint.Collect(bs, Varint.MAX_LENGTH);
    var rest := bs[|p|..];
    if p == [] then Read(Ok(None), rest)
    else if !Varint.Complete(p, Varint.MAX_LENGTH) then Read(Err(UnexpectedEof), rest)
    else match Varint.Decode(p)
      case None => Read(Err(InvalidPrefix), rest)
      case Some(len) => Read(Ok(Some(len)), rest)
  }

  function MessageOf<M>(c: Codec<M>, bs: seq<byte>): (r: Read<M>)
    ensures |r.rest| <= |bs|
    ensures r.result.Ok? && r.result.value.Some? ==> |r.rest| < |bs|
  {
    var d := DelimiterOf(bs);
    match d.result
    case Err(e) => Read(Err(e), d.rest)
    case Ok(None) => Read(Ok(None), d.rest)
    case Ok(Some(len)) =>
      if |d.rest| < len then Read(Err(UnexpectedEof), [])
      else match c.decode(d.rest[..len])
        case None => Read(Err(InvalidMessage), d.rest[len..])
        case Some(m) => Read(Ok(Some(m)), d.rest[len..])
  }

  /** Everything read until the clean end (`error` is `None`) or the first error. */
  datatype Replay<+M> = Replay(items: seq<M>, error: Option<ReadError>)

  function ReadAll<M>(c: Codec<M>, bs: seq<byte>): Replay<M>
    decreases |bs|
  {
    var r := MessageOf(c, bs);
    match r.result
    case Err(e) => Replay([], Some(e))
    case Ok(None) => Replay([], None)
    case Ok(Some(m)) => var tail := ReadAll(c, r.rest); Replay([m] + tail.items, tail.error)
  }

  datatype ArchiveRead<+H, +E> = ArchiveRead(header: Option<H>, events: seq<E>, error: Option<ReadError>)

  function ReadArchive<H, E>(hc: Codec<H>, ec: Codec<E>, bs: seq<byte>): ArchiveRead<H, E> {
    var r := MessageOf(hc, bs);
    match r.result
    case Err(e) => ArchiveRead(None, [], Some(e))
    case Ok(None) => ArchiveRead(None, [], Some(MissingHeader))
    case Ok(Some(h)) => var all := ReadAll(ec, r.rest); ArchiveRead(Some(h), all.items, all.error)
  }

  // ---------- What a writer produces ----------

  function Frame<M>(c: Codec<M>, m: M): seq<byte> {
    Varint.Encode(|c.encode(m)|) + c.encode(m)
  }

  function Stream<M>(c: Codec<M>, ms: seq<M>): seq<byte> {
    if ms == [] then [] else Frame(c, ms[0]) + Stream(c, ms[1..])
  }

  function ArchiveBytes<H, E>(hc: Codec<H>, ec: Codec<E>, h: H, es: seq<E>): seq<byte> {
    Frame(hc, h) + Stream(ec, es)
  }

  lemma {:induction false} StreamAppend<M>(c: Codec<M>, ms: seq<M>, ns: seq<M>)
    ensures Stream(c, ms + ns) == Stream(c, ms) + Stream(c, ns)
  {
    if ms == [] {
      assert ms + ns == ns;
    } else {
      assert (ms + ns)[1..] == ms[1..] + ns;
      StreamAppend(c, ms[1..], ns);
    }
  }

  // ---------- What one read accepts ----------

  ghost predicate PrefixFor(p: seq<byte>, n: nat) {
    Varint.Terminated(p) && |p| <= Varint.MAX_LENGTH && Varint.Decode(p) == Some(n)
  }

  /** The prefix taken, the payload taken and what is left, for a successful read of `m`. */
  ghost predicate SplitsAs<M>(c: Codec<M>, bs: seq<byte>, m: M, rest: seq<byte>, p: seq<byte>, payload: seq<byte>) {
    bs == p + payload + rest && PrefixFor(p, |payload|) && c.decode(payload) == Some(m)
  }

  lemma DelimiterAccepts(bs: seq<byte>, p: seq<byte>, n: nat, rest: seq<byte>)
    requires bs == p + rest && PrefixFor(p, n)
    ensures DelimiterOf(bs) == Read(Ok(Some(n)), rest)
  {
    Varint.CollectTerminated(p, rest, Varint.MAX_LENGTH);
    assert bs[|p|..] == rest;
  }

  /** What the delimiter loop has found when it leaves after its last byte. */
  lemma DelimiterFound(bytes: seq<byte>, rest: seq<byte>)
    requires Varint.Terminated(bytes) || Varint.AllContinued(bytes)
    requires Varint.Complete(bytes, Varint.MAX_LENGTH) && |bytes| <= Varint.MAX_LENGTH
    ensures DelimiterOf(bytes + rest) ==
      Read(match Varint.Decode(bytes) case None => Err(InvalidPrefix) case Some(len) => Ok(Some(len)), rest)
  {
    assert (bytes + rest)[|bytes|..] == rest;
    if Varint.Terminated(bytes) {
      Varint.CollectTerminated(bytes, rest, Varint.MAX_LENGTH);
    } else {
      Varint.CollectContinued(bytes, rest, Varint.MAX_LENGTH);
      assert Varint.Collect(rest, Varint.MAX_LENGTH - |bytes|) == [] && bytes + [] == bytes;
    }
  }

  /** What it has found when the input ends under it. */
  lemma DelimiterRanOut(bytes: seq<byte>)
    requires Varint.AllContinued(bytes) && |bytes| < Varint.MAX_LENGTH
    ensures DelimiterOf(bytes) == Read(if bytes == [] then Ok(None) else Err(UnexpectedEof), [])
  {
    Varint.CollectContinued(bytes, [], Varint.MAX_LENGTH);
    assert bytes + [] == bytes && bytes[|bytes|..] == [];
  }

  lemma DelimiterAccepted(bs: seq<byte>)
    requires DelimiterOf(bs).result.Ok? && DelimiterOf(bs).result.value.Some?
    ensures var p := Varint.Collect(bs, Varint.MAX_LENGTH);
      bs == p + DelimiterOf(bs).rest && PrefixFor(p, DelimiterOf(bs).result.value.value)
  {
    var p := Varint.Collect(bs, Varint.MAX_LENGTH);
    Varint.CollectShape(bs, Varint.MAX_LENGTH);
    if !Varint.Terminated(p) {
      Varint.DecodeContinued(p, 0);
      assert false;
    }
  }

  lemma ReadAccepts<M>(c: Codec<M>, bs: seq<byte>, m: M, rest: seq<byte>, p: seq<byte>, payload: seq<byte>)
    requires SplitsAs(c, bs, m, rest, p, payload)
    ensures MessageOf(c, bs) == Read(Ok(Some(m)), rest)
  {
    hide DelimiterOf;
    assert bs == p + (payload + rest);
    DelimiterAccepts(bs, p, |payload|, payload + rest);
    assert (payload + rest)[..|payload|] == payload && (payload + rest)[|payload|..] == rest;
  }

  lemma ReadSplits<M>(c: Codec<M>, bs: seq<byte>, m: M, rest: seq<byte>)
    requires MessageOf(c, bs) == Read(Ok(Some(m)), rest)
    ensures exists p, payload :: SplitsAs(c, bs, m, rest, p, payload)
  {
    hide DelimiterOf;
    DelimiterAccepted(bs);
    var p := Varint.Collect(bs, Varint.MAX_LENGTH);
    var len := DelimiterOf(bs).result.value.value;
    var left := DelimiterOf(bs).rest;
    assert left == left[..len] + rest;
    assert bs == p + left[..len] + rest;
    assert SplitsAs(c, bs, m, rest, p, left[..len]);
  }

  /** On any bytes, a read succeeds with `m` exactly when the bytes start with a prefix of at
      most ten bytes that announces a payload which is there in full and decodes to `m`; and
      it takes that prefix and payload and nothing else. */
  lemma ReadAcceptsExactly<M(!new)>(c: Codec<M>, bs: seq<byte>, m: M, rest: seq<byte>)
    ensures MessageOf(c, bs) == Read(Ok(Some(m)), rest) <==>
            exists p, payload :: SplitsAs(c, bs, m, rest, p, payload)
  {
    hide MessageOf, SplitsAs;
    if MessageOf(c, bs) == Read(Ok(Some(m)), rest) {
      ReadSplits(c, bs, m, rest);
    }
    forall p, payload | SplitsAs(c, bs, m, rest, p, payload)
      ensures MessageOf(c, bs) == Read(Ok(Some(m)), rest)
    {
      ReadAccepts(c, bs, m, rest, p, payload);
    }
  }

  // ---------- Reading what a writer wrote ----------

  lemma ReadFrame<M>(c: Codec<M>, m: M, rest: seq<byte>)
    requires Intact(c, m)
    ensures MessageOf(c, Frame(c, m) + rest) == Read(Ok(Some(m)), rest)
  {
    var p, payload := Varint.Encode(|c.encode(m)|), c.encode(m);
    Varint.RoundTrip(|payload|);
    Varint.EncodeIsTerminated(|payload|);
    ReadAccepts(c, Frame(c, m) + rest, m, rest, p, payload);
  }

  /** However a frame is split into a prefix and a payload, these are the ones written. */
  lemma FrameSplits<M>(c: Codec<M>, m: M, rest: seq<byte>, p: seq<byte>, payload: seq<byte>)
    requires Frame(c, m) + rest == p + payload + rest && Varint.Terminated(p)
    ensures p == Varint.Encode(|c.encode(m)|) && payload == c.encode(m)
  {
    hide Varint.Encode, Varint.Terminated;
    var q, encoded := Varint.Encode(|c.encode(m)|), c.encode(m);
    assert p + payload == (p + payload + rest)[..|p + payload|] == Frame(c, m);
    Varint.EncodeIsTerminated(|encoded|);
    Varint.SamePrefix(p, payload, q, encoded);
  }

  /** A frame is read back exactly when its message is intact, so what the laws of this module
      ask of the messages written cannot be weakened. */
  lemma ReadFrameIff<M>(c: Codec<M>, m: M, rest: seq<byte>)
    ensures MessageOf(c, Frame(c, m) + rest) == Read(Ok(Some(m)), rest) <==> Intact(c, m)
  {
    hide MessageOf, Frame, Varint.Encode, Varint.Terminated, Varint.DecodeFrom;
    if Intact(c, m) {
      ReadFrame(c, m, rest);
    }
    if MessageOf(c, Frame(c, m) + rest) == Read(Ok(Some(m)), rest) {
      ReadSplits(c, Frame(c, m) + rest, m, rest);
      var p, payload :| SplitsAs(c, Frame(c, m) + rest, m, rest, p, payload);
      FrameSplits(c, m, rest, p, payload);
      Varint.DecodeFits(p, 0);
      Varint.RoomIs64Bits();
    }
  }

  /** A frame cut short is a clean end when nothing of it is left and a truncation otherwise. */
  lemma ReadCutFrame<M>(c: Codec<M>, m: M, k: nat)
    requires Fits(c, m) && k < |Frame(c, m)|
    ensures MessageOf(c, Frame(c, m)[..k]).result == if k == 0 then Ok(None) else Err(UnexpectedEof)
  {
    var p, payload := Varint.Encode(|c.encode(m)|), c.encode(m);
    var cut := Frame(c, m)[..k];
    Varint.RoundTrip(|payload|);
    Varint.EncodeIsTerminated(|payload|);
    if k < |p| {
      assert cut == p[..k];
      Varint.CollectCut(p, k, Varint.MAX_LENGTH);
    } else {
      var part := payload[..k - |p|];
      assert cut == p + part;
      DelimiterAccepts(cut, p, |payload|, part);
    }
  }

  /** The number of messages that lie wholly inside the first `k` bytes of their stream. */
  function Whole<M>(c: Codec<M>, ms: seq<M>, k: nat): (n: nat)
    ensures n <= |ms|
  {
    if ms == [] || k < |Frame(c, ms[0])| then 0
    else 1 + Whole(c, ms[1..], k - |Frame(c, ms[0])|)
  }

  /** `Whole` is what its name says: the first `n` messages fit, and one more does not. */
  lemma {:induction false} WholeIsGreatest<M>(c: Codec<M>, ms: seq<M>, k: nat)
    ensures var n := Whole(c, ms, k);
      |Stream(c, ms[..n])| <= k && (n < |ms| ==> k < |Stream(c, ms[..n + 1])|)
  {
    var n := Whole(c, ms, k);
    if n == 0 {
      if ms != [] {
        assert ms[..1][1..] == [];
      }
    } else {
      WholeIsGreatest(c, ms[1..], k - |Frame(c, ms[0])|);
      assert ms[..n][1..] == ms[1..][..n - 1];
      if n < |ms| {
        assert ms[..n + 1][1..] == ms[1..][..n];
      }
    }
  }

  lemma ReadNothing<M>(c: Codec<M>)
    ensures MessageOf(c, []).result == Ok(None)
  {
  }

  /** Cutting a stream at any byte yields exactly the messages wholly inside the cut, then a
      clean end on a frame boundary and an unexpected end of file anywhere else. */
  lemma {:induction false} Truncation<M>(c: Codec<M>, ms: seq<M>, k: nat)
    requires AllIntact(c, ms) && k <= |Stream(c, ms)|
    ensures var n := Whole(c, ms, k);
      ReadAll(c, Stream(c, ms)[..k]) ==
      Replay(ms[..n], if |Stream(c, ms[..n])| == k then None else Some(UnexpectedEof))
  {
    hide MessageOf, Frame;
    var bs := Stream(c, ms);
    if ms == [] {
      ReadNothing(c);
    } else if k < |Frame(c, ms[0])| {
      assert bs[..k] == Frame(c, ms[0])[..k];
      ReadCutFrame(c, ms[0], k);
    } else {
      var f, tail := Frame(c, ms[0]), ms[1..];
      var n := Whole(c, ms, k);
      assert bs[..k] == f + Stream(c, tail)[..k - |f|];
      ReadFrame(c, ms[0], Stream(c, tail)[..k - |f|]);
      Truncation(c, tail, k - |f|);
      assert ms[..n] == [ms[0]] + tail[..n - 1];
      assert ms[..n][1..] == tail[..n - 1];
    }
  }

  lemma {:induction false} WholeOfAll<M>(c: Codec<M>, ms: seq<M>)
    ensures Whole(c, ms, |Stream(c, ms)|) == |ms|
  {
    if ms != [] {
      WholeOfAll(c, ms[1..]);
    }
  }

  /** Behind an intact header, an archive reads like its stream of events. */
  lemma ReadBehindHeader<H, E>(hc: Codec<H>, ec: Codec<E>, h: H, bs: seq<byte>)
    requires Intact(hc, h)
    ensures ReadArchive(hc, ec, Frame(hc, h) + bs) ==
            ArchiveRead(Some(h), ReadAll(ec, bs).items, ReadAll(ec, bs).error)
  {
    ReadFrame(hc, h, bs);
  }

  /** A complete archive reads back as it was written. */
  lemma ArchiveRoundTrip<H, E>(hc: Codec<H>, ec: Codec<E>, h: H, es: seq<E>)
    requires Intact(hc, h) && AllIntact(ec, es)
    ensures ReadArchive(hc, ec, ArchiveBytes(hc, ec, h, es)) == ArchiveRead(Some(h), es, None)
  {
    ReadBehindHeader(hc, ec, h, Stream(ec, es));
    WholeOfAll(ec, es);
    Truncation(ec, es, |Stream(ec, es)|);
    assert Stream(ec, es)[..|Stream(ec, es)|] == Stream(ec, es) && es[..|es|] == es;
  }

  /** What is read from the first `k` bytes of an archive. */
  function CutRead<H, E>(hc: Codec<H>, ec: Codec<E>, h: H, es: seq<E>, k: nat): ArchiveRead<H, E> {
    var f := |Frame(hc, h)|;
    if k == 0 then ArchiveRead(None, [], Some(MissingHeader))
    else if k < f then ArchiveRead(None, [], Some(UnexpectedEof))
    else
      var n := Whole(ec, es, k - f);
      ArchiveRead(Some(h), es[..n], if |Stream(ec, es[..n])| == k - f then None else Some(UnexpectedEof))
  }

  lemma CutInHeader<H, E>(hc: Codec<H>, ec: Codec<E>, h: H, es: seq<E>, k: nat)
    requires Fits(hc, h) && k < |Frame(hc, h)|
    ensures ReadArchive(hc, ec, ArchiveBytes(hc, ec, h, es)[..k]) == CutRead(hc, ec, h, es, k)
  {
    assert ArchiveBytes(hc, ec, h, es)[..k] == Frame(hc, h)[..k];
    ReadCutFrame(hc, h, k);
  }

  lemma CutInEvents<H, E>(hc: Codec<H>, ec: Codec<E>, h: H, es: seq<E>, k: nat)
    requires Intact(hc, h) && AllIntact(ec, es) && |Frame(hc, h)| <= k <= |ArchiveBytes(hc, ec, h, es)|
    ensures ReadArchive(hc, ec, ArchiveBytes(hc, ec, h, es)[..k]) == CutRead(hc, ec, h, es, k)
  {
    assert |Frame(hc, h)| > 0;
    hide ReadArchive, ReadAll, Whole, Frame;
    var f, all, j := Frame(hc, h), Stream(ec, es), k - |Frame(hc, h)|;
    var n := Whole(ec, es, j);
    var r := ReadAll(ec, all[..j]);
    assert r == Replay(es[..n], if |Stream(ec, es[..n])| == j then None else Some(UnexpectedEof)) by {
      Truncation(ec, es, j);
    }
    assert ReadArchive(hc, ec, f + all[..j]) == ArchiveRead(Some(h), r.items, r.error) by {
      ReadBehindHeader(hc, ec, h, all[..j]);
    }
    assert ArchiveBytes(hc, ec, h, es)[..k] == f + all[..j];
  }

  /** The whole truncation law: an empty file has no header, a cut inside the header is an
      unexpected end of file at opening, and later cuts keep the header and obey `Truncation`. */
  lemma ArchiveTruncation<H, E>(hc: Codec<H>, ec: Codec<E>, h: H, es: seq<E>, k: nat)
    requires Intact(hc, h) && AllIntact(ec, es) && k <= |ArchiveBytes(hc, ec, h, es)|
    ensures ReadArchive(hc, ec, ArchiveBytes(hc, ec, h, es)[..k]) == CutRead(hc, ec, h, es, k)
  {
    if k < |Frame(hc, h)| {
      CutInHeader(hc, ec, h, es, k);
    } else {
      CutInEvents(hc, ec, h, es, k);
    }
  }
}
