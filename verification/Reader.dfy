/** The archive reader over a stream that may return short reads, and the replayer on top of
    it. Every method is proved to do on the stream what `ArchiveFormat` says of the flat bytes,
    so that how the bytes arrive makes no difference. */
module Reader {
  import opened Basics
  import opened ArchiveFormat

  /** A byte source such as a file. `data` is what has not been read yet. */
  class Source {
    var data: seq<byte>

    constructor (bytes: seq<byte>)
      ensures data == bytes
    {
      data := bytes;
    }

    /** One read of at most `max` bytes. It may return fewer than there are, but returns
        nothing only when it was asked for nothing or the source is exhausted. */
    method Read(max: nat) returns (chunk: seq<byte>)
      modifies this
      ensures |chunk| <= max && old(data) == chunk + data
      ensures chunk == [] <==> max == 0 || old(data) == []
    {
      if max == 0 || data == [] {
        return [];
      }
      var k: nat :| 1 <= k <= max && k <= |data|;
      chunk := data[..k];
      data := data[k..];
    }
  }

  /** Pulls a length prefix off the stream byte by byte. */
  method ReadLengthDelimiter(reader: Source) returns (r: Result<Option<nat>, ReadError>)
    modifies reader
    ensures Read.Read(r, reader.data) == DelimiterOf(old(reader.data))
  {
    hide DelimiterOf;
    ghost var input := reader.data;
    var bytes: seq<byte> := [];
    while true
      invariant |bytes| < Varint.MAX_LENGTH
      invariant Varint.AllContinued(bytes)
      invariant input == bytes + reader.data
      decreases Varint.MAX_LENGTH - |bytes|
    {
      var byte := reader.Read(1);
      if byte == [] {
        DelimiterRanOut(bytes);
        assert input == bytes;
        return if bytes == [] then Ok(None) else Err(UnexpectedEof);
      }
      bytes := bytes + byte;
      if byte[0] < 128 || |bytes| == Varint.MAX_LENGTH {
        break;
      }
    }
    assert input == bytes + reader.data;
    DelimiterFound(bytes, reader.data);
    match Varint.Decode(bytes)
    case None => r := Err(InvalidPrefix);
    case Some(len) => r := Ok(Some(len));
  }

  /** Reads until `limit` bytes are there or the source is exhausted. */
  method TakeToEnd(reader: Source, limit: nat) returns (buf: seq<byte>)
    modifies reader
    ensures old(reader.data) == buf + reader.data
    ensures |buf| == if limit <= |old(reader.data)| then limit else |old(reader.data)|
  {
    buf := [];
    while |buf| < limit
      invariant |buf| <= limit && old(reader.data) == buf + reader.data
      decreases limit - |buf|
    {
      var chunk := reader.Read(limit - |buf|);
      if chunk == [] {
        break;
      }
      buf := buf + chunk;
    }
  }

  /** Reads one framed message into the shared buffer and decodes it. Whatever the prefix
      claims, the buffer never holds more than the bytes that were left on the stream. */
  method ReadMessage<M>(reader: Source, c: Codec<M>, buf0: seq<byte>)
    returns (r: Result<Option<M>, ReadError>, buf: seq<byte>)
    modifies reader
    ensures Read.Read(r, reader.data) == MessageOf(c, old(reader.data))
    ensures buf == buf0 || |buf| < |old(reader.data)|
  {
    buf := buf0;
    var d := ReadLengthDelimiter(reader);
    match d {
      case Err(e) => return Err(e), buf;
      case Ok(None) => return Ok(None), buf;
      case Ok(Some(len)) =>
        ghost var left := reader.data;
        DelimiterAccepted(old(reader.data));
        buf := TakeToEnd(reader, len);
        if |buf| < len {
          assert reader.data == [];
          return Err(UnexpectedEof), buf;
        }
        assert left[..len] == buf && left[len..] == reader.data;
        match c.decode(buf)
        case None => r := Err(InvalidMessage);
        case Some(m) => r := Ok(Some(m));
    }
  }

  /** An opened archive. */
  class ArchiveReader<H, E> {
    const ec: Codec<E>
    const reader: Source
    const header: H
    var buf: seq<byte>

    constructor (ec: Codec<E>, reader: Source, header: H, buf: seq<byte>)
      ensures this.ec == ec && this.reader == reader && this.header == header && this.buf == buf
    {
      this.ec, this.reader, this.header, this.buf := ec, reader, header, buf;
    }

    method Next() returns (r: Result<Option<E>, ReadError>)
      modifies this`buf, reader
      ensures Read.Read(r, reader.data) == MessageOf(ec, old(reader.data))
      ensures buf == old(buf) || |buf| < |old(reader.data)|
    {
      r, buf := ReadMessage(reader, ec, buf);
    }
  }

  /** Opens an archive: reads its header, which has to be there. */
  method Open<H, E>(hc: Codec<H>, ec: Codec<E>, reader: Source) returns (r: Result<ArchiveReader<H, E>, ReadError>)
    modifies reader
    ensures var first := MessageOf(hc, old(reader.data));
      match r
      case Err(e) => first.result == Err(e) || (first.result == Ok(None) && e == MissingHeader)
      case Ok(a) => fresh(a) && a.reader == reader && a.ec == ec && first == Read.Read(Ok(Some(a.header)), reader.data)
  {
    var header, buf := ReadMessage(reader, hc, []);
    match header {
      case Err(e) => r := Err(e);
      case Ok(None) => r := Err(MissingHeader);
      case Ok(Some(h)) =>
        var a := new ArchiveReader<H, E>(ec, reader, h, buf);
        r := Ok(a);
    }
  }

  /** Shows every event up to the clean end or the first error, and returns their number or
      that error. */
  method ShowEvents<H, E>(archive: ArchiveReader<H, E>)
    returns (r: Result<nat, ReadError>, displayed: seq<E>)
    modifies archive`buf, archive.reader
    ensures var all := ReadAll(archive.ec, old(archive.reader.data));
      displayed == all.items && r == if all.error.Some? then Err(all.error.value) else Ok(|all.items|)
  {
    displayed := [];
    var eventsCount := 0;
    ghost var all := ReadAll(archive.ec, archive.reader.data);
    while true
      invariant eventsCount == |displayed|
      invariant all == Replay(displayed + ReadAll(archive.ec, archive.reader.data).items,
                              ReadAll(archive.ec, archive.reader.data).error)
      decreases |archive.reader.data|
    {
      ghost var left := ReadAll(archive.ec, archive.reader.data);
      var next := archive.Next();
      match next {
        case Err(e) => return Err(e), displayed;
        case Ok(None) => return Ok(eventsCount), displayed;
        case Ok(Some(event)) =>
          assert displayed + left.items == displayed + [event] + ReadAll(archive.ec, archive.reader.data).items;
          displayed := displayed + [event];
          eventsCount := eventsCount + 1;
      }
    }
  }

  /** Replays one file; a file without a readable header is an error before any event. */
  method ReplayFile<H, E>(hc: Codec<H>, ec: Codec<E>, reader: Source)
    returns (r: Result<nat, ReadError>, displayed: seq<E>)
    modifies reader
    ensures r.Ok? == Clean(hc, ec, old(reader.data))
    ensures var a := ReadArchive(hc, ec, old(reader.data));
      displayed == a.events && r == if a.error.Some? then Err(a.error.value) else Ok(|a.events|)
  {
    var attempt := Open<H, E>(hc, ec, reader);
    match attempt {
      case Err(e) => return Err(e), [];
      case Ok(archive) => r, displayed := ShowEvents(archive);
    }
  }

  /** All events that a replay of the files shows, in order; a failing file is left at its
      first error and the next one is replayed all the same. */
  function Replayed<H, E>(hc: Codec<H>, ec: Codec<E>, files: seq<seq<byte>>): seq<E> {
    if files == [] then [] else ReadArchive(hc, ec, files[0]).events + Replayed(hc, ec, files[1..])
  }

  predicate Clean<H, E>(hc: Codec<H>, ec: Codec<E>, file: seq<byte>) {
    ReadArchive(hc, ec, file).error.None?
  }

  predicate AllClean<H, E>(hc: Codec<H>, ec: Codec<E>, files: seq<seq<byte>>) {
    forall i :: 0 <= i < |files| ==> Clean(hc, ec, files[i])
  }

  lemma {:induction false} ReplayedAppend<H, E>(hc: Codec<H>, ec: Codec<E>, files: seq<seq<byte>>, more: seq<seq<byte>>)
    ensures Replayed(hc, ec, files + more) == Replayed(hc, ec, files) + Replayed(hc, ec, more)
  {
    if files == [] {
      assert files + more == more;
    } else {
      assert (files + more)[1..] == files[1..] + more;
      ReplayedAppend(hc, ec, files[1..], more);
    }
  }

  lemma ReplayedNext<H, E>(hc: Codec<H>, ec: Codec<E>, files: seq<seq<byte>>, i: nat)
    requires i < |files|
    ensures Replayed(hc, ec, files[..i + 1]) == Replayed(hc, ec, files[..i]) + ReadArchive(hc, ec, files[i]).events
  {
    assert files[..i + 1] == files[..i] + [files[i]];
    ReplayedAppend(hc, ec, files[..i], [files[i]]);
    assert Replayed(hc, ec, [files[i]][1..]) == [];
  }

  /** Replays the given files and reports whether any of them failed. */
  method Run<H, E>(hc: Codec<H>, ec: Codec<E>, files: seq<seq<byte>>)
    returns (hadError: bool, displayed: seq<E>)
    ensures displayed == Replayed(hc, ec, files) && hadError == !AllClean(hc, ec, files)
  {
    hide ReadArchive;
    hadError, displayed := false, [];
    for i := 0 to |files|
      invariant displayed == Replayed(hc, ec, files[..i])
      invariant !hadError <==> AllClean(hc, ec, files[..i])
    {
      var reader := new Source(files[i]);
      var r, events := ReplayFile(hc, ec, reader);
      ReplayedNext(hc, ec, files, i);
      displayed := displayed + events;
      if r.Err? {
        hadError := true;
      }
      assert files[..i + 1] == files[..i] + [files[i]];
    }
    assert files[..|files|] == files;
  }
}
