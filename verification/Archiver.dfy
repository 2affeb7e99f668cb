/** The archiver's mutable state: the open file with its buffered writer, and the loop that
    filters, strips, writes and rotates. Its methods are proved to follow `ArchiveLog`. */
module Archiver {
  import opened Basics
  import opened ArchiveFormat
  import opened ArchiveLog
  import opened Events
  import opened ArchiveContents

  /** An open archive file in plain (uncompressed) mode. */
  class ArchiveFile {
    const cs: Codecs
    var disk: seq<byte>     // what the file system has been given
    var pending: seq<byte>  // what the buffered writer still holds
    var bytesWritten: nat

    ghost function Logical(): seq<byte>
      reads this
    {
      disk + pending
    }

    constructor (cs: Codecs, header: Header)
      ensures this.cs == cs && Logical() == Bytes(cs, Segment(header, []))
      ensures pending == [] && bytesWritten == |Logical()|
    {
      var headerBytes := Frame(cs.header, header);
      this.cs := cs;
      disk, pending := headerBytes, [];
      bytesWritten := |headerBytes|;
      new;
      assert headerBytes + [] == headerBytes;
    }

    /** The buffered writer takes all bytes and passes on as many as it likes, in order. */
    method Put(bytes: seq<byte>)
      modifies this`disk, this`pending
      ensures Logical() == old(Logical()) + bytes && old(disk) <= disk
    {
      var all := pending + bytes;
      var k: nat :| k <= |all|;
      assert disk + all == disk + all[..k] + all[k..];
      disk, pending := disk + all[..k], all[k..];
    }

    /** A failing write may have taken any part of the frame, and is not counted. */
    method WriteEvent(e: Event, fails: bool) returns (ok: bool)
      modifies this
      ensures ok == !fails && old(disk) <= disk
      ensures ok ==> Logical() == old(Logical()) + Frame(cs.event, e)
      ensures ok ==> bytesWritten == old(bytesWritten) + |Frame(cs.event, e)|
      ensures !ok ==> old(Logical()) <= Logical() <= old(Logical()) + Frame(cs.event, e)
    {
      hide Frame;
      var buf := Frame(cs.event, e);
      if fails {
        var k: nat :| k <= |buf|;
        Put(buf[..k]);
        return false;
      }
      Put(buf);
      bytesWritten := bytesWritten + |buf|;
      ok := true;
    }

    predicate NeedsRotation(maxFileSize: nat)
      reads this
    {
      bytesWritten >= maxFileSize
    }

    /** Flushes the writer. */
    method Finalize(fails: bool) returns (ok: bool)
      modifies this`disk, this`pending
      ensures ok == !fails && Logical() == old(Logical()) && old(disk) <= disk
      ensures ok ==> disk == Logical()
    {
      if fails {
        Put([]);
        return false;
      }
      disk, pending := disk + pending, [];
      ok := true;
    }
  }

  class Archiver {
    const cfg: Config
    const cs: Codecs
    var current: ArchiveFile
    var finalized: seq<seq<byte>>  // the files closed before the current one
    var totalFiles: nat
    var draining: bool
    ghost var state: State

    ghost predicate Valid()
      reads this, current
    {
      && current.cs == cs
      && finalized == Files(cs, state.closed)
      && draining == state.draining
      && Bytes(cs, state.current) <= current.Logical()
      && current.Logical() <= Bytes(cs, state.current.(events := state.current.events + state.torn))
      && (state.status.Running? ==> state.torn == [] && current.bytesWritten == |current.Logical()|)
      && totalFiles == |state.closed|
    }

    constructor (cfg: Config, cs: Codecs, now: nat)
      ensures Valid() && fresh(current) && state == Init(cfg, now)
      ensures this.cfg == cfg && this.cs == cs
    {
      this.cfg, this.cs := cfg, cs;
      current := new ArchiveFile(cs, Header(now, Some(cfg.lowData)));
      finalized, totalFiles, draining := [], 0, false;
      state := Init(cfg, now);
      new;
      assert state.current.events + [] == [];
    }

    /** Closes the current file and opens the next one. */
    method Rotate(now: nat, fails: bool) returns (ok: bool)
      requires Valid() && state.status.Running?
      modifies this, current
      ensures Valid() && (current == old(current) || fresh(current))
      ensures ok == !fails
      ensures state == if fails then old(state).(status := Failed) else
        old(state).(closed := old(state).closed + [old(state).current],
                    current := Segment(Header(now, Some(cfg.lowData)), []))
    {
      hide Bytes;
      assert state.current.(events := state.current.events + []) == state.current;
      ok := current.Finalize(fails);
      if !ok {
        state := state.(status := Failed);
        return;
      }
      assert current.disk == Bytes(cs, state.current);
      finalized := finalized + [current.disk];
      current := new ArchiveFile(cs, Header(now, Some(cfg.lowData)));
      totalFiles := totalFiles + 1;
      state := state.(closed := state.closed + [state.current], current := Segment(Header(now, Some(cfg.lowData)), []));
      assert state.current.(events := state.current.events + []) == state.current;
    }

    /** Writes one event in its archived form and rotates when the file has grown enough.
        Anything but `Running` means that the loop is left. */
    method WriteAndRotate(e: Event, now: nat, fault: Fault) returns (status: Status)
      requires Valid() && state.status.Running?
      modifies this, current
      ensures Valid() && (current == old(current) || fresh(current))
      ensures state == Write(cfg, cs, old(state), e, now, fault)
      ensures status == state.status
    {
      hide Frame, Bytes;
      ghost var written := state.current.(events := state.current.events + [e]);
      FrameAppended(cs, state.current, e);
      assert state.current.(events := state.current.events + []) == state.current;
      var ok := current.WriteEvent(e, fault.WriteFault?);
      if !ok {
        state := state.(torn := [e], status := Stopped);
        return Stopped;
      }
      assert written.(events := written.events + []) == written;
      state := state.(current := written);
      if current.NeedsRotation(cfg.maxFileSize) {
        var done := Rotate(now, fault.RotateFault?);
        return if done then Running else Failed;
      }
      status := Running;
    }

    /** One round of the loop. */
    method Handle(input: Input) returns (status: Status)
      requires Valid() && state.status.Running?
      modifies this, current
      ensures Valid() && (current == old(current) || fresh(current))
      ensures state == Step(cfg, cs, old(state), input)
      ensures status == state.status
    {
      hide Write, Bytes;
      match input {
        case Message(payload, now, fault) =>
          var decoded := cs.event.decode(payload);
          if decoded.None? || !cfg.filter.Matches(decoded.value) {
            return Running;
          }
          var event := if cfg.lowData then StripLowData(decoded.value) else decoded.value;
          status := WriteAndRotate(event, now, fault);
        case SubscriptionEnded =>
          state := state.(status := Stopped);
          status := Stopped;
        case ShutdownNotice(requested, drained) =>
          if draining || !requested {
            return Running;
          }
          draining := true;
          status := if drained then Running else Stopped;
          state := state.(draining := true, status := status);
        case DrainTimeout =>
          status := if draining then Stopped else Running;
          state := state.(status := status);
      }
    }

    /** The loop and the end of the run. The inputs are what has happened so far: when they
        are used up before the loop is left, the archiver is still running. */
    method Run(inputs: seq<Input>, finalizeFails: bool) returns (ok: bool)
      requires Valid() && state.status.Running?
      modifies this, current
      ensures state == ArchiveLog.Run(cfg, cs, old(state), inputs)
      ensures finalized == Files(cs, state.closed) && current.cs == cs
      ensures current.disk <= Bytes(cs, state.current.(events := state.current.events + state.torn))
      ensures state.status.Stopped? && ok ==> Bytes(cs, state.current) <= current.disk
      ensures ok == (state.status.Running? || (state.status.Stopped? && !finalizeFails))
      ensures totalFiles == |state.closed| + if state.status.Stopped? then 1 else 0
    {
      hide Step, Bytes;
      var status, i := Running, 0;
      while i < |inputs| && status.Running?
        invariant 0 <= i <= |inputs|
        invariant Valid() && (current == old(current) || fresh(current))
        invariant state == ArchiveLog.Run(cfg, cs, old(state), inputs[..i])
        invariant status == state.status
      {
        assert inputs[..i + 1][..i] == inputs[..i];
        status := Handle(inputs[i]);
        i := i + 1;
      }
      RunStays(cfg, cs, old(state), inputs, i);
      ok := true;
      if status.Stopped? {
        totalFiles := totalFiles + 1;
        ok := current.Finalize(finalizeFails);
      } else if status.Failed? {
        ok := false;
      }
    }
  }

  lemma FrameAppended(cs: Codecs, s: Segment, e: Event)
    ensures Bytes(cs, s.(events := s.events + [e])) == Bytes(cs, s) + Frame(cs.event, e)
  {
    StreamAppend(cs.event, s.events, [e]);
    assert [e][1..] == [];
    assert Stream(cs.event, [e]) == Frame(cs.event, e) + Stream(cs.event, []);
  }

  /** Once the loop is left, nothing changes any more. */
  lemma {:induction false} RunStays(cfg: Config, cs: Codecs, s: State, inputs: seq<Input>, i: nat)
    requires i <= |inputs|
    requires i == |inputs| || !ArchiveLog.Run(cfg, cs, s, inputs[..i]).status.Running?
    ensures ArchiveLog.Run(cfg, cs, s, inputs) == ArchiveLog.Run(cfg, cs, s, inputs[..i])
  {
    if i < |inputs| {
      var before := inputs[..|inputs| - 1];
      assert before[..i] == inputs[..i];
      RunStays(cfg, cs, s, before, i);
    } else {
      assert inputs[..i] == inputs;
    }
  }

  /** The archiver tool from its start, as far as the inputs go. When all it may write is
      intact, a replay of the files as they are on disk shows the first of the events received
      that the filter selects, in their form, whatever happens; and when the loop was left
      without a failed write and the last file could be finalized, it shows all of them and no
      error. */
  method Archive(cfg: Config, cs: Codecs, now: nat, inputs: seq<Input>, finalizeFails: bool)
    returns (files: seq<seq<byte>>, totalFiles: nat, ok: bool)
    ensures AllWritable(cfg, cs, now, inputs) ==>
      && Reader.Replayed(cs.header, cs.event, files) <= Archived(cfg, Received(cfg, cs, Init(cfg, now), inputs))
      && Begins(cfg, Reader.Replayed(cs.header, cs.event, files), Received(cfg, cs, Init(cfg, now), inputs))
    ensures var s := ArchiveLog.Run(cfg, cs, Init(cfg, now), inputs);
      && (ok <==> s.status.Running? || (s.status.Stopped? && !finalizeFails))
      && (s.status.Stopped? ==> totalFiles == |files|)
      && (AllWritable(cfg, cs, now, inputs) && ok && s.status.Stopped? && s.torn == [] ==>
          && Reader.Replayed(cs.header, cs.event, files) == Archived(cfg, Received(cfg, cs, Init(cfg, now), inputs))
          && Shows(cfg, Reader.Replayed(cs.header, cs.event, files), Received(cfg, cs, Init(cfg, now), inputs))
          && Reader.AllClean(cs.header, cs.event, files))
  {
    hide Bytes, Reader.Replayed, Reader.AllClean, AllWritable, Begins, Shows, Received;
    var a := new Archiver(cfg, cs, now);
    ok := a.Run(inputs, finalizeFails);
    files, totalFiles := a.finalized + [a.current.disk], a.totalFiles;
    ghost var s := a.state;
    ghost var current := s.current.(events := s.current.events + s.torn);
    assert a.current.disk == Bytes(cs, current)[..|a.current.disk|];
    assert files == Image(cs, s.closed, current, |a.current.disk|);
    if AllWritable(cfg, cs, now, inputs) {
      CrashSafety(cfg, cs, now, inputs, s, |a.current.disk|);
      PrefixBegins(cfg, Reader.Replayed(cs.header, cs.event, files), Received(cfg, cs, Init(cfg, now), inputs));
      if ok && s.status.Stopped? && s.torn == [] {
        assert current.events == s.current.events;
        CompleteReplay(cfg, cs, now, inputs, s);
        ArchivedShows(cfg, Received(cfg, cs, Init(cfg, now), inputs));
        assert current == s.current && a.current.disk == Bytes(cs, s.current);
        assert Files(cs, s.closed + [s.current]) == Files(cs, s.closed) + [Bytes(cs, s.current)];
      }
    }
  }
}
