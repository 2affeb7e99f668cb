/** The archiver as a state machine over what it receives: which events end up in which file,
    when files rotate, and what a crash at any byte leaves to replay. */
module ArchiveLog {
  import opened Basics
  import opened ArchiveFormat
  import opened Events
  import Reader

  datatype Header = Header(created: nat, lowData: Option<bool>)

  datatype Codecs = Codecs(header: Codec<Header>, event: Codec<Event>)

  datatype Config = Config(filter: Filter, lowData: bool, maxFileSize: nat)

  /** One archive file, as the header and the events written to it. */
  datatype Segment = Segment(header: Header, events: seq<Event>)

  function Bytes(cs: Codecs, s: Segment): seq<byte> {
    ArchiveBytes(cs.header, cs.event, s.header, s.events)
  }

  function Files(cs: Codecs, segments: seq<Segment>): seq<seq<byte>> {
    seq(|segments|, i requires 0 <= i < |segments| => Bytes(cs, segments[i]))
  }

  function EventsOf(segments: seq<Segment>): seq<Event> {
    if segments == [] then [] else EventsOf(segments[..|segments| - 1]) + segments[|segments| - 1].events
  }

  // ---------- The machine ----------

  /** What can go wrong while one event is written: the write itself or the rotation after it. */
  datatype Fault = NoFault | WriteFault | RotateFault

  datatype Input =
    | Message(payload: seq<byte>, now: nat, fault: Fault)
    | SubscriptionEnded
    | ShutdownNotice(requested: bool, drained: bool)
    | DrainTimeout

  datatype Status = Running | Stopped | Failed

  /** `torn` holds the event whose write failed, if there was one: some part of its frame may
      be in the current file. */
  datatype State = State(closed: seq<Segment>, current: Segment, torn: seq<Event>, draining: bool, status: Status)

  function Init(cfg: Config, now: nat): State {
    State([], Segment(Header(now, Some(cfg.lowData)), []), [], false, Running)
  }

  /** The form in which an event is archived, if it is archived. */
  function ArchivedForm(cfg: Config, e: Event): (form: seq<Event>)
    ensures |form| <= 1
  {
    if !cfg.filter.Matches(e) then [] else [if cfg.lowData then StripLowData(e) else e]
  }

  function Archived(cfg: Config, es: seq<Event>): seq<Event> {
    if es == [] then [] else Archived(cfg, es[..|es| - 1]) + ArchivedForm(cfg, es[|es| - 1])
  }

  function Write(cfg: Config, cs: Codecs, s: State, e: Event, now: nat, fault: Fault): State {
    if fault.WriteFault? then
      s.(torn := [e], status := Stopped)
    else
      var written := s.current.(events := s.current.events + [e]);
      if |Bytes(cs, written)| < cfg.maxFileSize then
        s.(current := written)
      else if fault.RotateFault? then
        s.(current := written, status := Failed)
      else
        s.(closed := s.closed + [written], current := Segment(Header(now, Some(cfg.lowData)), []))
  }

  function Step(cfg: Config, cs: Codecs, s: State, input: Input): State {
    if !s.status.Running? then s else
    match input
    case Message(payload, now, fault) =>
      (match cs.event.decode(payload)
       case None => s
       case Some(e) =>
         var form := ArchivedForm(cfg, e);
         if form == [] then s else Write(cfg, cs, s, form[0], now, fault))
    case SubscriptionEnded => s.(status := Stopped)
    case ShutdownNotice(requested, drained) =>
      if s.draining || !requested then s
      else s.(draining := true, status := if drained then Running else Stopped)
    case DrainTimeout => if s.draining then s.(status := Stopped) else s
  }

  function Run(cfg: Config, cs: Codecs, s: State, inputs: seq<Input>): State {
    if inputs == [] then s
    else Step(cfg, cs, Run(cfg, cs, s, inputs[..|inputs| - 1]), inputs[|inputs| - 1])
  }

  /** The event that a message delivers, if it can be decoded. */
  function Delivers(cs: Codecs, input: Input): seq<Event> {
    if input.Message? && cs.event.decode(input.payload).Some? then [cs.event.decode(input.payload).value] else []
  }

  /** The decodable events that the run took off the subscription before it stopped. */
  function Received(cfg: Config, cs: Codecs, s: State, inputs: seq<Input>): seq<Event> {
    if inputs == [] then []
    else
      var before := inputs[..|inputs| - 1];
      Received(cfg, cs, s, before) +
      if Run(cfg, cs, s, before).status.Running? then Delivers(cs, inputs[|inputs| - 1]) else []
  }

  function Delivered(cs: Codecs, inputs: seq<Input>): seq<Event> {
    if inputs == [] then [] else Delivered(cs, inputs[..|inputs| - 1]) + Delivers(cs, inputs[|inputs| - 1])
  }

  /** Until the loop is left, nothing that was delivered is missed. */
  lemma {:induction false} RunningReceivesAll(cfg: Config, cs: Codecs, s: State, inputs: seq<Input>)
    requires Run(cfg, cs, s, inputs).status.Running?
    ensures Received(cfg, cs, s, inputs) == Delivered(cs, inputs)
  {
    if inputs != [] {
      RunningReceivesAll(cfg, cs, s, inputs[..|inputs| - 1]);
    }
  }

  /** What does not end the loop: messages without a fault, and notices that shutdown is not
      wanted or that lead to a drain. */
  predicate KeepsRunning(input: Input) {
    match input
    case Message(_, _, fault) => fault.NoFault?
    case ShutdownNotice(requested, drained) => !requested || drained
    case _ => false
  }

  predicate RequestsShutdown(input: Input) {
    input.ShutdownNotice? && input.requested
  }

  /** A shutdown request does not end the loop but starts to drain the subscription; what is
      still delivered is received, also after it. */
  lemma {:induction false} ShutdownDrains(cfg: Config, cs: Codecs, now: nat, inputs: seq<Input>)
    requires forall i :: 0 <= i < |inputs| ==> KeepsRunning(inputs[i])
    ensures var s := Run(cfg, cs, Init(cfg, now), inputs);
      && s.status.Running? && (s.draining <==> exists i :: 0 <= i < |inputs| && RequestsShutdown(inputs[i]))
      && Received(cfg, cs, Init(cfg, now), inputs) == Delivered(cs, inputs)
  {
    hide Bytes, ArchivedForm;
    if inputs != [] {
      var before, last := inputs[..|inputs| - 1], inputs[|inputs| - 1];
      assert inputs == before + [last];
      ShutdownDrains(cfg, cs, now, before);
      assert KeepsRunning(last);
    }
    RunningReceivesAll(cfg, cs, Init(cfg, now), inputs);
  }

  // ---------- Conservation ----------

  function Logged(s: State): seq<Event> {
    EventsOf(s.closed) + s.current.events
  }

  lemma EventsOfAppend(segments: seq<Segment>, s: Segment)
    ensures EventsOf(segments + [s]) == EventsOf(segments) + s.events
  {
    assert (segments + [s])[..|segments|] == segments;
  }

  lemma WriteConserves(cfg: Config, cs: Codecs, s: State, e: Event, now: nat, fault: Fault)
    requires s.torn == []
    ensures var t := Write(cfg, cs, s, e, now, fault);
      && Logged(t) + t.torn == Logged(s) + [e]
      && (t.torn != [] ==> t.status.Stopped? && fault.WriteFault?)
  {
    hide Bytes;
    EventsOfAppend(s.closed, s.current.(events := s.current.events + [e]));
  }

  lemma StepConserves(cfg: Config, cs: Codecs, s: State, input: Input)
    requires s.status.Running? && s.torn == []
    ensures var t := Step(cfg, cs, s, input);
      && Logged(t) + t.torn == Logged(s) + Archived(cfg, Delivers(cs, input))
      && (t.torn != [] ==> t.status.Stopped? && input.Message? && input.fault.WriteFault?)
  {
    hide Bytes, ArchivedForm;
    var delivered := Delivers(cs, input);
    if delivered == [] {
      assert Logged(s) + [] == Logged(s);
    } else {
      assert delivered[..0] == [];
      var form := ArchivedForm(cfg, delivered[0]);
      assert Archived(cfg, delivered) == form;
      if form != [] {
        WriteConserves(cfg, cs, s, form[0], input.now, input.fault);
        assert form == [form[0]];
      }
    }
  }

  lemma {:induction false} ArchivedAppend(cfg: Config, es: seq<Event>, more: seq<Event>)
    requires |more| <= 1
    ensures Archived(cfg, es + more) == Archived(cfg, es) + Archived(cfg, more)
  {
    if more == [] {
      assert es + more == es;
    } else {
      assert (es + more)[..|es|] == es && more[..0] == [];
    }
  }

  /** Every event received is in exactly one file, once and in order, in the form it is
      archived; only an event whose write failed may be missing, and it is the last one. */
  lemma {:induction false} Conservation(cfg: Config, cs: Codecs, now: nat, inputs: seq<Input>)
    ensures var s := Run(cfg, cs, Init(cfg, now), inputs);
      && Logged(s) + s.torn == Archived(cfg, Received(cfg, cs, Init(cfg, now), inputs))
      && (s.torn != [] ==> s.status.Stopped?)
  {
    if inputs != [] {
      var before, last := inputs[..|inputs| - 1], inputs[|inputs| - 1];
      var s := Run(cfg, cs, Init(cfg, now), before);
      var received := Received(cfg, cs, Init(cfg, now), before);
      Conservation(cfg, cs, now, before);
      if s.status.Running? {
        assert Logged(s) + s.torn == Logged(s);
        StepConserves(cfg, cs, s, last);
        ArchivedAppend(cfg, received, Delivers(cs, last));
      } else {
        assert received + [] == received;
      }
    }
  }

  // ---------- What is written is intact ----------

  predicate HeaderIntact(cfg: Config, cs: Codecs, now: nat) {
    Intact(cs.header, Header(now, Some(cfg.lowData)))
  }

  /** An input that may lead to a new file, for which there is a header at that time, and whose
      event, if it is archived, is intact in its archived form. */
  predicate Writable(cfg: Config, cs: Codecs, input: Input) {
    input.Message? ==>
      HeaderIntact(cfg, cs, input.now) && AllIntact(cs.event, Archived(cfg, Delivers(cs, input)))
  }

  /** All that the archiver may write on these inputs is intact. */
  predicate AllWritable(cfg: Config, cs: Codecs, now: nat, inputs: seq<Input>) {
    HeaderIntact(cfg, cs, now) && forall i :: 0 <= i < |inputs| ==> Writable(cfg, cs, inputs[i])
  }

  predicate HeadersIntact(cs: Codecs, segments: seq<Segment>) {
    forall i :: 0 <= i < |segments| ==> Intact(cs.header, segments[i].header)
  }

  lemma {:induction false} ReceivedIsIntact(cfg: Config, cs: Codecs, now: nat, inputs: seq<Input>)
    requires AllWritable(cfg, cs, now, inputs)
    ensures AllIntact(cs.event, Archived(cfg, Received(cfg, cs, Init(cfg, now), inputs)))
  {
    hide Archived, Run, Delivers, Intact;
    if inputs == [] {
      NothingArchived(cfg);
    } else {
      var before, last := inputs[..|inputs| - 1], inputs[|inputs| - 1];
      var received := Received(cfg, cs, Init(cfg, now), before);
      ReceivedIsIntact(cfg, cs, now, before);
      assert Writable(cfg, cs, last);
      if Run(cfg, cs, Init(cfg, now), before).status.Running? {
        OnlyMessagesDeliver(cfg, cs, last);
        ArchivedAppend(cfg, received, Delivers(cs, last));
      } else {
        assert received + [] == received;
      }
    }
  }

  lemma NothingArchived(cfg: Config)
    ensures Archived(cfg, []) == []
  {
  }

  lemma OnlyMessagesDeliver(cfg: Config, cs: Codecs, input: Input)
    ensures |Delivers(cs, input)| <= 1
    ensures !input.Message? ==> Archived(cfg, Delivers(cs, input)) == []
  {
  }

  lemma {:induction false} RunHeadersAreIntact(cfg: Config, cs: Codecs, now: nat, inputs: seq<Input>)
    requires AllWritable(cfg, cs, now, inputs)
    ensures var s := Run(cfg, cs, Init(cfg, now), inputs); HeadersIntact(cs, s.closed + [s.current])
  {
    hide Intact, Bytes, ArchivedForm;
    if inputs != [] {
      RunHeadersAreIntact(cfg, cs, now, inputs[..|inputs| - 1]);
      StepHeadersAreIntact(cfg, cs, Run(cfg, cs, Init(cfg, now), inputs[..|inputs| - 1]), inputs[|inputs| - 1]);
    }
  }

  lemma StepHeadersAreIntact(cfg: Config, cs: Codecs, s: State, input: Input)
    requires HeadersIntact(cs, s.closed + [s.current]) && Writable(cfg, cs, input)
    ensures var t := Step(cfg, cs, s, input); HeadersIntact(cs, t.closed + [t.current])
  {
    hide Intact, Bytes, ArchivedForm;
    var t, segments := Step(cfg, cs, s, input), s.closed + [s.current];
    assert forall i :: 0 <= i < |s.closed| ==> segments[i] == s.closed[i];
    assert segments[|s.closed|] == s.current;
  }

  // ---------- Crash and shutdown ----------

  lemma {:induction false} ReplayClosed(cs: Codecs, segments: seq<Segment>)
    requires HeadersIntact(cs, segments) && AllIntact(cs.event, EventsOf(segments))
    ensures Reader.Replayed(cs.header, cs.event, Files(cs, segments)) == EventsOf(segments)
    ensures Reader.AllClean(cs.header, cs.event, Files(cs, segments))
  {
    hide ReadArchive, ArchiveBytes, Intact;
    if segments != [] {
      var before, last := segments[..|segments| - 1], segments[|segments| - 1];
      AllIntactSplit(cs.event, EventsOf(before), last.events);
      ReplayClosed(cs, before);
      assert Files(cs, segments) == Files(cs, before) + [Bytes(cs, last)];
      Reader.ReplayedNext(cs.header, cs.event, Files(cs, segments), |before|);
      assert Files(cs, segments)[..|before|] == Files(cs, before);
      assert Files(cs, segments)[..|segments|] == Files(cs, segments);
      ArchiveRoundTrip(cs.header, cs.event, last.header, last.events);
    }
  }

  lemma AllIntactSplit<M>(c: Codec<M>, ms: seq<M>, ns: seq<M>)
    requires AllIntact(c, ms + ns)
    ensures AllIntact(c, ms) && AllIntact(c, ns)
  {
    hide Intact;
    assert forall i :: 0 <= i < |ms| ==> (ms + ns)[i] == ms[i];
    assert forall i :: 0 <= i < |ns| ==> (ms + ns)[|ms| + i] == ns[i];
  }

  /** What the file system holds when the current file has reached it up to byte `k`. */
  function Image(cs: Codecs, closed: seq<Segment>, current: Segment, k: nat): seq<seq<byte>>
    requires k <= |Bytes(cs, current)|
  {
    Files(cs, closed) + [Bytes(cs, current)[..k]]
  }

  lemma ReplayImage(cs: Codecs, closed: seq<Segment>, current: Segment, k: nat)
    requires HeadersIntact(cs, closed + [current]) && AllIntact(cs.event, EventsOf(closed) + current.events)
    requires k <= |Bytes(cs, current)|
    ensures Reader.Replayed(cs.header, cs.event, Image(cs, closed, current, k)) <= EventsOf(closed) + current.events
  {
    hide Files, Reader.Replayed, Reader.AllClean, Intact;
    AllIntactSplit(cs.event, EventsOf(closed), current.events);
    assert HeadersIntact(cs, closed) by {
      assert forall i :: 0 <= i < |closed| ==> (closed + [current])[i] == closed[i];
    }
    assert Intact(cs.header, (closed + [current])[|closed|].header);
    var files, cut := Files(cs, closed), Bytes(cs, current)[..k];
    ReplayClosed(cs, closed);
    Reader.ReplayedNext(cs.header, cs.event, files + [cut], |files|);
    assert (files + [cut])[..|files|] == files && (files + [cut])[..|files| + 1] == files + [cut];
    ArchiveTruncation(cs.header, cs.event, current.header, current.events, k);
  }

  lemma SameHeaders(cs: Codecs, closed: seq<Segment>, s: Segment, t: Segment)
    requires HeadersIntact(cs, closed + [s]) && t.header == s.header
    ensures HeadersIntact(cs, closed + [t])
  {
    hide Intact;
    forall i | 0 <= i < |closed + [t]| ensures Intact(cs.header, (closed + [t])[i].header) {
      assert (closed + [t])[i].header == (closed + [s])[i].header;
    }
  }

  /** Crash safety. Whatever was received, wherever files rotated, and whatever part of the
      current file has reached the disk: replaying the files in the order of their creation
      shows a prefix of the filtered and stripped events received. The current file includes
      here the event being written, so that a cut inside an unfinished frame is covered; a
      crash while a write leads to a rotation looks like a failed write. */
  lemma CrashSafety(cfg: Config, cs: Codecs, now: nat, inputs: seq<Input>, s: State, k: nat)
    requires AllWritable(cfg, cs, now, inputs) && s == Run(cfg, cs, Init(cfg, now), inputs)
    requires k <= |Bytes(cs, s.current.(events := s.current.events + s.torn))|
    ensures Reader.Replayed(cs.header, cs.event,
                            Image(cs, s.closed, s.current.(events := s.current.events + s.torn), k)) <=
            Archived(cfg, Received(cfg, cs, Init(cfg, now), inputs))
  {
    hide Image, Received, Run, Bytes, Reader.Replayed, Intact, AllWritable, HeadersIntact;
    var current := s.current.(events := s.current.events + s.torn);
    Conservation(cfg, cs, now, inputs);
    ReceivedIsIntact(cfg, cs, now, inputs);
    RunHeadersAreIntact(cfg, cs, now, inputs);
    assert HeadersIntact(cs, s.closed + [current]) by {
      SameHeaders(cs, s.closed, s.current, current);
    }
    assert EventsOf(s.closed) + current.events == Logged(s) + s.torn;
    ReplayImage(cs, s.closed, current, k);
  }

  /** When no write failed, the files replay to everything received, and no file fails. */
  lemma CompleteReplay(cfg: Config, cs: Codecs, now: nat, inputs: seq<Input>, s: State)
    requires AllWritable(cfg, cs, now, inputs) && s == Run(cfg, cs, Init(cfg, now), inputs) && s.torn == []
    ensures var files := Files(cs, s.closed + [s.current]);
      && Reader.Replayed(cs.header, cs.event, files) == Archived(cfg, Received(cfg, cs, Init(cfg, now), inputs))
      && Reader.AllClean(cs.header, cs.event, files)
  {
    hide Files, Reader.Replayed, Reader.AllClean, Run, Received, Intact, AllWritable, HeadersIntact;
    Conservation(cfg, cs, now, inputs);
    ReceivedIsIntact(cfg, cs, now, inputs);
    RunHeadersAreIntact(cfg, cs, now, inputs);
    EventsOfAppend(s.closed, s.current);
    assert Logged(s) + [] == Logged(s);
    ReplayClosed(cs, s.closed + [s.current]);
  }

  /** A clean end of the subscription: everything delivered is replayed, and no file fails. */
  lemma CleanShutdown(cfg: Config, cs: Codecs, now: nat, inputs: seq<Input>)
    requires AllWritable(cfg, cs, now, inputs)
    requires Run(cfg, cs, Init(cfg, now), inputs).status.Running?
    ensures var s := Run(cfg, cs, Init(cfg, now), inputs + [SubscriptionEnded]);
      var files := Files(cs, s.closed + [s.current]);
      && s.status.Stopped?
      && Reader.Replayed(cs.header, cs.event, files) == Archived(cfg, Delivered(cs, inputs))
      && Reader.AllClean(cs.header, cs.event, files)
  {
    hide Files, Reader.Replayed, Reader.AllClean, Received, AllWritable;
    assert (inputs + [SubscriptionEnded])[..|inputs|] == inputs;
    RunningReceivesAll(cfg, cs, Init(cfg, now), inputs);
    Conservation(cfg, cs, now, inputs);
    CompleteReplay(cfg, cs, now, inputs, Run(cfg, cs, Init(cfg, now), inputs));
  }

  // ---------- Rotation ----------

  ghost predicate RotatedInTime(cfg: Config, cs: Codecs, s: Segment) {
    && s.events != []
    && |Bytes(cs, s)| >= cfg.maxFileSize
    && (|s.events| == 1 || |Bytes(cs, s.(events := s.events[..|s.events| - 1]))| < cfg.maxFileSize)
  }

  ghost predicate SizesBounded(cfg: Config, cs: Codecs, s: State) {
    && (s.status.Running? ==> s.current.events == [] || |Bytes(cs, s.current)| < cfg.maxFileSize)
    && (forall i :: 0 <= i < |s.closed| ==> RotatedInTime(cfg, cs, s.closed[i]))
  }

  lemma WriteKeepsSizes(cfg: Config, cs: Codecs, s: State, e: Event, now: nat, fault: Fault)
    requires s.status.Running? && SizesBounded(cfg, cs, s)
    ensures SizesBounded(cfg, cs, Write(cfg, cs, s, e, now, fault))
  {
    hide Bytes;
    var written := s.current.(events := s.current.events + [e]);
    assert written.events[..|written.events| - 1] == s.current.events;
    if |Bytes(cs, written)| >= cfg.maxFileSize {
      assert s.current.(events := s.current.events) == s.current;
      assert RotatedInTime(cfg, cs, written);
    }
  }

  lemma StepKeepsSizes(cfg: Config, cs: Codecs, s: State, input: Input)
    requires SizesBounded(cfg, cs, s)
    ensures SizesBounded(cfg, cs, Step(cfg, cs, s, input))
  {
    hide Bytes, ArchivedForm, Write, RotatedInTime;
    if s.status.Running? && Delivers(cs, input) != [] {
      var form := ArchivedForm(cfg, Delivers(cs, input)[0]);
      if form != [] {
        WriteKeepsSizes(cfg, cs, s, form[0], input.now, input.fault);
      }
    }
  }

  /** In every reachable state of the loop the current file holds no event or is still below
      the limit, and every rotated file reached the limit with its last event and not before. */
  lemma {:induction false} RotationBound(cfg: Config, cs: Codecs, now: nat, inputs: seq<Input>)
    ensures SizesBounded(cfg, cs, Run(cfg, cs, Init(cfg, now), inputs))
  {
    if inputs != [] {
      RotationBound(cfg, cs, now, inputs[..|inputs| - 1]);
      StepKeepsSizes(cfg, cs, Run(cfg, cs, Init(cfg, now), inputs[..|inputs| - 1]), inputs[|inputs| - 1]);
    }
  }
}
