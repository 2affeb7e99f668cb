/** What the archive files hold, in terms of the messages alone: which events, in what form,
    under which headers, and which inputs end the loop. */
module ArchiveContents {
  import opened Basics
  import opened ArchiveFormat
  import opened ArchiveLog
  import opened Events
  import Reader

  // ---------- Events ----------

  /** The events that the filter matches, in order. */
  function Selected(f: Filter, es: seq<Event>): seq<Event> {
    if es == [] then []
    else Selected(f, es[..|es| - 1]) + if f.Matches(es[|es| - 1]) then [es[|es| - 1]] else []
  }

  /** An event as it may stand in an archive: unchanged, or in low-data mode without what belongs
      to its transactions but their ids. */
  ghost predicate InForm(cfg: Config, e: Event, form: Event) {
    if cfg.lowData then Kept(e, form) else form == e
  }

  /** These are the first of the selected events, one for one and in order. */
  ghost predicate Begins(cfg: Config, shown: seq<Event>, es: seq<Event>) {
    var all := Selected(cfg.filter, es);
    |shown| <= |all| && forall i :: 0 <= i < |shown| ==> InForm(cfg, all[i], shown[i])
  }

  /** These are all the selected events, one for one and in order. */
  ghost predicate Shows(cfg: Config, shown: seq<Event>, es: seq<Event>) {
    Begins(cfg, shown, es) && |shown| == |Selected(cfg.filter, es)|
  }

  lemma {:induction false} ArchivedShows(cfg: Config, es: seq<Event>)
    ensures Shows(cfg, Archived(cfg, es), es)
  {
    hide StripLowData, Kept;
    if es != [] {
      var before, e := es[..|es| - 1], es[|es| - 1];
      ArchivedShows(cfg, before);
      StripKeeps(e);
    }
  }

  lemma PrefixBegins(cfg: Config, shown: seq<Event>, es: seq<Event>)
    requires shown <= Archived(cfg, es)
    ensures Begins(cfg, shown, es)
  {
    hide Kept;
    ArchivedShows(cfg, es);
  }

  /** In every run, what was written, with the event whose write failed, is what was received and
      matches the filter: unchanged without low-data mode, and with it one for one with only ids
      left of transactions. */
  lemma WrittenIsSelected(cfg: Config, cs: Codecs, now: nat, inputs: seq<Input>)
    ensures var s := Run(cfg, cs, Init(cfg, now), inputs);
      var received := Received(cfg, cs, Init(cfg, now), inputs);
      && Shows(cfg, Logged(s) + s.torn, received)
      && (!cfg.lowData ==> Logged(s) + s.torn == Selected(cfg.filter, received))
  {
    hide Run, Received, Kept;
    Conservation(cfg, cs, now, inputs);
    ArchivedShows(cfg, Received(cfg, cs, Init(cfg, now), inputs));
  }

  /** In low-data mode, no message that was written has raw transaction bytes, and no block has
      transactions. */
  lemma NothingRawIsWritten(cfg: Config, cs: Codecs, now: nat, inputs: seq<Input>, i: nat)
    requires cfg.lowData
    requires var s := Run(cfg, cs, Init(cfg, now), inputs); i < |Logged(s) + s.torn|
    ensures var s := Run(cfg, cs, Init(cfg, now), inputs);
      var msg := MsgOf((Logged(s) + s.torn)[i]);
      msg.Some? ==> !HasRaw(msg.value) && (msg.value.Block? ==> msg.value.transactions == [])
  {
    hide Run, Received, HasRaw, MsgKept;
    WrittenIsSelected(cfg, cs, now, inputs);
    var s := Run(cfg, cs, Init(cfg, now), inputs);
    var all := Selected(cfg.filter, Received(cfg, cs, Init(cfg, now), inputs));
    var form := (Logged(s) + s.torn)[i];
    assert InForm(cfg, all[i], form);
    if MsgOf(form).Some? {
      KeptMsg(all[i], form);
      KeptHasNoRaw(MsgOf(all[i]).value, MsgOf(form).value);
    }
  }

  lemma KeptMsg(a: Event, b: Event)
    requires Kept(a, b) && MsgOf(b).Some?
    ensures MsgOf(a).Some? && MsgKept(MsgOf(a).value, MsgOf(b).value)
  {
    hide MsgKept;
  }

  /** Crash safety, in terms of the messages: whatever part of the current file is on disk, a
      replay shows the first of the selected events that were received. */
  lemma CrashShowsSelected(cfg: Config, cs: Codecs, now: nat, inputs: seq<Input>, s: State, k: nat)
    requires AllWritable(cfg, cs, now, inputs) && s == Run(cfg, cs, Init(cfg, now), inputs)
    requires k <= |Bytes(cs, s.current.(events := s.current.events + s.torn))|
    ensures var image := Image(cs, s.closed, s.current.(events := s.current.events + s.torn), k);
      Begins(cfg, Reader.Replayed(cs.header, cs.event, image), Received(cfg, cs, Init(cfg, now), inputs))
  {
    hide Run, Received, Image, Bytes, Reader.Replayed, AllWritable, Begins;
    CrashSafety(cfg, cs, now, inputs, s, k);
    PrefixBegins(cfg, Reader.Replayed(cs.header, cs.event,
                                      Image(cs, s.closed, s.current.(events := s.current.events + s.torn), k)),
                 Received(cfg, cs, Init(cfg, now), inputs));
  }

  // ---------- Headers ----------

  /** The times at which a file may have been created: the start, and those of the messages. */
  ghost predicate CreationTime(now: nat, inputs: seq<Input>, t: nat) {
    t == now || exists i :: 0 <= i < |inputs| && inputs[i].Message? && inputs[i].now == t
  }

  /** In every run, each file tells in its header whether it is in low-data mode, and when it was
      created; the first one at the start. */
  lemma {:induction false} HeadersTell(cfg: Config, cs: Codecs, now: nat, inputs: seq<Input>)
    ensures var s := Run(cfg, cs, Init(cfg, now), inputs);
      var files := s.closed + [s.current];
      && files[0].header.created == now
      && forall i :: 0 <= i < |files| ==>
        files[i].header.lowData == Some(cfg.lowData) && CreationTime(now, inputs, files[i].header.created)
  {
    hide Bytes, ArchivedForm;
    if inputs != [] {
      var before, last := inputs[..|inputs| - 1], inputs[|inputs| - 1];
      HeadersTell(cfg, cs, now, before);
      var s, t := Run(cfg, cs, Init(cfg, now), before), Run(cfg, cs, Init(cfg, now), inputs);
      TimesGrow(now, before, last);
      assert inputs == before + [last];
      NextHeaders(cfg, cs, s, last);
    }
  }

  lemma TimesGrow(now: nat, inputs: seq<Input>, input: Input)
    ensures forall t :: CreationTime(now, inputs, t) ==> CreationTime(now, inputs + [input], t)
    ensures input.Message? ==> CreationTime(now, inputs + [input], input.now)
  {
    forall t | CreationTime(now, inputs, t) ensures CreationTime(now, inputs + [input], t) {
      if t != now {
        var i :| 0 <= i < |inputs| && inputs[i].Message? && inputs[i].now == t;
        assert (inputs + [input])[i] == inputs[i];
      }
    }
    assert (inputs + [input])[|inputs|] == input;
  }

  /** One step leaves all headers, or puts one for the time of the message behind them. */
  lemma NextHeaders(cfg: Config, cs: Codecs, s: State, input: Input)
    ensures var t := Step(cfg, cs, s, input);
      var (fs, gs) := (s.closed + [s.current], t.closed + [t.current]);
      && |fs| <= |gs| <= |fs| + 1
      && (forall i :: 0 <= i < |fs| ==> gs[i].header == fs[i].header)
      && (|gs| == |fs| + 1 ==> input.Message? && gs[|fs|].header == Header(input.now, Some(cfg.lowData)))
  {
    hide Bytes, ArchivedForm;
  }

  // ---------- The end of the loop ----------

  predicate ShutdownRequested(inputs: seq<Input>) {
    exists i :: 0 <= i < |inputs| && RequestsShutdown(inputs[i])
  }

  /** What ends the loop: the end of the subscription, a request for shutdown that comes first and
      whose drain fails, the drain's timeout, and a failing write of an event that is archived. */
  predicate EndsLoop(cfg: Config, cs: Codecs, before: seq<Input>, input: Input) {
    match input
    case Message(payload, _, fault) =>
      fault.WriteFault? && cs.event.decode(payload).Some? && cfg.filter.Matches(cs.event.decode(payload).value)
    case SubscriptionEnded => true
    case ShutdownNotice(requested, drained) => requested && !drained && !ShutdownRequested(before)
    case DrainTimeout => ShutdownRequested(before)
  }

  ghost predicate NoneEnds(cfg: Config, cs: Codecs, inputs: seq<Input>) {
    forall k :: 0 <= k < |inputs| ==> !EndsLoop(cfg, cs, inputs[..k], inputs[k])
  }

  lemma NoneEndsSnoc(cfg: Config, cs: Codecs, before: seq<Input>, input: Input)
    ensures NoneEnds(cfg, cs, before + [input]) <==> NoneEnds(cfg, cs, before) && !EndsLoop(cfg, cs, before, input)
  {
    var inputs := before + [input];
    assert inputs[..|before|] == before && inputs[|before|] == input;
    assert forall k :: 0 <= k < |before| ==> inputs[..k] == before[..k] && inputs[k] == before[k];
  }

  lemma RequestedSnoc(before: seq<Input>, input: Input)
    ensures ShutdownRequested(before + [input]) <==> ShutdownRequested(before) || RequestsShutdown(input)
  {
    var inputs := before + [input];
    assert inputs[|before|] == input;
    assert forall k :: 0 <= k < |before| ==> inputs[k] == before[k];
  }

  /** When no rotation fails, the loop runs if and only if none of the inputs has ended it, and
      otherwise it has stopped in order; while it runs it drains if and only if a shutdown was
      requested. */
  lemma {:induction false} RunsUntilEnded(cfg: Config, cs: Codecs, now: nat, inputs: seq<Input>)
    requires forall k :: 0 <= k < |inputs| ==> inputs[k].Message? ==> !inputs[k].fault.RotateFault?
    ensures var s := Run(cfg, cs, Init(cfg, now), inputs);
      && (s.status.Running? <==> NoneEnds(cfg, cs, inputs)) && !s.status.Failed?
      && (s.status.Running? ==> (s.draining <==> ShutdownRequested(inputs)))
  {
    hide Bytes, EndsLoop, ShutdownRequested, NoneEnds, Run, Step;
    if inputs == [] {
      NothingEnds(cfg, cs, now);
    } else {
      var before, last := inputs[..|inputs| - 1], inputs[|inputs| - 1];
      assert inputs == before + [last];
      RunsUntilEnded(cfg, cs, now, before);
      NoneEndsSnoc(cfg, cs, before, last);
      RequestedSnoc(before, last);
      RunNext(cfg, cs, now, before, last);
      StepEnds(cfg, cs, Run(cfg, cs, Init(cfg, now), before), before, last);
    }
  }

  lemma NothingEnds(cfg: Config, cs: Codecs, now: nat)
    ensures Run(cfg, cs, Init(cfg, now), []) == Init(cfg, now) && NoneEnds(cfg, cs, []) && !ShutdownRequested([])
  {
  }

  lemma RunNext(cfg: Config, cs: Codecs, now: nat, before: seq<Input>, last: Input)
    ensures Run(cfg, cs, Init(cfg, now), before + [last]) == Step(cfg, cs, Run(cfg, cs, Init(cfg, now), before), last)
  {
    assert (before + [last])[..|before|] == before;
  }

  lemma StepEnds(cfg: Config, cs: Codecs, s: State, before: seq<Input>, input: Input)
    requires !s.status.Failed? && (s.status.Running? ==> (s.draining <==> ShutdownRequested(before)))
    requires input.Message? ==> !input.fault.RotateFault?
    ensures var t := Step(cfg, cs, s, input);
      && (t.status.Running? <==> s.status.Running? && !EndsLoop(cfg, cs, before, input)) && !t.status.Failed?
      && (t.status.Running? ==> (t.draining <==> ShutdownRequested(before) || RequestsShutdown(input)))
  {
    hide Bytes, ShutdownRequested, StripLowData;
  }

  /** A rotation can fail only when the file has reached its limit, and then the loop fails. */
  lemma RotationFails(cfg: Config, cs: Codecs, s: State, input: Input)
    requires s.status.Running? && input.Message? && input.fault.RotateFault?
    ensures var t := Step(cfg, cs, s, input);
      && (t.status.Failed? || t.status.Running?)
      && (t.status.Failed? <==>
          && cs.event.decode(input.payload).Some? && cfg.filter.Matches(cs.event.decode(input.payload).value)
          && |Bytes(cs, t.current)| >= cfg.maxFileSize)
  {
    hide Bytes, StripLowData;
  }
}
