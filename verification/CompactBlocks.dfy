/** Pairing of log events about compact blocks: a new header starts a reconstruction, a
    reconstructed block ends it, in either order, and a pair is reported once both are in. */
module CompactBlocks {
  import opened Basics

  const NANOS_PER_MINUTE: nat := 60 * 1_000_000_000
  const MAX_AGE: nat := 5 * NANOS_PER_MINUTE

  datatype BandwidthMode = Unknown | High | Low

  datatype Reconstruction = Reconstruction(startedAt: Option<nat>, endedAt: Option<nat>, requested: nat,
                                           mode: BandwidthMode, createdAt: nat)

  type Pending = map<string, Reconstruction>

  datatype LogEvent =
    | SawHeader(hash: string, at: nat, isCmpctBlock: bool)
    | Reconstructed(hash: string, at: nat, requested: nat)

  /** A log event with the clock when it is taken up and the clock when old entries go. */
  datatype Input = Input(event: LogEvent, now: nat, later: nat)

  /** What a completed pair adds to the metrics: its labels and its duration. */
  datatype Pair = Pair(txRequested: bool, mode: BandwidthMode, micros: nat)

  // ---------- One event ----------

  function Entry(m: Pending, hash: string, now: nat): Reconstruction {
    if hash in m then m[hash] else Reconstruction(None, None, 0, Unknown, now)
  }

  function Update(r: Reconstruction, e: LogEvent): Reconstruction {
    match e
    case SawHeader(_, at, isCmpctBlock) => r.(startedAt := Some(at), mode := if isCmpctBlock then High else Low)
    case Reconstructed(_, at, requested) => r.(endedAt := Some(at), requested := requested)
  }

  function Completed(r: Reconstruction): Option<Pair> {
    if r.startedAt.Some? && r.endedAt.Some? then
      Some(Pair(r.requested > 0, r.mode, Since(r.endedAt.value, r.startedAt.value)))
    else None
  }

  function Retained(m: Pending, now: nat): Pending {
    map h | h in m && Since(now, m[h].createdAt) < MAX_AGE :: m[h]
  }

  /** The entries after the update and before old ones go. */
  function Updated(m: Pending, i: Input): Pending {
    var r := Update(Entry(m, i.event.hash, i.now), i.event);
    if Completed(r).Some? then m - {i.event.hash} else m[i.event.hash := r]
  }

  function Handle(m: Pending, i: Input): (Pending, Option<Pair>) {
    (Retained(Updated(m, i), i.later), Completed(Update(Entry(m, i.event.hash, i.now), i.event)))
  }

  class CompactBlockMetrics {
    var pending: Pending
    var pairs: seq<Pair>  // what was counted, in order

    constructor ()
      ensures pending == map[] && pairs == []
    {
      pending, pairs := map[], [];
    }

    method HandleReconstruction(e: LogEvent, now: nat, later: nat)
      modifies this
      ensures var (m, pair) := Handle(old(pending), Input(e, now, later));
        pending == m && pairs == old(pairs) + (if pair.Some? then [pair.value] else [])
    {
      var reconstruction :=
        if e.hash in pending then pending[e.hash] else Reconstruction(None, None, 0, Unknown, now);
      match e {
        case SawHeader(_, at, isCmpctBlock) =>
          reconstruction := reconstruction.(startedAt := Some(at), mode := if isCmpctBlock then High else Low);
        case Reconstructed(_, at, requested) =>
          reconstruction := reconstruction.(endedAt := Some(at), requested := requested);
      }
      pending := pending[e.hash := reconstruction];
      match (reconstruction.startedAt, reconstruction.endedAt) {
        case (Some(start), Some(end)) =>
          var micros := Since(end, start);
          pairs := pairs + [Pair(reconstruction.requested > 0, reconstruction.mode, micros)];
          assert pending - {e.hash} == old(pending) - {e.hash};
          pending := pending - {e.hash};
        case _ =>
      }
      pending := map h | h in pending && Since(later, pending[h].createdAt) < MAX_AGE :: pending[h];
    }
  }

  // ---------- Runs ----------

  /** The event sets what an earlier one had set already. */
  predicate Overwrites(m: Pending, e: LogEvent) {
    e.hash in m && if e.SawHeader? then m[e.hash].startedAt.Some? else m[e.hash].endedAt.Some?
  }

  datatype Ledger = Ledger(pending: Pending, matches: nat, overwritten: nat, expired: nat)

  const START := Ledger(map[], 0, 0, 0)

  function Account(l: Ledger, i: Input): Ledger {
    var (m, pair) := Handle(l.pending, i);
    var updated := Updated(l.pending, i);
    Ledger(m, l.matches + (if pair.Some? then 1 else 0),
           l.overwritten + (if Overwrites(l.pending, i.event) then 1 else 0),
           l.expired + |updated.Keys - m.Keys|)
  }

  function Run(inputs: seq<Input>): Ledger {
    if inputs == [] then START else Account(Run(inputs[..|inputs| - 1]), inputs[|inputs| - 1])
  }

  ghost predicate OneSided(m: Pending) {
    forall h :: h in m ==> m[h].startedAt.Some? != m[h].endedAt.Some?
  }

  ghost predicate Young(m: Pending, now: nat) {
    forall h :: h in m ==> now < m[h].createdAt + 300_000_000_000
  }

  /** The accounting of one event: it completes a pair, overwrites, or adds an entry. */
  lemma UpdateBalances(m: Pending, i: Input)
    requires OneSided(m)
    ensures OneSided(Updated(m, i))
    ensures |Updated(m, i)| + 2 * (if Handle(m, i).1.Some? then 1 else 0) +
            (if Overwrites(m, i.event) then 1 else 0) == |m| + 1
  {
    var hash, updated := i.event.hash, Updated(m, i);
    if Handle(m, i).1.Some? {
      assert hash in m && m == updated[hash := m[hash]];
    } else if hash in m {
      assert updated.Keys == m.Keys;
      assert |updated.Keys| == |updated| && |m.Keys| == |m|;
    }
  }

  /** In every reachable state each entry has exactly one of its ends and is younger than five
      minutes, and every event is accounted for: as half of a completed pair, as a waiting
      entry, as overwritten, or as expired. */
  lemma {:induction false} EventsAreConserved(inputs: seq<Input>)
    ensures var l := Run(inputs);
      && OneSided(l.pending)
      && (inputs != [] ==> Young(l.pending, inputs[|inputs| - 1].later))
      && |inputs| == 2 * l.matches + |l.pending| + l.overwritten + l.expired
  {
    hide Updated, Overwrites;
    if inputs != [] {
      var l, i := Run(inputs[..|inputs| - 1]), inputs[|inputs| - 1];
      EventsAreConserved(inputs[..|inputs| - 1]);
      UpdateBalances(l.pending, i);
      RetainSplits(Updated(l.pending, i), i.later);
    }
  }

  lemma RetainSplits(m: Pending, now: nat)
    ensures var r := Retained(m, now);
      Young(r, now) && |m| == |r| + |m.Keys - r.Keys| && (OneSided(m) ==> OneSided(r))
  {
    var r := Retained(m, now);
    assert m.Keys == r.Keys + (m.Keys - r.Keys);
    assert |m.Keys| == |m| && |r.Keys| == |r|;
  }

  // ---------- What a pair reports ----------

  function LastHeader(hash: string, inputs: seq<Input>): Option<LogEvent> {
    if inputs == [] then None
    else
      var e := inputs[|inputs| - 1].event;
      if e.SawHeader? && e.hash == hash then Some(e) else LastHeader(hash, inputs[..|inputs| - 1])
  }

  function LastReconstruction(hash: string, inputs: seq<Input>): Option<LogEvent> {
    if inputs == [] then None
    else
      var e := inputs[|inputs| - 1].event;
      if e.Reconstructed? && e.hash == hash then Some(e) else LastReconstruction(hash, inputs[..|inputs| - 1])
  }

  /** What an entry knows, it knows from the last events about its block. */
  ghost predicate Remembers(r: Reconstruction, hash: string, inputs: seq<Input>) {
    && (r.startedAt.Some? ==>
        var e := LastHeader(hash, inputs);
        e.Some? && e.value.SawHeader? && r.startedAt.value == e.value.at &&
        r.mode == if e.value.isCmpctBlock then High else Low)
    && (r.endedAt.Some? ==>
        var e := LastReconstruction(hash, inputs);
        e.Some? && e.value.Reconstructed? && r.endedAt.value == e.value.at && r.requested == e.value.requested)
  }

  lemma UpdateRemembers(m: Pending, inputs: seq<Input>, hash: string)
    requires inputs != [] && (hash in m ==> Remembers(m[hash], hash, inputs[..|inputs| - 1]))
    ensures var i := inputs[|inputs| - 1];
      && (hash in m && hash != i.event.hash ==> Remembers(m[hash], hash, inputs))
      && (hash == i.event.hash ==> Remembers(Update(Entry(m, hash, i.now), i.event), hash, inputs))
  {
  }

  lemma {:induction false} EntriesRemember(inputs: seq<Input>, hash: string)
    ensures var m := Run(inputs).pending; hash in m ==> Remembers(m[hash], hash, inputs)
  {
    hide Remembers;
    if inputs != [] {
      EntriesRemember(inputs[..|inputs| - 1], hash);
      UpdateRemembers(Run(inputs[..|inputs| - 1]).pending, inputs, hash);
    }
  }

  /** A completed pair reports the last header and the last reconstruction of its block: the
      duration between them, the mode of that header (so never an unknown one), and whether
      that reconstruction had requested transactions. */
  lemma PairReportsLastEvents(inputs: seq<Input>)
    requires inputs != []
    requires Handle(Run(inputs[..|inputs| - 1]).pending, inputs[|inputs| - 1]).1.Some?
    ensures var i := inputs[|inputs| - 1];
      var (s, e) := (LastHeader(i.event.hash, inputs), LastReconstruction(i.event.hash, inputs));
      && s.Some? && s.value.SawHeader? && e.Some? && e.value.Reconstructed?
      && Handle(Run(inputs[..|inputs| - 1]).pending, i).1.value ==
         Pair(e.value.requested > 0, if s.value.isCmpctBlock then High else Low, Since(e.value.at, s.value.at))
  {
    var i := inputs[|inputs| - 1];
    EntriesRemember(inputs[..|inputs| - 1], i.event.hash);
    UpdateRemembers(Run(inputs[..|inputs| - 1]).pending, inputs, i.event.hash);
  }
  // ---------- Which entries wait, and which events complete a pair ----------

  /** Nothing that goes is younger than five minutes. */
  lemma ExpiredIsOld(m: Pending, i: Input, hash: string)
    requires hash in Updated(m, i) && hash !in Handle(m, i).0
    ensures i.later >= Updated(m, i)[hash].createdAt + 300_000_000_000
  {
    hide Updated;
  }

  /** Event `c` is about this block, all that came since about it is of the same kind, and each
      time that old entries went was less than five minutes after it. */
  ghost predicate Waits(inputs: seq<Input>, hash: string, c: nat) {
    && c < |inputs| && inputs[c].event.hash == hash
    && forall k :: c <= k < |inputs| ==> KeepsWaiting(inputs[c], inputs[k])
  }

  predicate KeepsWaiting(first: Input, i: Input) {
    && i.later < first.now + 300_000_000_000
    && (i.event.hash == first.event.hash ==> i.event.SawHeader? == first.event.SawHeader?)
  }

  /** Event `c` is the one that made the entry of its block: there was none before it, and the
      entry waits since then. */
  ghost predicate WaitsSince(inputs: seq<Input>, hash: string, c: nat) {
    Waits(inputs, hash, c) && hash !in Run(inputs[..c]).pending
  }

  lemma WaitsSnoc(before: seq<Input>, i: Input, hash: string, c: nat)
    requires c < |before|
    ensures WaitsSince(before + [i], hash, c) <==> WaitsSince(before, hash, c) && KeepsWaiting(before[c], i)
  {
    hide Run;
    var inputs := before + [i];
    assert inputs[..c] == before[..c] && inputs[|before|] == i;
    assert forall k :: 0 <= k < |before| ==> inputs[k] == before[k];
  }

  lemma WaitsLast(before: seq<Input>, i: Input, hash: string)
    ensures WaitsSince(before + [i], hash, |before|) <==>
      i.event.hash == hash && i.later < i.now + 300_000_000_000 && hash !in Run(before).pending
  {
    hide Run;
    var inputs := before + [i];
    assert inputs[..|before|] == before && inputs[|before|] == i;
  }

  /** What an entry says of the event that made it. */
  predicate MadeBy(r: Reconstruction, first: Input) {
    && r.createdAt == first.now && r.startedAt.Some? == first.event.SawHeader?
    && r.endedAt.Some? == first.event.Reconstructed?
  }

  lemma EntryKept(m: Pending, i: Input, hash: string, first: Input)
    requires OneSided(m) && first.event.hash == hash && hash in m && MadeBy(m[hash], first)
    ensures hash in Handle(m, i).0 <==> KeepsWaiting(first, i)
    ensures hash in Handle(m, i).0 ==> MadeBy(Handle(m, i).0[hash], first)
  {
  }

  lemma EntryMade(m: Pending, i: Input, hash: string)
    requires hash !in m
    ensures hash in Handle(m, i).0 <==> i.event.hash == hash && i.later < i.now + 300_000_000_000
    ensures hash in Handle(m, i).0 ==> MadeBy(Handle(m, i).0[hash], i)
  {
  }

  /** The entry is there if and only if some event waits, and then it was made by that event. */
  ghost predicate EntryIsWaiting(m: Pending, inputs: seq<Input>, hash: string) {
    && (hash in m <==> exists c: nat :: WaitsSince(inputs, hash, c))
    && (forall c: nat :: WaitsSince(inputs, hash, c) ==> c < |inputs| && hash in m && MadeBy(m[hash], inputs[c]))
  }

  lemma WaitsNext(before: seq<Input>, i: Input, hash: string, c: nat)
    ensures WaitsSince(before + [i], hash, c) <==>
      || (c < |before| && WaitsSince(before, hash, c) && KeepsWaiting(before[c], i))
      || (c == |before| && i.event.hash == hash && i.later < i.now + 300_000_000_000 && hash !in Run(before).pending)
  {
    hide WaitsSince, Run;
    WaitsLast(before, i, hash);
    if c < |before| {
      WaitsSnoc(before, i, hash, c);
    } else if WaitsSince(before + [i], hash, c) {
      WaitsInRange(before + [i], hash, c);
    }
  }

  lemma NextEntry(before: seq<Input>, i: Input, hash: string)
    requires var m := Run(before).pending; OneSided(m) && EntryIsWaiting(m, before, hash)
    ensures EntryIsWaiting(Handle(Run(before).pending, i).0, before + [i], hash)
  {
    hide Run, Handle, MadeBy, WaitsSince, KeepsWaiting, OneSided;
    var m, inputs := Run(before).pending, before + [i];
    var next := Handle(m, i).0;
    if hash in m {
      var c: nat :| WaitsSince(before, hash, c);
      WaitsInRange(before, hash, c);
      EntryKept(m, i, hash, before[c]);
      WaitsNext(before, i, hash, c);
      assert hash in next ==> WaitsSince(inputs, hash, c);
    } else {
      EntryMade(m, i, hash);
      WaitsNext(before, i, hash, |before|);
      assert hash in next ==> WaitsSince(inputs, hash, |before|);
    }
    forall c: nat | WaitsSince(inputs, hash, c)
      ensures c < |inputs| && hash in next && MadeBy(next[hash], inputs[c])
    {
      WaitsNext(before, i, hash, c);
      if c < |before| {
        WaitsInRange(before, hash, c);
        EntryKept(m, i, hash, before[c]);
      } else {
        EntryMade(m, i, hash);
      }
    }
  }

  lemma NothingWaits(hash: string)
    ensures EntryIsWaiting(Run([]).pending, [], hash)
  {
  }

  lemma WaitsInRange(inputs: seq<Input>, hash: string, c: nat)
    requires WaitsSince(inputs, hash, c)
    ensures c < |inputs| && inputs[c].event.hash == hash
  {
  }

  lemma PendingNext(before: seq<Input>, i: Input)
    ensures Run(before + [i]).pending == Handle(Run(before).pending, i).0
  {
    assert (before + [i])[..|before|] == before;
  }

  /** In every run there is an entry for a block if and only if there is an event that made one
      and waits since then: nothing of the other kind came, and old entries always went less than
      five minutes after it. */
  lemma {:induction false} EntryWaits(inputs: seq<Input>, hash: string)
    ensures EntryIsWaiting(Run(inputs).pending, inputs, hash)
  {
    hide EntryIsWaiting, Handle, Run;
    if inputs == [] {
      NothingWaits(hash);
    } else {
      var before, i := inputs[..|inputs| - 1], inputs[|inputs| - 1];
      assert inputs == before + [i];
      EntryWaits(before, hash);
      EventsAreConserved(before);
      PendingNext(before, i);
      NextEntry(before, i, hash);
    }
  }

  /** An event completes a pair if and only if an event of the other kind about its block waits. */
  lemma PairIff(inputs: seq<Input>, i: Input)
    ensures Handle(Run(inputs).pending, i).1.Some? <==>
      exists c: nat :: WaitsSince(inputs, i.event.hash, c) && c < |inputs| &&
        inputs[c].event.SawHeader? != i.event.SawHeader?
  {
    hide Run, WaitsSince;
    var m := Run(inputs).pending;
    EntryWaits(inputs, i.event.hash);
    EventsAreConserved(inputs);
    if Handle(m, i).1.Some? {
      var c: nat :| WaitsSince(inputs, i.event.hash, c);
      assert MadeBy(m[i.event.hash], inputs[c]);
    }
  }

  /** A block reconstructed within five minutes of its header is reported. */
  lemma PairWithinFiveMinutes(hash: string, at: nat, cmpct: bool, end: nat, requested: nat, now: nat, later: nat)
    requires later < 300_000_000_000
    ensures var header := Input(SawHeader(hash, at, cmpct), 0, later);
      Handle(Run([header]).pending, Input(Reconstructed(hash, end, requested), now, now)).1 ==
      Some(Pair(requested > 0, if cmpct then High else Low, Since(end, at)))
  {
    var header := Input(SawHeader(hash, at, cmpct), 0, later);
    assert [header][..0] == [];
    assert Run([header]).pending == Handle(map[], header).0;
  }
}
