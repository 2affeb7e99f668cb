/** What holds over every run of the alerts tool: when exactly it alerts, the protocol that
    the alerts of a peer follow, and how much state it can hold. */
module AlertTrace {
  import opened Basics
  import opened SlidingWindow
  import opened AlertMachine

  // ---------- The windows in terms of the whole history ----------

  /** An inbound message of the peer, of whatever kind. */
  predicate SeenIn(id: nat, e: Event) {
    e.Message? && e.inbound && e.peerId == id
  }

  predicate IsHit(id: nat, kind: SpammerKind, e: Event) {
    SeenIn(id, e) && e.kind == Some(kind)
  }

  /** The times of the hits of one kind since the entry of peer `id` was created. */
  function Hits(args: Args, id: nat, kind: SpammerKind, events: seq<Event>): seq<nat> {
    if events == [] || PeerRun(args, id, events).0.None? then []
    else
      var e := events[|events| - 1];
      Hits(args, id, kind, events[..|events| - 1]) + if IsHit(id, kind, e) then [e.now] else []
  }

  lemma {:induction false} NoPeerNoHits(args: Args, id: nat, kind: SpammerKind, events: seq<Event>)
    requires PeerRun(args, id, events).0.None?
    ensures Hits(args, id, kind, events) == []
  {
  }

  lemma WindowStep(args: Args, id: nat, kind: SpammerKind, p: Option<Peer>, e: Event)
    requires PeerStep(args, id, p, e).0.Some?
    ensures var w := if p.Some? then p.value.Of(kind) else EMPTY;
      PeerStep(args, id, p, e).0.value.Of(kind) ==
      if IsHit(id, kind, e) then Hit(w, e.now, args.Span(kind), args.Threshold(kind)).0 else w
  {
    hide Hit;
  }

  lemma {:induction false} WindowIsHistory(args: Args, id: nat, kind: SpammerKind, events: seq<Event>)
    requires PeerRun(args, id, events).0.Some?
    ensures PeerRun(args, id, events).0.value.Of(kind) ==
            After(Hits(args, id, kind, events), args.Span(kind), args.Threshold(kind))
  {
    hide Hit, PeerStep, IsHit;
    var before, e := events[..|events| - 1], events[|events| - 1];
    var p := PeerRun(args, id, before).0;
    WindowStep(args, id, kind, p, e);
    if p.Some? {
      WindowIsHistory(args, id, kind, before);
    } else {
      NoPeerNoHits(args, id, kind, before);
    }
    var h := Hits(args, id, kind, before);
    if IsHit(id, kind, e) {
      assert (h + [e.now])[..|h|] == h;
    } else {
      assert h + [] == h;
    }
  }

  lemma {:induction false} HitsAreSorted(args: Args, id: nat, kind: SpammerKind, events: seq<Event>)
    requires Admissible(args, events)
    ensures var h := Hits(args, id, kind, events);
      Sorted(h) && (h != [] ==> events != [] && h[|h| - 1] <= events[|events| - 1].now)
  {
    hide PeerRun, Run, Enumerates;
    if events != [] {
      HitsAreSorted(args, id, kind, events[..|events| - 1]);
    }
  }

  /** The limits of the command line for each kind. */
  function Limit(args: Args, kind: SpammerKind): nat {
    if kind == Ping then args.pingThreshold else args.addrThreshold
  }

  function Seconds(args: Args, kind: SpammerKind): nat {
    if kind == Ping then args.pingWindowSecs else args.addrWindowSecs
  }

  /** The alert that the last of the hits `h` calls for: it is the first to end a stretch of more
      than the limit of hits no longer than the window, and the alert reports one more than the
      limit. */
  ghost function AlertFor(args: Args, id: nat, kind: SpammerKind, addr: string, h: seq<nat>): seq<Alert>
    requires h != []
  {
    if FirstCrowded(h, |h| - 1, Seconds(args, kind) * 1_000_000_000, Limit(args, kind))
    then [Spammer(kind, id, addr, Limit(args, kind) + 1, Seconds(args, kind), Limit(args, kind))]
    else []
  }

  /** The alert law of a whole run: an inbound ping or address message makes the tool emit
      exactly the alert that the hits of its peer call for, all those since the tool knows the
      peer. */
  lemma AlertsExactlyAtFirstCrowded(args: Args, events: seq<Event>, id: nat, kind: SpammerKind)
    requires events != [] && Admissible(args, events) && IsHit(id, kind, events[|events| - 1])
    ensures Hits(args, id, kind, events) != [] && id in Run(args, events).0
    ensures Step(args, Run(args, events[..|events| - 1]).0, events[|events| - 1]).1 ==
            AlertFor(args, id, kind, Run(args, events).0[id].peerAddr, Hits(args, id, kind, events))
  {
    hide PeerRun, Run, Hits, AlertFor, Step, PeerStep, OfPeer, Enumerates;
    PeersAreIndependent(args, events[..|events| - 1], id);
    hide Admissible;
    PeersAreIndependent(args, events, id);
    OwnAlert(args, events, id, kind);
    OwnMessage(args, Run(args, events[..|events| - 1]).0, events[|events| - 1], id);
  }

  lemma OwnMessage(args: Args, peers: map<nat, Peer>, e: Event, id: nat)
    requires e.Message? && e.peerId == id
    ensures Step(args, peers, e).1 == PeerStep(args, id, Get(peers, id), e).1
  {
  }

  lemma HitsSnoc(args: Args, id: nat, kind: SpammerKind, events: seq<Event>)
    requires events != [] && IsHit(id, kind, events[|events| - 1])
    ensures PeerRun(args, id, events).0.Some?
    ensures var h := Hits(args, id, kind, events);
      h == Hits(args, id, kind, events[..|events| - 1]) + [events[|events| - 1].now]
  {
  }

  lemma OwnAlert(args: Args, events: seq<Event>, id: nat, kind: SpammerKind)
    requires events != [] && Admissible(args, events) && IsHit(id, kind, events[|events| - 1])
    ensures PeerRun(args, id, events).0.Some? && Hits(args, id, kind, events) != []
    ensures PeerStep(args, id, PeerRun(args, id, events[..|events| - 1]).0, events[|events| - 1]).1 ==
            AlertFor(args, id, kind, PeerRun(args, id, events).0.value.peerAddr, Hits(args, id, kind, events))
  {
    hide Hit, FirstCrowded, Hits, Admissible;
    var before, e := events[..|events| - 1], events[|events| - 1];
    var h, p := Hits(args, id, kind, events), PeerRun(args, id, before).0;
    HitsSnoc(args, id, kind, events);
    assert h[..|h| - 1] == Hits(args, id, kind, before) && h[|h| - 1] == e.now;
    if p.Some? {
      WindowIsHistory(args, id, kind, before);
    } else {
      NoPeerNoHits(args, id, kind, before);
    }
    HitsAreSorted(args, id, kind, events);
    AlertsAtFirstCrowded(h, args.Span(kind), args.Threshold(kind));
  }

  /** The time of the last inbound message of a peer, of whatever kind. */
  function LastMessage(id: nat, events: seq<Event>): nat {
    if events == [] then 0
    else
      var e := events[|events| - 1];
      if SeenIn(id, e) then e.now else LastMessage(id, events[..|events| - 1])
  }

  /** The address in the message that made the peer known. */
  function FirstAddress(args: Args, id: nat, events: seq<Event>): string {
    if events == [] then ""
    else
      var before, e := events[..|events| - 1], events[|events| - 1];
      if PeerRun(args, id, before).0.None? && e.Message? then e.addr else FirstAddress(args, id, before)
  }

  lemma {:induction false} OwnFacts(args: Args, id: nat, events: seq<Event>)
    requires PeerRun(args, id, events).0.Some?
    ensures var p := PeerRun(args, id, events).0.value;
      p.lastSeen == LastMessage(id, events) && p.peerAddr == FirstAddress(args, id, events)
  {
    hide Hit;
    if PeerRun(args, id, events[..|events| - 1]).0.Some? {
      OwnFacts(args, id, events[..|events| - 1]);
    }
  }

  /** In every reachable state a peer was last seen at its last inbound message, and has the
      address that it had when it became known. */
  lemma SeenAtLastMessage(args: Args, events: seq<Event>, id: nat)
    requires Admissible(args, events) && id in Run(args, events).0
    ensures var p := Run(args, events).0[id];
      p.lastSeen == LastMessage(id, events) && p.peerAddr == FirstAddress(args, id, events)
  {
    PeersAreIndependent(args, events, id);
    OwnFacts(args, id, events);
  }

  // ---------- The protocol of the alerts of one peer ----------

  /** Where a peer's alerts stand: outside a block, or in a block that a first spammer alert
      opened at `since` with the kinds alerted so far. */
  datatype Block = Idle | Open(addr: string, since: nat, kinds: set<SpammerKind>) | Broken

  /** One alert further. A block has at most one spammer alert of each kind, all with one
      address, and ends with a disconnection for that address, which tells the whole seconds
      since the block was opened. */
  function Follow(args: Args, id: nat, b: Block, e: Emitted): Block {
    match e.alert
    case Spammer(kind, peerId, addr, count, windowSecs, threshold) =>
      if peerId != id || threshold != Limit(args, kind) || count != threshold + 1 ||
         windowSecs != Seconds(args, kind) then
        Broken
      else (match b
        case Idle => Open(addr, e.at, {kind})
        case Open(a, since, kinds) => if a == addr && kind !in kinds then Open(a, since, kinds + {kind}) else Broken
        case Broken => Broken)
    case PeerDisconnected(peerId, addr, activeSecs) =>
      if b.Open? && peerId == id && addr == b.addr && b.since <= e.at &&
         activeSecs == (e.at - b.since) / 1_000_000_000 then Idle
      else Broken
  }

  function Parse(args: Args, id: nat, trace: seq<Emitted>): Block {
    if trace == [] then Idle else Follow(args, id, Parse(args, id, trace[..|trace| - 1]), trace[|trace| - 1])
  }

  function AlertedKinds(p: Peer): set<SpammerKind> {
    (if p.ping.alertedAt.Some? then {Ping} else {}) + (if p.addr.alertedAt.Some? then {Addr} else {})
  }

  /** The block that the tool's state of a peer stands for. */
  function BlockOf(p: Option<Peer>): Block {
    if p.None? || FirstAlertedAt(p.value).None? then Idle
    else Open(p.value.peerAddr, FirstAlertedAt(p.value).value, AlertedKinds(p.value))
  }

  ghost predicate FlagsPast(p: Option<Peer>, now: nat) {
    p.Some? ==>
      && (p.value.ping.alertedAt.Some? ==> p.value.ping.alertedAt.value <= now)
      && (p.value.addr.alertedAt.Some? ==> p.value.addr.alertedAt.value <= now)
  }

  lemma GoneFollows(args: Args, id: nat, p: Peer, now: nat)
    requires FlagsPast(Some(p), now)
    ensures var alerts := DisconnectAlert(id, p, now);
      if alerts == [] then BlockOf(Some(p)) == Idle
      else |alerts| == 1 && Follow(args, id, BlockOf(Some(p)), Emitted(now, alerts[0])) == Idle
  {
  }

  lemma CheckFollows(args: Args, id: nat, p: Peer, kind: SpammerKind, now: nat)
    requires FlagsPast(Some(p), now)
    requires var count := Hit(p.Of(kind), now, args.Span(kind), args.Threshold(kind)).1;
      count.Some? ==> count.value == args.Threshold(kind) + 1
    ensures var (q, alerts) := Check(args, p, kind, id, now);
      && FlagsPast(Some(q), now)
      && if alerts == [] then BlockOf(Some(q)) == BlockOf(Some(p))
         else |alerts| == 1 && BlockOf(Some(q)) == Follow(args, id, BlockOf(Some(p)), Emitted(now, alerts[0]))
  {
  }

  /** What one event of the peer itself means for the block. */
  lemma StepFollows(args: Args, id: nat, p: Option<Peer>, e: Event)
    requires FlagsPast(p, e.now)
    requires forall i :: 0 <= i < |PeerStep(args, id, p, e).1| ==>
      PeerStep(args, id, p, e).1[i].Spammer? ==>
      PeerStep(args, id, p, e).1[i].count == PeerStep(args, id, p, e).1[i].threshold + 1
    ensures var (q, alerts) := PeerStep(args, id, p, e);
      && FlagsPast(q, e.now)
      && if alerts == [] then BlockOf(q) == BlockOf(p)
         else |alerts| == 1 && BlockOf(q) == Follow(args, id, BlockOf(p), Emitted(e.now, alerts[0]))
  {
    hide Hit, Follow, DisconnectAlert;
    if e.Message? {
      if e.inbound && e.peerId == id && e.kind.Some? {
        var seen := SeenAt(p, e.addr, e.now);
        var alerts := PeerStep(args, id, p, e).1;
        assert alerts != [] ==> alerts[0].Spammer?;
        CheckFollows(args, id, seen, e.kind.value, e.now);
      }
    } else if p.Some? {
      GoneFollows(args, id, p.value, e.now);
    }
  }

  lemma {:induction false} OwnTraceFollows(args: Args, events: seq<Event>, id: nat)
    requires Admissible(args, events)
    ensures var (p, trace) := PeerRun(args, id, events);
      && Parse(args, id, trace) == BlockOf(p)
      && (events != [] ==> FlagsPast(p, events[|events| - 1].now))
  {
    hide PeerStep, Enumerates, Run, Follow;
    if events == [] {
      assert PeerRun(args, id, events) == (None, []);
    } else {
      hide BlockOf;
      var before, e := events[..|events| - 1], events[|events| - 1];
      OwnTraceFollows(args, before, id);
      var (p, trace) := PeerRun(args, id, before);
      var alerts := PeerStep(args, id, p, e).1;
      CountsAreRight(args, events, id);
      assert FlagsPast(p, e.now);
      StepFollows(args, id, p, e);
      if alerts == [] {
        assert PeerRun(args, id, events).1 == trace;
      } else {
        assert PeerRun(args, id, events).1 == trace + [Emitted(e.now, alerts[0])];
        assert (trace + [Emitted(e.now, alerts[0])])[..|trace|] == trace;
      }
    }
  }

  lemma CountsAreRight(args: Args, events: seq<Event>, id: nat)
    requires events != [] && Admissible(args, events)
    ensures var alerts := PeerStep(args, id, PeerRun(args, id, events[..|events| - 1]).0, events[|events| - 1]).1;
      forall i :: 0 <= i < |alerts| ==> alerts[i].Spammer? ==> alerts[i].count == alerts[i].threshold + 1
  {
    hide PeerRun, Hits, FirstCrowded, Admissible;
    var e := events[|events| - 1];
    if e.Message? && e.kind.Some? && IsHit(id, e.kind.value, e) {
      OwnAlert(args, events, id, e.kind.value);
    }
  }

  /** In every run the alerts of each peer follow the protocol, and a block is open exactly
      when the tool still knows the peer and has flagged it. */
  lemma AlertsFollowProtocol(args: Args, events: seq<Event>, id: nat)
    requires Admissible(args, events)
    ensures var (peers, trace) := Run(args, events);
      Parse(args, id, OfPeer(id, trace)) == BlockOf(Get(peers, id)) != Broken
  {
    PeersAreIndependent(args, events, id);
    OwnTraceFollows(args, events, id);
  }

  // ---------- Bounded state ----------

  /** In every reachable state every queue is sorted and holds at most `threshold + 1` times,
      and none of them grows once its kind has been alerted. */
  lemma QueuesAreBounded(args: Args, events: seq<Event>, id: nat, kind: SpammerKind, now: nat)
    requires Admissible(args, events) && id in Run(args, events).0
    ensures var w := Run(args, events).0[id].Of(kind);
      && Sorted(w.timestamps) && |w.timestamps| <= Limit(args, kind) + 1
      && (w.alertedAt.Some? ==> Hit(w, now, args.Span(kind), args.Threshold(kind)).0 == w)
  {
    PeersAreIndependent(args, events, id);
    WindowIsHistory(args, id, kind, events);
    HitsAreSorted(args, id, kind, events);
    WindowIsBounded(Hits(args, id, kind, events), now, args.Span(kind), args.Threshold(kind));
  }

  /** The time of the last cleanup tick; the first one is at the start. */
  function LastTick(start: nat, events: seq<Event>): nat {
    if events == [] then start
    else if events[|events| - 1].Cleanup? then events[|events| - 1].now
    else LastTick(start, events[..|events| - 1])
  }

  ghost predicate StartsAt(start: nat, events: seq<Event>) {
    events != [] ==> start <= events[0].now
  }

  lemma {:induction false} SeenSinceTick(args: Args, start: nat, events: seq<Event>, id: nat)
    requires StartsAt(start, events)
    requires Admissible(args, events) && PeerRun(args, id, events).0.Some?
    ensures Since(LastTick(start, events), PeerRun(args, id, events).0.value.lastSeen) <= args.StaleAfter()
  {
    hide Enumerates, Run, Hit;
    var before, e := events[..|events| - 1], events[|events| - 1];
    if PeerRun(args, id, before).0.Some? {
      SeenSinceTick(args, start, before, id);
    }
    if !e.Cleanup? {
      TickIsPast(args, start, before, e.now);
    }
  }

  lemma {:induction false} TickIsPast(args: Args, start: nat, events: seq<Event>, now: nat)
    requires Admissible(args, events) && StartsAt(start, events)
    requires if events == [] then start <= now else events[|events| - 1].now <= now
    ensures LastTick(start, events) <= now
  {
    hide Enumerates, Run;
    if events != [] {
      TickIsPast(args, start, events[..|events| - 1], now);
    }
  }

  /** When the last tick is never longer ago than the stale time, no peer the tool knows was
      last seen more than twice the stale time ago. */
  lemma NoPeerIsForgotten(args: Args, start: nat, events: seq<Event>, id: nat, now: nat)
    requires Admissible(args, events) && id in Run(args, events).0
    requires StartsAt(start, events)
    requires Since(now, LastTick(start, events)) <= args.StaleAfter()
    ensures Since(now, Run(args, events).0[id].lastSeen) <= 2 * args.StaleAfter()
  {
    PeersAreIndependent(args, events, id);
    SeenSinceTick(args, start, events, id);
  }

  /** A cleanup leaves the peers whose last message is at most the stale time ago, as they were,
      and removes all others. */
  lemma CleanupIsExact(args: Args, peers: map<nat, Peer>, order: seq<nat>, now: nat)
    requires Enumerates(order, StaleIds(args, peers, now))
    ensures Step(args, peers, Cleanup(order, now)).0 ==
            map id | id in peers && now <= peers[id].lastSeen + args.peerStaleSecs * 1_000_000_000 :: peers[id]
  {
    var left := Evict(peers, order, now).0;
    forall id
      ensures Get(left, id) ==
              if id in peers && now <= peers[id].lastSeen + args.peerStaleSecs * 1_000_000_000 then Some(peers[id])
              else None
    {
      EvictRemoves(peers, order, now, id);
      assert id in order <==> id in StaleIds(args, peers, now);
    }
    assert forall id :: id in left <==> Get(left, id).Some?;
  }

  // ---------- Which peers are known ----------

  /** Leaves the entry of a peer that was last seen at `seen`. */
  predicate Spares(args: Args, id: nat, seen: nat, e: Event) {
    match e
    case Message(_, _, _, _, _) => true
    case Closed(peerId, _) => peerId != id
    case Cleanup(_, now) => now <= seen + args.peerStaleSecs * 1_000_000_000
  }

  /** Event `m` is the last inbound message of the peer, and since then neither was its connection
      closed nor a cleanup more than the stale time behind that message. */
  ghost predicate KnownSince(args: Args, id: nat, events: seq<Event>, m: nat) {
    && m < |events| && SeenIn(id, events[m])
    && forall k :: m < k < |events| ==> !SeenIn(id, events[k]) && Spares(args, id, events[m].now, events[k])
  }

  lemma KnownSnoc(args: Args, id: nat, before: seq<Event>, e: Event, m: nat)
    ensures KnownSince(args, id, before + [e], m) <==>
      || (m == |before| && SeenIn(id, e))
      || (KnownSince(args, id, before, m) && !SeenIn(id, e) && Spares(args, id, before[m].now, e))
  {
    var events := before + [e];
    assert events[|before|] == e && forall k :: 0 <= k < |before| ==> events[k] == before[k];
  }

  lemma {:induction false} LastMessageAt(args: Args, id: nat, events: seq<Event>, m: nat)
    requires KnownSince(args, id, events, m)
    ensures LastMessage(id, events) == events[m].now
  {
    var before, e := events[..|events| - 1], events[|events| - 1];
    assert events == before + [e];
    KnownSnoc(args, id, before, e, m);
    if m < |before| {
      LastMessageAt(args, id, before, m);
    }
  }

  lemma {:induction false} OwnKnown(args: Args, id: nat, events: seq<Event>)
    ensures PeerRun(args, id, events).0.Some? <==> exists m :: KnownSince(args, id, events, m)
  {
    hide KnownSince, Hit;
    if events == [] {
      NothingKnown(args, id);
    } else {
      var before, e := events[..|events| - 1], events[|events| - 1];
      assert events == before + [e];
      var p := PeerRun(args, id, before).0;
      OwnKnown(args, id, before);
      forall m ensures KnownSince(args, id, events, m) <==>
        || (m == |before| && SeenIn(id, e))
        || (KnownSince(args, id, before, m) && !SeenIn(id, e) && Spares(args, id, LastMessage(id, before), e))
      {
        KnownSnoc(args, id, before, e, m);
        if KnownSince(args, id, before, m) {
          LastMessageAt(args, id, before, m);
        }
      }
      if p.Some? {
        OwnFacts(args, id, before);
      }
      OwnStep(args, id, p, e);
      if SeenIn(id, e) {
        assert KnownSince(args, id, events, |before|);
      } else if p.Some? && Spares(args, id, LastMessage(id, before), e) {
        var m :| KnownSince(args, id, before, m);
        assert KnownSince(args, id, events, m);
      }
    }
  }

  lemma NothingKnown(args: Args, id: nat)
    ensures PeerRun(args, id, []).0.None? && forall m :: !KnownSince(args, id, [], m)
  {
  }

  lemma OwnStep(args: Args, id: nat, p: Option<Peer>, e: Event)
    ensures PeerStep(args, id, p, e).0.Some? <==> SeenIn(id, e) || (p.Some? && Spares(args, id, p.value.lastSeen, e))
  {
    hide Hit;
  }

  /** In every run the tool knows a peer if and only if it has an inbound message since which
      neither its connection was closed nor a cleanup came more than the stale time later. */
  lemma KnownIff(args: Args, events: seq<Event>, id: nat)
    requires Admissible(args, events)
    ensures id in Run(args, events).0 <==> exists m :: KnownSince(args, id, events, m)
  {
    hide KnownSince;
    PeersAreIndependent(args, events, id);
    OwnKnown(args, id, events);
    assert id in Run(args, events).0 <==> Get(Run(args, events).0, id).Some?;
  }
}
