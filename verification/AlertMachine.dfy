/** The alerts tool as a state machine over the events it handles: which alerts a run emits,
    what the alerts of one peer look like, and that peers do not influence each other. */
module AlertMachine {
  import opened Basics
  import opened SlidingWindow

  const NANOS_PER_SEC: nat := 1_000_000_000

  datatype SpammerKind = Ping | Addr

  datatype Args = Args(pingThreshold: nat, pingWindowSecs: nat, addrThreshold: nat, addrWindowSecs: nat,
                       peerStaleSecs: nat) {
    function Threshold(kind: SpammerKind): nat {
      match kind case Ping => pingThreshold case Addr => addrThreshold
    }

    function WindowSecs(kind: SpammerKind): nat {
      match kind case Ping => pingWindowSecs case Addr => addrWindowSecs
    }

    function Span(kind: SpammerKind): nat {
      WindowSecs(kind) * NANOS_PER_SEC
    }

    function StaleAfter(): nat {
      peerStaleSecs * NANOS_PER_SEC
    }
  }

  datatype Alert =
    | Spammer(kind: SpammerKind, peerId: nat, addr: string, count: nat, windowSecs: nat, threshold: nat)
    | PeerDisconnected(peerId: nat, addr: string, activeSecs: nat)

  datatype Peer = Peer(ping: Window, addr: Window, lastSeen: nat, peerAddr: string) {
    function Of(kind: SpammerKind): Window {
      match kind case Ping => ping case Addr => addr
    }

    function With(kind: SpammerKind, w: Window): Peer {
      match kind case Ping => this.(ping := w) case Addr => this.(addr := w)
    }
  }

  function NewPeer(peerAddr: string, now: nat): Peer {
    Peer(EMPTY, EMPTY, now, peerAddr)
  }

  /** What arrives. The order of a cleanup is the order in which the stale peers come out of
      the hash map. */
  datatype Event =
    | Message(inbound: bool, peerId: nat, addr: string, kind: Option<SpammerKind>, now: nat)
    | Closed(peerId: nat, now: nat)
    | Cleanup(order: seq<nat>, now: nat)

  // ---------- Steps ----------

  function Check(args: Args, p: Peer, kind: SpammerKind, peerId: nat, now: nat): (Peer, seq<Alert>) {
    var (w, count) := Hit(p.Of(kind), now, args.Span(kind), args.Threshold(kind));
    (p.With(kind, w),
     if count.None? then []
     else [Spammer(kind, peerId, p.peerAddr, count.value, args.WindowSecs(kind), args.Threshold(kind))])
  }

  function FirstAlertedAt(p: Peer): Option<nat> {
    match (p.ping.alertedAt, p.addr.alertedAt)
    case (None, a) => a
    case (Some(t), None) => Some(t)
    case (Some(t), Some(u)) => Some(if t <= u then t else u)
  }

  function DisconnectAlert(peerId: nat, p: Peer, now: nat): seq<Alert> {
    match FirstAlertedAt(p)
    case None => []
    case Some(t) => [PeerDisconnected(peerId, p.peerAddr, Since(now, t) / NANOS_PER_SEC)]
  }

  predicate IsStale(args: Args, p: Peer, now: nat) {
    Since(now, p.lastSeen) > args.StaleAfter()
  }

  function StaleIds(args: Args, peers: map<nat, Peer>, now: nat): set<nat> {
    set id | id in peers && IsStale(args, peers[id], now)
  }

  ghost predicate Distinct(order: seq<nat>) {
    forall i, j :: 0 <= i < j < |order| ==> order[i] != order[j]
  }

  ghost predicate Enumerates(order: seq<nat>, ids: set<nat>) {
    Distinct(order) && forall id :: id in ids <==> id in order
  }

  /** Removes the listed peers one after the other. */
  function Evict(peers: map<nat, Peer>, order: seq<nat>, now: nat): (map<nat, Peer>, seq<Alert>) {
    if order == [] then (peers, [])
    else
      var (rest, alerts) := Evict(peers, order[..|order| - 1], now);
      var id := order[|order| - 1];
      if id in rest then (rest - {id}, alerts + DisconnectAlert(id, rest[id], now)) else (rest, alerts)
  }

  /** The entry of a peer that has just been seen, created if there was none. */
  function SeenAt(p: Option<Peer>, addr: string, now: nat): Peer {
    if p.Some? then p.value.(lastSeen := now) else NewPeer(addr, now)
  }

  /** What a message does to the entry of its peer. */
  function Touch(args: Args, p: Option<Peer>, peerId: nat, addr: string, kind: Option<SpammerKind>, now: nat)
    : (Peer, seq<Alert>)
  {
    var seen := SeenAt(p, addr, now);
    if kind.None? then (seen, []) else Check(args, seen, kind.value, peerId, now)
  }

  function Get(peers: map<nat, Peer>, id: nat): Option<Peer> {
    if id in peers then Some(peers[id]) else None
  }

  function Step(args: Args, peers: map<nat, Peer>, e: Event): (map<nat, Peer>, seq<Alert>) {
    match e
    case Message(inbound, id, addr, kind, now) =>
      if !inbound then (peers, [])
      else var (p, alerts) := Touch(args, Get(peers, id), id, addr, kind, now); (peers[id := p], alerts)
    case Closed(id, now) =>
      if id in peers then (peers - {id}, DisconnectAlert(id, peers[id], now)) else (peers, [])
    case Cleanup(order, now) => Evict(peers, order, now)
  }

  // ---------- Runs ----------

  datatype Emitted = Emitted(at: nat, alert: Alert)

  function Stamp(alerts: seq<Alert>, now: nat): (trace: seq<Emitted>)
    ensures |trace| == |alerts| && forall i :: 0 <= i < |alerts| ==> trace[i] == Emitted(now, alerts[i])
  {
    seq(|alerts|, i requires 0 <= i < |alerts| => Emitted(now, alerts[i]))
  }

  function Run(args: Args, events: seq<Event>): (map<nat, Peer>, seq<Emitted>) {
    if events == [] then (map[], [])
    else
      var (peers, trace) := Run(args, events[..|events| - 1]);
      var e := events[|events| - 1];
      var (peers', alerts) := Step(args, peers, e);
      (peers', trace + Stamp(alerts, e.now))
  }

  /** Time does not go back, and each cleanup removes the peers that are stale at that time,
      in some order. */
  ghost predicate Admissible(args: Args, events: seq<Event>) {
    events != [] ==>
      var before, e := events[..|events| - 1], events[|events| - 1];
      && Admissible(args, before)
      && (before != [] ==> before[|before| - 1].now <= e.now)
      && (e.Cleanup? ==> Enumerates(e.order, StaleIds(args, Run(args, before).0, e.now)))
  }

  function OfPeer(id: nat, trace: seq<Emitted>): seq<Emitted> {
    if trace == [] then []
    else OfPeer(id, trace[..|trace| - 1]) +
         if trace[|trace| - 1].alert.peerId == id then [trace[|trace| - 1]] else []
  }

  // ---------- One peer on its own ----------

  /** What one event means for peer `id` alone; the order of a cleanup plays no role. */
  function PeerStep(args: Args, id: nat, p: Option<Peer>, e: Event): (Option<Peer>, seq<Alert>) {
    match e
    case Message(inbound, peerId, addr, kind, now) =>
      if !inbound || peerId != id then (p, [])
      else var (q, alerts) := Touch(args, p, id, addr, kind, now); (Some(q), alerts)
    case Closed(peerId, now) =>
      if peerId == id && p.Some? then (None, DisconnectAlert(id, p.value, now)) else (p, [])
    case Cleanup(_, now) =>
      if p.Some? && IsStale(args, p.value, now) then (None, DisconnectAlert(id, p.value, now)) else (p, [])
  }

  function PeerRun(args: Args, id: nat, events: seq<Event>): (Option<Peer>, seq<Emitted>) {
    if events == [] then (None, [])
    else
      var (p, trace) := PeerRun(args, id, events[..|events| - 1]);
      var e := events[|events| - 1];
      var (p', alerts) := PeerStep(args, id, p, e);
      (p', trace + Stamp(alerts, e.now))
  }

  lemma {:induction false} OfPeerAppend(id: nat, s: seq<Emitted>, t: seq<Emitted>)
    ensures OfPeer(id, s + t) == OfPeer(id, s) + OfPeer(id, t)
  {
    if t == [] {
      assert s + t == s;
    } else {
      assert (s + t)[..|s + t| - 1] == s + t[..|t| - 1];
      OfPeerAppend(id, s, t[..|t| - 1]);
    }
  }

  lemma {:induction false} OfPeerAll(id: nat, t: seq<Emitted>)
    requires forall i :: 0 <= i < |t| ==> t[i].alert.peerId == id
    ensures OfPeer(id, t) == t
  {
    if t != [] {
      OfPeerAll(id, t[..|t| - 1]);
    }
  }

  lemma {:induction false} OfPeerNone(id: nat, t: seq<Emitted>)
    requires forall i :: 0 <= i < |t| ==> t[i].alert.peerId != id
    ensures OfPeer(id, t) == []
  {
    if t != [] {
      OfPeerNone(id, t[..|t| - 1]);
    }
  }

  lemma {:induction false} EvictRemoves(peers: map<nat, Peer>, order: seq<nat>, now: nat, id: nat)
    ensures Get(Evict(peers, order, now).0, id) == if id in order then None else Get(peers, id)
  {
    if order != [] {
      var before, last := order[..|order| - 1], order[|order| - 1];
      EvictRemoves(peers, before, now, id);
      assert order == before + [last];
    }
  }

  lemma OfPeerSame(id: nat, peerId: nat, alerts: seq<Alert>, more: seq<Alert>, now: nat)
    requires forall i :: 0 <= i < |more| ==> more[i].peerId == peerId
    ensures OfPeer(id, Stamp(alerts + more, now)) ==
            OfPeer(id, Stamp(alerts, now)) + if peerId == id then Stamp(more, now) else []
  {
    assert Stamp(alerts + more, now) == Stamp(alerts, now) + Stamp(more, now);
    OfPeerAppend(id, Stamp(alerts, now), Stamp(more, now));
    if peerId == id {
      OfPeerAll(id, Stamp(more, now));
    } else {
      OfPeerNone(id, Stamp(more, now));
    }
  }

  /** In an eviction, the part of peer `id` is its own disconnection, wherever it stands. */
  lemma {:induction false} EvictAlerts(peers: map<nat, Peer>, order: seq<nat>, now: nat, id: nat)
    requires Distinct(order)
    ensures OfPeer(id, Stamp(Evict(peers, order, now).1, now)) ==
            if id in order && id in peers then Stamp(DisconnectAlert(id, peers[id], now), now) else []
  {
    hide OfPeer;
    if order == [] {
      OfPeerNone(id, Stamp([], now));
    } else {
      var before, last := order[..|order| - 1], order[|order| - 1];
      assert order == before + [last] && last !in before;
      EvictAlerts(peers, before, now, id);
      EvictRemoves(peers, before, now, last);
      if last in peers {
        OfPeerSame(id, last, Evict(peers, before, now).1, DisconnectAlert(last, peers[last], now), now);
      }
    }
  }

  lemma OutboundStep(args: Args, peers: map<nat, Peer>, id: nat, addr: string, kind: Option<SpammerKind>, now: nat)
    ensures Step(args, peers, Message(false, id, addr, kind, now)) == (peers, [])
  {
  }

  lemma MessageStep(args: Args, peers: map<nat, Peer>, id: nat, addr: string, kind: Option<SpammerKind>, now: nat)
    ensures var seen := SeenAt(Get(peers, id), addr, now);
      var (p, alerts) := if kind.None? then (seen, []) else Check(args, seen, kind.value, id, now);
      Step(args, peers, Message(true, id, addr, kind, now)) == (peers[id := p], alerts)
  {
  }

  lemma CleanupOfPeer(args: Args, peers: map<nat, Peer>, order: seq<nat>, now: nat, id: nat)
    requires Enumerates(order, StaleIds(args, peers, now))
    ensures var (peers', alerts) := Evict(peers, order, now);
      var (p, mine) := PeerStep(args, id, Get(peers, id), Cleanup(order, now));
      Get(peers', id) == p && OfPeer(id, Stamp(alerts, now)) == Stamp(mine, now)
  {
    hide Evict, OfPeer, DisconnectAlert, IsStale;
    EvictRemoves(peers, order, now, id);
    EvictAlerts(peers, order, now, id);
    assert id in order <==> id in StaleIds(args, peers, now);
  }

  /** One step of the tool, seen from peer `id`. */
  lemma StepOfPeer(args: Args, peers: map<nat, Peer>, e: Event, id: nat)
    requires e.Cleanup? ==> Enumerates(e.order, StaleIds(args, peers, e.now))
    ensures var (peers', alerts) := Step(args, peers, e);
      var (p, mine) := PeerStep(args, id, Get(peers, id), e);
      Get(peers', id) == p && OfPeer(id, Stamp(alerts, e.now)) == Stamp(mine, e.now)
  {
    hide Evict, OfPeer;
    var (peers', alerts) := Step(args, peers, e);
    if e.Cleanup? {
      CleanupOfPeer(args, peers, e.order, e.now, id);
    } else if e.peerId == id {
      OfPeerAll(id, Stamp(alerts, e.now));
    } else {
      OfPeerNone(id, Stamp(alerts, e.now));
    }
  }

  /** Independence: in every run, the state and the alerts of a peer are those of that peer on
      its own. */
  lemma {:induction false} PeersAreIndependent(args: Args, events: seq<Event>, id: nat)
    requires Admissible(args, events)
    ensures var (peers, trace) := Run(args, events);
      (Get(peers, id), OfPeer(id, trace)) == PeerRun(args, id, events)
  {
    if events != [] {
      var before, e := events[..|events| - 1], events[|events| - 1];
      PeersAreIndependent(args, before, id);
      var (peers, trace) := Run(args, before);
      StepOfPeer(args, peers, e, id);
      OfPeerAppend(id, trace, Stamp(Step(args, peers, e).1, e.now));
    }
  }

  /** What is left of an event for peer `id`: a tick keeps of its order what concerns it. */
  function Mine(id: nat, e: Event): (mine: seq<Event>)
    ensures mine == [] || |mine| == 1
  {
    match e
    case Message(_, peerId, _, _, _) => if peerId == id then [e] else []
    case Closed(peerId, _) => if peerId == id then [e] else []
    case Cleanup(order, now) => [Cleanup(if id in order then [id] else [], now)]
  }

  /** The run that only has the events of peer `id` and the cleanup ticks. */
  function Project(id: nat, events: seq<Event>): seq<Event> {
    if events == [] then []
    else Project(id, events[..|events| - 1]) + Mine(id, events[|events| - 1])
  }

  lemma MineIsEnough(args: Args, id: nat, p: Option<Peer>, e: Event)
    ensures if Mine(id, e) == [] then PeerStep(args, id, p, e) == (p, [])
            else Mine(id, e)[0].now == e.now && PeerStep(args, id, p, Mine(id, e)[0]) == PeerStep(args, id, p, e)
  {
  }

  lemma {:induction false} ProjectKeepsPeer(args: Args, id: nat, events: seq<Event>)
    ensures PeerRun(args, id, Project(id, events)) == PeerRun(args, id, events)
  {
    hide PeerStep, Mine;
    if events != [] {
      var before, e := events[..|events| - 1], events[|events| - 1];
      ProjectKeepsPeer(args, id, before);
      var (p, trace) := PeerRun(args, id, before);
      MineIsEnough(args, id, p, e);
      if Mine(id, e) == [] {
        assert trace + Stamp([], e.now) == trace;
        assert Project(id, events) == Project(id, before);
      } else {
        assert Project(id, events)[..|Project(id, before)|] == Project(id, before);
      }
    }
  }

  ghost predicate OnlyPeer(id: nat, peers: map<nat, Peer>, trace: seq<Emitted>) {
    (forall k :: k in peers ==> k == id) && forall i :: 0 <= i < |trace| ==> trace[i].alert.peerId == id
  }

  lemma StepOnlyPeer(args: Args, id: nat, peers: map<nat, Peer>, e: Event, f: Event)
    requires (forall k :: k in peers ==> k == id) && Mine(id, f) == [e]
    ensures OnlyPeer(id, Step(args, peers, e).0, Stamp(Step(args, peers, e).1, e.now))
  {
    if e.Cleanup? && e.order == [id] {
      assert Evict(peers, e.order[..0], e.now) == (peers, []);
    }
  }

  /** The projected run knows no other peer. */
  lemma {:induction false} ProjectKnowsOnly(args: Args, id: nat, events: seq<Event>)
    ensures OnlyPeer(id, Run(args, Project(id, events)).0, Run(args, Project(id, events)).1)
  {
    hide Step, Mine;
    if events != [] {
      var before, e := events[..|events| - 1], events[|events| - 1];
      ProjectKnowsOnly(args, id, before);
      if Mine(id, e) == [] {
        assert Project(id, events) == Project(id, before);
      } else {
        assert Project(id, events)[..|Project(id, before)|] == Project(id, before);
        StepOnlyPeer(args, id, Run(args, Project(id, before)).0, Mine(id, e)[0], e);
      }
    }
  }

  /** For the same peer `id`, a cleanup that is right for all peers is right for it alone. */
  lemma CleanupOfOne(args: Args, peers: map<nat, Peer>, mine: map<nat, Peer>, id: nat, e: Event)
    requires e.Cleanup? && Enumerates(e.order, StaleIds(args, peers, e.now))
    requires (forall k :: k in mine ==> k == id) && Get(mine, id) == Get(peers, id)
    ensures Enumerates(Mine(id, e)[0].order, StaleIds(args, mine, e.now))
  {
    var order := Mine(id, e)[0].order;
    forall k ensures k in StaleIds(args, mine, e.now) <==> k in order {
      if k == id {
        assert id in e.order <==> id in StaleIds(args, peers, e.now);
      }
    }
  }

  /** The projected run is a run of the tool. */
  lemma {:induction false} ProjectIsAdmissible(args: Args, id: nat, events: seq<Event>)
    requires Admissible(args, events)
    ensures var mine := Project(id, events);
      Admissible(args, mine) && (mine != [] ==> mine[|mine| - 1].now <= events[|events| - 1].now)
  {
    hide Enumerates, StaleIds, Run, Step;
    if events != [] {
      var before, e := events[..|events| - 1], events[|events| - 1];
      var mineBefore := Project(id, before);
      ProjectIsAdmissible(args, id, before);
      if Mine(id, e) == [] {
        assert Project(id, events) == mineBefore;
      } else {
        assert Project(id, events)[..|mineBefore|] == mineBefore;
        if e.Cleanup? {
          ProjectKnowsOnly(args, id, before);
          PeersAreIndependent(args, before, id);
          PeersAreIndependent(args, mineBefore, id);
          ProjectKeepsPeer(args, id, before);
          CleanupOfOne(args, Run(args, before).0, Run(args, mineBefore).0, id, e);
        }
      }
    }
  }

  /** The alerts of a peer in any run are all the alerts of the run projected onto it. */
  lemma AlertsAreThoseOfProjection(args: Args, id: nat, events: seq<Event>)
    requires Admissible(args, events)
    ensures OfPeer(id, Run(args, events).1) == Run(args, Project(id, events)).1
  {
    PeersAreIndependent(args, events, id);
    ProjectIsAdmissible(args, id, events);
    ProjectKnowsOnly(args, id, events);
    PeersAreIndependent(args, Project(id, events), id);
    ProjectKeepsPeer(args, id, events);
    OfPeerAll(id, Run(args, Project(id, events)).1);
  }

  /** Two event sequences that differ at most in the order of their cleanups. */
  ghost predicate SameButOrder(es: seq<Event>, fs: seq<Event>) {
    |es| == |fs| && forall i :: 0 <= i < |es| ==> SameEvent(es[i], fs[i])
  }

  ghost predicate SameEvent(e: Event, f: Event) {
    e == f || (e.Cleanup? && f.Cleanup? && e.now == f.now)
  }

  lemma {:induction false} SamePeerRun(args: Args, id: nat, es: seq<Event>, fs: seq<Event>)
    requires SameButOrder(es, fs)
    ensures PeerRun(args, id, es) == PeerRun(args, id, fs)
  {
    if es != [] {
      assert SameEvent(es[|es| - 1], fs[|fs| - 1]);
      assert SameButOrder(es[..|es| - 1], fs[..|fs| - 1]) by {
        assert forall i :: 0 <= i < |es| - 1 ==> SameEvent(es[i], fs[i]);
      }
      SamePeerRun(args, id, es[..|es| - 1], fs[..|fs| - 1]);
    }
  }

  /** The iteration order of the hash map changes neither the peers nor what any one of them
      is alerted for. */
  lemma OrderIsIrrelevant(args: Args, es: seq<Event>, fs: seq<Event>, id: nat)
    requires Admissible(args, es) && Admissible(args, fs) && SameButOrder(es, fs)
    ensures Get(Run(args, es).0, id) == Get(Run(args, fs).0, id)
    ensures OfPeer(id, Run(args, es).1) == OfPeer(id, Run(args, fs).1)
  {
    PeersAreIndependent(args, es, id);
    PeersAreIndependent(args, fs, id);
    SamePeerRun(args, id, es, fs);
  }
}
