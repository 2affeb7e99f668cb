/** The alerts tool's mutable state: a record per peer in a hash map, updated in place. The
    methods are proved to take the steps of `AlertMachine`. */
module Alerts {
  import opened Basics
  import opened SlidingWindow
  import opened AlertMachine

  /** The P2P messages, as far as the tool tells them apart. */
  datatype Msg = PingMsg | AddrMsg | AddrV2Msg | OtherMsg

  function KindOf(msg: Option<Msg>): Option<SpammerKind> {
    match msg
    case Some(PingMsg) => Some(Ping)
    case Some(AddrMsg) => Some(Addr)
    case Some(AddrV2Msg) => Some(Addr)
    case _ => None
  }

  /** Pings are hits of one kind, both sorts of address messages hits of the other, and nothing
      else is a hit. */
  lemma WhatCounts(msg: Option<Msg>)
    ensures KindOf(msg) == Some(Ping) <==> msg == Some(PingMsg)
    ensures KindOf(msg) == Some(Addr) <==> msg == Some(AddrMsg) || msg == Some(AddrV2Msg)
  {
  }

  datatype ConnectionEvent = ClosedConnection(peerId: nat) | OtherConnectionEvent

  class PeerState {
    var ping: Window
    var addr: Window
    var lastSeen: nat
    const peerAddr: string

    ghost function View(): Peer
      reads this
    {
      Peer(ping, addr, lastSeen, peerAddr)
    }

    constructor (peerAddr: string, now: nat)
      ensures View() == NewPeer(peerAddr, now)
    {
      this.peerAddr := peerAddr;
      ping, addr, lastSeen := EMPTY, EMPTY, now;
    }

    /** Records a hit and returns an alert the first time the threshold is exceeded. */
    method Check(kind: SpammerKind, peerId: nat, now: nat, args: Args) returns (alerts: seq<Alert>)
      modifies this`ping, this`addr
      ensures (View(), alerts) == AlertMachine.Check(args, old(View()), kind, peerId, now)
    {
      var state := if kind.Ping? then ping else addr;
      if state.alertedAt.Some? {
        return [];
      }
      var timestamps := state.timestamps + [now];
      while timestamps != [] && Since(now, timestamps[0]) > args.Span(kind)
        invariant DropOld(timestamps, now, args.Span(kind)) == DropOld(state.timestamps + [now], now, args.Span(kind))
        decreases |timestamps|
      {
        timestamps := timestamps[1..];
      }
      var alertedAt := None;
      alerts := [];
      if |timestamps| > args.Threshold(kind) {
        alertedAt := Some(now);
        alerts := [Spammer(kind, peerId, peerAddr, |timestamps|, args.WindowSecs(kind), args.Threshold(kind))];
      }
      if kind.Ping? {
        ping := Window(timestamps, alertedAt);
      } else {
        addr := Window(timestamps, alertedAt);
      }
    }

    /** The alert for a peer that is gone, if it was ever flagged. */
    function Disconnected(peerId: nat, now: nat): (alerts: seq<Alert>)
      reads this
      ensures alerts == DisconnectAlert(peerId, View(), now)
    {
      match (ping.alertedAt, addr.alertedAt)
      case (None, None) => []
      case (Some(t), None) => [PeerDisconnected(peerId, peerAddr, Since(now, t) / NANOS_PER_SEC)]
      case (None, Some(t)) => [PeerDisconnected(peerId, peerAddr, Since(now, t) / NANOS_PER_SEC)]
      case (Some(t), Some(u)) =>
        [PeerDisconnected(peerId, peerAddr, Since(now, if t <= u then t else u) / NANOS_PER_SEC)]
    }
  }

  class AlertState {
    var peers: map<nat, PeerState>

    /** No two peers share a record. */
    ghost predicate Valid()
      reads this
    {
      forall i, j :: i in peers && j in peers && i != j ==> peers[i] != peers[j]
    }

    ghost function View(): map<nat, Peer>
      reads this, peers.Values
    {
      map id | id in peers :: peers[id].View()
    }

    constructor ()
      ensures Valid() && peers == map[]
    {
      peers := map[];
    }

    /** The record of a peer, created if it has none, and marked as seen. */
    method Seen(peerId: nat, addr: string, now: nat) returns (peer: PeerState)
      requires Valid()
      modifies this, peers.Values
      ensures Valid() && fresh(peers.Values - old(peers.Values)) && peerId in peers && peers[peerId] == peer
      ensures View() == old(View())[peerId := SeenAt(Get(old(View()), peerId), addr, now)]
    {
      if peerId in peers {
        peer := peers[peerId];
        peer.lastSeen := now;
      } else {
        peer := new PeerState(addr, now);
        peers := peers[peerId := peer];
      }
    }

    /** Records a hit on the peer's own record and on no other. */
    method CheckPeer(peerId: nat, kind: SpammerKind, now: nat, args: Args) returns (alerts: seq<Alert>)
      requires Valid() && peerId in peers
      modifies peers[peerId]
      ensures var (p, mine) := AlertMachine.Check(args, old(View())[peerId], kind, peerId, now);
        View() == old(View())[peerId := p] && alerts == mine
    {
      hide AlertMachine.Check;
      alerts := peers[peerId].Check(kind, peerId, now, args);
    }

    /** Handles a P2P message; outbound ones are dropped. */
    method HandleMessage(inbound: bool, peerId: nat, addr: string, msg: Option<Msg>, now: nat, args: Args)
      returns (alerts: seq<Alert>)
      requires Valid()
      modifies this, peers.Values
      ensures Valid() && fresh(peers.Values - old(peers.Values))
      ensures (View(), alerts) == Step(args, old(View()), Message(inbound, peerId, addr, KindOf(msg), now))
    {
      hide Step, AlertMachine.Check, SeenAt, View, KindOf;
      if !inbound {
        OutboundStep(args, View(), peerId, addr, KindOf(msg), now);
        return [];
      }
      ghost var before := View();
      var kind := KindOf(msg);
      MessageStep(args, before, peerId, addr, kind, now);
      var peer := Seen(peerId, addr, now);
      ghost var seen := SeenAt(Get(before, peerId), addr, now);
      assert View() == before[peerId := seen];
      alerts := [];
      if kind.Some? {
        alerts := CheckPeer(peerId, kind.value, now, args);
        ghost var p := AlertMachine.Check(args, seen, kind.value, peerId, now).0;
        assert View() == before[peerId := p];
      }
    }

    /** Handles a connection event: only the end of a connection matters. */
    method HandleConnection(conn: Option<ConnectionEvent>, now: nat, args: Args) returns (alerts: seq<Alert>)
      requires Valid()
      modifies this
      ensures Valid() && peers.Values <= old(peers.Values)
      ensures (View(), alerts) ==
        match conn
        case Some(ClosedConnection(peerId)) => Step(args, old(View()), Closed(peerId, now))
        case _ => (old(View()), [])
    {
      alerts := [];
      if conn.Some? && conn.value.ClosedConnection? {
        var peerId := conn.value.peerId;
        if peerId in peers {
          alerts := peers[peerId].Disconnected(peerId, now);
          peers := peers - {peerId};
        }
        assert View() == old(View()) - {peerId};
      }
    }

    /** Collects the stale peers in whatever order they come, and then removes them. */
    method CleanupStalePeers(now: nat, args: Args) returns (alerts: seq<Alert>, stale: seq<nat>)
      requires Valid()
      modifies this
      ensures Valid() && peers.Values <= old(peers.Values)
      ensures Enumerates(stale, StaleIds(args, old(View()), now))
      ensures (View(), alerts) == Step(args, old(View()), Cleanup(stale, now))
    {
      stale := CollectStale(now, args);
      alerts := [];
      for i := 0 to |stale|
        invariant Valid() && peers.Values <= old(peers.Values)
        invariant (View(), alerts) == Evict(old(View()), stale[..i], now)
      {
        var peerId := stale[i];
        ghost var before := View();
        assert stale[..i + 1][..i] == stale[..i];
        if peerId in peers {
          alerts := alerts + peers[peerId].Disconnected(peerId, now);
          peers := peers - {peerId};
          assert View() == before - {peerId};
        }
      }
      assert stale[..|stale|] == stale;
    }

    method CollectStale(now: nat, args: Args) returns (stale: seq<nat>)
      requires Valid()
      ensures Enumerates(stale, StaleIds(args, View(), now))
    {
      stale := [];
      var left := peers.Keys;
      while left != {}
        invariant left <= peers.Keys
        invariant Distinct(stale)
        invariant forall id :: id in stale <==> id in peers && id !in left && IsStale(args, peers[id].View(), now)
        decreases |left|
      {
        var id :| id in left;
        left := left - {id};
        if Since(now, peers[id].lastSeen) > args.StaleAfter() {
          stale := stale + [id];
        }
      }
    }
  }
}
