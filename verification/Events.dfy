/** The events the archiver handles, as far as its filter and its low-data mode look at them.
    Parts that neither of them inspects are kept as opaque bytes. */
module Events {
  import opened Basics

  datatype Transaction = Transaction(txid: seq<byte>, wtxid: seq<byte>, raw: Option<seq<byte>>)

  datatype Prefilled = Prefilled(diffIndex: nat, tx: Transaction)

  datatype Msg =
    | Tx(tx: Transaction)
    | Block(header: seq<byte>, transactions: seq<Transaction>)
    | BlockTxn(blockHash: seq<byte>, transactions: seq<Transaction>)
    | CompactBlock(header: seq<byte>, nonce: nat, shortIds: seq<seq<byte>>, prefilled: seq<Prefilled>)
    | GetAddr
    | Addr(body: seq<byte>)
    | AddrV2(body: seq<byte>)
    | EmptyAddrV2
    | Version(body: seq<byte>)
    | OtherMsg(tag: nat, body: seq<byte>)

  datatype EbpfEvent =
    | Message(meta: seq<byte>, msg: Option<Msg>)
    | Connection(body: seq<byte>)
    | Mempool(body: seq<byte>)
    | Validation(body: seq<byte>)

  datatype ObserverEvent =
    | Ebpf(event: Option<EbpfEvent>)
    | Rpc(body: seq<byte>)
    | P2p(body: seq<byte>)
    | Log(body: seq<byte>)
    | Ipc(body: seq<byte>)

  datatype Event = Event(timestamp: nat, observed: Option<ObserverEvent>)

  // ---------- The filter ----------

  datatype MessageFilter = MessageFilter(getAddr: bool, addr: bool, addrV2: bool, version: bool) {
    predicate Matches(msg: Msg) {
      match msg
      case GetAddr => getAddr
      case Addr(_) => addr
      case AddrV2(_) => addrV2
      case EmptyAddrV2 => addrV2
      case Version(_) => version
      case _ => false
    }
  }

  datatype Filter = Filter(all: bool, messages: bool, connections: bool, mempool: bool, validation: bool,
                           rpc: bool, p2p: bool, log: bool, ipc: bool, types: MessageFilter) {
    predicate MatchesEbpf(event: EbpfEvent) {
      match event
      case Message(_, msg) => messages || (msg.Some? && types.Matches(msg.value))
      case Connection(_) => connections
      case Mempool(_) => mempool
      case Validation(_) => validation
    }

    predicate Matches(e: Event) {
      all ||
      match e.observed
      case None => false
      case Some(observed) =>
        match observed
        case Ebpf(event) => event.Some? && MatchesEbpf(event.value)
        case Rpc(_) => rpc
        case P2p(_) => p2p
        case Log(_) => log
        case Ipc(_) => ipc
    }
  }

  /** The event filters given on the command line. */
  datatype Args = Args(messages: bool, connections: bool, mempool: bool, validation: bool, rpc: bool,
                       p2p: bool, log: bool, ipc: bool, addrRelay: bool, connectionsWithHandshakes: bool) {
    predicate ArchiveAll() {
      !(messages || connections || mempool || validation || rpc || p2p || log || ipc || addrRelay ||
        connectionsWithHandshakes)
    }
  }

  function FilterFor(a: Args): Filter {
    Filter(a.ArchiveAll(), a.messages, a.connections || a.connectionsWithHandshakes, a.mempool, a.validation,
           a.rpc, a.p2p, a.log, a.ipc,
           MessageFilter(a.addrRelay, a.addrRelay, a.addrRelay, a.connectionsWithHandshakes))
  }

  /** The tracepoint event in an event, and the P2P message in that, if there is one. */
  function EbpfOf(e: Event): Option<EbpfEvent> {
    match e.observed
    case Some(Ebpf(event)) => event
    case _ => None
  }

  function MsgOf(e: Event): Option<Msg> {
    match EbpfOf(e)
    case Some(Message(_, msg)) => msg
    case _ => None
  }

  /** A filter is a union: each field adds the events of one kind, whatever the others are. */
  lemma FilterIsUnion(f: Filter, e: Event)
    ensures f.Matches(e) <==>
      || f.all
      || (f.messages && EbpfOf(e).Some? && EbpfOf(e).value.Message?)
      || (f.connections && EbpfOf(e).Some? && EbpfOf(e).value.Connection?)
      || (f.mempool && EbpfOf(e).Some? && EbpfOf(e).value.Mempool?)
      || (f.validation && EbpfOf(e).Some? && EbpfOf(e).value.Validation?)
      || (f.rpc && e.observed.Some? && e.observed.value.Rpc?)
      || (f.p2p && e.observed.Some? && e.observed.value.P2p?)
      || (f.log && e.observed.Some? && e.observed.value.Log?)
      || (f.ipc && e.observed.Some? && e.observed.value.Ipc?)
      || (f.types.getAddr && MsgOf(e).Some? && MsgOf(e).value.GetAddr?)
      || (f.types.addr && MsgOf(e).Some? && MsgOf(e).value.Addr?)
      || (f.types.addrV2 && (MsgOf(e).Some? && (MsgOf(e).value.AddrV2? || MsgOf(e).value.EmptyAddrV2?)))
      || (f.types.version && MsgOf(e).Some? && MsgOf(e).value.Version?)
  {
  }

  function Union(a: Args, b: Args): Args {
    Args(a.messages || b.messages, a.connections || b.connections, a.mempool || b.mempool,
         a.validation || b.validation, a.rpc || b.rpc, a.p2p || b.p2p, a.log || b.log, a.ipc || b.ipc,
         a.addrRelay || b.addrRelay, a.connectionsWithHandshakes || b.connectionsWithHandshakes)
  }

  const NO_ARGS := Args(false, false, false, false, false, false, false, false, false, false)

  ghost predicate TypesUnion(f: MessageFilter, g: MessageFilter, h: MessageFilter) {
    && h.getAddr == (f.getAddr || g.getAddr) && h.addr == (f.addr || g.addr)
    && h.addrV2 == (f.addrV2 || g.addrV2) && h.version == (f.version || g.version)
  }

  ghost predicate IsUnion(f: Filter, g: Filter, h: Filter) {
    && h.all == (f.all || g.all) && h.messages == (f.messages || g.messages)
    && h.connections == (f.connections || g.connections) && h.mempool == (f.mempool || g.mempool)
    && h.validation == (f.validation || g.validation) && h.rpc == (f.rpc || g.rpc)
    && h.p2p == (f.p2p || g.p2p) && h.log == (f.log || g.log) && h.ipc == (f.ipc || g.ipc)
    && TypesUnion(f.types, g.types, h.types)
  }

  lemma UnionMatches(f: Filter, g: Filter, h: Filter, e: Event)
    requires IsUnion(f, g, h)
    ensures h.Matches(e) <==> f.Matches(e) || g.Matches(e)
  {
    hide Filter.MatchesEbpf, TypesUnion;
    if EbpfOf(e).Some? {
      UnionMatchesEbpf(f, g, h, EbpfOf(e).value);
    }
  }

  lemma UnionMatchesEbpf(f: Filter, g: Filter, h: Filter, event: EbpfEvent)
    requires IsUnion(f, g, h)
    ensures h.MatchesEbpf(event) <==> f.MatchesEbpf(event) || g.MatchesEbpf(event)
  {
    hide MessageFilter.Matches, TypesUnion;
    if event.Message? && event.msg.Some? {
      UnionMatchesType(f.types, g.types, h.types, event.msg.value);
    }
  }

  lemma UnionMatchesType(f: MessageFilter, g: MessageFilter, h: MessageFilter, msg: Msg)
    requires TypesUnion(f, g, h)
    ensures h.Matches(msg) <==> f.Matches(msg) || g.Matches(msg)
  {
  }

  /** The command line filters combine freely: two sets of them, neither empty, archive what one
      or the other does. */
  lemma ArgsAreAdditive(a: Args, b: Args, e: Event)
    requires a != NO_ARGS && b != NO_ARGS
    ensures FilterFor(Union(a, b)).Matches(e) <==> FilterFor(a).Matches(e) || FilterFor(b).Matches(e)
  {
    hide Filter.Matches;
    SomeArg(a);
    SomeArg(b);
    UnionMatches(FilterFor(a), FilterFor(b), FilterFor(Union(a, b)), e);
  }

  lemma SomeArg(a: Args)
    ensures a.ArchiveAll() <==> a == NO_ARGS
  {
  }

  /** Without any filter everything is archived. */
  lemma NoArgs(e: Event)
    ensures FilterFor(NO_ARGS).Matches(e)
  {
  }

  /** The two composite filters on their own. */
  lemma CompositeArgs(e: Event)
    ensures FilterFor(NO_ARGS.(addrRelay := true)).Matches(e) <==>
            MsgOf(e).Some? && (MsgOf(e).value.GetAddr? || MsgOf(e).value.Addr? || MsgOf(e).value.AddrV2? ||
                               MsgOf(e).value.EmptyAddrV2?)
    ensures FilterFor(NO_ARGS.(connectionsWithHandshakes := true)).Matches(e) <==>
            || (MsgOf(e).Some? && MsgOf(e).value.Version?)
            || (EbpfOf(e).Some? && EbpfOf(e).value.Connection?)
  {
  }

  /** Each plain filter on its own. */
  lemma PlainArgs(e: Event)
    ensures FilterFor(NO_ARGS.(messages := true)).Matches(e) <==>
            EbpfOf(e).Some? && EbpfOf(e).value.Message?
    ensures FilterFor(NO_ARGS.(connections := true)).Matches(e) <==>
            EbpfOf(e).Some? && EbpfOf(e).value.Connection?
    ensures FilterFor(NO_ARGS.(mempool := true)).Matches(e) <==>
            EbpfOf(e).Some? && EbpfOf(e).value.Mempool?
    ensures FilterFor(NO_ARGS.(validation := true)).Matches(e) <==>
            EbpfOf(e).Some? && EbpfOf(e).value.Validation?
    ensures FilterFor(NO_ARGS.(rpc := true)).Matches(e) <==> e.observed.Some? && e.observed.value.Rpc?
    ensures FilterFor(NO_ARGS.(p2p := true)).Matches(e) <==> e.observed.Some? && e.observed.value.P2p?
    ensures FilterFor(NO_ARGS.(log := true)).Matches(e) <==> e.observed.Some? && e.observed.value.Log?
    ensures FilterFor(NO_ARGS.(ipc := true)).Matches(e) <==> e.observed.Some? && e.observed.value.Ipc?
  {
  }

  // ---------- Low-data mode ----------

  function DropRaw(txs: seq<Transaction>): (r: seq<Transaction>)
    ensures |r| == |txs|
    ensures forall i :: 0 <= i < |txs| ==> r[i] == Transaction(txs[i].txid, txs[i].wtxid, None)
  {
    seq(|txs|, i requires 0 <= i < |txs| => txs[i].(raw := None))
  }

  function StripMsg(msg: Msg): Msg {
    match msg
    case Tx(tx) => Tx(tx.(raw := None))
    case Block(header, _) => Block(header, [])
    case BlockTxn(hash, txs) => BlockTxn(hash, DropRaw(txs))
    case CompactBlock(header, nonce, ids, ps) =>
      CompactBlock(header, nonce, ids,
                   seq(|ps|, i requires 0 <= i < |ps| => Prefilled(ps[i].diffIndex, ps[i].tx.(raw := None))))
    case _ => msg
  }

  function StripLowData(e: Event): Event {
    match e.observed
    case Some(Ebpf(Some(Message(meta, Some(msg))))) =>
      e.(observed := Some(Ebpf(Some(Message(meta, Some(StripMsg(msg)))))))
    case _ => e
  }

  /** The transactions of a message that still carry their raw bytes. */
  ghost predicate HasRaw(msg: Msg) {
    match msg
    case Tx(tx) => tx.raw.Some?
    case Block(_, txs) => exists tx :: tx in txs && tx.raw.Some?
    case BlockTxn(_, txs) => exists tx :: tx in txs && tx.raw.Some?
    case CompactBlock(_, _, _, ps) => exists p :: p in ps && p.tx.raw.Some?
    case _ => false
  }

  /** Stripping leaves no raw transaction bytes, is done after one pass, and touches only
      messages that carry transactions. */
  lemma StripRemovesRaw(msg: Msg)
    ensures !HasRaw(StripMsg(msg)) && StripMsg(StripMsg(msg)) == StripMsg(msg)
    ensures !HasRaw(msg) && !msg.Block? ==> StripMsg(msg) == msg
  {
  }

  /** The filter cannot tell a stripped event from the original, so filtering before
      stripping (what the archiver does) and after it keep the same events. */
  lemma StripKeepsFilter(f: Filter, e: Event)
    ensures f.Matches(StripLowData(e)) == f.Matches(e)
    ensures StripLowData(StripLowData(e)) == StripLowData(e)
  {
    match e.observed
    case Some(Ebpf(Some(Message(_, Some(msg))))) => StripRemovesRaw(msg);
    case _ =>
  }
  // ---------- What low-data mode keeps ----------

  /** A transaction with its ids and nothing else. */
  predicate TxKept(a: Transaction, b: Transaction) {
    b.txid == a.txid && b.wtxid == a.wtxid && b.raw.None?
  }

  /** What may be left of a message: of transactions their ids, in place; of a block its header;
      of any other message everything. */
  ghost predicate MsgKept(a: Msg, b: Msg) {
    match a
    case Tx(tx) => b.Tx? && TxKept(tx, b.tx)
    case Block(header, _) => b.Block? && b.header == header && b.transactions == []
    case BlockTxn(hash, txs) =>
      b.BlockTxn? && b.blockHash == hash && |b.transactions| == |txs| &&
      forall i :: 0 <= i < |txs| ==> TxKept(txs[i], b.transactions[i])
    case CompactBlock(header, nonce, ids, ps) =>
      b.CompactBlock? && b.header == header && b.nonce == nonce && b.shortIds == ids && |b.prefilled| == |ps| &&
      forall i :: 0 <= i < |ps| ==> b.prefilled[i].diffIndex == ps[i].diffIndex && TxKept(ps[i].tx, b.prefilled[i].tx)
    case _ => b == a
  }

  /** What may be left of an event: its time, and everything but the transactions of a message. */
  ghost predicate Kept(a: Event, b: Event) {
    b.timestamp == a.timestamp &&
    match a.observed
    case Some(Ebpf(Some(Message(meta, Some(msg))))) =>
      && b.observed.Some? && b.observed.value.Ebpf? && b.observed.value.event.Some?
      && var x := b.observed.value.event.value;
      x.Message? && x.meta == meta && x.msg.Some? && MsgKept(msg, x.msg.value)
    case _ => b.observed == a.observed
  }

  /** `Kept` leaves no choice. */
  lemma KeptIsUnique(a: Event, b: Event, c: Event)
    requires Kept(a, b) && Kept(a, c)
    ensures b == c
  {
    match a.observed
    case Some(Ebpf(Some(Message(_, Some(msg))))) =>
      MsgKeptIsUnique(msg, b.observed.value.event.value.msg.value, c.observed.value.event.value.msg.value);
    case _ =>
  }

  lemma MsgKeptIsUnique(a: Msg, b: Msg, c: Msg)
    requires MsgKept(a, b) && MsgKept(a, c)
    ensures b == c
  {
    match a
    case BlockTxn(_, txs) => assert b.transactions == c.transactions;
    case CompactBlock(_, _, _, ps) => assert b.prefilled == c.prefilled;
    case _ =>
  }

  lemma StripKeeps(e: Event)
    ensures Kept(e, StripLowData(e))
  {
  }

  lemma KeptHasNoRaw(a: Msg, b: Msg)
    requires MsgKept(a, b)
    ensures !HasRaw(b) && (b.Block? ==> b.transactions == [])
  {
  }
}
