/** A pair of codecs for the headers and events of an archive that decode whatever they encode.
    It shows that what the laws of the archive ask of the codecs can be met; the wire format of
    the program is another one. Fields are put one in front of the other. */
module WireCodecs {
  import opened Basics
  import opened Events
  import opened ArchiveLog
  import Varint

  // ---------- Encoders ----------

  function PutNumber(n: nat, rest: seq<byte>): seq<byte> {
    Varint.Encode(n) + rest
  }

  function PutText(s: seq<byte>, rest: seq<byte>): seq<byte> {
    PutNumber(|s|, s + rest)
  }

  function PutOptional(o: Option<seq<byte>>, rest: seq<byte>): seq<byte> {
    match o
    case None => [0] + rest
    case Some(s) => [1] + PutText(s, rest)
  }

  function PutTx(tx: Transaction, rest: seq<byte>): seq<byte> {
    PutText(tx.txid, PutText(tx.wtxid, PutOptional(tx.raw, rest)))
  }

  function PutTxs(txs: seq<Transaction>, rest: seq<byte>): seq<byte> {
    if txs == [] then [0] + rest else [1] + PutTx(txs[0], PutTxs(txs[1..], rest))
  }

  function PutTexts(ss: seq<seq<byte>>, rest: seq<byte>): seq<byte> {
    if ss == [] then [0] + rest else [1] + PutText(ss[0], PutTexts(ss[1..], rest))
  }

  function PutPrefilled(ps: seq<Prefilled>, rest: seq<byte>): seq<byte> {
    if ps == [] then [0] + rest
    else [1] + PutNumber(ps[0].diffIndex, PutTx(ps[0].tx, PutPrefilled(ps[1..], rest)))
  }

  function PutMsg(msg: Msg, rest: seq<byte>): seq<byte> {
    match msg
    case Tx(tx) => [0] + PutTx(tx, rest)
    case Block(header, txs) => [1] + PutText(header, PutTxs(txs, rest))
    case BlockTxn(hash, txs) => [2] + PutText(hash, PutTxs(txs, rest))
    case CompactBlock(header, nonce, ids, ps) =>
      [3] + PutText(header, PutNumber(nonce, PutTexts(ids, PutPrefilled(ps, rest))))
    case GetAddr => [4] + rest
    case Addr(body) => [5] + PutText(body, rest)
    case AddrV2(body) => [6] + PutText(body, rest)
    case EmptyAddrV2 => [7] + rest
    case Version(body) => [8] + PutText(body, rest)
    case OtherMsg(tag, body) => [9] + PutNumber(tag, PutText(body, rest))
  }

  function PutEbpf(e: EbpfEvent, rest: seq<byte>): seq<byte> {
    match e
    case Message(meta, None) => [0] + PutText(meta, rest)
    case Message(meta, Some(msg)) => [1] + PutText(meta, PutMsg(msg, rest))
    case Connection(body) => [2] + PutText(body, rest)
    case Mempool(body) => [3] + PutText(body, rest)
    case Validation(body) => [4] + PutText(body, rest)
  }

  function PutObserved(o: ObserverEvent, rest: seq<byte>): seq<byte> {
    match o
    case Ebpf(None) => [0] + rest
    case Ebpf(Some(e)) => [1] + PutEbpf(e, rest)
    case Rpc(body) => [2] + PutText(body, rest)
    case P2p(body) => [3] + PutText(body, rest)
    case Log(body) => [4] + PutText(body, rest)
    case Ipc(body) => [5] + PutText(body, rest)
  }

  function PutEvent(e: Event): seq<byte> {
    PutNumber(e.timestamp, if e.observed.None? then [0] else [1] + PutObserved(e.observed.value, []))
  }

  function PutHeader(h: Header): seq<byte> {
    PutNumber(h.created, [if h.lowData.None? then 0 else if h.lowData.value then 1 else 2])
  }

  // ---------- What was put can be told ----------

  lemma SameFirst(a: byte, s: seq<byte>, b: byte, t: seq<byte>)
    requires [a] + s == [b] + t
    ensures a == b && s == t
  {
    assert ([a] + s)[0] == ([b] + t)[0] && ([a] + s)[1..] == ([b] + t)[1..];
  }

  lemma SameText(a: seq<byte>, s: seq<byte>, b: seq<byte>, t: seq<byte>)
    requires PutText(a, s) == PutText(b, t)
    ensures a == b && s == t
  {
    Varint.PrefixFree(|a|, |b|, a + s, b + t);
    assert (a + s)[..|a|] == (b + t)[..|b|] && (a + s)[|a|..] == (b + t)[|b|..];
  }

  lemma SameOptional(a: Option<seq<byte>>, s: seq<byte>, b: Option<seq<byte>>, t: seq<byte>)
    requires PutOptional(a, s) == PutOptional(b, t)
    ensures a == b && s == t
  {
    hide PutText;
    assert PutOptional(a, s)[0] == PutOptional(b, t)[0];
    assert PutOptional(a, s)[1..] == PutOptional(b, t)[1..];
    if a.Some? {
      SameText(a.value, s, b.value, t);
    }
  }

  lemma SameTx(a: Transaction, s: seq<byte>, b: Transaction, t: seq<byte>)
    requires PutTx(a, s) == PutTx(b, t)
    ensures a == b && s == t
  {
    hide PutText, PutOptional;
    SameText(a.txid, PutText(a.wtxid, PutOptional(a.raw, s)), b.txid, PutText(b.wtxid, PutOptional(b.raw, t)));
    SameText(a.wtxid, PutOptional(a.raw, s), b.wtxid, PutOptional(b.raw, t));
    SameOptional(a.raw, s, b.raw, t);
  }

  lemma {:induction false} SameTxs(a: seq<Transaction>, s: seq<byte>, b: seq<Transaction>, t: seq<byte>)
    requires PutTxs(a, s) == PutTxs(b, t)
    ensures a == b && s == t
  {
    hide PutTx;
    assert PutTxs(a, s)[0] == PutTxs(b, t)[0];
    assert PutTxs(a, s)[1..] == PutTxs(b, t)[1..];
    if a != [] {
      SameTx(a[0], PutTxs(a[1..], s), b[0], PutTxs(b[1..], t));
      SameTxs(a[1..], s, b[1..], t);
      assert a == [a[0]] + a[1..] && b == [b[0]] + b[1..];
    }
  }

  lemma {:induction false} SameTexts(a: seq<seq<byte>>, s: seq<byte>, b: seq<seq<byte>>, t: seq<byte>)
    requires PutTexts(a, s) == PutTexts(b, t)
    ensures a == b && s == t
  {
    hide PutText;
    assert PutTexts(a, s)[0] == PutTexts(b, t)[0];
    assert PutTexts(a, s)[1..] == PutTexts(b, t)[1..];
    if a != [] {
      SameText(a[0], PutTexts(a[1..], s), b[0], PutTexts(b[1..], t));
      SameTexts(a[1..], s, b[1..], t);
      assert a == [a[0]] + a[1..] && b == [b[0]] + b[1..];
    }
  }

  lemma {:induction false} SamePrefilled(a: seq<Prefilled>, s: seq<byte>, b: seq<Prefilled>, t: seq<byte>)
    requires PutPrefilled(a, s) == PutPrefilled(b, t)
    ensures a == b && s == t
  {
    hide PutTx;
    assert PutPrefilled(a, s)[0] == PutPrefilled(b, t)[0];
    assert PutPrefilled(a, s)[1..] == PutPrefilled(b, t)[1..];
    if a != [] {
      var u, v := PutPrefilled(a[1..], s), PutPrefilled(b[1..], t);
      Varint.PrefixFree(a[0].diffIndex, b[0].diffIndex, PutTx(a[0].tx, u), PutTx(b[0].tx, v));
      SameTx(a[0].tx, u, b[0].tx, v);
      SamePrefilled(a[1..], s, b[1..], t);
      assert a == [a[0]] + a[1..] && b == [b[0]] + b[1..];
    }
  }

  lemma SameMsg(a: Msg, s: seq<byte>, b: Msg, t: seq<byte>)
    requires PutMsg(a, s) == PutMsg(b, t)
    ensures a == b && s == t
  {
    hide PutText, PutTx, PutTxs, PutTexts, PutPrefilled, Varint.Encode;
    assert PutMsg(a, s)[0] == PutMsg(b, t)[0];
    assert PutMsg(a, s)[1..] == PutMsg(b, t)[1..];
    match a {
      case Tx(tx) => SameTx(tx, s, b.tx, t);
      case Block(header, txs) =>
        SameText(header, PutTxs(txs, s), b.header, PutTxs(b.transactions, t));
        SameTxs(txs, s, b.transactions, t);
      case BlockTxn(hash, txs) =>
        SameText(hash, PutTxs(txs, s), b.blockHash, PutTxs(b.transactions, t));
        SameTxs(txs, s, b.transactions, t);
      case CompactBlock(header, nonce, ids, ps) => SameCompactBlock(a, s, b, t);
      case GetAddr =>
      case Addr(body) => SameText(body, s, b.body, t);
      case AddrV2(body) => SameText(body, s, b.body, t);
      case EmptyAddrV2 =>
      case Version(body) => SameText(body, s, b.body, t);
      case OtherMsg(tag, body) =>
        Varint.PrefixFree(tag, b.tag, PutText(body, s), PutText(b.body, t));
        SameText(body, s, b.body, t);
    }
  }

  lemma SameCompactBlock(a: Msg, s: seq<byte>, b: Msg, t: seq<byte>)
    requires PutMsg(a, s) == PutMsg(b, t) && a.CompactBlock? && b.CompactBlock?
    ensures a == b && s == t
  {
    hide PutText, PutTexts, PutPrefilled, Varint.Encode;
    var u, v := PutPrefilled(a.prefilled, s), PutPrefilled(b.prefilled, t);
    var x, y := PutNumber(a.nonce, PutTexts(a.shortIds, u)), PutNumber(b.nonce, PutTexts(b.shortIds, v));
    SameFirst(3, PutText(a.header, x), 3, PutText(b.header, y));
    SameText(a.header, x, b.header, y);
    Varint.PrefixFree(a.nonce, b.nonce, PutTexts(a.shortIds, u), PutTexts(b.shortIds, v));
    SameTexts(a.shortIds, u, b.shortIds, v);
    SamePrefilled(a.prefilled, s, b.prefilled, t);
  }

  lemma SameEbpf(a: EbpfEvent, s: seq<byte>, b: EbpfEvent, t: seq<byte>)
    requires PutEbpf(a, s) == PutEbpf(b, t)
    ensures a == b && s == t
  {
    hide PutText, PutMsg;
    assert PutEbpf(a, s)[0] == PutEbpf(b, t)[0];
    assert PutEbpf(a, s)[1..] == PutEbpf(b, t)[1..];
    match a {
      case Message(meta, None) => SameText(meta, s, b.meta, t);
      case Message(meta, Some(msg)) =>
        SameText(meta, PutMsg(msg, s), b.meta, PutMsg(b.msg.value, t));
        SameMsg(msg, s, b.msg.value, t);
      case _ => SameText(a.body, s, b.body, t);
    }
  }

  lemma SameObserved(a: ObserverEvent, s: seq<byte>, b: ObserverEvent, t: seq<byte>)
    requires PutObserved(a, s) == PutObserved(b, t)
    ensures a == b && s == t
  {
    hide PutText, PutEbpf;
    assert PutObserved(a, s)[0] == PutObserved(b, t)[0];
    assert PutObserved(a, s)[1..] == PutObserved(b, t)[1..];
    match a {
      case Ebpf(None) =>
      case Ebpf(Some(e)) => SameEbpf(e, s, b.event.value, t);
      case _ => SameText(a.body, s, b.body, t);
    }
  }

  lemma SameEvent(a: Event, b: Event)
    requires PutEvent(a) == PutEvent(b)
    ensures a == b
  {
    hide PutObserved;
    var s := if a.observed.None? then [0] else [1] + PutObserved(a.observed.value, []);
    var t := if b.observed.None? then [0] else [1] + PutObserved(b.observed.value, []);
    Varint.PrefixFree(a.timestamp, b.timestamp, s, t);
    assert s[0] == t[0] && s[1..] == t[1..];
    if a.observed.Some? {
      SameObserved(a.observed.value, [], b.observed.value, []);
    }
  }

  lemma SameHeader(a: Header, b: Header)
    requires PutHeader(a) == PutHeader(b)
    ensures a == b
  {
    var s := [if a.lowData.None? then 0 else if a.lowData.value then 1 else 2 as byte];
    var t := [if b.lowData.None? then 0 else if b.lowData.value then 1 else 2 as byte];
    Varint.PrefixFree(a.created, b.created, s, t);
    assert s[0] == t[0];
  }

  // ---------- The codecs ----------

  ghost function Decoder<M(!new)>(encode: M -> seq<byte>): seq<byte> -> Option<M> {
    bs => if exists m :: encode(m) == bs then var m :| encode(m) == bs; Some(m) else None
  }

  lemma DecodesItself<M(!new)>(encode: M -> seq<byte>, m: M)
    requires forall n :: encode(n) == encode(m) ==> n == m
    ensures Decoder(encode)(encode(m)) == Some(m)
  {
  }

  ghost function Sample(): Codecs {
    Codecs(Codec(PutHeader, Decoder(PutHeader)), Codec(PutEvent, Decoder(PutEvent)))
  }

  /** There are codecs that give back every header and every event. */
  lemma SampleIsLawful()
    ensures Lawful(Sample().header) && Lawful(Sample().event)
  {
    hide PutHeader, PutEvent, Decoder;
    forall h: Header ensures Decoder(PutHeader)(PutHeader(h)) == Some(h) {
      forall g | PutHeader(g) == PutHeader(h) ensures g == h {
        SameHeader(g, h);
      }
      DecodesItself(PutHeader, h);
    }
    forall e: Event ensures Decoder(PutEvent)(PutEvent(e)) == Some(e) {
      forall d | PutEvent(d) == PutEvent(e) ensures d == e {
        SameEvent(d, e);
      }
      DecodesItself(PutEvent, e);
    }
  }

  /** With them, a run that archives any RPC event of a length below 2^63 is writable, at any time
      in 64 bits. */
  lemma SomeRunsAreWritable(cfg: Config, now: nat, timestamp: nat, body: seq<byte>)
    requires now < TWO_TO_THE_64 && timestamp < TWO_TO_THE_64 && |body| < TWO_TO_THE_64 / 2
    ensures var e := Event(timestamp, Some(Rpc(body)));
      var inputs := [Input.Message(PutEvent(e), now, NoFault), SubscriptionEnded];
      && Delivered(Sample(), inputs) == [e]
      && AllWritable(cfg, Sample(), now, inputs)
  {
    hide PutHeader, PutEvent, Decoder, Archived, Delivered;
    var h, e := Header(now, Some(cfg.lowData)), Event(timestamp, Some(Rpc(body)));
    var message := Input.Message(PutEvent(e), now, NoFault);
    SampleIsLawful();
    LengthsFit(h, e);
    assert Sample().header.encode(h) == PutHeader(h) && Sample().event.encode(e) == PutEvent(e);
    assert Sample().event.decode(message.payload) == Some(e);
    OneDelivered(cfg, Sample(), message, e);
  }

  lemma OneDelivered(cfg: Config, cs: Codecs, message: Input, e: Event)
    requires message.Message? && cs.event.decode(message.payload) == Some(e) && StripLowData(e) == e
    ensures Delivers(cs, message) == [e] && Delivered(cs, [message, SubscriptionEnded]) == [e]
    ensures Archived(cfg, [e]) == [] || Archived(cfg, [e]) == [e]
  {
    hide Delivered, StripLowData, Archived;
    DeliveredNext(cs, [], message);
    DeliveredNext(cs, [message], SubscriptionEnded);
    assert [] + [message] == [message] && [message] + [SubscriptionEnded] == [message, SubscriptionEnded];
    ArchivedAlone(cfg, e);
  }

  lemma DeliveredNext(cs: Codecs, inputs: seq<Input>, input: Input)
    ensures Delivered(cs, inputs + [input]) == Delivered(cs, inputs) + Delivers(cs, input)
    ensures Delivered(cs, []) == []
  {
    assert (inputs + [input])[..|inputs|] == inputs;
  }

  lemma ArchivedAlone(cfg: Config, e: Event)
    ensures Archived(cfg, [e]) == ArchivedForm(cfg, e)
  {
    assert [e][..0] == [];
  }

  lemma LengthsFit(h: Header, e: Event)
    requires h.created < TWO_TO_THE_64 && e.timestamp < TWO_TO_THE_64
    requires e.observed.Some? && e.observed.value.Rpc? && |e.observed.value.body| < TWO_TO_THE_64 / 2
    ensures |PutHeader(h)| < TWO_TO_THE_64 && |PutEvent(e)| < TWO_TO_THE_64
  {
    Varint.RoundTrip(h.created);
    Varint.RoundTrip(e.timestamp);
    Varint.RoundTrip(|e.observed.value.body|);
  }
}
