/** The record boundary for P2P messages: a tracepoint handler fills a record in reused ring
    memory, and the extractor reads the bytes back as a struct of the same layout. */
module EbpfRecord {
  import opened Basics

  const MAX_PEER_ADDR_LENGTH: nat := 62 + 6
  const MAX_PEER_CONN_TYPE_LENGTH: nat := 20
  const MAX_MSG_TYPE_LENGTH: nat := 12
  const MAX_SMALL_MSG_LENGTH: nat := 256
  const MAX_MEDIUM_MSG_LENGTH: nat := 4096
  const MAX_LARGE_MSG_LENGTH: nat := 65536
  const MAX_HUGE_MSG_LENGTH: nat := 4194304
  const MAX_P2P_MESSAGE_SIZE: nat := 4194304

  // ---------- Layout ----------

  /** A field of a C struct: its size and its alignment in bytes. */
  datatype Field = Field(size: nat, align: nat)

  function AlignUp(at: nat, align: nat): nat
    requires align > 0
  {
    (at + align - 1) / align * align
  }

  /** The offsets of the fields from `at` on, and last the size of the struct, when a field
      starts at the next multiple of its alignment. */
  function Offsets(fields: seq<Field>, at: nat, structAlign: nat): seq<nat>
    requires structAlign > 0 && forall f :: f in fields ==> f.align > 0
  {
    if fields == [] then [AlignUp(at, structAlign)]
    else
      var start := AlignUp(at, fields[0].align);
      [start] + Offsets(fields[1..], start + fields[0].size, structAlign)
  }

  /** `struct Metadata` of the tracing program. */
  const C_METADATA := [Field(8, 8), Field(MAX_PEER_ADDR_LENGTH, 1), Field(MAX_PEER_CONN_TYPE_LENGTH, 1),
                       Field(MAX_MSG_TYPE_LENGTH, 1), Field(1, 1), Field(8, 8)]

  /** `P2PMessageMetadata` of the extractor, which is `repr(C)`. */
  const RUST_METADATA := [Field(8, 8), Field(62 + 6, 1), Field(20, 1), Field(12, 1), Field(1, 1), Field(8, 8)]

  const ID_AT: nat := 0
  const ADDR_AT: nat := 8
  const CONN_TYPE_AT: nat := 76
  const MSG_TYPE_AT: nat := 96
  const INBOUND_AT: nat := 108
  const SIZE_AT: nat := 112
  const METADATA_SIZE: nat := 120

  /** Both sides place every field at the same offset, with padding before the size, and the
      payload right behind the struct. */
  lemma LayoutsAgree()
    ensures Offsets(C_METADATA, 0, 8) == Offsets(RUST_METADATA, 0, 8)
         == [ID_AT, ADDR_AT, CONN_TYPE_AT, MSG_TYPE_AT, INBOUND_AT, SIZE_AT, METADATA_SIZE]
  {
  }

  // ---------- Numbers and strings ----------

  function Pow256(k: nat): nat {
    if k == 0 then 1 else 256 * Pow256(k - 1)
  }

  function LittleEndian(n: nat, k: nat): (bs: seq<byte>)
    ensures |bs| == k
  {
    if k == 0 then [] else [n % 256] + LittleEndian(n / 256, k - 1)
  }

  function Number(bs: seq<byte>): nat {
    if bs == [] then 0 else bs[0] + 256 * Number(bs[1..])
  }

  lemma {:induction false} NumberRoundTrip(n: nat, k: nat)
    requires n < Pow256(k)
    ensures Number(LittleEndian(n, k)) == n
  {
    if k > 0 {
      assert n / 256 < Pow256(k - 1);
      NumberRoundTrip(n / 256, k - 1);
      assert LittleEndian(n, k)[1..] == LittleEndian(n / 256, k - 1);
    }
  }

  /** The last byte is the most significant one. */
  lemma {:induction false} LastByteIsHighest(bs: seq<byte>, b: byte)
    ensures Number(bs + [b]) == Number(bs) + Pow256(|bs|) * b
  {
    if bs == [] {
      assert [b][1..] == [] && [] + [b] == [b];
    } else {
      assert (bs + [b])[1..] == bs[1..] + [b];
      LastByteIsHighest(bs[1..], b);
      assert 256 * (Pow256(|bs| - 1) * b) == Pow256(|bs|) * b;
    }
  }

  lemma EightBytes()
    ensures Pow256(8) == TWO_TO_THE_64
  {
    assert Pow256(4) == 0x1_0000_0000;
    assert Pow256(8) == 256 * 256 * 256 * 256 * Pow256(4);
  }

  /** A C string without its terminator. */
  type CString = s: seq<byte> | NulFree(s)

  predicate NulFree(s: seq<byte>) {
    forall i :: 0 <= i < |s| ==> s[i] != 0
  }

  function Cut(s: CString, capacity: nat): (r: CString)
    requires capacity > 0
    ensures r <= s && |r| < capacity && (r == s || |r| == capacity - 1)
  {
    if |s| < capacity then s else s[..capacity - 1]
  }

  /** What is copied of a string: as much as leaves room for the terminator, and that. */
  function Copied(s: CString, capacity: nat): (r: seq<byte>)
    requires capacity > 0
    ensures 0 < |r| <= capacity
  {
    Cut(s, capacity) + [0]
  }

  /** The part before the first NUL. */
  function Text(bs: seq<byte>): (t: CString) {
    if bs == [] || bs[0] == 0 then [] else
      var t := [bs[0]] + Text(bs[1..]);
      t
  }

  lemma {:induction false} TextOfCopied(s: CString, rest: seq<byte>)
    ensures Text(s + [0] + rest) == s
  {
    var bs := s + [0] + rest;
    if s != [] {
      assert bs[1..] == s[1..] + [0] + rest;
      TextOfCopied(s[1..], rest);
    }
  }

  // ---------- Memory ----------

  function Slice(mem: seq<byte>, at: nat, len: nat): (r: seq<byte>)
    requires at + len <= |mem|
    ensures |r| == len
  {
    mem[at..at + len]
  }

  /** Bytes and where in a record they are. */
  datatype Placed = Placed(at: nat, bytes: seq<byte>)

  predicate Has(mem: seq<byte>, f: Placed) {
    f.at + |f.bytes| <= |mem| && Slice(mem, f.at, |f.bytes|) == f.bytes
  }

  predicate HasAll(mem: seq<byte>, fields: set<Placed>) {
    forall f :: f in fields ==> Has(mem, f)
  }

  /** The bytes from `from` up to `to` are still the same. */
  predicate Same(before: seq<byte>, after: seq<byte>, from: nat, to: nat) {
    to <= |before| == |after| && forall i :: from <= i < to ==> after[i] == before[i]
  }

  /** Nothing but `len` bytes from `at` on is changed. */
  predicate Touched(before: seq<byte>, after: seq<byte>, at: nat, len: nat) {
    Same(before, after, 0, at) && Same(before, after, at + len, |before|)
  }

  predicate Apart(fields: set<Placed>, at: nat, len: nat) {
    forall f :: f in fields ==> f.at + |f.bytes| <= at || at + len <= f.at
  }

  /** A store leaves all fields apart from it. */
  lemma FieldsStay(before: seq<byte>, after: seq<byte>, at: nat, len: nat, fields: set<Placed>)
    requires HasAll(before, fields) && Touched(before, after, at, len) && Apart(fields, at, len)
    ensures HasAll(after, fields)
  {
    forall f | f in fields ensures Has(after, f) {
      assert Has(before, f);
      assert forall i :: f.at <= i < f.at + |f.bytes| ==> after[i] == before[i];
      assert Slice(after, f.at, |f.bytes|) == Slice(before, f.at, |f.bytes|);
    }
  }

  // ---------- The writer ----------

  /** What a tracepoint passes. */
  datatype Call = Call(id: nat, inbound: bool, addr: CString, connType: CString, msgType: CString, payload: seq<byte>)

  function IdField(c: Call): Placed {
    Placed(ID_AT, LittleEndian(c.id, 8))
  }

  function InboundField(c: Call): Placed {
    Placed(INBOUND_AT, [if c.inbound then 1 else 0])
  }

  function SizeField(c: Call): Placed {
    Placed(SIZE_AT, LittleEndian(|c.payload|, 8))
  }

  function AddrField(c: Call): Placed {
    Placed(ADDR_AT, Copied(c.addr, MAX_PEER_ADDR_LENGTH))
  }

  function ConnTypeField(c: Call): Placed {
    Placed(CONN_TYPE_AT, Copied(c.connType, MAX_PEER_CONN_TYPE_LENGTH))
  }

  function MsgTypeField(c: Call): Placed {
    Placed(MSG_TYPE_AT, Copied(c.msgType, MAX_MSG_TYPE_LENGTH))
  }

  function Numbers(c: Call): set<Placed> {
    {IdField(c), InboundField(c), SizeField(c)}
  }

  function Strings(c: Call): set<Placed> {
    {AddrField(c), ConnTypeField(c), MsgTypeField(c)}
  }

  /** Stores bytes in place. */
  method Store(mem: array<byte>, f: Placed)
    requires f.at + |f.bytes| <= mem.Length
    modifies mem
    ensures Has(mem[..], f) && Touched(old(mem[..]), mem[..], f.at, |f.bytes|)
  {
    for i := 0 to |f.bytes|
      invariant forall j :: 0 <= j < i ==> mem[f.at + j] == f.bytes[j]
      invariant forall j :: 0 <= j < mem.Length && !(f.at <= j < f.at + i) ==> mem[j] == old(mem[j])
    {
      mem[f.at + i] := f.bytes[i];
    }
  }

  /** Copies a string up to its terminator into the field of `capacity` bytes; the rest of the
      field may be left with any bytes. */
  method ProbeReadUserStr(mem: array<byte>, at: nat, capacity: nat, s: CString)
    requires capacity > 0 && at + capacity <= mem.Length
    modifies mem
    ensures Has(mem[..], Placed(at, Copied(s, capacity))) && Touched(old(mem[..]), mem[..], at, capacity)
  {
    var end := at + |Copied(s, capacity)|;
    Store(mem, Placed(at, Copied(s, capacity)));
    ghost var stored := mem[..];
    for i := end to at + capacity
      invariant Touched(stored, mem[..], end, at + capacity - end)
    {
      mem[i] := *;
    }
    FieldsStay(stored, mem[..], end, at + capacity - end, {Placed(at, Copied(s, capacity))});
  }

  /** Stores the numbers and leaves everything else. */
  method SetMetaData1(mem: array<byte>, c: Call)
    requires mem.Length >= METADATA_SIZE
    modifies mem
    ensures HasAll(mem[..], Numbers(c))
    ensures Same(old(mem[..]), mem[..], ADDR_AT, INBOUND_AT) && Same(old(mem[..]), mem[..], INBOUND_AT + 1, SIZE_AT)
    ensures Same(old(mem[..]), mem[..], METADATA_SIZE, mem.Length)
  {
    hide Has, LittleEndian;
    Store(mem, IdField(c));
    ghost var m1 := mem[..];
    Store(mem, InboundField(c));
    ghost var m2 := mem[..];
    FieldsStay(m1, m2, INBOUND_AT, 1, {IdField(c)});
    Store(mem, SizeField(c));
    FieldsStay(m2, mem[..], SIZE_AT, 8, {IdField(c), InboundField(c)});
  }

  /** Stores the strings and leaves everything outside their fields. */
  method SetMetaData2(mem: array<byte>, c: Call)
    requires mem.Length >= METADATA_SIZE
    modifies mem
    ensures HasAll(mem[..], Strings(c)) && Touched(old(mem[..]), mem[..], ADDR_AT, INBOUND_AT - ADDR_AT)
  {
    hide Has, Copied;
    ProbeReadUserStr(mem, ADDR_AT, MAX_PEER_ADDR_LENGTH, c.addr);
    ghost var m1 := mem[..];
    ProbeReadUserStr(mem, CONN_TYPE_AT, MAX_PEER_CONN_TYPE_LENGTH, c.connType);
    ghost var m2 := mem[..];
    FieldsStay(m1, m2, CONN_TYPE_AT, MAX_PEER_CONN_TYPE_LENGTH, {AddrField(c)});
    ProbeReadUserStr(mem, MSG_TYPE_AT, MAX_MSG_TYPE_LENGTH, c.msgType);
    FieldsStay(m2, mem[..], MSG_TYPE_AT, MAX_MSG_TYPE_LENGTH, {AddrField(c), ConnTypeField(c)});
  }

  const CLASSES := {MAX_SMALL_MSG_LENGTH, MAX_MEDIUM_MSG_LENGTH, MAX_LARGE_MSG_LENGTH, MAX_HUGE_MSG_LENGTH}

  /** The capacity of the smallest class that takes a message, if there is one. */
  function ClassFor(size: nat): (capacity: Option<nat>)
    ensures capacity.None? ==> forall c :: c in CLASSES ==> c < size
    ensures capacity.Some? ==>
      capacity.value in CLASSES && forall c :: c in CLASSES && size <= c ==> size <= capacity.value <= c
  {
    if size <= MAX_SMALL_MSG_LENGTH then Some(MAX_SMALL_MSG_LENGTH)
    else if size <= MAX_MEDIUM_MSG_LENGTH then Some(MAX_MEDIUM_MSG_LENGTH)
    else if size <= MAX_LARGE_MSG_LENGTH then Some(MAX_LARGE_MSG_LENGTH)
    else if size <= MAX_HUGE_MSG_LENGTH then Some(MAX_HUGE_MSG_LENGTH)
    else None
  }

  lemma ClassSizes()
    ensures CLASSES == {256, 4096, 65536, 4194304}
  {
  }

  /** Fills a reserved record. The handlers for the medium class copy the message type again. */
  method Fill(mem: array<byte>, c: Call, capacity: nat)
    requires mem.Length == METADATA_SIZE + capacity && |c.payload| <= capacity
    modifies mem
    ensures Holds(mem[..], c)
  {
    hide Has, Copied, LittleEndian;
    SetMetaData1(mem, c);
    ghost var m1 := mem[..];
    SetMetaData2(mem, c);
    FieldsStay(m1, mem[..], ADDR_AT, INBOUND_AT - ADDR_AT, Numbers(c));
    if capacity == MAX_MEDIUM_MSG_LENGTH {
      ghost var m2 := mem[..];
      ProbeReadUserStr(mem, MSG_TYPE_AT, MAX_MSG_TYPE_LENGTH, c.msgType);
      FieldsStay(m2, mem[..], MSG_TYPE_AT, MAX_MSG_TYPE_LENGTH, Numbers(c) + {AddrField(c), ConnTypeField(c)});
    }
    ghost var m3 := mem[..];
    Store(mem, Placed(METADATA_SIZE, c.payload));
    FieldsStay(m3, mem[..], METADATA_SIZE, |c.payload|, Numbers(c) + Strings(c));
  }

  /** A tracepoint handler: reserves a record of the smallest class, whose memory has arbitrary
      contents, fills it and submits it. No record comes of a message that is too large or of
      a ring without room. */
  method HandleNetMsg(c: Call, ringFull: bool) returns (record: Option<seq<byte>>)
    ensures record.Some? <==> !ringFull && |c.payload| <= MAX_HUGE_MSG_LENGTH
    ensures record.Some? ==> Holds(record.value, c) && |record.value| == METADATA_SIZE + ClassFor(|c.payload|).value
  {
    var capacity := ClassFor(|c.payload|);
    if capacity.None? || ringFull {
      return None;
    }
    var mem := new byte[METADATA_SIZE + capacity.value];
    Fill(mem, c, capacity.value);
    record := Some(mem[..]);
  }

  /** Every field and the payload are where the layout has them; nothing is said of padding, of
      what follows a terminator or of what follows the payload. */
  ghost predicate Holds(mem: seq<byte>, c: Call) {
    |mem| >= METADATA_SIZE && HasAll(mem, Numbers(c) + Strings(c) + {Placed(METADATA_SIZE, c.payload)})
  }

  // ---------- The reader ----------

  datatype Metadata = Metadata(peerId: nat, peerAddr: seq<byte>, peerConnType: seq<byte>, msgType: seq<byte>,
                               msgInbound: bool, msgSize: nat)

  datatype Message = Message(meta: Metadata, payload: seq<byte>)

  /** Reinterprets the bytes; `None` is the panic on a record that is too short. */
  function FromBytes(x: seq<byte>): Option<Message> {
    if |x| < METADATA_SIZE then None
    else
      var meta := Metadata(Number(Slice(x, ID_AT, 8)), Slice(x, ADDR_AT, MAX_PEER_ADDR_LENGTH),
                           Slice(x, CONN_TYPE_AT, MAX_PEER_CONN_TYPE_LENGTH),
                           Slice(x, MSG_TYPE_AT, MAX_MSG_TYPE_LENGTH),
                           x[INBOUND_AT] != 0, Number(Slice(x, SIZE_AT, 8)));
      var size := if meta.msgSize <= MAX_P2P_MESSAGE_SIZE then meta.msgSize else MAX_P2P_MESSAGE_SIZE;
      if |x| < METADATA_SIZE + size then None
      else Some(Message(meta, Slice(x, METADATA_SIZE, size)))
  }

  /** A record is read if and only if it has room for the struct and for the payload that its size
      field tells, up to the limit. */
  lemma ReadIff(x: seq<byte>)
    ensures FromBytes(x).Some? <==>
      && |x| >= 120
      && var size := Number(x[112..120]);
      |x| >= 120 + if size <= 4194304 then size else 4194304
    ensures FromBytes(x).Some? ==>
      var (m, size) := (FromBytes(x).value, Number(x[112..120]));
      m.meta.msgSize == size && m.payload == x[120..120 + if size <= 4194304 then size else 4194304]
  {
  }

  lemma TextOfSlice(x: seq<byte>, at: nat, capacity: nat, s: CString)
    requires capacity > 0 && at + capacity <= |x| && Has(x, Placed(at, Copied(s, capacity)))
    ensures Text(Slice(x, at, capacity)) == Cut(s, capacity)
  {
    var cut, field := Cut(s, capacity), Slice(x, at, capacity);
    var rest := field[|cut| + 1..];
    assert field == cut + [0] + rest by {
      assert field[..|cut| + 1] == Slice(x, at, |cut| + 1);
    }
    TextOfCopied(cut, rest);
  }

  /** The bytes of a record, at the offsets of the struct. */
  lemma RecordBytes(record: seq<byte>, c: Call)
    requires Holds(record, c) && c.id < TWO_TO_THE_64 && |c.payload| < TWO_TO_THE_64
    ensures |record| >= 120 + |c.payload| && record[120..120 + |c.payload|] == c.payload
    ensures Number(record[0..8]) == c.id && Number(record[112..120]) == |c.payload|
    ensures record[108] == if c.inbound then 1 else 0
  {
    hide Copied, LittleEndian, Number;
    assert Has(record, IdField(c)) && Has(record, InboundField(c)) && Has(record, SizeField(c));
    assert Has(record, Placed(METADATA_SIZE, c.payload));
    EightBytes();
    NumberRoundTrip(c.id, 8);
    NumberRoundTrip(|c.payload|, 8);
    assert record[108] == record[108..109][0];
  }

  /** The boundary law: whatever the reused memory held, the reader gets back the id, the
      direction, the size and the exact payload of the call, and each string cut to what its
      field can take. */
  lemma RecordRoundTrip(record: seq<byte>, c: Call)
    requires Holds(record, c) && c.id < TWO_TO_THE_64 && |c.payload| <= MAX_HUGE_MSG_LENGTH
    ensures FromBytes(record).Some?
    ensures var m := FromBytes(record).value;
      && m.meta.peerId == c.id && m.meta.msgInbound == c.inbound && m.meta.msgSize == |c.payload|
      && m.payload == c.payload
      && Text(m.meta.peerAddr) == Cut(c.addr, MAX_PEER_ADDR_LENGTH)
      && Text(m.meta.peerConnType) == Cut(c.connType, MAX_PEER_CONN_TYPE_LENGTH)
      && Text(m.meta.msgType) == Cut(c.msgType, MAX_MSG_TYPE_LENGTH)
  {
    hide Copied, Cut, Text;
    assert Has(record, IdField(c)) && Has(record, InboundField(c)) && Has(record, SizeField(c));
    assert Has(record, AddrField(c)) && Has(record, ConnTypeField(c)) && Has(record, MsgTypeField(c));
    assert Has(record, Placed(METADATA_SIZE, c.payload));
    EightBytes();
    NumberRoundTrip(c.id, 8);
    NumberRoundTrip(|c.payload|, 8);
    assert record[INBOUND_AT] == Slice(record, INBOUND_AT, 1)[0];
    TextOfSlice(record, ADDR_AT, MAX_PEER_ADDR_LENGTH, c.addr);
    TextOfSlice(record, CONN_TYPE_AT, MAX_PEER_CONN_TYPE_LENGTH, c.connType);
    TextOfSlice(record, MSG_TYPE_AT, MAX_MSG_TYPE_LENGTH, c.msgType);
  }

  // ---------- The raw message rebuilt for the decoder ----------

  /** A string padded with NULs. */
  function Padded(s: seq<byte>, n: nat): seq<byte>
    requires |s| <= n
  {
    s + seq(n - |s|, _ => 0)
  }

  lemma {:induction false} TextIsPrefix(bs: seq<byte>)
    ensures |Text(bs)| <= |bs| && Text(bs) == bs[..|Text(bs)|]
    ensures |Text(bs)| < |bs| ==> bs[|Text(bs)|] == 0
  {
    if bs != [] && bs[0] != 0 {
      TextIsPrefix(bs[1..]);
    }
  }

  /** A wire message: an empty network magic, the command padded with NULs, the size in 32 bits,
      the first four bytes of the payload's hash, and the payload. */
  function WireMessage(command: seq<byte>, size: nat, payload: seq<byte>, hash: seq<byte>): (raw: seq<byte>)
    requires |command| <= MAX_MSG_TYPE_LENGTH && |hash| == 32
  {
    [0, 0, 0, 0] + Padded(command, MAX_MSG_TYPE_LENGTH) + LittleEndian(size % 0x1_0000_0000, 4) + hash[..4] + payload
  }

  /** Rebuilds the wire message; none of what follows the terminator in the record gets in. */
  method RawMessage(meta: Metadata, payload: seq<byte>, hash: seq<byte>) returns (raw: seq<byte>)
    requires |meta.msgType| == MAX_MSG_TYPE_LENGTH && |hash| == 32
    ensures |Text(meta.msgType)| <= MAX_MSG_TYPE_LENGTH
    ensures raw == WireMessage(Text(meta.msgType), meta.msgSize, payload, hash)
  {
    var kind := meta.msgType;
    TextIsPrefix(kind);
    raw := [0, 0, 0, 0, 0, 0, 0, 0, 0, 0, 0, 0, 0, 0, 0, 0];
    var i := 0;
    while i < |kind| && kind[i] != 0
      invariant i <= |Text(kind)| && |raw| == 16
      invariant forall j :: 0 <= j < 16 ==> raw[j] == if 4 <= j < 4 + i then kind[j - 4] else 0
    {
      raw := raw[4 + i := kind[i]];
      i := i + 1;
    }
    assert i == |Text(kind)|;
    assert raw == [0, 0, 0, 0] + Padded(Text(kind), MAX_MSG_TYPE_LENGTH);
    raw := raw + LittleEndian(meta.msgSize % 0x1_0000_0000, 4);
    raw := raw + hash[..4];
    raw := raw + payload;
  }

  /** The wire message field by field: empty magic, padded command, size in 32 bits, the first four
      bytes of the hash, and the payload. */
  lemma WireFields(command: seq<byte>, size: nat, payload: seq<byte>, hash: seq<byte>)
    requires |command| <= 12 && |hash| == 32
    ensures var raw := WireMessage(command, size, payload, hash);
      && |raw| == 24 + |payload| && raw[..4] == [0, 0, 0, 0]
      && raw[4..4 + |command|] == command && (forall i :: 4 + |command| <= i < 16 ==> raw[i] == 0)
      && Number(raw[16..20]) == size % 0x1_0000_0000
      && raw[20..24] == hash[..4] && raw[24..] == payload
  {
    hide Number, LittleEndian;
    var raw := WireMessage(command, size, payload, hash);
    var padded, length := Padded(command, MAX_MSG_TYPE_LENGTH), LittleEndian(size % 0x1_0000_0000, 4);
    assert raw == [0, 0, 0, 0] + padded + length + hash[..4] + payload;
    assert raw[16..20] == length;
    FourBytes();
    NumberRoundTrip(size % 0x1_0000_0000, 4);
  }

  lemma FourBytes()
    ensures Pow256(4) == 0x1_0000_0000
  {
    assert Pow256(2) == 0x1_0000;
  }

  // ---------- The command, from the tracepoint to the wire message ----------

  lemma {:induction false} TextOfPadded(s: CString, n: nat)
    requires |s| <= n
    ensures Text(Padded(s, n)) == s
  {
    if s != [] {
      assert Padded(s, n)[1..] == Padded(s[1..], n - 1);
      TextOfPadded(s[1..], n - 1);
    }
  }

  lemma WireCommand(a: CString, b: CString, size: nat, payload: seq<byte>, hash: seq<byte>)
    requires |a| <= MAX_MSG_TYPE_LENGTH && |b| <= MAX_MSG_TYPE_LENGTH && |hash| == 32
    ensures WireMessage(a, size, payload, hash) == WireMessage(b, size, payload, hash) <==> a == b
  {
    if WireMessage(a, size, payload, hash) == WireMessage(b, size, payload, hash) {
      assert WireMessage(a, size, payload, hash)[4..16] == Padded(a, MAX_MSG_TYPE_LENGTH);
      assert WireMessage(b, size, payload, hash)[4..16] == Padded(b, MAX_MSG_TYPE_LENGTH);
      TextOfPadded(a, MAX_MSG_TYPE_LENGTH);
      TextOfPadded(b, MAX_MSG_TYPE_LENGTH);
    }
  }

  /** The field of the command has room for a terminator, and a command on the wire has none: the
      text in the metadata is the command of the call if and only if it is shorter than its field. */
  lemma CommandReadIff(record: seq<byte>, c: Call)
    requires Holds(record, c) && c.id < TWO_TO_THE_64 && |c.payload| <= MAX_HUGE_MSG_LENGTH
    ensures FromBytes(record).Some?
    ensures Text(FromBytes(record).value.meta.msgType) == c.msgType <==> |c.msgType| < MAX_MSG_TYPE_LENGTH
  {
    hide FromBytes, Text, Holds;
    RecordRoundTrip(record, c);
  }

  /** And so is the wire message that is rebuilt from the record the one that was sent. */
  lemma WireMessageRebuiltIff(record: seq<byte>, c: Call, hash: seq<byte>)
    requires Holds(record, c) && c.id < TWO_TO_THE_64 && |c.payload| <= MAX_HUGE_MSG_LENGTH
    requires |c.msgType| <= MAX_MSG_TYPE_LENGTH && |hash| == 32
    ensures FromBytes(record).Some?
    ensures var m := FromBytes(record).value;
      && |Text(m.meta.msgType)| <= MAX_MSG_TYPE_LENGTH
      && var sent := WireMessage(c.msgType, |c.payload|, c.payload, hash);
      WireMessage(Text(m.meta.msgType), m.meta.msgSize, m.payload, hash) == sent <==> |c.msgType| < MAX_MSG_TYPE_LENGTH
  {
    hide FromBytes, Text, Holds, WireMessage;
    RecordRoundTrip(record, c);
    WireCommand(Text(FromBytes(record).value.meta.msgType), c.msgType, |c.payload|, c.payload, hash);
  }

  /** `getcfheaders`, a command of twelve letters. */
  const GETCFHEADERS: seq<byte> := [103, 101, 116, 99, 102, 104, 101, 97, 100, 101, 114, 115]

  /** It is read back without its last letter. */
  lemma LongCommandIsCut(record: seq<byte>, c: Call)
    requires Holds(record, c) && c.id < TWO_TO_THE_64 && |c.payload| <= MAX_HUGE_MSG_LENGTH
    requires c.msgType == GETCFHEADERS
    ensures FromBytes(record).Some? && Text(FromBytes(record).value.meta.msgType) == GETCFHEADERS[..11] != c.msgType
  {
    hide FromBytes, Text, Holds;
    RecordRoundTrip(record, c);
  }
}
