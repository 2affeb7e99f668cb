/** The conversion of a raw addrman table, a flat map with keys "bucket/position", to nested
    maps from buckets to positions to entries. */
module AddrmanTable {
  import opened Basics
  import opened Decimal
  import opened Strings
  import opened MapSums

  datatype Entry = Entry(address: string, port: nat, network: string, services: nat, time: int,
                         source: string, mappedAs: Option<nat>, sourceMappedAs: Option<nat>)

  type Table = map<nat, map<nat, Entry>>

  datatype Position = At(bucket: nat, slot: nat)

  type Flat = map<Position, Entry>

  /** The key of a position; `None` is the panic of the conversion on a malformed key. */
  function ParseKey(key: string): Option<Position> {
    match SplitOnce(key, '/')
    case None => None
    case Some((bucket, position)) =>
      match (ParseU32(bucket), ParseU32(position))
      case (Some(b), Some(p)) => Some(At(b, p))
      case _ => None
  }

  function RenderKey(at: Position): string {
    Render(at.bucket) + "/" + Render(at.slot)
  }

  lemma KeyRoundTrip(at: Position)
    requires at.bucket < U32_LIMIT && at.slot < U32_LIMIT
    ensures ParseKey(RenderKey(at)) == Some(at)
  {
    assert '/' !in Render(at.bucket) by {
      assert !IsDigit('/');
    }
    SplitAtFirst(Render(at.bucket), '/', Render(at.slot));
    ParseRendered(at.bucket);
    ParseRendered(at.slot);
  }

  /** Exactly which keys are read, and as what: the bucket before the first slash and the position
      behind it. */
  lemma ParseKeyIff(key: string, at: Position)
    ensures ParseKey(key) == Some(at) <==>
      exists x, y :: key == x + "/" + y && '/' !in x && ParseU32(x) == Some(at.bucket) && ParseU32(y) == Some(at.slot)
  {
    hide ParseU32, SplitOnce;
    if ParseKey(key) == Some(at) {
      var (x, y) := SplitOnce(key, '/').value;
      SplitIff(key, '/', x, y);
      assert key == x + "/" + y;
    }
    if x, y :| key == x + "/" + y && '/' !in x && ParseU32(x) == Some(at.bucket) && ParseU32(y) == Some(at.slot) {
      SplitIff(key, '/', x, y);
    }
  }

  // ---------- Flat and nested tables ----------

  predicate NoEmptyBucket(t: Table) {
    forall b :: b in t ==> t[b] != map[]
  }

  function Positions(t: Table): set<Position> {
    set b, p | b in t && p in t[b] :: At(b, p)
  }

  lemma InPositions(t: Table, at: Position)
    ensures at in Positions(t) <==> at.bucket in t && at.slot in t[at.bucket]
  {
    if at.bucket in t && at.slot in t[at.bucket] {
      assert at == At(at.bucket, at.slot);
    }
  }

  function Flatten(t: Table): Flat {
    map at | at in Positions(t) :: t[at.bucket][at.slot]
  }

  /** The first entry listed for a position is the one that counts. */
  function FirstWins(raw: seq<(string, Entry)>): Flat
    requires AllParse(raw)
  {
    if raw == [] then map[]
    else
      var m := FirstWins(raw[..|raw| - 1]);
      var at := ParseKey(raw[|raw| - 1].0).value;
      if at in m then m else m[at := raw[|raw| - 1].1]
  }

  predicate AllParse(raw: seq<(string, Entry)>) {
    forall i :: 0 <= i < |raw| ==> ParseKey(raw[i].0).Some?
  }

  function BucketOf(t: Table, b: nat): map<nat, Entry> {
    if b in t then t[b] else map[]
  }

  function Insert(t: Table, at: Position, e: Entry): Table {
    var bucket := BucketOf(t, at.bucket);
    t[at.bucket := if at.slot in bucket then bucket else bucket[at.slot := e]]
  }

  lemma FlattenInsert(t: Table, at: Position, e: Entry)
    requires NoEmptyBucket(t)
    ensures NoEmptyBucket(Insert(t, at, e))
    ensures Flatten(Insert(t, at, e)) == if at in Flatten(t) then Flatten(t) else Flatten(t)[at := e]
  {
    hide Positions;
    var u := Insert(t, at, e);
    InPositions(t, at);
    assert at.slot in u[at.bucket];
    forall k ensures k in Positions(u) <==> k == at || k in Positions(t) {
      InPositions(t, k);
      InPositions(u, k);
    }
    forall k | k in Positions(t)
      ensures k.bucket in t && k.slot in t[k.bucket] && k.bucket in u && k.slot in u[k.bucket]
      ensures u[k.bucket][k.slot] == t[k.bucket][k.slot]
    {
      InPositions(t, k);
    }
  }

  /** Fills the nested maps from the flat map, listed in the order of its keys. The result is
      `None` when a key makes the conversion panic; otherwise flattening it gives back what
      was listed, and no bucket is empty. */
  method TableToAddrmanBuckets(raw: seq<(string, Entry)>) returns (r: Option<Table>)
    ensures r.Some? <==> AllParse(raw)
    ensures r.Some? ==> NoEmptyBucket(r.value) && Flatten(r.value) == FirstWins(raw)
  {
    hide ParseKey, NoEmptyBucket, Flatten;
    var table: Table := map[];
    assert NoEmptyBucket(table) && Flatten(table) == map[] by {
      EmptyTable();
    }
    for i := 0 to |raw|
      invariant AllParse(raw[..i])
      invariant NoEmptyBucket(table) && Flatten(table) == FirstWins(raw[..i])
    {
      var (key, value) := raw[i];
      assert raw[..i + 1] == raw[..i] + [raw[i]];
      var at := ParseKey(key);
      if at.None? {
        assert !AllParse(raw);
        return None;
      }
      FlattenInsert(table, at.value, value);
      var bucket := if at.value.bucket in table then table[at.value.bucket] else map[];
      if at.value.slot !in bucket {
        bucket := bucket[at.value.slot := value];
      }
      table := table[at.value.bucket := bucket];
    }
    assert raw[..|raw|] == raw;
    r := Some(table);
  }

  lemma EmptyTable()
    ensures NoEmptyBucket(map[]) && Flatten(map[]) == map[]
  {
  }

  /** What is kept for a position is the first entry listed for it. */
  lemma {:induction false} FirstIsKept(raw: seq<(string, Entry)>, i: nat)
    requires AllParse(raw) && i < |raw|
    requires forall j :: 0 <= j < i ==> ParseKey(raw[j].0) != ParseKey(raw[i].0)
    ensures var at := ParseKey(raw[i].0).value; at in FirstWins(raw) && FirstWins(raw)[at] == raw[i].1
  {
    hide ParseKey;
    var before := raw[..|raw| - 1];
    if i < |before| {
      FirstIsKept(before, i);
    } else {
      FirstWinsKeys(before, ParseKey(raw[i].0).value);
    }
  }

  // ---------- Canonical keys ----------

  function RenderAll(entries: seq<(Position, Entry)>): (raw: seq<(string, Entry)>)
    ensures |raw| == |entries|
    ensures forall i :: 0 <= i < |raw| ==> raw[i] == (RenderKey(entries[i].0), entries[i].1)
  {
    seq(|entries|, i requires 0 <= i < |entries| => (RenderKey(entries[i].0), entries[i].1))
  }

  ghost predicate DistinctPositions(entries: seq<(Position, Entry)>) {
    forall i, j :: 0 <= i < j < |entries| ==> entries[i].0 != entries[j].0
  }

  /** The map that the entries list. */
  function Listed(entries: seq<(Position, Entry)>): Flat {
    if entries == [] then map[]
    else Listed(entries[..|entries| - 1])[entries[|entries| - 1].0 := entries[|entries| - 1].1]
  }

  lemma {:induction false} ListedKeys(entries: seq<(Position, Entry)>, at: Position)
    ensures at in Listed(entries) <==> exists i :: 0 <= i < |entries| && entries[i].0 == at
  {
    if entries != [] {
      var before, last := entries[..|entries| - 1], entries[|entries| - 1];
      ListedKeys(before, at);
      assert entries == before + [last];
    }
  }

  ghost predicate In32Bits(entries: seq<(Position, Entry)>) {
    forall i :: 0 <= i < |entries| ==> entries[i].0.bucket < U32_LIMIT && entries[i].0.slot < U32_LIMIT
  }

  /** With canonical keys the conversion loses nothing: what it flattens back to is the map
      that the entries list, with as many entries as there were keys. */
  lemma {:induction false} CanonicalKeysAreKept(entries: seq<(Position, Entry)>)
    requires DistinctPositions(entries) && In32Bits(entries)
    ensures AllParse(RenderAll(entries))
    ensures FirstWins(RenderAll(entries)) == Listed(entries) && |Listed(entries)| == |entries|
  {
    hide ParseKey, RenderKey;
    if entries != [] {
      var before, last := entries[..|entries| - 1], entries[|entries| - 1];
      CanonicalKeysAreKept(before);
      KeyRoundTrip(last.0);
      assert RenderAll(entries) == RenderAll(before) + [(RenderKey(last.0), last.1)];
      assert RenderAll(entries)[..|before|] == RenderAll(before);
      ListedKeys(before, last.0);
    }
  }

  // ---------- Any keys ----------

  ghost predicate KeysDiffer(raw: seq<(string, Entry)>) {
    forall i, j :: 0 <= i < j < |raw| ==> ParseKey(raw[i].0) != ParseKey(raw[j].0)
  }

  predicate Mentions(raw: seq<(string, Entry)>, at: Position) {
    exists i :: 0 <= i < |raw| && ParseKey(raw[i].0) == Some(at)
  }

  lemma {:induction false} FirstWinsKeys(raw: seq<(string, Entry)>, at: Position)
    requires AllParse(raw)
    ensures at in FirstWins(raw) <==> Mentions(raw, at)
  {
    hide ParseKey;
    if raw != [] {
      var before, last := raw[..|raw| - 1], raw[|raw| - 1];
      FirstWinsKeys(before, at);
      assert raw == before + [last];
    }
  }

  lemma {:induction false} FirstWinsSize(raw: seq<(string, Entry)>)
    requires AllParse(raw)
    ensures |FirstWins(raw)| <= |raw|
  {
    hide ParseKey;
    if raw != [] {
      FirstWinsSize(raw[..|raw| - 1]);
    }
  }

  /** In general entries are lost exactly when two keys are read as the same position. */
  lemma {:induction false} NothingLostIffKeysDiffer(raw: seq<(string, Entry)>)
    requires AllParse(raw)
    ensures |FirstWins(raw)| == |raw| <==> KeysDiffer(raw)
  {
    hide ParseKey;
    if raw != [] {
      var before, last := raw[..|raw| - 1], raw[|raw| - 1];
      var at := ParseKey(last.0).value;
      assert raw == before + [last];
      NothingLostIffKeysDiffer(before);
      FirstWinsSize(before);
      FirstWinsKeys(before, at);
      assert KeysDiffer(raw) <==> KeysDiffer(before) && !Mentions(before, at);
    }
  }

  /** Two keys are the same but for plus signs and leading zeros in front of their two parts. */
  predicate SameKey(a: string, b: string) {
    var (x, y) := (SplitOnce(a, '/'), SplitOnce(b, '/'));
    x.Some? && y.Some? && SameNumber(x.value.0, y.value.0) && SameNumber(x.value.1, y.value.1)
  }

  /** In terms of the texts of the keys: entries are lost exactly when two keys are the same but
      for plus signs and leading zeros. */
  lemma NothingLostIffTextsDiffer(raw: seq<(string, Entry)>)
    requires AllParse(raw)
    ensures |FirstWins(raw)| == |raw| <==> forall i, j :: 0 <= i < j < |raw| ==> !SameKey(raw[i].0, raw[j].0)
  {
    hide FirstWins, ParseKey, SameKey;
    NothingLostIffKeysDiffer(raw);
    forall i, j | 0 <= i < j < |raw| ensures ParseKey(raw[i].0) == ParseKey(raw[j].0) <==> SameKey(raw[i].0, raw[j].0) {
      KeysCollideIff(raw[i].0, raw[j].0);
    }
  }

  lemma KeysCollideIff(a: string, b: string)
    requires ParseKey(a).Some? && ParseKey(b).Some?
    ensures ParseKey(a) == ParseKey(b) <==> SameKey(a, b)
  {
    hide ParseU32, SameNumber, SplitOnce;
    var (x, y) := (SplitOnce(a, '/').value, SplitOnce(b, '/').value);
    ParsedAlikeIff(x.0, y.0);
    ParsedAlikeIff(x.1, y.1);
  }

  /** Two different keys that the conversion reads as one position. */
  lemma KeysCanCollide()
    ensures ParseKey("1/2") == ParseKey("1/+2") == Some(At(1, 2))
  {
    SplitAtFirst("1", '/', "2");
    SplitAtFirst("1", '/', "+2");
    assert "1" + ['/'] + "2" == "1/2" && "1" + ['/'] + "+2" == "1/+2";
    assert "1" == Render(1) && "2" == Render(2) && "+2"[1..] == "2";
    ParseRendered(1);
    ParseRendered(2);
  }

  // ---------- Counting entries ----------

  function BucketSizes(t: Table): map<nat, int> {
    map b | b in t :: |t[b]|
  }

  lemma SplitBucket(t: Table, b: nat)
    requires b in t
    ensures |Flatten(t)| == |t[b]| + |Flatten(t - {b})|
  {
    hide Positions;
    var own, rest := BucketPositions(b, t[b].Keys), t - {b};
    BucketPositionsSize(b, t[b].Keys);
    forall at ensures at in Positions(t) <==> at in own || at in Positions(rest)
              ensures !(at in own && at in Positions(rest)) {
      InPositions(t, at);
      InPositions(rest, at);
    }
    assert Positions(t) == own + Positions(rest) && own !! Positions(rest);
    assert Flatten(t).Keys == Positions(t) && Flatten(rest).Keys == Positions(rest);
  }

  /** The entry count that is displayed: the sizes of the buckets, added up. */
  lemma {:induction false} EntryCount(t: Table)
    ensures Total(BucketSizes(t)) == |Flatten(t)|
    decreases |t|
  {
    hide Flatten;
    if t == map[] {
      EmptyTable();
    } else {
      var b :| b in t;
      var rest := t - {b};
      EntryCount(rest);
      SumRemove(BucketSizes(t), One, b);
      assert BucketSizes(t) - {b} == BucketSizes(rest);
      SplitBucket(t, b);
    }
  }

  function BucketPositions(b: nat, slots: set<nat>): (s: set<Position>)
    ensures forall at :: at in s <==> at.bucket == b && at.slot in slots
  {
    set p | p in slots :: At(b, p)
  }

  lemma {:induction false} BucketPositionsSize(b: nat, slots: set<nat>)
    ensures |BucketPositions(b, slots)| == |slots|
  {
    if slots != {} {
      var p :| p in slots;
      BucketPositionsSize(b, slots - {p});
      assert BucketPositions(b, slots) == BucketPositions(b, slots - {p}) + {At(b, p)};
    }
  }

  // ---------- Buckets one after the other ----------

  /** The positions of some of the buckets. */
  function PositionsIn(t: Table, buckets: set<nat>): (s: set<Position>)
    ensures forall at :: at in s <==> at.bucket in buckets && at.bucket in t && at.slot in t[at.bucket]
  {
    set b, p | b in buckets && b in t && p in t[b] :: At(b, p)
  }

  lemma NoBucket(t: Table)
    ensures PositionsIn(t, {}) == {}
  {
  }

  lemma NextBucket(t: Table, done: set<nat>, b: nat)
    requires b in t && b !in done
    ensures PositionsIn(t, done + {b}) == PositionsIn(t, done) + BucketPositions(b, t[b].Keys)
    ensures PositionsIn(t, done) !! BucketPositions(b, t[b].Keys)
  {
  }

  lemma AllPositions(t: Table, buckets: set<nat>)
    requires buckets == t.Keys
    ensures PositionsIn(t, buckets) == Flatten(t).Keys
  {
    hide Positions;
    forall at ensures at in PositionsIn(t, buckets) <==> at in Positions(t) {
      InPositions(t, at);
    }
  }
}
