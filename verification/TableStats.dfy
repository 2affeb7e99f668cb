/** The statistics over an addrman table: counters per port, service bit, services and
    network, distinct addresses, and sorted ages, collected while iterating over hash maps. */
module TableStats {
  import opened Basics
  import opened Folds
  import opened MapSums
  import opened AddrmanTable
  import StatUtil

  const HORIZON_SECONDS: int := 30 * 24 * 60 * 60
  const FUTURE_TOLERANCE_SECONDS: int := 10 * 60

  datatype Tallies = Tallies(
    ports: map<nat, int>, serviceBits: map<nat, int>, services: map<nat, int>,
    asns: set<nat>, sources: set<string>, sourceAsns: set<nat>,
    entries: map<string, int>, terrible: map<string, int>, future: map<string, int>, farFuture: map<string, int>,
    endpoints: map<string, set<(string, nat)>>, addresses: map<string, set<string>>)

  const NO_TALLIES := Tallies(map[], map[], map[], {}, {}, {}, map[], map[], map[], map[], map[], map[])

  datatype Stats = Stats(tallies: Tallies, ages: seq<real>)

  // ---------- One entry ----------

  function Pow2(n: nat): (p: nat)
    ensures p > 0
  {
    if n == 0 then 1 else 2 * Pow2(n - 1)
  }

  /** `services & 1 << bit > 0` */
  predicate Bit(services: nat, bit: nat) {
    services / Pow2(bit) % 2 == 1
  }

  function BumpIf<K>(cond: bool, m: map<K, int>, k: K): map<K, int> {
    if cond then Bump(m, k) else m
  }

  /** Counts the bits below `n`, bit 0 under the key 1. */
  function BumpBits(m: map<nat, int>, services: nat, n: nat): map<nat, int> {
    if n == 0 then m else BumpIf(Bit(services, n - 1), BumpBits(m, services, n - 1), n)
  }

  function Record<K, V>(m: map<K, set<V>>, k: K, v: V): map<K, set<V>> {
    m[k := if k in m then m[k] + {v} else {v}]
  }

  function OrZero(n: Option<nat>): nat {
    if n.Some? then n.value else 0
  }

  predicate Future(e: Entry, now: int) {
    e.time - now > 0
  }

  predicate FarFuture(e: Entry, now: int) {
    e.time - now > FUTURE_TOLERANCE_SECONDS
  }

  predicate Terrible(e: Entry, now: int) {
    FarFuture(e, now) || now - e.time > HORIZON_SECONDS
  }

  /** Entries from the future have an age of zero. */
  function Age(e: Entry, now: int): real {
    (if now - e.time > 0 then now - e.time else 0) as real
  }

  function Count(t: Tallies, e: Entry, now: int): Tallies {
    Tallies(
      Bump<nat>(t.ports, e.port % 0x1_0000), BumpBits(t.serviceBits, e.services, 64), Bump(t.services, e.services),
      t.asns + {OrZero(e.mappedAs)}, t.sources + {e.source}, t.sourceAsns + {OrZero(e.sourceMappedAs)},
      Bump(t.entries, e.network), BumpIf(Terrible(e, now), t.terrible, e.network),
      BumpIf(Future(e, now), t.future, e.network), BumpIf(FarFuture(e, now), t.farFuture, e.network),
      Record(t.endpoints, e.network, (e.address, e.port)), Record(t.addresses, e.network, e.address))
  }

  // ---------- All entries, in some order ----------

  ghost predicate Known(flat: Flat, order: seq<Position>) {
    forall i :: 0 <= i < |order| ==> order[i] in flat
  }

  function CountAt(flat: Flat, now: int): (Tallies, Position) -> Tallies {
    (t: Tallies, at: Position) => if at in flat then Count(t, flat[at], now) else t
  }

  function Tally(flat: Flat, now: int, order: seq<Position>): Tallies {
    Fold(CountAt(flat, now), NO_TALLIES, order)
  }

  function AgeAt(flat: Flat, now: int): (multiset<real>, Position) -> multiset<real> {
    (m: multiset<real>, at: Position) => if at in flat then m + multiset{Age(flat[at], now)} else m
  }

  function AgesOf(flat: Flat, now: int, order: seq<Position>): seq<real>
    requires Known(flat, order)
  {
    seq(|order|, i requires 0 <= i < |order| => Age(flat[order[i]], now))
  }

  function StatsOf(flat: Flat, now: int, order: seq<Position>): Stats
    requires Known(flat, order)
  {
    Stats(Tally(flat, now, order), StatUtil.Sort(AgesOf(flat, now, order)))
  }

  lemma TallySnoc(flat: Flat, now: int, order: seq<Position>, at: Position)
    requires at in flat && Known(flat, order)
    ensures Tally(flat, now, order + [at]) == Count(Tally(flat, now, order), flat[at], now)
    ensures Known(flat, order + [at])
    ensures AgesOf(flat, now, order + [at]) == AgesOf(flat, now, order) + [Age(flat[at], now)]
  {
    FoldSnoc(CountAt(flat, now), NO_TALLIES, order, at);
  }

  // ---------- The loops ----------

  method CountBits(m0: map<nat, int>, services: nat) returns (m: map<nat, int>)
    ensures m == BumpBits(m0, services, 64)
  {
    m := m0;
    for bit := 0 to 64
      invariant m == BumpBits(m0, services, bit)
    {
      if services / Pow2(bit) % 2 == 1 {
        m := Bump<nat>(m, bit + 1);
      }
    }
  }

  method CountEntry(t: Tallies, e: Entry, now: int) returns (r: Tallies)
    ensures r == Count(t, e, now)
  {
    hide Bump, Record, BumpBits;
    var offset := e.time - now;
    var entries := Bump(t.entries, e.network);
    var addresses := Record(t.addresses, e.network, e.address);
    var endpoints := Record(t.endpoints, e.network, (e.address, e.port));
    var future, farFuture, terrible := t.future, t.farFuture, t.terrible;
    if offset > 0 {
      future := Bump(future, e.network);
    }
    var isFarFuture := offset > FUTURE_TOLERANCE_SECONDS;
    if isFarFuture {
      farFuture := Bump(farFuture, e.network);
    }
    if isFarFuture || -offset > HORIZON_SECONDS {
      terrible := Bump(terrible, e.network);
    }
    var ports := Bump<nat>(t.ports, e.port % 0x1_0000);
    var serviceBits := CountBits(t.serviceBits, e.services);
    var services := Bump(t.services, e.services);
    r := Tallies(ports, serviceBits, services,
                 t.asns + {OrZero(e.mappedAs)}, t.sources + {e.source}, t.sourceAsns + {OrZero(e.sourceMappedAs)},
                 entries, terrible, future, farFuture, endpoints, addresses);
  }

  /** An order in which all entries of a table are visited once. */
  ghost predicate Visits(order: seq<Position>, table: Table) {
    multiset(order) == multiset(Positions(table)) && Known(Flatten(table), order)
  }

  /** Collects the statistics in whatever order the maps are iterated: the result is that of
      every order of visiting the entries. */
  method New(table: Table, now: int) returns (stats: Stats)
    ensures exists order :: Visits(order, table)
    ensures forall order :: Visits(order, table) ==> stats == StatsOf(Flatten(table), now, order)
  {
    hide Flatten, Count, StatsOf;
    var t, ages := NO_TALLIES, [];
    ghost var order := [];
    ghost var flat := Flatten(table);
    var done: set<nat> := {};
    NoBucket(table);
    while done != table.Keys
      invariant done <= table.Keys
      invariant multiset(order) == multiset(PositionsIn(table, done))
      invariant Known(flat, order) && t == Tally(flat, now, order) && ages == AgesOf(flat, now, order)
      decreases table.Keys - done
    {
      assert table.Keys == done + (table.Keys - done);
      var b :| b in table.Keys - done;
      t, ages, order := AddBucket(table, b, now, t, ages, order);
      NextBucket(table, done, b);
      done := done + {b};
    }
    AllPositions(table, done);
    assert flat.Keys == Positions(table) by {
      FlattenKeys(table);
    }
    assert Visits(order, table);
    stats := Stats(t, StatUtil.Sort(ages));
    StatsAre(flat, now, order, t, ages);
    forall other | Visits(other, table) ensures stats == StatsOf(flat, now, other) {
      OrderIsIrrelevant(flat, now, order, other);
    }
  }

  lemma StatsAre(flat: Flat, now: int, order: seq<Position>, t: Tallies, ages: seq<real>)
    requires Known(flat, order) && t == Tally(flat, now, order) && ages == AgesOf(flat, now, order)
    ensures StatsOf(flat, now, order) == Stats(t, StatUtil.Sort(ages))
  {
  }

  lemma FlattenKeys(t: Table)
    ensures Flatten(t).Keys == Positions(t)
  {
  }

  method AddBucket(table: Table, b: nat, now: int, t0: Tallies, ages0: seq<real>, ghost order0: seq<Position>)
    returns (t: Tallies, ages: seq<real>, ghost order: seq<Position>)
    requires b in table && Known(Flatten(table), order0)
    requires t0 == Tally(Flatten(table), now, order0) && ages0 == AgesOf(Flatten(table), now, order0)
    ensures multiset(order) == multiset(order0) + multiset(BucketPositions(b, table[b].Keys))
    ensures Known(Flatten(table), order)
    ensures t == Tally(Flatten(table), now, order) && ages == AgesOf(Flatten(table), now, order)
  {
    hide Flatten, Count, Tally, AgesOf;
    t, ages, order := t0, ages0, order0;
    var done: set<nat> := {};
    assert BucketPositions(b, {}) == {};
    while done != table[b].Keys
      invariant done <= table[b].Keys
      invariant multiset(order) == multiset(order0) + multiset(BucketPositions(b, done))
      invariant Known(Flatten(table), order)
      invariant t == Tally(Flatten(table), now, order) && ages == AgesOf(Flatten(table), now, order)
      decreases table[b].Keys - done
    {
      assert table[b].Keys == done + (table[b].Keys - done);
      var pos :| pos in table[b].Keys - done;
      ghost var at := At(b, pos);
      InFlat(table, at);
      TallySnoc(Flatten(table), now, order, at);
      assert BucketPositions(b, done + {pos}) == BucketPositions(b, done) + {at};
      t := CountEntry(t, table[b][pos], now);
      ages := ages + [Age(table[b][pos], now)];
      order := order + [at];
      done := done + {pos};
    }
  }

  lemma InFlat(t: Table, at: Position)
    requires at.bucket in t && at.slot in t[at.bucket]
    ensures at in Flatten(t) && Flatten(t)[at] == t[at.bucket][at.slot]
  {
    InPositions(t, at);
  }

  /** The number of entries with an age of at most `age`, by binary search. */
  method EntriesWithAgeUpTo(stats: Stats, age: real) returns (n: nat)
    requires StatUtil.IsSorted(stats.ages)
    ensures n == StatUtil.CountUpTo(stats.ages, age)
  {
    n := StatUtil.PartitionPoint(stats.ages, age);
  }

  // ---------- Order independence ----------

  lemma BumpCommutes<K>(m: map<K, int>, j: K, k: K)
    ensures Bump(Bump(m, j), k) == Bump(Bump(m, k), j)
  {
  }

  lemma BumpIfCommutes<K>(m: map<K, int>, b: bool, j: K, c: bool, k: K)
    ensures BumpIf(c, BumpIf(b, m, j), k) == BumpIf(b, BumpIf(c, m, k), j)
  {
    BumpCommutes(m, j, k);
  }

  lemma RecordCommutes<K, V>(m: map<K, set<V>>, j: K, x: V, k: K, y: V)
    ensures Record(Record(m, j, x), k, y) == Record(Record(m, k, y), j, x)
  {
    var l, r := Record(Record(m, j, x), k, y), Record(Record(m, k, y), j, x);
    assert forall i :: i in l ==> l[i] == r[i];
  }

  lemma {:induction false} BumpBitsPastBump(m: map<nat, int>, b: bool, k: nat, services: nat, n: nat)
    ensures BumpBits(BumpIf(b, m, k), services, n) == BumpIf(b, BumpBits(m, services, n), k)
  {
    hide BumpIf, Bit;
    if n > 0 {
      BumpBitsPastBump(m, b, k, services, n - 1);
      BumpIfCommutes(BumpBits(m, services, n - 1), b, k, Bit(services, n - 1), n);
    }
  }

  lemma {:induction false} BumpBitsCommute(m: map<nat, int>, s: nat, u: nat, n: nat, l: nat)
    ensures BumpBits(BumpBits(m, s, n), u, l) == BumpBits(BumpBits(m, u, l), s, n)
  {
    hide BumpIf, Bit;
    if n > 0 {
      BumpBitsPastBump(BumpBits(m, s, n - 1), Bit(s, n - 1), n, u, l);
      BumpBitsCommute(m, s, u, n - 1, l);
    }
  }

  lemma CountCommutes(t: Tallies, d: Entry, e: Entry, now: int)
    ensures Count(Count(t, d, now), e, now) == Count(Count(t, e, now), d, now)
  {
    hide Bump, BumpIf, Record, BumpBits, Terrible, Future, FarFuture;
    BumpCommutes<nat>(t.ports, d.port % 0x1_0000, e.port % 0x1_0000);
    BumpBitsCommute(t.serviceBits, d.services, e.services, 64, 64);
    BumpCommutes(t.services, d.services, e.services);
    BumpCommutes(t.entries, d.network, e.network);
    BumpIfCommutes(t.terrible, Terrible(d, now), d.network, Terrible(e, now), e.network);
    BumpIfCommutes(t.future, Future(d, now), d.network, Future(e, now), e.network);
    BumpIfCommutes(t.farFuture, FarFuture(d, now), d.network, FarFuture(e, now), e.network);
    RecordCommutes(t.endpoints, d.network, (d.address, d.port), e.network, (e.address, e.port));
    RecordCommutes(t.addresses, d.network, d.address, e.network, e.address);
  }

  lemma {:induction false} AgesFold(flat: Flat, now: int, order: seq<Position>)
    requires Known(flat, order)
    ensures multiset(AgesOf(flat, now, order)) == Fold(AgeAt(flat, now), multiset{}, order)
  {
    if order != [] {
      var before := order[..|order| - 1];
      AgesFold(flat, now, before);
      assert AgesOf(flat, now, order) == AgesOf(flat, now, before) + [Age(flat[order[|order| - 1]], now)];
    }
  }

  /** Whatever order the hash maps are iterated in, the statistics are the same. */
  lemma OrderIsIrrelevant(flat: Flat, now: int, order: seq<Position>, other: seq<Position>)
    requires Known(flat, order) && Known(flat, other) && multiset(order) == multiset(other)
    ensures StatsOf(flat, now, order) == StatsOf(flat, now, other)
  {
    hide Count;
    forall t, x, y
      ensures CountAt(flat, now)(CountAt(flat, now)(t, x), y) == CountAt(flat, now)(CountAt(flat, now)(t, y), x)
    {
      if x in flat && y in flat {
        CountCommutes(t, flat[x], flat[y], now);
      }
    }
    FoldPermutation(CountAt(flat, now), NO_TALLIES, order, other);
    AgesPermute(flat, now, order, other);
  }

  lemma AgesPermute(flat: Flat, now: int, order: seq<Position>, other: seq<Position>)
    requires Known(flat, order) && Known(flat, other) && multiset(order) == multiset(other)
    ensures StatUtil.Sort(AgesOf(flat, now, order)) == StatUtil.Sort(AgesOf(flat, now, other))
  {
    var a, b := AgesOf(flat, now, order), AgesOf(flat, now, other);
    assert forall m: multiset<real>, x: real, y: real :: m + multiset{x} + multiset{y} == m + multiset{y} + multiset{x};
    FoldPermutation(AgeAt(flat, now), multiset{}, order, other);
    AgesFold(flat, now, order);
    AgesFold(flat, now, other);
    StatUtil.SortPermutes(a);
    StatUtil.SortPermutes(b);
    StatUtil.SortedIsUnique(StatUtil.Sort(a), StatUtil.Sort(b));
  }

  // ---------- What the tallies are ----------

  /** The number of visited entries with a property. */
  function Number(flat: Flat, order: seq<Position>, p: Entry -> bool): nat
    requires Known(flat, order)
  {
    if order == [] then 0
    else Number(flat, order[..|order| - 1], p) + if p(flat[order[|order| - 1]]) then 1 else 0
  }

  function CountWith<K>(m: map<K, int>, k: K): int {
    if k in m then m[k] else 0
  }

  function OnNetwork(n: string): Entry -> bool {
    (e: Entry) => e.network == n
  }

  function TerribleOn(n: string, now: int): Entry -> bool {
    (e: Entry) => e.network == n && (e.time > now + 600 || e.time < now - 2_592_000)
  }

  function FutureOn(n: string, now: int): Entry -> bool {
    (e: Entry) => e.network == n && e.time > now
  }

  function FarFutureOn(n: string, now: int): Entry -> bool {
    (e: Entry) => e.network == n && e.time > now + 600
  }

  function OnPort(port: nat): Entry -> bool {
    (e: Entry) => e.port % 0x1_0000 == port
  }

  function WithServices(services: nat): Entry -> bool {
    (e: Entry) => e.services == services
  }

  function WithBit(bit: nat): Entry -> bool {
    (e: Entry) => Bit(e.services, bit)
  }

  /** Each counter is the number of entries with its property. */
  lemma {:induction false} NetworkTalliesAreCounts(flat: Flat, now: int, order: seq<Position>, n: string)
    requires Known(flat, order)
    ensures var t := Tally(flat, now, order);
      && CountWith(t.entries, n) == Number(flat, order, OnNetwork(n))
      && CountWith(t.terrible, n) == Number(flat, order, TerribleOn(n, now))
      && CountWith(t.future, n) == Number(flat, order, FutureOn(n, now))
      && CountWith(t.farFuture, n) == Number(flat, order, FarFutureOn(n, now))
  {
    hide BumpBits, Record, Bit, Tally;
    if order == [] {
      NoTally(flat, now);
    } else {
      var before, at := order[..|order| - 1], order[|order| - 1];
      NetworkTalliesAreCounts(flat, now, before, n);
      assert order == before + [at];
      TallySnoc(flat, now, before, at);
    }
  }

  lemma {:induction false} BumpBitsAt(m: map<nat, int>, services: nat, n: nat, bit: nat)
    ensures CountWith(BumpBits(m, services, n), bit + 1) ==
            CountWith(m, bit + 1) + if bit < n && Bit(services, bit) then 1 else 0
  {
    hide Bit;
    if n > 0 {
      BumpBitsAt(m, services, n - 1, bit);
    }
  }

  lemma {:induction false} OtherTalliesAreCounts(flat: Flat, now: int, order: seq<Position>,
                                                 port: nat, services: nat, bit: nat)
    requires Known(flat, order) && bit < 64
    ensures var t := Tally(flat, now, order);
      && CountWith(t.ports, port) == Number(flat, order, OnPort(port))
      && CountWith(t.services, services) == Number(flat, order, WithServices(services))
      && CountWith(t.serviceBits, bit + 1) == Number(flat, order, WithBit(bit))
  {
    hide BumpBits, Bit;
    if order != [] {
      var before, at := order[..|order| - 1], order[|order| - 1];
      OtherTalliesAreCounts(flat, now, before, port, services, bit);
      assert order == before + [at];
      TallySnoc(flat, now, before, at);
      BumpBitsAt(Tally(flat, now, before).serviceBits, flat[at].services, 64, bit);
    }
  }

  lemma {:induction false} SourcesAreExact(flat: Flat, now: int, order: seq<Position>)
    requires Known(flat, order)
    ensures var t := Tally(flat, now, order);
      && t.asns == (set at | at in order :: if flat[at].mappedAs.Some? then flat[at].mappedAs.value else 0)
      && t.sources == (set at | at in order :: flat[at].source)
      && t.sourceAsns ==
         (set at | at in order :: if flat[at].sourceMappedAs.Some? then flat[at].sourceMappedAs.value else 0)
  {
    hide BumpBits, Bump, BumpIf, Record;
    if order != [] {
      var before, at := order[..|order| - 1], order[|order| - 1];
      SourcesAreExact(flat, now, before);
      assert order == before + [at];
      TallySnoc(flat, now, before, at);
    }
  }

  /** The endpoints on a network. */
  function Endpoints(flat: Flat, order: seq<Position>, n: string): set<(string, nat)>
    requires Known(flat, order)
  {
    set at | at in order && flat[at].network == n :: (flat[at].address, flat[at].port)
  }

  function SetWith<K, V>(m: map<K, set<V>>, k: K): set<V> {
    if k in m then m[k] else {}
  }

  lemma {:induction false} EndpointsAreExact(flat: Flat, now: int, order: seq<Position>, n: string)
    requires Known(flat, order)
    ensures SetWith(Tally(flat, now, order).endpoints, n) == Endpoints(flat, order, n)
  {
    hide Tally;
    if order == [] {
      assert Tally(flat, now, []) == NO_TALLIES by {
        NoTally(flat, now);
      }
    } else {
      var before, at := order[..|order| - 1], order[|order| - 1];
      EndpointsAreExact(flat, now, before, n);
      assert order == before + [at];
      TallySnoc(flat, now, before, at);
    }
  }

  lemma NoTally(flat: Flat, now: int)
    ensures Tally(flat, now, []) == NO_TALLIES
  {
  }

  // ---------- Double counting ----------

  function BitWeight(key: nat): int {
    if key == 0 then 0 else Pow2(key - 1)
  }

  function Identity(services: nat): int {
    services
  }

  function SumOfServices(flat: Flat, order: seq<Position>): nat
    requires Known(flat, order)
  {
    if order == [] then 0
    else SumOfServices(flat, order[..|order| - 1]) + flat[order[|order| - 1]].services
  }

  /** The bits below `n` make up the number modulo 2^n. */
  lemma {:induction false} BumpBitsAddServices(m: map<nat, int>, services: nat, n: nat)
    ensures Sum(BumpBits(m, services, n), BitWeight) == Sum(m, BitWeight) + services % Pow2(n)
  {
    if n > 0 {
      BumpBitsAddServices(m, services, n - 1);
      SumBump(BumpBits(m, services, n - 1), BitWeight, n);
      HighestBit(services, n - 1);
    }
  }

  lemma HighestBit(s: nat, n: nat)
    ensures s % Pow2(n + 1) == s % Pow2(n) + if Bit(s, n) then Pow2(n) else 0
  {
    ModDouble(s, Pow2(n));
  }

  lemma ModDouble(s: nat, p: nat)
    requires p > 0
    ensures s % (2 * p) == s % p + if s / p % 2 == 1 then p else 0
  {
    var q, h, b := s / p, s / p / 2, s / p % 2;
    assert p * q == (2 * p) * h + p * b by {
      assert q == 2 * h + b;
    }
    ModOf(s, 2 * p, h, p * b + s % p);
  }

  lemma ModOf(s: nat, d: nat, h: nat, r: nat)
    requires d > 0 && r < d && s == d * h + r
    ensures s % d == r
  {
    var k := s / d - h;
    assert d * k == r - s % d by {
      assert d * k == d * (s / d) - d * h;
    }
    if k >= 1 {
      ProductAtLeast(d, k);
    } else if k <= -1 {
      ProductAtLeast(d, -k);
    }
  }

  lemma {:induction false} ProductAtLeast(d: nat, k: int)
    requires k >= 1
    ensures d * k >= d
  {
    if k > 1 {
      ProductAtLeast(d, k - 1);
    }
  }

  lemma Pow2Of64()
    ensures Pow2(64) == TWO_TO_THE_64
  {
    assert Pow2(8) == 256;
    assert Pow2(16) == 256 * Pow2(8);
    assert Pow2(24) == 256 * Pow2(16);
    assert Pow2(32) == 256 * Pow2(24);
    assert Pow2(40) == 256 * Pow2(32);
    assert Pow2(48) == 256 * Pow2(40);
    assert Pow2(56) == 256 * Pow2(48);
    assert Pow2(64) == 256 * Pow2(56);
  }

  lemma CountAddsServices(t: Tallies, e: Entry, now: int)
    requires e.services < TWO_TO_THE_64
    ensures var u := Count(t, e, now);
      && Sum(u.serviceBits, BitWeight) == Sum(t.serviceBits, BitWeight) + e.services
      && Sum(u.services, Identity) == Sum(t.services, Identity) + e.services
  {
    hide BumpBits, Bump;
    BumpBitsAddServices(t.serviceBits, e.services, 64);
    SumBump(t.services, Identity, e.services);
    Pow2Of64();
  }

  /** Counted by bits or counted by value, the services add up to the same: the sum over all
      entries. */
  lemma {:induction false} ServicesCountedTwice(flat: Flat, now: int, order: seq<Position>)
    requires Known(flat, order)
    requires forall at :: at in flat ==> flat[at].services < TWO_TO_THE_64
    ensures var t := Tally(flat, now, order);
      Sum(t.serviceBits, BitWeight) == Sum(t.services, Identity) == SumOfServices(flat, order)
  {
    hide Count;
    if order != [] {
      var before, at := order[..|order| - 1], order[|order| - 1];
      ServicesCountedTwice(flat, now, before);
      assert order == before + [at];
      TallySnoc(flat, now, before, at);
      CountAddsServices(Tally(flat, now, before), flat[at], now);
    }
  }

  // ---------- Accounting ----------

  lemma CountAddsOne(t: Tallies, e: Entry, now: int)
    ensures var u := Count(t, e, now);
      && Total(u.entries) == Total(t.entries) + 1 && Total<nat>(u.ports) == Total<nat>(t.ports) + 1
      && Total<nat>(u.services) == Total<nat>(t.services) + 1
  {
    hide BumpBits, Bump;
    SumBump(t.entries, One, e.network);
    SumBump<nat>(t.ports, One<nat>, e.port % 0x1_0000);
    SumBump<nat>(t.services, One<nat>, e.services);
  }

  /** The counts per network, per port and per services each add up to the number of entries. */
  lemma {:induction false} EveryEntryIsCounted(flat: Flat, now: int, order: seq<Position>)
    requires Known(flat, order)
    ensures var t := Tally(flat, now, order);
      Total(t.entries) == Total<nat>(t.ports) == Total<nat>(t.services) == |order| == |StatsOf(flat, now, order).ages|
  {
    hide Count;
    if order != [] {
      var before, at := order[..|order| - 1], order[|order| - 1];
      EveryEntryIsCounted(flat, now, before);
      assert order == before + [at];
      TallySnoc(flat, now, before, at);
      CountAddsOne(Tally(flat, now, before), flat[at], now);
    }
  }

  /** The number of visited entries is the number of entries of the table. */
  lemma OrderCoversTable(table: Table, order: seq<Position>)
    requires Visits(order, table)
    ensures |order| == |Flatten(table)|
  {
    assert |multiset(order)| == |order| && |multiset(Positions(table))| == |Positions(table)|;
    FlattenKeys(table);
  }

  function AddressesOf(s: set<(string, nat)>): set<string> {
    set x | x in s :: x.0
  }

  ghost predicate NetworkCountsOrdered(t: Tallies, k: string) {
    && (k in t.endpoints <==> k in t.entries) && (k in t.addresses <==> k in t.entries)
    && (k in t.endpoints ==> t.addresses[k] == AddressesOf(t.endpoints[k]))
    && (k in t.endpoints ==> |t.endpoints[k]| <= t.entries[k])
    && 0 <= CountWith(t.farFuture, k) <= CountWith(t.future, k) <= CountWith(t.entries, k)
    && CountWith(t.farFuture, k) <= CountWith(t.terrible, k) <= CountWith(t.entries, k)
  }

  lemma CountKeepsOrder(t: Tallies, e: Entry, now: int, k: string)
    requires NetworkCountsOrdered(t, k)
    ensures NetworkCountsOrdered(Count(t, e, now), k)
  {
    hide BumpBits;
    var u := Count(t, e, now);
    if k == e.network && k in t.endpoints {
      assert u.endpoints[k] == t.endpoints[k] + {(e.address, e.port)};
      assert AddressesOf(u.endpoints[k]) == AddressesOf(t.endpoints[k]) + {e.address};
    } else if k == e.network {
      assert u.endpoints[k] == {(e.address, e.port)};
      assert AddressesOf({(e.address, e.port)}) == {e.address};
    }
  }

  lemma {:induction false} AddressesFewer(s: set<(string, nat)>)
    ensures |AddressesOf(s)| <= |s|
  {
    if s != {} {
      var x :| x in s;
      AddressesFewer(s - {x});
      assert AddressesOf(s) == AddressesOf(s - {x}) + {x.0};
    }
  }

  lemma {:induction false} CountsOrdered(flat: Flat, now: int, order: seq<Position>, k: string)
    requires Known(flat, order)
    ensures NetworkCountsOrdered(Tally(flat, now, order), k)
  {
    hide Count, NetworkCountsOrdered;
    if order == [] {
      NothingOrdered(k);
    } else {
      var before, at := order[..|order| - 1], order[|order| - 1];
      CountsOrdered(flat, now, before, k);
      assert order == before + [at];
      TallySnoc(flat, now, before, at);
      CountKeepsOrder(Tally(flat, now, before), flat[at], now, k);
    }
  }

  lemma NothingOrdered(k: string)
    ensures NetworkCountsOrdered(NO_TALLIES, k)
  {
  }

  /** For each network there are at most as many distinct addresses as distinct endpoints, and
      at most as many of those as entries; and at most as many entries far in the future as in
      the future at all. */
  lemma NetworkCounts(flat: Flat, now: int, order: seq<Position>, k: string)
    requires Known(flat, order) && k in Tally(flat, now, order).entries
    ensures var t := Tally(flat, now, order);
      && k in t.addresses && k in t.endpoints
      && |t.addresses[k]| <= |t.endpoints[k]| <= t.entries[k]
      && CountWith(t.farFuture, k) <= CountWith(t.future, k) <= t.entries[k]
  {
    CountsOrdered(flat, now, order, k);
    AddressesFewer(Tally(flat, now, order).endpoints[k]);
  }

  /** The terrible entries are those far in the future and those older than the horizon, which
      are all but the ones with an age of up to the horizon. */
  lemma {:induction false} TerribleOfAges(flat: Flat, now: int, order: seq<Position>)
    requires Known(flat, order)
    ensures var t := Tally(flat, now, order);
      Total(t.terrible) ==
      Total(t.farFuture) + |order| - StatUtil.CountUpTo(AgesOf(flat, now, order), HORIZON_SECONDS as real)
  {
    hide BumpBits, Bump;
    if order != [] {
      var before, at := order[..|order| - 1], order[|order| - 1];
      TerribleOfAges(flat, now, before);
      var t, e := Tally(flat, now, before), flat[at];
      assert order == before + [at];
      TallySnoc(flat, now, before, at);
      FoldSnoc(StatUtil.CountStep(HORIZON_SECONDS as real), 0, AgesOf(flat, now, before), Age(e, now));
      SumBump(t.terrible, One, e.network);
      SumBump(t.farFuture, One, e.network);
    }
  }

  lemma TerribleEntries(flat: Flat, now: int, order: seq<Position>)
    requires Known(flat, order)
    ensures var s := StatsOf(flat, now, order);
      Total(s.tallies.terrible) ==
      Total(s.tallies.farFuture) + |s.ages| - StatUtil.CountUpTo(s.ages, HORIZON_SECONDS as real)
  {
    var ages := AgesOf(flat, now, order);
    TerribleOfAges(flat, now, order);
    StatUtil.SortPermutes(ages);
    StatUtil.CountPermutation(ages, StatUtil.Sort(ages), HORIZON_SECONDS as real);
  }

  /** What the age buckets report: the number of entries whose age, taken as zero for entries
      from the future, is at most the bound. */
  lemma {:induction false} AgeBucketsCountEntries(flat: Flat, now: int, order: seq<Position>, bound: real)
    requires Known(flat, order)
    ensures StatUtil.CountUpTo(StatsOf(flat, now, order).ages, bound) ==
            StatUtil.CountUpTo(AgesOf(flat, now, order), bound)
  {
    var ages := AgesOf(flat, now, order);
    StatUtil.SortPermutes(ages);
    StatUtil.CountPermutation(ages, StatUtil.Sort(ages), bound);
  }
  /** An entry whose time is not more than `bound` seconds ago. */
  function NotOlder(now: int, bound: real): Entry -> bool {
    (e: Entry) => e.time as real >= now as real - bound
  }

  lemma {:induction false} AgesUpTo(flat: Flat, now: int, order: seq<Position>, bound: real)
    requires Known(flat, order) && bound >= 0.0
    ensures StatUtil.CountUpTo(AgesOf(flat, now, order), bound) == Number(flat, order, NotOlder(now, bound))
  {
    if order != [] {
      var before, at := order[..|order| - 1], order[|order| - 1];
      AgesUpTo(flat, now, before, bound);
      FoldSnoc(StatUtil.CountStep(bound), 0, AgesOf(flat, now, before), Age(flat[at], now));
      assert AgesOf(flat, now, order) == AgesOf(flat, now, before) + [Age(flat[at], now)];
    }
  }

  /** In terms of the times: an age bucket counts the entries that are from the future or not
      longer ago than its bound. */
  lemma AgeBucketsCountTimes(flat: Flat, now: int, order: seq<Position>, bound: real)
    requires Known(flat, order) && bound >= 0.0
    ensures StatUtil.CountUpTo(StatsOf(flat, now, order).ages, bound) == Number(flat, order, NotOlder(now, bound))
  {
    AgeBucketsCountEntries(flat, now, order, bound);
    AgesUpTo(flat, now, order, bound);
  }
}
