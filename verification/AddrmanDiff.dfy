/** The changes between two addrman tables, counted bucket by bucket on the nested maps and
    proved to be the key-wise difference of the flat maps; and the running totals of polls. */
module AddrmanDiff {
  import opened MapSums
  import opened AddrmanTable

  datatype Changes = Changes(added: nat, replaced: nat, changedService: nat, changedTimestamp: nat) {
    function Plus(c: Changes): Changes {
      Changes(added + c.added, replaced + c.replaced,
              changedService + c.changedService, changedTimestamp + c.changedTimestamp)
    }
  }

  const NO_CHANGES := Changes(0, 0, 0, 0)

  // ---------- The flat difference ----------

  predicate SameEndpoint(e: Entry, f: Entry) {
    e.address == f.address && e.port == f.port
  }

  function AddedKeys(ks: set<Position>, prev: Flat): set<Position> {
    set at | at in ks && at !in prev
  }

  function ReplacedKeys(ks: set<Position>, curr: Flat, prev: Flat): set<Position> {
    set at | at in ks && at in curr && at in prev && !SameEndpoint(curr[at], prev[at])
  }

  function KeptKeys(ks: set<Position>, curr: Flat, prev: Flat): set<Position> {
    set at | at in ks && at in curr && at in prev && SameEndpoint(curr[at], prev[at])
  }

  function ServiceKeys(ks: set<Position>, curr: Flat, prev: Flat): set<Position> {
    set at | at in KeptKeys(ks, curr, prev) && curr[at].services != prev[at].services
  }

  function TimestampKeys(ks: set<Position>, curr: Flat, prev: Flat): set<Position> {
    set at | at in KeptKeys(ks, curr, prev) && curr[at].time != prev[at].time
  }

  /** The changes at the positions `ks`: how many of them each kind of change happened to. */
  function DiffOn(ks: set<Position>, curr: Flat, prev: Flat): Changes {
    Changes(|AddedKeys(ks, prev)|, |ReplacedKeys(ks, curr, prev)|,
            |ServiceKeys(ks, curr, prev)|, |TimestampKeys(ks, curr, prev)|)
  }

  function FlatDiff(curr: Flat, prev: Flat): Changes {
    DiffOn(curr.Keys, curr, prev)
  }

  lemma AddedUnion(a: set<Position>, b: set<Position>, prev: Flat)
    requires a !! b
    ensures |AddedKeys(a + b, prev)| == |AddedKeys(a, prev)| + |AddedKeys(b, prev)|
  {
    assert AddedKeys(a + b, prev) == AddedKeys(a, prev) + AddedKeys(b, prev);
  }

  lemma ReplacedUnion(a: set<Position>, b: set<Position>, curr: Flat, prev: Flat)
    requires a !! b
    ensures |ReplacedKeys(a + b, curr, prev)| == |ReplacedKeys(a, curr, prev)| + |ReplacedKeys(b, curr, prev)|
  {
    assert ReplacedKeys(a + b, curr, prev) == ReplacedKeys(a, curr, prev) + ReplacedKeys(b, curr, prev);
  }

  lemma ServiceUnion(a: set<Position>, b: set<Position>, curr: Flat, prev: Flat)
    requires a !! b
    ensures |ServiceKeys(a + b, curr, prev)| == |ServiceKeys(a, curr, prev)| + |ServiceKeys(b, curr, prev)|
  {
    assert ServiceKeys(a + b, curr, prev) == ServiceKeys(a, curr, prev) + ServiceKeys(b, curr, prev);
  }

  lemma TimestampUnion(a: set<Position>, b: set<Position>, curr: Flat, prev: Flat)
    requires a !! b
    ensures |TimestampKeys(a + b, curr, prev)| == |TimestampKeys(a, curr, prev)| + |TimestampKeys(b, curr, prev)|
  {
    assert TimestampKeys(a + b, curr, prev) == TimestampKeys(a, curr, prev) + TimestampKeys(b, curr, prev);
  }

  lemma DiffOnUnion(a: set<Position>, b: set<Position>, curr: Flat, prev: Flat)
    requires a !! b
    ensures DiffOn(a + b, curr, prev) == DiffOn(a, curr, prev).Plus(DiffOn(b, curr, prev))
  {
    hide AddedKeys, ReplacedKeys, ServiceKeys, TimestampKeys;
    AddedUnion(a, b, prev);
    ReplacedUnion(a, b, curr, prev);
    ServiceUnion(a, b, curr, prev);
    TimestampUnion(a, b, curr, prev);
  }

  lemma DiffOnNew(ks: set<Position>, curr: Flat, prev: Flat)
    requires ks !! prev.Keys
    ensures DiffOn(ks, curr, prev) == NO_CHANGES.(added := |ks|)
  {
    assert AddedKeys(ks, prev) == ks;
    assert KeptKeys(ks, curr, prev) == {};
  }

  function EntryChanges(curr: Entry, prev: Entry): Changes {
    if !SameEndpoint(curr, prev) then NO_CHANGES.(replaced := 1)
    else Changes(0, 0, if curr.services != prev.services then 1 else 0, if curr.time != prev.time then 1 else 0)
  }

  lemma DiffOnOne(at: Position, curr: Flat, prev: Flat)
    requires at in curr && at in prev
    ensures DiffOn({at}, curr, prev) == EntryChanges(curr[at], prev[at])
  {
    var same := SameEndpoint(curr[at], prev[at]);
    assert AddedKeys({at}, prev) == {};
    assert ReplacedKeys({at}, curr, prev) == if same then {} else {at};
    assert ServiceKeys({at}, curr, prev) == if same && curr[at].services != prev[at].services then {at} else {};
    assert TimestampKeys({at}, curr, prev) == if same && curr[at].time != prev[at].time then {at} else {};
  }

  // ---------- The loops over the nested tables ----------

  /** What the entry at one more position contributes. */
  lemma NextEntry(b: nat, done: set<nat>, pos: nat, curr: Table, prev: Table)
    requires b in curr && b in prev && pos in curr[b] && pos !in done
    ensures DiffOn(BucketPositions(b, done + {pos}), Flatten(curr), Flatten(prev)) ==
      DiffOn(BucketPositions(b, done), Flatten(curr), Flatten(prev)).Plus(
        if pos !in prev[b] then NO_CHANGES.(added := 1) else EntryChanges(curr[b][pos], prev[b][pos]))
  {
    hide DiffOn, Positions, EntryChanges;
    var at := At(b, pos);
    InPositions(curr, at);
    InPositions(prev, at);
    assert BucketPositions(b, done + {pos}) == BucketPositions(b, done) + {at};
    DiffOnUnion(BucketPositions(b, done), {at}, Flatten(curr), Flatten(prev));
    if pos !in prev[b] {
      DiffOnNew({at}, Flatten(curr), Flatten(prev));
    } else {
      DiffOnOne(at, Flatten(curr), Flatten(prev));
    }
  }

  lemma NoEntry(b: nat, curr: Flat, prev: Flat)
    ensures DiffOn(BucketPositions(b, {}), curr, prev) == NO_CHANGES
  {
    assert BucketPositions(b, {}) == {};
    DiffOnNew({}, curr, prev);
  }

  /** One bucket that both tables have. */
  method BucketChanges(b: nat, curr: Table, prev: Table) returns (c: Changes)
    requires b in curr && b in prev
    ensures c == DiffOn(BucketPositions(b, curr[b].Keys), Flatten(curr), Flatten(prev))
  {
    hide DiffOn, Flatten, BucketPositions;
    c := NO_CHANGES;
    var done: set<nat> := {};
    NoEntry(b, Flatten(curr), Flatten(prev));
    while done != curr[b].Keys
      invariant done <= curr[b].Keys
      invariant c == DiffOn(BucketPositions(b, done), Flatten(curr), Flatten(prev))
      decreases curr[b].Keys - done
    {
      assert curr[b].Keys == done + (curr[b].Keys - done);
      var pos :| pos in curr[b].Keys - done;
      NextEntry(b, done, pos, curr, prev);
      done := done + {pos};
      if pos !in prev[b] {
        c := c.(added := c.added + 1);
      } else {
        var currEntry, prevEntry := curr[b][pos], prev[b][pos];
        if !(currEntry.address == prevEntry.address && currEntry.port == prevEntry.port) {
          c := c.(replaced := c.replaced + 1);
        } else {
          if currEntry.time != prevEntry.time {
            c := c.(changedTimestamp := c.changedTimestamp + 1);
          }
          if currEntry.services != prevEntry.services {
            c := c.(changedService := c.changedService + 1);
          }
        }
      }
    }
  }

  /** All changes of a table, the buckets in whatever order they come: they are those between
      the flat maps. */
  method TableChanges(curr: Table, prev: Table) returns (c: Changes)
    ensures c == FlatDiff(Flatten(curr), Flatten(prev))
  {
    hide DiffOn, Positions, Flatten, PositionsIn, BucketPositions;
    c := NO_CHANGES;
    var done: set<nat> := {};
    DiffOnNew({}, Flatten(curr), Flatten(prev));
    NoBucket(curr);
    while done != curr.Keys
      invariant done <= curr.Keys
      invariant c == DiffOn(PositionsIn(curr, done), Flatten(curr), Flatten(prev))
      decreases curr.Keys - done
    {
      assert curr.Keys == done + (curr.Keys - done);
      var b :| b in curr.Keys - done;
      ghost var own := BucketPositions(b, curr[b].Keys);
      NextBucket(curr, done, b);
      DiffOnUnion(PositionsIn(curr, done), own, Flatten(curr), Flatten(prev));
      done := done + {b};
      if b !in prev {
        MissingBucket(b, curr, prev);
        c := c.(added := c.added + |curr[b]|);
      } else {
        var more := BucketChanges(b, curr, prev);
        c := c.Plus(more);
      }
    }
    AllPositions(curr, done);
  }

  lemma MissingBucket(b: nat, curr: Table, prev: Table)
    requires b in curr && b !in prev
    ensures DiffOn(BucketPositions(b, curr[b].Keys), Flatten(curr), Flatten(prev)) == NO_CHANGES.(added := |curr[b]|)
  {
    hide DiffOn, Positions;
    var own := BucketPositions(b, curr[b].Keys);
    forall at | at in own ensures at !in Flatten(prev) {
      InPositions(prev, at);
    }
    DiffOnNew(own, Flatten(curr), Flatten(prev));
    BucketPositionsSize(b, curr[b].Keys);
  }

  // ---------- Accounting ----------

  /** Every current entry was added, replaced another endpoint, or kept its endpoint; and only
      kept ones can have changed services or time. */
  lemma ChangesAccountForAll(curr: Flat, prev: Flat)
    ensures var c := FlatDiff(curr, prev);
      && c.added + c.replaced + |KeptKeys(curr.Keys, curr, prev)| == |curr|
      && c.changedService <= |KeptKeys(curr.Keys, curr, prev)|
      && c.changedTimestamp <= |KeptKeys(curr.Keys, curr, prev)|
  {
    var kept := KeptKeys(curr.Keys, curr, prev);
    EachKeyOnce(curr, prev);
    SubsetSize(ServiceKeys(curr.Keys, curr, prev), kept);
    SubsetSize(TimestampKeys(curr.Keys, curr, prev), kept);
  }

  lemma EachKeyOnce(curr: Flat, prev: Flat)
    ensures |AddedKeys(curr.Keys, prev)| + |ReplacedKeys(curr.Keys, curr, prev)| + |KeptKeys(curr.Keys, curr, prev)|
            == |curr|
  {
    var added, replaced := AddedKeys(curr.Keys, prev), ReplacedKeys(curr.Keys, curr, prev);
    var kept := KeptKeys(curr.Keys, curr, prev);
    assert curr.Keys == added + (replaced + kept);
    assert |replaced + kept| == |replaced| + |kept|;
    assert added !! replaced + kept;
  }

  /** The size grows by what was added and shrinks by what is no longer there. */
  lemma SizeChange(curr: Flat, prev: Flat)
    ensures |curr| + |prev.Keys - curr.Keys| == |prev| + FlatDiff(curr, prev).added
  {
    var added, removed, both := AddedKeys(curr.Keys, prev), prev.Keys - curr.Keys, curr.Keys * prev.Keys;
    assert curr.Keys == added + both && prev.Keys == removed + both;
  }

  /** The changes, in terms of the fields: how many positions are new; how many in both tables have
      another address or port; and of the others, how many have other services or another time. */
  lemma WhatChanges(curr: Flat, prev: Flat)
    ensures var both := curr.Keys * prev.Keys;
      var same := set at | at in both && curr[at].address == prev[at].address && curr[at].port == prev[at].port;
      FlatDiff(curr, prev) ==
      Changes(|curr.Keys - prev.Keys|, |both - same|, |set at | at in same && curr[at].services != prev[at].services|,
              |set at | at in same && curr[at].time != prev[at].time|)
  {
    var both := curr.Keys * prev.Keys;
    var same := set at | at in both && curr[at].address == prev[at].address && curr[at].port == prev[at].port;
    assert AddedKeys(curr.Keys, prev) == curr.Keys - prev.Keys;
    assert ReplacedKeys(curr.Keys, curr, prev) == both - same;
    assert KeptKeys(curr.Keys, curr, prev) == same;
    assert ServiceKeys(curr.Keys, curr, prev) == set at | at in same && curr[at].services != prev[at].services;
    assert TimestampKeys(curr.Keys, curr, prev) == set at | at in same && curr[at].time != prev[at].time;
  }

  // ---------- Polls ----------

  datatype Addrman = Addrman(newTable: Table, tried: Table)

  const DEFAULT := Addrman(map[], map[])

  /** The metric's memory: the last addrman, and the totals of its counters. */
  datatype Totals = Totals(last: Addrman, newTotals: Changes, triedTotals: Changes)

  const START := Totals(DEFAULT, NO_CHANGES, NO_CHANGES)

  function Poll(t: Totals, a: Addrman): Totals {
    if t.last == DEFAULT then t.(last := a)
    else Totals(a, t.newTotals.Plus(FlatDiff(Flatten(a.newTable), Flatten(t.last.newTable))),
                t.triedTotals.Plus(FlatDiff(Flatten(a.tried), Flatten(t.last.tried))))
  }

  function Polls(polls: seq<Addrman>): Totals {
    if polls == [] then START else Poll(Polls(polls[..|polls| - 1]), polls[|polls| - 1])
  }

  class AddrmanMetrics {
    var addrman: Addrman
    var newTotals: Changes
    var triedTotals: Changes

    ghost function View(): Totals
      reads this
    {
      Totals(addrman, newTotals, triedTotals)
    }

    constructor ()
      ensures View() == START
    {
      addrman, newTotals, triedTotals := DEFAULT, NO_CHANGES, NO_CHANGES;
    }

    /** Counts the changes since the last poll, unless there was none, and remembers this one. */
    method HandleAddrman(a: Addrman)
      modifies this
      ensures View() == Poll(old(View()), a)
    {
      if addrman != DEFAULT {
        var newChanges := TableChanges(a.newTable, addrman.newTable);
        var triedChanges := TableChanges(a.tried, addrman.tried);
        newTotals := newTotals.Plus(newChanges);
        triedTotals := triedTotals.Plus(triedChanges);
      }
      addrman := a;
    }
  }

  // ---------- Whole runs ----------

  /** One of the two tables, and what was counted as added to it. */
  function Side(a: Addrman, tried: bool): Flat {
    Flatten(if tried then a.tried else a.newTable)
  }

  function Added(t: Totals, tried: bool): nat {
    if tried then t.triedTotals.added else t.newTotals.added
  }

  /** How many positions were no longer there in the next poll, over all polls. */
  function Lost(polls: seq<Addrman>, tried: bool): nat {
    if polls == [] then 0
    else
      var before := polls[..|polls| - 1];
      Lost(before, tried) + |Side(Polls(before).last, tried).Keys - Side(polls[|polls| - 1], tried).Keys|
  }

  /** The entries of the polls that nothing was counted for, as the last poll had none. */
  function Uncounted(polls: seq<Addrman>, tried: bool): nat {
    if polls == [] then 0
    else
      var before := polls[..|polls| - 1];
      Uncounted(before, tried) + if Polls(before).last == DEFAULT then |Side(polls[|polls| - 1], tried)| else 0
  }

  /** Over any polls, all that was counted as added and the entries of the polls nothing was
      counted for make up the current table and the positions lost on the way. */
  lemma {:induction false} AddedTotalsAccount(polls: seq<Addrman>, tried: bool)
    ensures |Side(Polls(polls).last, tried)| + Lost(polls, tried) ==
            Added(Polls(polls), tried) + Uncounted(polls, tried)
  {
    hide Flatten, FlatDiff;
    EmptyTable();
    if polls != [] {
      var before, a := polls[..|polls| - 1], polls[|polls| - 1];
      AddedTotalsAccount(before, tried);
      SizeChange(Side(a, tried), Side(Polls(before).last, tried));
    }
  }

  /** The changes of all polls but those skipped, added up for each kind. */
  function AllChanges(polls: seq<Addrman>, tried: bool): Changes {
    if polls == [] then NO_CHANGES
    else
      var before := polls[..|polls| - 1];
      var all := AllChanges(before, tried);
      var c := FlatDiff(Side(polls[|polls| - 1], tried), Side(Polls(before).last, tried));
      if Polls(before).last == DEFAULT then all
      else Changes(all.added + c.added, all.replaced + c.replaced,
                   all.changedService + c.changedService, all.changedTimestamp + c.changedTimestamp)
  }

  /** In every run the totals of each table are these sums, and the last poll is remembered. */
  lemma {:induction false} TotalsAreSums(polls: seq<Addrman>)
    ensures Polls(polls).newTotals == AllChanges(polls, false) && Polls(polls).triedTotals == AllChanges(polls, true)
    ensures polls != [] ==> Polls(polls).last == polls[|polls| - 1]
  {
    hide Flatten, FlatDiff;
    if polls != [] {
      TotalsAreSums(polls[..|polls| - 1]);
    }
  }

  /** So the added total is the size of the current table if and only if as many positions were
      lost as entries came without being counted. */
  lemma AddedIsSizeIff(polls: seq<Addrman>, tried: bool)
    ensures Added(Polls(polls), tried) == |Side(Polls(polls).last, tried)| <==>
            Lost(polls, tried) == Uncounted(polls, tried)
  {
    AddedTotalsAccount(polls, tried);
  }

  /** A table that was filled, emptied and filled again: nothing of it is ever counted as added. */
  lemma RefillIsNotCounted(a: Addrman)
    requires a != DEFAULT
    ensures var t := Polls([a, DEFAULT, a]); t.last == a && t.newTotals.added == 0 && t.triedTotals.added == 0
  {
    hide Flatten, FlatDiff;
    assert [a, DEFAULT, a][..2] == [a, DEFAULT] && [a, DEFAULT][..1] == [a] && [a][..0] == [];
    assert Polls([a]) == START.(last := a);
    EmptyTable();
    NothingAdded(Flatten(a.newTable));
    NothingAdded(Flatten(a.tried));
  }

  lemma NothingAdded(prev: Flat)
    ensures FlatDiff(map[], prev).added == 0
  {
    assert AddedKeys({}, prev) == {};
  }

  ghost predicate NeverRemoves(polls: seq<Addrman>) {
    forall i :: 0 <= i < |polls| - 1 ==> Grows(polls[i], polls[i + 1])
  }

  ghost predicate Grows(a: Addrman, b: Addrman) {
    Flatten(a.newTable).Keys <= Flatten(b.newTable).Keys && Flatten(a.tried).Keys <= Flatten(b.tried).Keys
  }

  predicate WellFormed(a: Addrman) {
    NoEmptyBucket(a.newTable) && NoEmptyBucket(a.tried)
  }

  lemma DefaultIffEmpty(a: Addrman)
    requires WellFormed(a)
    ensures a == DEFAULT <==> Flatten(a.newTable) == map[] && Flatten(a.tried) == map[]
  {
    hide Positions;
    EmptyTable();
    TableEmpty(a.newTable);
    TableEmpty(a.tried);
  }

  lemma TableEmpty(t: Table)
    requires NoEmptyBucket(t)
    ensures t == map[] <==> Flatten(t) == map[]
  {
    hide Positions;
    EmptyTable();
    if t != map[] {
      var b :| b in t;
      assert t[b].Keys != {};
      var p :| p in t[b];
      InPositions(t, At(b, p));
      assert At(b, p) in Flatten(t);
    }
  }

  /** The first poll that shows any entry. */
  function FirstShown(polls: seq<Addrman>): Addrman {
    if polls == [] then DEFAULT
    else if polls[0] != DEFAULT then polls[0] else FirstShown(polls[1..])
  }

  lemma {:induction false} FirstShownSnoc(polls: seq<Addrman>, a: Addrman)
    ensures FirstShown(polls + [a]) == if FirstShown(polls) == DEFAULT then a else FirstShown(polls)
  {
    if polls == [] {
      assert FirstShown([a][1..]) == DEFAULT;
    } else {
      assert (polls + [a])[1..] == polls[1..] + [a];
      FirstShownSnoc(polls[1..], a);
    }
  }

  /** Over polls that never lose a position, the entries of the first poll that showed any and
      all that were counted as added make up the current table, for both tables. */
  lemma {:induction false} AddedTotalsTelescope(polls: seq<Addrman>)
    requires NeverRemoves(polls) && forall i :: 0 <= i < |polls| ==> WellFormed(polls[i])
    ensures var (t, first) := (Polls(polls), FirstShown(polls));
      && t.last == (if polls == [] then DEFAULT else polls[|polls| - 1])
      && (t.last == DEFAULT <==> first == DEFAULT)
      && |Flatten(first.newTable)| + t.newTotals.added == |Flatten(t.last.newTable)|
      && |Flatten(first.tried)| + t.triedTotals.added == |Flatten(t.last.tried)|
  {
    hide Flatten, FlatDiff, WellFormed, Grows;
    if polls == [] {
      EmptyTable();
    } else {
      var before, a := polls[..|polls| - 1], polls[|polls| - 1];
      assert polls == before + [a];
      forall i | 0 <= i < |before| - 1 ensures Grows(before[i], before[i + 1]) {
        assert Grows(polls[i], polls[i + 1]);
      }
      AddedTotalsTelescope(before);
      FirstShownSnoc(before, a);
      var prev := Polls(before).last;
      if prev != DEFAULT {
        assert Grows(polls[|before| - 1], polls[|before|]);
        PollAdds(prev, a);
      }
    }
  }

  lemma PollAdds(prev: Addrman, a: Addrman)
    requires Grows(prev, a) && WellFormed(prev) && WellFormed(a) && prev != DEFAULT
    ensures a != DEFAULT
    ensures |Flatten(a.newTable)| ==
            |Flatten(prev.newTable)| + FlatDiff(Flatten(a.newTable), Flatten(prev.newTable)).added
    ensures |Flatten(a.tried)| == |Flatten(prev.tried)| + FlatDiff(Flatten(a.tried), Flatten(prev.tried)).added
  {
    hide Flatten, FlatDiff;
    SizeChange(Flatten(a.newTable), Flatten(prev.newTable));
    SizeChange(Flatten(a.tried), Flatten(prev.tried));
    assert Flatten(prev.newTable).Keys - Flatten(a.newTable).Keys == {};
    assert Flatten(prev.tried).Keys - Flatten(a.tried).Keys == {};
    DefaultIffEmpty(prev);
    DefaultIffEmpty(a);
  }
}
