/** The orphanage metrics: what is added and removed between two polls, counted against the
    remembered map of the last poll, and how the counters relate to the gauges. */
module Orphanage {
  import opened MapSums

  datatype Orphan = Orphan(wtxid: string, bytes: nat)

  type Pool = map<string, int>

  /** What the metrics show: the gauges of the last poll and the counters of all polls. */
  datatype Shown = Shown(pool: Pool, count: int, bytes: int,
                         addedCount: int, addedBytes: int, removedCount: int, removedBytes: int)

  const START := Shown(map[], 0, 0, 0, 0, 0, 0)

  function PoolOf(orphans: seq<Orphan>): Pool {
    if orphans == [] then map[]
    else PoolOf(orphans[..|orphans| - 1])[orphans[|orphans| - 1].wtxid := orphans[|orphans| - 1].bytes]
  }

  function BytesOf(orphans: seq<Orphan>): nat {
    if orphans == [] then 0 else BytesOf(orphans[..|orphans| - 1]) + orphans[|orphans| - 1].bytes
  }

  /** The listed orphans that the last poll did not have. */
  function Fresh(orphans: seq<Orphan>, last: Pool): seq<Orphan> {
    if orphans == [] then []
    else Fresh(orphans[..|orphans| - 1], last) +
         if orphans[|orphans| - 1].wtxid in last then [] else [orphans[|orphans| - 1]]
  }

  /** The orphans of `a` that are not in `b`. */
  function Minus(a: Pool, b: Pool): Pool {
    map id | id in a && id !in b :: a[id]
  }

  /** The orphans of `a` that are in `b` too, with the sizes of `a`. */
  function Within(a: Pool, b: Pool): Pool {
    map id | id in a && id in b :: a[id]
  }

  ghost function Poll(s: Shown, orphans: seq<Orphan>): Shown {
    var pool, added := PoolOf(orphans), Fresh(orphans, s.pool);
    Shown(pool, |orphans|, BytesOf(orphans),
          s.addedCount + |added|, s.addedBytes + BytesOf(added),
          s.removedCount + |Minus(s.pool, pool)|, s.removedBytes + Total(Minus(s.pool, pool)))
  }

  ghost function Polls(polls: seq<seq<Orphan>>): Shown {
    if polls == [] then START else Poll(Polls(polls[..|polls| - 1]), polls[|polls| - 1])
  }

  class OrphanageMetrics {
    var orphanage: Pool
    var count: int
    var bytes: int
    var addedCount: int
    var addedBytes: int
    var removedCount: int
    var removedBytes: int

    ghost function View(): Shown
      reads this
    {
      Shown(orphanage, count, bytes, addedCount, addedBytes, removedCount, removedBytes)
    }

    constructor ()
      ensures View() == START
    {
      orphanage := map[];
      count, bytes, addedCount, addedBytes, removedCount, removedBytes := 0, 0, 0, 0, 0, 0;
    }

    method HandleOrphanTxs(orphans: seq<Orphan>)
      modifies this
      ensures View() == Poll(old(View()), orphans)
    {
      var total, newPool, newCount, newBytes := CountFresh(orphans, orphanage);
      var goneCount, goneBytes := CountGone(orphanage, newPool);
      orphanage := newPool;
      count, bytes := |orphans|, total;
      addedCount, addedBytes := addedCount + newCount, addedBytes + newBytes;
      removedCount, removedBytes := removedCount + goneCount, removedBytes + goneBytes;
    }
  }

  method CountFresh(orphans: seq<Orphan>, last: Pool) returns (total: int, pool: Pool, count: int, bytes: int)
    ensures total == BytesOf(orphans) && pool == PoolOf(orphans)
    ensures count == |Fresh(orphans, last)| && bytes == BytesOf(Fresh(orphans, last))
  {
    total, pool, count, bytes := 0, map[], 0, 0;
    for i := 0 to |orphans|
      invariant total == BytesOf(orphans[..i]) && pool == PoolOf(orphans[..i])
      invariant count == |Fresh(orphans[..i], last)| && bytes == BytesOf(Fresh(orphans[..i], last))
    {
      var o := orphans[i];
      assert orphans[..i + 1][..i] == orphans[..i];
      ghost var unseen := Fresh(orphans[..i], last);
      assert (unseen + [o])[..|unseen|] == unseen && unseen + [] == unseen;
      total := total + o.bytes;
      pool := pool[o.wtxid := o.bytes];
      if o.wtxid !in last {
        count, bytes := count + 1, bytes + o.bytes;
      }
    }
    assert orphans[..|orphans|] == orphans;
  }

  method CountGone(last: Pool, pool: Pool) returns (count: int, bytes: int)
    ensures count == |Minus(last, pool)| && bytes == Total(Minus(last, pool))
  {
    count, bytes := 0, 0;
    var left := last.Keys;
    ghost var seen: Pool := map[];
    while left != {}
      invariant left <= last.Keys
      invariant seen == map id | id in Minus(last, pool) && id !in left :: last[id]
      invariant count == |seen| && bytes == Total(seen)
      decreases |left|
    {
      var id :| id in left;
      left := left - {id};
      if id !in pool {
        count, bytes := count + 1, bytes + last[id];
        AddOne(seen, id, last[id]);
        seen := seen[id := last[id]];
      }
    }
    assert seen == Minus(last, pool);
  }

  lemma AddOne(m: Pool, id: string, n: int)
    requires id !in m
    ensures Total(m[id := n]) == Total(m) + n
  {
    SumRemove(m[id := n], One, id);
    assert m[id := n] - {id} == m;
  }

  // ---------- One poll ----------

  ghost predicate Distinct(orphans: seq<Orphan>) {
    forall i, j :: 0 <= i < j < |orphans| ==> orphans[i].wtxid != orphans[j].wtxid
  }

  lemma {:induction false} PoolKeys(orphans: seq<Orphan>, id: string)
    ensures id in PoolOf(orphans) <==> exists i :: 0 <= i < |orphans| && orphans[i].wtxid == id
  {
    if orphans != [] {
      PoolKeys(orphans[..|orphans| - 1], id);
      assert orphans == orphans[..|orphans| - 1] + [orphans[|orphans| - 1]];
    }
  }

  lemma {:induction false} PoolAddsUp(orphans: seq<Orphan>)
    requires Distinct(orphans)
    ensures |PoolOf(orphans)| == |orphans| && Total(PoolOf(orphans)) == BytesOf(orphans)
  {
    hide Total;
    if orphans == [] {
      NoTotal();
    } else {
      var before, o := orphans[..|orphans| - 1], orphans[|orphans| - 1];
      PoolAddsUp(before);
      PoolKeys(before, o.wtxid);
      AddOne(PoolOf(before), o.wtxid, o.bytes);
    }
  }

  lemma NoTotal()
    ensures Total<string>(map[]) == 0
  {
  }

  lemma {:induction false} FreshIsDistinct(orphans: seq<Orphan>, last: Pool)
    requires Distinct(orphans)
    ensures Distinct(Fresh(orphans, last))
    ensures forall j :: 0 <= j < |Fresh(orphans, last)| ==> Fresh(orphans, last)[j] in orphans
  {
    if orphans != [] {
      var before, o := orphans[..|orphans| - 1], orphans[|orphans| - 1];
      assert orphans == before + [o];
      FreshIsDistinct(before, last);
    }
  }

  lemma MinusUpdate(a: Pool, b: Pool, id: string, n: int)
    ensures Minus(a[id := n], b) == if id in b then Minus(a, b) else Minus(a, b)[id := n]
  {
  }

  lemma {:induction false} FreshPool(orphans: seq<Orphan>, last: Pool)
    ensures PoolOf(Fresh(orphans, last)) == Minus(PoolOf(orphans), last)
  {
    hide Minus;
    if orphans == [] {
      assert Minus(map[], last) == map[] by {
        NothingMinus(last);
      }
    } else {
      var before, o := orphans[..|orphans| - 1], orphans[|orphans| - 1];
      var unseen := Fresh(before, last);
      FreshPool(before, last);
      assert (unseen + [o])[..|unseen|] == unseen && unseen + [] == unseen;
      MinusUpdate(PoolOf(before), last, o.wtxid, o.bytes);
    }
  }

  lemma NothingMinus(b: Pool)
    ensures Minus(map[], b) == map[]
  {
  }

  /** A map falls apart into what another one lacks and what it has too. */
  lemma {:induction false} SplitTotal(a: Pool, b: Pool)
    ensures Total(a) == Total(Minus(a, b)) + Total(Within(a, b))
    ensures |a| == |Minus(a, b)| + |Within(a, b)|
    decreases |a|
  {
    hide Total;
    if a == map[] {
      assert Minus(a, b) == map[] && Within(a, b) == map[];
      NoTotal();
    } else {
      var id :| id in a;
      var rest := a - {id};
      SplitTotal(rest, b);
      assert a == rest[id := a[id]];
      AddOne(rest, id, a[id]);
      if id in b {
        assert Within(a, b) == Within(rest, b)[id := a[id]] && Minus(a, b) == Minus(rest, b);
        AddOne(Within(rest, b), id, a[id]);
      } else {
        assert Minus(a, b) == Minus(rest, b)[id := a[id]] && Within(a, b) == Within(rest, b);
        AddOne(Minus(rest, b), id, a[id]);
      }
    }
  }

  /** How much larger the orphans that stayed have become between two polls. */
  ghost function Drift(last: Pool, pool: Pool): int {
    Total(Within(pool, last)) - Total(Within(last, pool))
  }

  /** How many more entries a list has than ids, and how many bytes more than the map of it. */
  function Repeats(orphans: seq<Orphan>): int {
    |orphans| - |PoolOf(orphans)|
  }

  ghost function Excess(orphans: seq<Orphan>): int {
    BytesOf(orphans) - Total(PoolOf(orphans))
  }

  /** A list has at least as many entries as ids, and as many only if it repeats none. */
  lemma {:induction false} NoRepeatsIffDistinct(orphans: seq<Orphan>)
    ensures Repeats(orphans) >= 0
    ensures Repeats(orphans) == 0 <==> Distinct(orphans)
  {
    if orphans != [] {
      var before, o := orphans[..|orphans| - 1], orphans[|orphans| - 1];
      NoRepeatsIffDistinct(before);
      PoolKeys(before, o.wtxid);
      assert orphans == before + [o];
    }
  }

  /** What any poll changes: counts balance up to the repeats among the new orphans, and bytes
      up to those and the drift of the orphans that stayed. */
  lemma PollBalancesUpTo(s: Shown, orphans: seq<Orphan>)
    ensures var (t, added) := (Poll(s, orphans), Fresh(orphans, s.pool));
      && t.count == |t.pool| + Repeats(orphans) && t.bytes == Total(t.pool) + Excess(orphans)
      && (t.addedCount - t.removedCount) - (s.addedCount - s.removedCount) == |t.pool| - |s.pool| + Repeats(added)
      && (t.addedBytes - t.removedBytes) - (s.addedBytes - s.removedBytes) ==
         Total(t.pool) - Total(s.pool) - Drift(s.pool, t.pool) + Excess(added)
  {
    hide Total, PoolOf, Fresh, Minus, Within;
    var pool := PoolOf(orphans);
    FreshPool(orphans, s.pool);
    SplitTotal(pool, s.pool);
    SplitTotal(s.pool, pool);
    SameKept(s.pool, pool);
  }

  /** What a poll with distinct ids changes: counts balance, and bytes balance up to the drift
      of the orphans that stayed. */
  lemma PollBalances(s: Shown, orphans: seq<Orphan>)
    requires Distinct(orphans)
    ensures var t := Poll(s, orphans);
      && |t.pool| == t.count && Total(t.pool) == t.bytes
      && (t.addedCount - t.removedCount) - (s.addedCount - s.removedCount) == |t.pool| - |s.pool|
      && (t.addedBytes - t.removedBytes) - (s.addedBytes - s.removedBytes) ==
         Total(t.pool) - Total(s.pool) - Drift(s.pool, t.pool)
  {
    hide Total, PoolOf, Fresh, Minus, Within, Distinct;
    PoolAddsUp(orphans);
    FreshIsDistinct(orphans, s.pool);
    PoolAddsUp(Fresh(orphans, s.pool));
    PollBalancesUpTo(s, orphans);
  }

  lemma SameKept(a: Pool, b: Pool)
    ensures |Within(a, b)| == |Within(b, a)|
  {
    assert Within(a, b).Keys == Within(b, a).Keys;
    assert |Within(a, b).Keys| == |Within(a, b)| && |Within(b, a).Keys| == |Within(b, a)|;
  }

  // ---------- What came and what went ----------

  /** The ids of a list. */
  function Ids(orphans: seq<Orphan>): set<string> {
    set i | 0 <= i < |orphans| :: orphans[i].wtxid
  }

  /** The places in the list whose id is not among `known`, and the bytes listed there. */
  function NewPlaces(orphans: seq<Orphan>, known: set<string>): set<nat> {
    set i: nat | i < |orphans| && orphans[i].wtxid !in known
  }

  function NewBytes(orphans: seq<Orphan>, known: set<string>): nat {
    if orphans == [] then 0
    else
      NewBytes(orphans[..|orphans| - 1], known) +
      if orphans[|orphans| - 1].wtxid in known then 0 else orphans[|orphans| - 1].bytes
  }

  lemma {:induction false} FreshIsNew(orphans: seq<Orphan>, last: Pool)
    ensures |Fresh(orphans, last)| == |NewPlaces(orphans, last.Keys)|
    ensures BytesOf(Fresh(orphans, last)) == NewBytes(orphans, last.Keys)
  {
    hide Fresh, BytesOf, PoolOf, NewPlaces;
    if orphans == [] {
      NothingListed(last);
      NothingNew(orphans, last.Keys);
    } else {
      var before, o := orphans[..|orphans| - 1], orphans[|orphans| - 1];
      assert orphans == before + [o];
      FreshIsNew(before, last);
      NextListed(before, o, last);
      NextListed(Fresh(before, last), o, last);
      NextPlace(orphans, last.Keys);
      assert Fresh(before, last) + [] == Fresh(before, last);
    }
  }

  lemma NextPlace(orphans: seq<Orphan>, known: set<string>)
    requires orphans != []
    ensures var (n, before) := (|orphans| - 1, NewPlaces(orphans[..|orphans| - 1], known));
      n !in before && NewPlaces(orphans, known) == before + if orphans[n].wtxid in known then {} else {n}
  {
  }

  lemma PoolIds(orphans: seq<Orphan>)
    ensures PoolOf(orphans).Keys == Ids(orphans)
  {
    forall id ensures id in PoolOf(orphans) <==> id in Ids(orphans) {
      PoolKeys(orphans, id);
    }
  }

  /** The remembered orphans that are not among the ids. */
  function Gone(last: Pool, ids: set<string>): Pool {
    map id | id in last && id !in ids :: last[id]
  }

  lemma NothingGone(last: Pool, ids: set<string>)
    requires last.Keys <= ids
    ensures Gone(last, ids) == map[]
  {
  }

  /** What a poll counts is what came and what went: each listed orphan that the last poll did not
      have is added, with its bytes; each one of the last poll that is not listed any more is
      removed, with the bytes it had; nothing that stayed is counted. */
  lemma PollCounts(s: Shown, orphans: seq<Orphan>)
    ensures var t := Poll(s, orphans);
      && t.addedCount == s.addedCount + |NewPlaces(orphans, s.pool.Keys)|
      && t.addedBytes == s.addedBytes + NewBytes(orphans, s.pool.Keys)
      && t.removedCount == s.removedCount + |s.pool.Keys - Ids(orphans)|
      && t.removedBytes == s.removedBytes + Total(Gone(s.pool, Ids(orphans)))
      && t.pool.Keys == Ids(orphans) && t.count == |orphans|
  {
    hide Total, PoolOf, Fresh, BytesOf, NewPlaces, NewBytes, Ids;
    FreshIsNew(orphans, s.pool);
    PoolIds(orphans);
    var gone := Minus(s.pool, PoolOf(orphans));
    assert gone.Keys == s.pool.Keys - Ids(orphans) && |gone.Keys| == |gone|;
    assert gone == Gone(s.pool, Ids(orphans));
  }

  /** A poll that lists the same ids as the last one adds and removes nothing. */
  lemma SameIdsCountNothing(s: Shown, orphans: seq<Orphan>)
    requires Ids(orphans) == s.pool.Keys
    ensures var t := Poll(s, orphans);
      && t.addedCount == s.addedCount && t.addedBytes == s.addedBytes
      && t.removedCount == s.removedCount && t.removedBytes == s.removedBytes
  {
    hide Total, PoolOf, Fresh;
    PollCounts(s, orphans);
    NothingNew(orphans, s.pool.Keys);
    NoTotal();
    NothingGone(s.pool, Ids(orphans));
  }

  lemma {:induction false} NothingNew(orphans: seq<Orphan>, known: set<string>)
    requires forall i :: 0 <= i < |orphans| ==> orphans[i].wtxid in known
    ensures NewPlaces(orphans, known) == {} && NewBytes(orphans, known) == 0
  {
    if orphans != [] {
      NothingNew(orphans[..|orphans| - 1], known);
    }
  }

  // ---------- Whole runs ----------

  ghost predicate AllDistinct(polls: seq<seq<Orphan>>) {
    forall i :: 0 <= i < |polls| ==> Distinct(polls[i])
  }

  ghost function TotalDrift(polls: seq<seq<Orphan>>): int {
    if polls == [] then 0
    else
      var before := polls[..|polls| - 1];
      TotalDrift(before) + Drift(Polls(before).pool, PoolOf(polls[|polls| - 1]))
  }

  /** What poll `i` lists and the poll before it did not have. */
  ghost function NewIn(polls: seq<seq<Orphan>>, i: nat): seq<Orphan>
    requires i < |polls|
  {
    Fresh(polls[i], Polls(polls[..i]).pool)
  }

  ghost function TotalRepeats(polls: seq<seq<Orphan>>): int {
    if polls == [] then 0 else TotalRepeats(polls[..|polls| - 1]) + Repeats(NewIn(polls, |polls| - 1))
  }

  ghost function TotalExcess(polls: seq<seq<Orphan>>): int {
    if polls == [] then 0 else TotalExcess(polls[..|polls| - 1]) + Excess(NewIn(polls, |polls| - 1))
  }

  /** Over any run of polls, repeated ids or not, all that was ever added less all that was ever
      removed is the number of orphans now, and the repeats among what was new; for bytes it is
      what these orphans have, less what those that stayed have grown, and the excess. */
  lemma {:induction false} CountersTelescopeUpTo(polls: seq<seq<Orphan>>)
    ensures var s := Polls(polls);
      && s.addedCount - s.removedCount == |s.pool| + TotalRepeats(polls)
      && s.addedBytes - s.removedBytes == Total(s.pool) - TotalDrift(polls) + TotalExcess(polls)
  {
    hide Poll, Drift, Fresh, Repeats, Excess;
    if polls == [] {
      NoTotal();
    } else {
      CountersTelescopeUpTo(polls[..|polls| - 1]);
      PollBalancesUpTo(Polls(polls[..|polls| - 1]), polls[|polls| - 1]);
      PollPool(Polls(polls[..|polls| - 1]), polls[|polls| - 1]);
    }
  }

  lemma {:induction false} NoTotalRepeats(polls: seq<seq<Orphan>>)
    ensures TotalRepeats(polls) >= 0
    ensures TotalRepeats(polls) == 0 <==> forall i :: 0 <= i < |polls| ==> Distinct(NewIn(polls, i))
  {
    hide Repeats, Distinct, Fresh, Polls;
    if polls != [] {
      var before := polls[..|polls| - 1];
      NoTotalRepeats(before);
      NoRepeatsIffDistinct(NewIn(polls, |polls| - 1));
      forall i | 0 <= i < |before| ensures NewIn(before, i) == NewIn(polls, i) {
        assert before[..i] == polls[..i];
      }
    }
  }

  /** So the count counters balance against the orphans there are if and only if no poll ever
      listed a new id twice. */
  lemma CountsBalanceIff(polls: seq<seq<Orphan>>)
    ensures var s := Polls(polls);
      s.addedCount - s.removedCount == |s.pool| <==> forall i :: 0 <= i < |polls| ==> Distinct(NewIn(polls, i))
  {
    CountersTelescopeUpTo(polls);
    NoTotalRepeats(polls);
  }

  /** Against the count that is shown, which has repeats in it too, they balance if and only if
      the last poll repeats as many entries as were repeated among what was new, ever. */
  lemma CountGaugeBalancesIff(polls: seq<seq<Orphan>>)
    requires polls != []
    ensures var s := Polls(polls);
      s.addedCount - s.removedCount == s.count <==> TotalRepeats(polls) == Repeats(polls[|polls| - 1])
  {
    hide Repeats, TotalRepeats;
    CountersTelescopeUpTo(polls);
    PollBalancesUpTo(Polls(polls[..|polls| - 1]), polls[|polls| - 1]);
  }

  lemma NextPoll(before: seq<seq<Orphan>>, orphans: seq<Orphan>)
    ensures Polls(before + [orphans]) == Poll(Polls(before), orphans)
  {
    assert (before + [orphans])[..|before|] == before;
  }

  lemma NextListed(before: seq<Orphan>, o: Orphan, last: Pool)
    ensures PoolOf(before + [o]) == PoolOf(before)[o.wtxid := o.bytes]
    ensures BytesOf(before + [o]) == BytesOf(before) + o.bytes
    ensures Fresh(before + [o], last) == Fresh(before, last) + if o.wtxid in last then [] else [o]
  {
    assert (before + [o])[..|before|] == before;
  }

  lemma OneListed(o: Orphan, last: Pool)
    ensures PoolOf([o]) == map[o.wtxid := o.bytes] && BytesOf([o]) == o.bytes
    ensures Fresh([o], last) == if o.wtxid in last then [] else [o]
  {
    NextListed([], o, last);
    assert [] + [o] == [o];
  }

  /** An id listed twice and then gone: added twice, removed once. */
  lemma RepeatedIdUnbalances(a: Orphan)
    ensures var s := Polls([[a, a], []]); s.addedCount == 2 && s.removedCount == 1 && s.count == 0
  {
    hide Polls, Fresh, BytesOf, Total;
    OneListed(a, map[]);
    NextListed([a], a, map[]);
    assert [a] + [a] == [a, a] && [] + [[a, a]] == [[a, a]] && [[a, a]] + [[]] == [[a, a], []];
    NextPoll([], [a, a]);
    NextPoll([[a, a]], []);
    Started();
    NothingListed(map[a.wtxid := a.bytes]);
    var only: Pool := map[a.wtxid := a.bytes];
    assert PoolOf([a, a]) == only && |Fresh([a, a], map[])| == 2;
    assert Minus(map[], only) == map[] && Minus(only, map[]) == only;
    assert only.Keys == {a.wtxid} && |only| == |only.Keys|;
  }

  /** An orphan that stays while its size goes from 1 to 2: the byte counters stay at 1. */
  lemma GrownOrphanUnbalances()
    ensures var s := Polls([[Orphan("a", 1)], [Orphan("a", 2)]]);
      s.addedBytes == 1 && s.removedBytes == 0 && s.bytes == 2
  {
    hide Polls, Fresh, Total, PoolOf;
    var a, b := Orphan("a", 1), Orphan("a", 2);
    OneListed(a, map[]);
    OneListed(b, map["a" := 1]);
    NothingListed(map[]);
    assert [] + [[a]] == [[a]] && [[a]] + [[b]] == [[a], [b]];
    NextPoll([], [a]);
    NextPoll([[a]], [b]);
    Started();
    assert Minus(map[], map["a" := 1]) == map[] && Minus(map["a" := 1], map["a" := 2]) == map[];
    NoTotal();
  }

  lemma Started()
    ensures Polls([]) == START
  {
  }

  lemma NothingListed(last: Pool)
    ensures PoolOf([]) == map[] && BytesOf([]) == 0 && Fresh([], last) == []
  {
  }

  /** Over any run of polls with distinct ids, all that was ever added less all that was ever
      removed is the current orphan count; and for bytes it is the current gauge, less what
      the orphans that stayed have grown. */
  lemma {:induction false} CountersTelescope(polls: seq<seq<Orphan>>)
    requires AllDistinct(polls)
    ensures var s := Polls(polls);
      && s.addedCount - s.removedCount == s.count == |s.pool|
      && s.addedBytes - s.removedBytes == s.bytes - TotalDrift(polls) && s.bytes == Total(s.pool)
  {
    hide Poll, Drift;
    if polls != [] {
      CountersTelescope(polls[..|polls| - 1]);
      PollBalances(Polls(polls[..|polls| - 1]), polls[|polls| - 1]);
      PollPool(Polls(polls[..|polls| - 1]), polls[|polls| - 1]);
    }
  }

  lemma PollPool(s: Shown, orphans: seq<Orphan>)
    ensures Poll(s, orphans).pool == PoolOf(orphans)
  {
  }

  /** So the byte counters balance against the orphans there are exactly when the drifts and the
      bytes of repeated new ids cancel out; with distinct ids, against the gauge exactly when
      the drifts do. */
  lemma BytesTelescopeIffNoDrift(polls: seq<seq<Orphan>>)
    ensures var s := Polls(polls);
      && (s.addedBytes - s.removedBytes == Total(s.pool) <==> TotalDrift(polls) == TotalExcess(polls))
      && (AllDistinct(polls) ==> (s.addedBytes - s.removedBytes == s.bytes <==> TotalDrift(polls) == 0))
  {
    hide Polls, TotalDrift, TotalExcess, Total, AllDistinct;
    CountersTelescopeUpTo(polls);
    if AllDistinct(polls) {
      CountersTelescope(polls);
    }
  }

  /** Each id has one size, `size(id)`, in all polls. */
  ghost predicate SizesFixed(polls: seq<seq<Orphan>>, size: string -> int) {
    forall i, j :: 0 <= i < |polls| && 0 <= j < |polls[i]| ==> polls[i][j].bytes == size(polls[i][j].wtxid)
  }

  lemma {:induction false} PoolSizes(orphans: seq<Orphan>, size: string -> int, id: string)
    requires forall j :: 0 <= j < |orphans| ==> orphans[j].bytes == size(orphans[j].wtxid)
    ensures id in PoolOf(orphans) ==> PoolOf(orphans)[id] == size(id)
  {
    if orphans != [] {
      PoolSizes(orphans[..|orphans| - 1], size, id);
    }
  }

  lemma {:induction false} FixedSizesDoNotDrift(polls: seq<seq<Orphan>>, size: string -> int)
    requires SizesFixed(polls, size)
    ensures TotalDrift(polls) == 0
    ensures forall id :: id in Polls(polls).pool ==> Polls(polls).pool[id] == size(id)
  {
    hide Poll;
    if polls != [] {
      var before, orphans := polls[..|polls| - 1], polls[|polls| - 1];
      assert forall i :: 0 <= i < |before| ==> before[i] == polls[i];
      FixedSizesDoNotDrift(before, size);
      PollPool(Polls(before), orphans);
      var last, pool := Polls(before).pool, PoolOf(orphans);
      forall id | id in pool ensures pool[id] == size(id) {
        assert polls[|polls| - 1] == orphans;
        PoolSizes(orphans, size, id);
      }
      assert Within(pool, last) == Within(last, pool);
    }
  }

  /** With one size for each id, the byte counters balance up to the bytes of repeated new ids,
      and with distinct ids they telescope. */
  lemma BytesTelescope(polls: seq<seq<Orphan>>, size: string -> int)
    requires SizesFixed(polls, size)
    ensures var s := Polls(polls);
      && s.addedBytes - s.removedBytes == Total(s.pool) + TotalExcess(polls)
      && (AllDistinct(polls) ==> s.addedBytes - s.removedBytes == s.bytes)
  {
    hide Polls, TotalDrift, TotalExcess, Total, AllDistinct, SizesFixed;
    FixedSizesDoNotDrift(polls, size);
    CountersTelescopeUpTo(polls);
    if AllDistinct(polls) {
      CountersTelescope(polls);
    }
  }
}
