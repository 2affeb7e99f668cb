/** Percentiles of samples, in exact arithmetic. A sample that is not a number is `None`. */
module StatUtil {
  import opened Basics
  import opened Folds

  // ---------- Sorting and counting ----------

  predicate IsSorted(s: seq<real>) {
    forall i, j :: 0 <= i <= j < |s| ==> s[i] <= s[j]
  }

  lemma SortedSnoc(s: seq<real>, x: real)
    requires IsSorted(s) && (s != [] ==> s[|s| - 1] <= x)
    ensures IsSorted(s + [x])
  {
  }

  function Insert(x: real, s: seq<real>): (r: seq<real>)
    requires IsSorted(s)
    ensures IsSorted(r) && |r| == |s| + 1
    ensures r[|s|] == if s == [] || s[|s| - 1] <= x then x else s[|s| - 1]
  {
    if s == [] || s[|s| - 1] <= x then
      SortedSnoc(s, x);
      s + [x]
    else
      SortedSnoc(Insert(x, s[..|s| - 1]), s[|s| - 1]);
      Insert(x, s[..|s| - 1]) + [s[|s| - 1]]
  }

  lemma {:induction false} InsertAdds(x: real, s: seq<real>)
    requires IsSorted(s)
    ensures multiset(Insert(x, s)) == multiset(s) + multiset{x}
  {
    if s != [] && s[|s| - 1] > x {
      InsertAdds(x, s[..|s| - 1]);
      MultisetSnoc(s);
      var r := Insert(x, s[..|s| - 1]);
      assert Insert(x, s) == r + [s[|s| - 1]];
    }
  }

  function Sort(s: seq<real>): (r: seq<real>)
    ensures IsSorted(r) && |r| == |s|
  {
    if s == [] then [] else Insert(s[|s| - 1], Sort(s[..|s| - 1]))
  }

  lemma {:induction false} SortPermutes(s: seq<real>)
    ensures multiset(Sort(s)) == multiset(s)
  {
    if s != [] {
      SortPermutes(s[..|s| - 1]);
      InsertAdds(s[|s| - 1], Sort(s[..|s| - 1]));
      MultisetSnoc(s);
    }
  }

  lemma SameWithoutLast(s: seq<real>, t: seq<real>, x: real)
    requires multiset(s) + multiset{x} == multiset(t) + multiset{x}
    ensures multiset(s) == multiset(t)
  {
    assert multiset(s) == multiset(s) + multiset{x} - multiset{x};
  }

  lemma {:induction false} SortedIsUnique(s: seq<real>, t: seq<real>)
    requires IsSorted(s) && IsSorted(t) && multiset(s) == multiset(t)
    ensures s == t
  {
    assert |multiset(s)| == |s| && |multiset(t)| == |t|;
    if s != [] {
      var x, y := s[|s| - 1], t[|t| - 1];
      var j := IndexOf(t, s);
      var i := IndexOf(s, t);
      assert x == t[j] <= y == s[i] <= x;
      MultisetSnoc(s);
      MultisetSnoc(t);
      var front, back := s[..|s| - 1], t[..|t| - 1];
      SameWithoutLast(front, back, x);
      SortedIsUnique(front, back);
      assert s == front + [x] && t == back + [x];
    }
  }

  function CountStep(a: real): (nat, real) -> nat {
    (n: nat, x: real) => if x <= a then n + 1 else n
  }

  /** The number of samples that are at most `a`. */
  function CountUpTo(s: seq<real>, a: real): nat {
    Fold(CountStep(a), 0, s)
  }

  lemma CountPermutation(s: seq<real>, t: seq<real>, a: real)
    requires multiset(s) == multiset(t)
    ensures CountUpTo(s, a) == CountUpTo(t, a)
  {
    FoldPermutation(CountStep(a), 0, s, t);
  }

  /** In a sorted sequence the samples up to `a` are a prefix. */
  lemma {:induction false} CountOfPrefix(s: seq<real>, k: nat, a: real)
    requires k <= |s|
    requires forall i :: 0 <= i < k ==> s[i] <= a
    requires forall i :: k <= i < |s| ==> a < s[i]
    ensures CountUpTo(s, a) == k
  {
    if s != [] {
      CountOfPrefix(s[..|s| - 1], if k == |s| then k - 1 else k, a);
    }
  }

  /** Partitions the sorted samples by binary search. */
  method PartitionPoint(s: seq<real>, a: real) returns (k: nat)
    requires IsSorted(s)
    ensures k == CountUpTo(s, a)
  {
    var low, high := 0, |s|;
    while low < high
      invariant 0 <= low <= high <= |s|
      invariant forall i :: 0 <= i < low ==> s[i] <= a
      invariant forall i :: high <= i < |s| ==> a < s[i]
    {
      var mid := (low + high) / 2;
      if s[mid] <= a {
        low := mid + 1;
      } else {
        high := mid;
      }
    }
    CountOfPrefix(s, low, a);
    k := low;
  }

  // ---------- Percentiles ----------

  function Clamp(q: real): (c: real)
    ensures 0.0 <= c <= 1.0
  {
    if q < 0.0 then 0.0 else if q > 1.0 then 1.0 else q
  }

  function Ceil(r: real): int {
    if r.Floor as real == r then r.Floor else r.Floor + 1
  }

  /** Products are reasoned about by these laws alone. */
  function Times(x: real, y: real): real {
    x * y
  }

  lemma TimesNonNegative(x: real, y: real)
    requires 0.0 <= x && 0.0 <= y
    ensures 0.0 <= Times(x, y)
  {
  }

  lemma TimesMonotone(d: real, t: real, u: real)
    requires 0.0 <= d && t <= u
    ensures Times(d, t) <= Times(d, u)
  {
    TimesNonNegative(d, u - t);
    assert d * (u - t) == d * u - d * t;
  }

  lemma TimesFraction(d: real, t: real)
    requires 0.0 <= d && 0.0 <= t <= 1.0
    ensures 0.0 <= Times(d, t) <= d
  {
    TimesMonotone(d, 0.0, t);
    TimesMonotone(d, t, 1.0);
    assert d * 0.0 == 0.0 && d * 1.0 == d;
  }

  lemma CeilBound(r: real, n: int)
    requires 0.0 <= r <= n as real
    ensures 0 <= r.Floor <= Ceil(r) <= n
  {
  }

  /** The rank of a quantile among `n` samples. */
  function Rank(n: nat, q: real): (r: real)
    requires n > 0
    ensures 0 <= r.Floor <= Ceil(r) <= n - 1
  {
    TimesFraction((n - 1) as real, Clamp(q));
    CeilBound(Times((n - 1) as real, Clamp(q)), n - 1);
    Times((n - 1) as real, Clamp(q))
  }

  /** The value at a rank, between two samples by linear interpolation. */
  function At(s: seq<real>, rank: real): real
    requires 0 <= rank.Floor <= Ceil(rank) < |s|
  {
    var lower, upper := rank.Floor, Ceil(rank);
    if lower == upper then s[lower] else s[lower] + Times(s[upper] - s[lower], rank - lower as real)
  }

  function PercentileOfSorted(s: seq<real>, q: real): real {
    if s == [] then 0.0 else At(s, Rank(|s|, q))
  }

  function Numbers(l: seq<Option<real>>): seq<real> {
    if l == [] then []
    else Numbers(l[..|l| - 1]) + if l[|l| - 1].Some? then [l[|l| - 1].value] else []
  }

  function Percentile(l: seq<Option<real>>, q: real): real {
    PercentileOfSorted(Sort(Numbers(l)), q)
  }

  function Median(l: seq<Option<real>>): real {
    Percentile(l, 0.5)
  }

  lemma AtBetween(s: seq<real>, rank: real)
    requires IsSorted(s) && 0 <= rank.Floor <= Ceil(rank) < |s|
    ensures s[rank.Floor] <= At(s, rank) <= s[Ceil(rank)]
  {
    hide Times;
    TimesFraction(s[Ceil(rank)] - s[rank.Floor], rank - rank.Floor as real);
  }

  /** Two ranks either lie in one cell between neighbouring samples, or a sample separates them. */
  lemma Cells(r: real, t: real)
    requires r <= t
    ensures Ceil(r) <= t.Floor || (r.Floor == t.Floor && Ceil(r) == Ceil(t) == r.Floor + 1)
  {
  }

  lemma AtInCell(s: seq<real>, r: real, t: real)
    requires IsSorted(s) && r <= t && 0 <= r.Floor == t.Floor && Ceil(r) == Ceil(t) == r.Floor + 1 < |s|
    ensures At(s, r) <= At(s, t)
  {
    hide Times;
    TimesMonotone(s[r.Floor + 1] - s[r.Floor], r - r.Floor as real, t - r.Floor as real);
  }

  lemma AtMonotone(s: seq<real>, r: real, t: real)
    requires IsSorted(s) && r <= t
    requires 0 <= r.Floor <= Ceil(r) < |s| && 0 <= t.Floor <= Ceil(t) < |s|
    ensures At(s, r) <= At(s, t)
  {
    hide At;
    Cells(r, t);
    AtBetween(s, r);
    AtBetween(s, t);
    if Ceil(r) <= t.Floor {
      assert s[Ceil(r)] <= s[t.Floor];
    } else {
      AtInCell(s, r, t);
    }
  }

  lemma RankMonotone(n: nat, q: real, p: real)
    requires n > 0 && q <= p
    ensures Rank(n, q) <= Rank(n, p)
  {
    hide Times;
    TimesMonotone((n - 1) as real, Clamp(q), Clamp(p));
  }

  lemma RankEnds(n: nat, q: real)
    requires n > 0
    ensures q <= 0.0 ==> Rank(n, q) == 0.0
    ensures q >= 1.0 ==> Rank(n, q) == (n - 1) as real
  {
  }

  lemma AtSample(s: seq<real>, k: nat)
    requires k < |s|
    ensures At(s, k as real) == s[k]
  {
  }

  /** A higher quantile is no smaller, and all lie between the least and the greatest sample,
      which are the quantiles 0 and 1. */
  lemma PercentileIsMonotone(s: seq<real>, q: real, p: real)
    requires s != [] && IsSorted(s) && q <= p
    ensures s[0] <= PercentileOfSorted(s, q) <= PercentileOfSorted(s, p) <= s[|s| - 1]
    ensures q <= 0.0 ==> PercentileOfSorted(s, q) == s[0]
    ensures p >= 1.0 ==> PercentileOfSorted(s, p) == s[|s| - 1]
  {
    hide Rank, At;
    RankEnds(|s|, q);
    RankEnds(|s|, p);
    AtSample(s, 0);
    AtSample(s, |s| - 1);
    RankMonotone(|s|, q, p);
    AtMonotone(s, Rank(|s|, q), Rank(|s|, p));
    AtBetween(s, Rank(|s|, q));
    AtBetween(s, Rank(|s|, p));
  }

  lemma {:induction false} CountAtLeast(s: seq<real>, k: nat, a: real)
    requires k <= |s| && forall i :: 0 <= i < k ==> s[i] <= a
    ensures CountUpTo(s, a) >= k
  {
    if s != [] {
      CountAtLeast(s[..|s| - 1], if k == |s| then k - 1 else k, a);
    }
  }

  function BelowStep(a: real): (nat, real) -> nat {
    (n: nat, x: real) => if x < a then n + 1 else n
  }

  /** The number of samples that are less than `a`. */
  function CountBelow(s: seq<real>, a: real): nat {
    Fold(BelowStep(a), 0, s)
  }

  lemma {:induction false} CountAtMost(s: seq<real>, k: nat, a: real)
    requires k <= |s| && forall i :: k <= i < |s| ==> a <= s[i]
    ensures CountBelow(s, a) <= k
  {
    if s != [] {
      CountAtMost(s[..|s| - 1], if k == |s| then k - 1 else k, a);
    }
  }

  /** What makes it the quantile: enough samples do not exceed it, and not too many are less. */
  lemma PercentileCounts(s: seq<real>, q: real)
    requires s != [] && IsSorted(s)
    ensures CountUpTo(s, PercentileOfSorted(s, q)) >= Rank(|s|, q).Floor + 1
    ensures CountBelow(s, PercentileOfSorted(s, q)) <= Ceil(Rank(|s|, q))
  {
    var rank := Rank(|s|, q);
    AtBetween(s, rank);
    CountAtLeast(s, rank.Floor + 1, At(s, rank));
    CountAtMost(s, Ceil(rank), At(s, rank));
  }

  lemma TimesSteps(d: real, k: real, t: real)
    ensures Times(d, k) + Times(Times(d, k + 1.0) - Times(d, k), t) == Times(d, k + t)
  {
    assert d * (k + 1.0) - d * k == d;
    assert d * (k + t) == d * k + d * t;
  }

  /** Between two samples the percentile moves in proportion: on evenly spaced samples it is the
      point as far along as the rank. */
  lemma PercentileOfEvenlySpaced(s: seq<real>, start: real, d: real, q: real)
    requires s != [] && forall i :: 0 <= i < |s| ==> s[i] == start + Times(d, i as real)
    ensures PercentileOfSorted(s, q) == start + Times(d, Rank(|s|, q))
  {
    hide Times, Rank;
    var rank := Rank(|s|, q);
    var k := rank.Floor;
    TimesSteps(d, k as real, rank - k as real);
    assert k as real + (rank - k as real) == rank;
    if Ceil(rank) == k {
      assert rank == k as real;
    } else {
      assert s[k + 1] == start + Times(d, (k + 1) as real) && (k + 1) as real == k as real + 1.0;
    }
  }

  /** The same in terms of the quantile, and the percentile of no samples. */
  lemma PercentileIsLinear(n: nat, start: real, d: real, q: real)
    requires n > 0 && 0.0 <= q <= 1.0
    ensures PercentileOfSorted(seq(n, i requires 0 <= i < n => start + Times(d, i as real)), q) ==
            start + d * ((n - 1) as real * q)
    ensures PercentileOfSorted([], q) == 0.0
  {
    PercentileOfEvenlySpaced(seq(n, i requires 0 <= i < n => start + Times(d, i as real)), start, d, q);
  }

  function NumberStep(m: multiset<real>, x: Option<real>): multiset<real> {
    if x.Some? then m + multiset{x.value} else m
  }

  lemma {:induction false} NumbersFold(l: seq<Option<real>>)
    ensures multiset(Numbers(l)) == Fold(NumberStep, multiset{}, l)
  {
    if l != [] {
      NumbersFold(l[..|l| - 1]);
    }
  }

  /** The order of the samples does not matter, nor do samples that are no numbers. */
  lemma PercentileOfPermutation(l: seq<Option<real>>, k: seq<Option<real>>, q: real)
    requires multiset(l) == multiset(k)
    ensures Percentile(l, q) == Percentile(k, q)
  {
    assert forall m: multiset<real>, x: real, y: real :: m + multiset{x} + multiset{y} == m + multiset{y} + multiset{x};
    FoldPermutation(NumberStep, multiset{}, l, k);
    NumbersFold(l);
    NumbersFold(k);
    SortPermutes(Numbers(l));
    SortPermutes(Numbers(k));
    SortedIsUnique(Sort(Numbers(l)), Sort(Numbers(k)));
  }

  /** The median is the middle sample, or the mean of the two in the middle. */
  lemma MedianIsMiddle(l: seq<Option<real>>)
    requires Numbers(l) != []
    ensures var s := Sort(Numbers(l));
      Median(l) == if |s| % 2 == 1 then s[|s| / 2] else (s[|s| / 2 - 1] + s[|s| / 2]) / 2.0
  {
    hide At, Sort;
    var s := Sort(Numbers(l));
    MiddleRank(|s|);
    AtMiddle(s, Rank(|s|, 0.5));
  }

  lemma MiddleRank(n: nat)
    requires n > 0
    ensures Rank(n, 0.5) == if n % 2 == 1 then (n / 2) as real else (n / 2 - 1) as real + 0.5
  {
    assert Rank(n, 0.5) == (n - 1) as real * 0.5;
    assert n == 2 * (n / 2) + n % 2;
  }

  lemma AtMiddle(s: seq<real>, rank: real)
    requires s != [] && rank == if |s| % 2 == 1 then (|s| / 2) as real else (|s| / 2 - 1) as real + 0.5
    ensures 0 <= rank.Floor <= Ceil(rank) < |s|
    ensures At(s, rank) == if |s| % 2 == 1 then s[|s| / 2] else (s[|s| / 2 - 1] + s[|s| / 2]) / 2.0
  {
    if |s| % 2 == 0 {
      assert rank.Floor == |s| / 2 - 1;
    }
  }
}
