/** Sums over the values of a map, weighted by its keys, and counters kept in maps. */
module MapSums {

  ghost function Sum<K(!new)>(m: map<K, int>, w: K -> int): int {
    if m == map[] then 0
    else
      var k :| k in m;
      w(k) * m[k] + Sum(m - {k}, w)
  }

  /** Any key may be split off, so the sum does not depend on an order. */
  lemma {:induction false} SumRemove<K(!new)>(m: map<K, int>, w: K -> int, k: K)
    requires k in m
    ensures Sum(m, w) == w(k) * m[k] + Sum(m - {k}, w)
    decreases |m|
  {
    var j :| j in m && Sum(m, w) == w(j) * m[j] + Sum(m - {j}, w);
    if j != k {
      SumRemove(m - {j}, w, k);
      SumRemove(m - {k}, w, j);
      assert m - {j} - {k} == m - {k} - {j};
    }
  }

  function One<K>(k: K): int {
    1
  }

  /** The plain sum of the values. */
  ghost function Total<K(!new)>(m: map<K, int>): int {
    Sum(m, One)
  }

  /** Counts one more `k`: an existing counter goes up, a missing one starts at one. */
  function Bump<K>(m: map<K, int>, k: K): map<K, int> {
    m[k := if k in m then m[k] + 1 else 1]
  }

  lemma SumBump<K(!new)>(m: map<K, int>, w: K -> int, k: K)
    ensures Sum(Bump(m, k), w) == Sum(m, w) + w(k)
  {
    var b := Bump(m, k);
    SumRemove(b, w, k);
    assert b - {k} == m - {k};
    if k in m {
      SumRemove(m, w, k);
      assert w(k) * (m[k] + 1) == w(k) * m[k] + w(k);
    } else {
      assert m - {k} == m;
    }
  }

  lemma {:induction false} SubsetSize<T>(a: set<T>, b: set<T>)
    requires a <= b
    ensures |a| <= |b|
  {
    if a != {} {
      var x :| x in a;
      SubsetSize(a - {x}, b - {x});
    }
  }
}
