/** Folding a sequence with a step whose order does not matter. */
module Folds {

  function Fold<A, B>(f: (B, A) -> B, start: B, s: seq<A>): B {
    if s == [] then start else f(Fold(f, start, s[..|s| - 1]), s[|s| - 1])
  }

  ghost predicate Commutes<A(!new), B(!new)>(f: (B, A) -> B) {
    forall b, x, y :: f(f(b, x), y) == f(f(b, y), x)
  }

  lemma FoldSnoc<A, B>(f: (B, A) -> B, start: B, s: seq<A>, x: A)
    ensures Fold(f, start, s + [x]) == f(Fold(f, start, s), x)
  {
    assert (s + [x])[..|s|] == s;
  }

  /** An element may be moved to the end. */
  lemma {:induction false} FoldMove<A(!new), B(!new)>(f: (B, A) -> B, start: B, s: seq<A>, i: nat)
    requires Commutes(f) && i < |s|
    ensures Fold(f, start, s) == f(Fold(f, start, s[..i] + s[i + 1..]), s[i])
  {
    var front, last := s[..|s| - 1], s[|s| - 1];
    if i == |s| - 1 {
      assert s[..i] + s[i + 1..] == front;
    } else {
      FoldMove(f, start, front, i);
      var rest := front[..i] + front[i + 1..];
      assert s[..i] + s[i + 1..] == rest + [last];
      FoldSnoc(f, start, rest, last);
      assert f(f(Fold(f, start, rest), s[i]), last) == f(f(Fold(f, start, rest), last), s[i]);
    }
  }

  lemma MultisetSnoc<A>(s: seq<A>)
    requires s != []
    ensures multiset(s) == multiset(s[..|s| - 1]) + multiset{s[|s| - 1]}
  {
    assert s == s[..|s| - 1] + [s[|s| - 1]];
  }

  lemma RemoveFrom<A>(s: seq<A>, i: nat)
    requires i < |s|
    ensures multiset(s[..i] + s[i + 1..]) == multiset(s) - multiset{s[i]}
  {
    assert s == s[..i] + [s[i]] + s[i + 1..];
  }

  lemma IndexOf<A>(s: seq<A>, t: seq<A>) returns (i: nat)
    requires t != [] && multiset(s) == multiset(t)
    ensures i < |s| && s[i] == t[|t| - 1]
  {
    assert t[|t| - 1] in multiset(t);
    i :| i < |s| && s[i] == t[|t| - 1];
  }

  /** Permutations fold to the same result. */
  lemma {:induction false} FoldPermutation<A(!new), B(!new)>(f: (B, A) -> B, start: B, s: seq<A>, t: seq<A>)
    requires Commutes(f) && multiset(s) == multiset(t)
    ensures Fold(f, start, s) == Fold(f, start, t)
  {
    if t == [] {
      assert |multiset(s)| == 0;
    } else {
      var last := t[|t| - 1];
      var i := IndexOf(s, t);
      FoldMove(f, start, s, i);
      RemoveFrom(s, i);
      MultisetSnoc(t);
      FoldPermutation(f, start, s[..i] + s[i + 1..], t[..|t| - 1]);
    }
  }
}
