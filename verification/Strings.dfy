/** Splitting strings at a character. */
module Strings {
  import opened Basics

  /** `split_once`: the parts before and after the first `c`. */
  function SplitOnce(s: string, c: char): Option<(string, string)> {
    if s == [] then None
    else if s[0] == c then Some(([], s[1..]))
    else match SplitOnce(s[1..], c)
      case None => None
      case Some((a, b)) => Some(([s[0]] + a, b))
  }

  lemma {:induction false} SplitAtFirst(a: string, c: char, b: string)
    requires c !in a
    ensures SplitOnce(a + [c] + b, c) == Some((a, b))
  {
    var s := a + [c] + b;
    if a == [] {
      assert s[0] == c && s[1..] == b;
    } else {
      assert s[0] == a[0] && [a[0]] + a[1..] == a;
      assert s[1..] == a[1..] + [c] + b;
      SplitAtFirst(a[1..], c, b);
    }
  }
  /** Exactly how a text is split at a character: at its first place. */
  lemma {:induction false} SplitIff(s: string, c: char, before: string, after: string)
    ensures SplitOnce(s, c) == Some((before, after)) <==> s == before + [c] + after && c !in before
  {
    if s == before + [c] + after && c !in before {
      SplitAtFirst(before, c, after);
    }
    if SplitOnce(s, c) == Some((before, after)) {
      if s[0] == c {
        assert s == [] + [c] + s[1..];
      } else {
        SplitIff(s[1..], c, before[1..], after);
        assert before == [s[0]] + before[1..];
        assert s == [s[0]] + s[1..];
      }
    }
  }
}
