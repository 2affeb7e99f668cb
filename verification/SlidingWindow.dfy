/** The sliding window behind a spammer alert: a queue of recent hits and a one-shot flag,
    proved against the whole history of hits. Times are nanoseconds of a monotonic clock. */
module SlidingWindow {
  import opened Basics
  import opened MapSums

  datatype Window = Window(timestamps: seq<nat>, alertedAt: Option<nat>)

  const EMPTY := Window([], None)

  /** Pops the hits at the front that are longer ago than `span`. */
  function DropOld(timestamps: seq<nat>, now: nat, span: nat): seq<nat> {
    if timestamps != [] && Since(now, timestamps[0]) > span then DropOld(timestamps[1..], now, span)
    else timestamps
  }

  /** Records a hit; the second component is the number of hits to report, if it alerts. */
  function Hit(w: Window, now: nat, span: nat, threshold: nat): (Window, Option<nat>) {
    if w.alertedAt.Some? then (w, None)
    else
      var recent := DropOld(w.timestamps + [now], now, span);
      if |recent| <= threshold then (Window(recent, None), None)
      else (Window(recent, Some(now)), Some(|recent|))
  }

  /** The window after a whole history of hits. */
  function After(h: seq<nat>, span: nat, threshold: nat): Window {
    if h == [] then EMPTY else Hit(After(h[..|h| - 1], span, threshold), h[|h| - 1], span, threshold).0
  }

  ghost predicate Sorted(h: seq<nat>) {
    forall i, j :: 0 <= i <= j < |h| ==> h[i] <= h[j]
  }

  // ---------- The whole-history specification ----------

  /** Hit `n` is the last of more than `threshold` hits no further than `span` apart. */
  predicate Crowded(h: seq<nat>, n: nat, span: nat, threshold: nat) {
    threshold <= n < |h| && h[n] <= h[n - threshold] + span
  }

  ghost predicate FirstCrowded(h: seq<nat>, n: nat, span: nat, threshold: nat) {
    Crowded(h, n, span, threshold) && forall m: nat :: m < n ==> !Crowded(h, m, span, threshold)
  }

  ghost predicate Quiet(h: seq<nat>, span: nat, threshold: nat) {
    forall n: nat :: n < |h| ==> !Crowded(h, n, span, threshold)
  }

  lemma CrowdedPrefix(h: seq<nat>, k: nat, n: nat, span: nat, threshold: nat)
    requires n < k <= |h|
    ensures Crowded(h[..k], n, span, threshold) == Crowded(h, n, span, threshold)
  {
  }

  /** Of the hits from `j` on, `DropOld` keeps those from the first one that is not longer
      ago than `span` from the last hit of all. */
  lemma {:induction false} DropOldFrom(h: seq<nat>, j: nat, span: nat)
    requires Sorted(h) && j < |h|
    ensures var r := DropOld(h[j..], h[|h| - 1], span);
      && 0 < |r| <= |h| - j && r == h[|h| - |r|..]
      && h[|h| - 1] <= h[|h| - |r|] + span
      && (|r| < |h| - j ==> h[|h| - 1] > h[|h| - |r| - 1] + span)
    decreases |h| - j
  {
    assert h[j..][0] == h[j];
    if Since(h[|h| - 1], h[j]) > span {
      assert h[j..][1..] == h[j + 1..];
      DropOldFrom(h, j + 1, span);
    }
  }

  /** The hits of a sorted history that are not longer ago than `span` from the last one. */
  ghost predicate HoldsRecent(h: seq<nat>, ts: seq<nat>, span: nat) {
    if h == [] then ts == []
    else
      && 0 < |ts| <= |h| && ts == h[|h| - |ts|..]
      && h[|h| - 1] <= h[|h| - |ts|] + span
      && (|ts| < |h| ==> h[|h| - 1] > h[|h| - |ts| - 1] + span)
  }

  /** One more hit after the window held the recent hits: it holds them again, and they are
      too many exactly when the new hit is crowded. */
  lemma NextHit(h: seq<nat>, ts: seq<nat>, span: nat, threshold: nat)
    requires h != [] && Sorted(h) && HoldsRecent(h[..|h| - 1], ts, span)
    ensures var r := DropOld(ts + [h[|h| - 1]], h[|h| - 1], span);
      && |r| <= |ts| + 1 && HoldsRecent(h, r, span)
      && (|r| > threshold <==> Crowded(h, |h| - 1, span, threshold))
  {
    var last := |h| - 1;
    var j := last - |ts|;
    assert ts + [h[last]] == h[j..];
    DropOldFrom(h, j, span);
    var r := DropOld(h[j..], h[last], span);
    if j > 0 && |r| == |ts| + 1 {
      assert h[last - 1] <= h[last] && h[last - 1] > h[j - 1] + span;
    }
    RecentVersusCrowded(h, r, span, threshold);
  }

  lemma RecentVersusCrowded(h: seq<nat>, r: seq<nat>, span: nat, threshold: nat)
    requires h != [] && Sorted(h) && HoldsRecent(h, r, span)
    ensures |r| > threshold <==> Crowded(h, |h| - 1, span, threshold)
  {
    var last, k := |h| - 1, |h| - |r|;
    if |r| > threshold {
      assert h[k] <= h[last - threshold];
    } else if threshold <= last {
      assert h[last - threshold] <= h[k - 1];
    }
  }

  lemma QuietBefore(h: seq<nat>, k: nat, span: nat, threshold: nat)
    requires k <= |h| && forall m: nat :: m < k ==> !Crowded(h, m, span, threshold)
    ensures Quiet(h[..k], span, threshold)
  {
    forall n: nat | n < k ensures !Crowded(h[..k], n, span, threshold) {
      CrowdedPrefix(h, k, n, span, threshold);
    }
  }

  lemma {:induction false} QuietWindow(h: seq<nat>, span: nat, threshold: nat)
    requires Sorted(h) && Quiet(h, span, threshold)
    ensures var w := After(h, span, threshold);
      w.alertedAt == None && |w.timestamps| <= threshold && HoldsRecent(h, w.timestamps, span)
  {
    if h != [] {
      var before := h[..|h| - 1];
      QuietBefore(h, |before|, span, threshold);
      QuietWindow(before, span, threshold);
      NextHit(h, After(before, span, threshold).timestamps, span, threshold);
      assert !Crowded(h, |before|, span, threshold);
    }
  }

  lemma {:induction false} QuietOrFirst(h: seq<nat>, span: nat, threshold: nat)
    ensures Quiet(h, span, threshold) || exists n: nat :: FirstCrowded(h, n, span, threshold)
  {
    if h != [] {
      var before := h[..|h| - 1];
      QuietOrFirst(before, span, threshold);
      forall n: nat | n < |before| ensures Crowded(before, n, span, threshold) == Crowded(h, n, span, threshold) {
        CrowdedPrefix(h, |before|, n, span, threshold);
      }
      if Quiet(before, span, threshold) {
        if Crowded(h, |before|, span, threshold) {
          assert FirstCrowded(h, |before|, span, threshold);
        }
      } else {
        var n: nat :| FirstCrowded(before, n, span, threshold);
        assert FirstCrowded(h, n, span, threshold);
      }
    }
  }

  /** The first crowded hit sets the flag and leaves the `threshold + 1` hits that end there. */
  lemma FirstAlert(h: seq<nat>, span: nat, threshold: nat)
    requires h != [] && Sorted(h) && FirstCrowded(h, |h| - 1, span, threshold)
    ensures var last := |h| - 1;
      && After(h, span, threshold) == Window(h[last - threshold..], Some(h[last]))
      && Hit(After(h[..last], span, threshold), h[last], span, threshold).1 == Some(threshold + 1)
  {
    hide DropOld, HoldsRecent, After;
    var before, last := h[..|h| - 1], |h| - 1;
    QuietBefore(h, last, span, threshold);
    QuietWindow(before, span, threshold);
    var w := After(before, span, threshold);
    NextHit(h, w.timestamps, span, threshold);
    var r := DropOld(w.timestamps + [h[last]], h[last], span);
    assert |r| == threshold + 1;
    HoldsSuffix(h, r, span);
    AfterLast(h, span, threshold);
  }

  lemma AfterLast(h: seq<nat>, span: nat, threshold: nat)
    requires h != []
    ensures After(h, span, threshold) == Hit(After(h[..|h| - 1], span, threshold), h[|h| - 1], span, threshold).0
  {
  }

  lemma HoldsSuffix(h: seq<nat>, ts: seq<nat>, span: nat)
    requires HoldsRecent(h, ts, span)
    ensures |ts| <= |h| && ts == h[|h| - |ts|..]
  {
  }

  /** From the first crowded hit on, the window is frozen. */
  lemma {:induction false} AlertedWindow(h: seq<nat>, n: nat, span: nat, threshold: nat)
    requires Sorted(h) && FirstCrowded(h, n, span, threshold)
    ensures After(h, span, threshold) == Window(h[n - threshold..n + 1], Some(h[n]))
  {
    if n < |h| - 1 {
      var before := h[..|h| - 1];
      forall m: nat | m <= n ensures Crowded(before, m, span, threshold) == Crowded(h, m, span, threshold) {
        CrowdedPrefix(h, |before|, m, span, threshold);
      }
      AlertedWindow(before, n, span, threshold);
      assert before[n - threshold..n + 1] == h[n - threshold..n + 1];
    } else {
      FirstAlert(h, span, threshold);
    }
  }

  /** Window refinement: the hit that comes next alerts exactly when it is the first crowded
      one of the whole history, and then it reports `threshold + 1` hits. */
  lemma AlertsAtFirstCrowded(h: seq<nat>, span: nat, threshold: nat)
    requires h != [] && Sorted(h)
    ensures var last := |h| - 1;
      Hit(After(h[..last], span, threshold), h[last], span, threshold).1 ==
      if FirstCrowded(h, last, span, threshold) then Some(threshold + 1) else None
  {
    hide Crowded, DropOld, HoldsRecent;
    var before, last := h[..|h| - 1], |h| - 1;
    QuietOrFirst(before, span, threshold);
    forall m: nat | m < last ensures Crowded(before, m, span, threshold) == Crowded(h, m, span, threshold) {
      CrowdedPrefix(h, last, m, span, threshold);
    }
    if Quiet(before, span, threshold) {
      if Crowded(h, last, span, threshold) {
        FirstAlert(h, span, threshold);
      } else {
        QuietWindow(before, span, threshold);
        NextHit(h, After(before, span, threshold).timestamps, span, threshold);
      }
    } else {
      var n: nat :| FirstCrowded(before, n, span, threshold);
      assert n < last by { assert Crowded(before, n, span, threshold); CrowdedInRange(before, n, span, threshold); }
      AlertedWindow(before, n, span, threshold);
    }
  }

  lemma CrowdedInRange(h: seq<nat>, n: nat, span: nat, threshold: nat)
    requires Crowded(h, n, span, threshold)
    ensures n < |h|
  {
  }

  /** The hits inside the closed interval from `a` to `a + span`. */
  function Inside(h: seq<nat>, a: int, span: nat): set<nat> {
    set i: nat | i < |h| && a <= h[i] <= a + span
  }

  /** The same in terms of time: the flag is set exactly when some interval as long as the
      window, wherever it starts, holds more than `threshold` hits. */
  lemma AlertedIffIntervalCrowded(h: seq<nat>, span: nat, threshold: nat)
    requires Sorted(h)
    ensures After(h, span, threshold).alertedAt.Some? <==> exists a: int :: |Inside(h, a, span)| > threshold
  {
    QuietOrFirst(h, span, threshold);
    if Quiet(h, span, threshold) {
      QuietWindow(h, span, threshold);
      forall a: int ensures |Inside(h, a, span)| <= threshold {
        QuietInterval(h, a, span, threshold);
      }
    } else {
      var n: nat :| FirstCrowded(h, n, span, threshold);
      AlertedWindow(h, n, span, threshold);
      var run := RangeSet(n - threshold, threshold + 1);
      assert run <= Inside(h, h[n - threshold], span);
      SubsetSize(run, Inside(h, h[n - threshold], span));
    }
  }

  lemma QuietInterval(h: seq<nat>, a: int, span: nat, threshold: nat)
    requires Sorted(h) && Quiet(h, span, threshold)
    ensures |Inside(h, a, span)| <= threshold
  {
    var inside := Inside(h, a, span);
    if inside != {} {
      var first := Least(inside);
      var run := RangeSet(first, threshold);
      var next := first + threshold;
      if next < |h| {
        assert !Crowded(h, next, span, threshold);
        assert h[next] > h[first] + span;
        assert forall i :: next <= i < |h| ==> h[next] <= h[i];
      }
      assert forall i :: i in inside ==> i in run;
      SubsetSize(inside, run);
    }
  }

  /** The numbers from `from` on, `count` of them. */
  function RangeSet(from: nat, count: nat): (s: set<nat>)
    ensures |s| == count && forall i :: i in s <==> from <= i < from + count
  {
    if count == 0 then {} else RangeSet(from, count - 1) + {from + count - 1}
  }

  lemma {:induction false} Least(s: set<nat>) returns (least: nat)
    requires s != {}
    ensures least in s && forall i :: i in s ==> least <= i
  {
    var x :| x in s;
    if s == {x} {
      least := x;
    } else {
      assert s - {x} != {};
      var y := Least(s - {x});
      least := if x < y then x else y;
      assert s == (s - {x}) + {x};
    }
  }

  /** Whatever happened, the queue is a stretch of the history with at most `threshold + 1`
      hits, hence sorted; and once the flag is set no hit changes it. */
  lemma WindowIsBounded(h: seq<nat>, now: nat, span: nat, threshold: nat)
    requires Sorted(h)
    ensures var w := After(h, span, threshold);
      && Sorted(w.timestamps) && |w.timestamps| <= threshold + 1
      && (w.alertedAt.None? ==> |w.timestamps| <= threshold)
      && (w.alertedAt.Some? ==> Hit(w, now, span, threshold).0 == w)
  {
    QuietOrFirst(h, span, threshold);
    if Quiet(h, span, threshold) {
      QuietWindow(h, span, threshold);
    } else {
      var n: nat :| FirstCrowded(h, n, span, threshold);
      AlertedWindow(h, n, span, threshold);
    }
  }
}
