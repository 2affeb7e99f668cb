/** What the outputs of the connectivity check say: each result against what happened on the
    network and in the cache, and the counters against the results. */
module Outcomes {
  import opened Basics
  import opened Folds
  import opened Connectivity
  import opened Quiescence

  // ---------- Counting ----------

  function Count<T>(s: seq<T>, p: T -> bool): (n: nat)
    ensures n <= |s|
  {
    if s == [] then 0 else Count(s[..|s| - 1], p) + if p(s[|s| - 1]) then 1 else 0
  }

  function One(b: bool): nat {
    if b then 1 else 0
  }

  lemma CountSnoc<T>(s: seq<T>, x: T, p: T -> bool)
    ensures Count(s + [x], p) == Count(s, p) + One(p(x))
  {
    assert (s + [x])[..|s|] == s;
  }

  lemma {:induction false} CountMove<T>(s: seq<T>, i: nat, x: T, p: T -> bool)
    requires i < |s|
    ensures Count(s[i := x], p) + One(p(s[i])) == Count(s, p) + One(p(x))
  {
    var front := s[..|s| - 1];
    if i == |s| - 1 {
      assert s[i := x][..i] == front;
    } else {
      CountMove(front, i, x, p);
      assert s[i := x][..|s| - 1] == front[i := x];
    }
  }

  lemma {:induction false} CountNone<T>(s: seq<T>, p: T -> bool)
    requires forall i :: 0 <= i < |s| ==> !p(s[i])
    ensures Count(s, p) == 0
  {
    if s != [] {
      CountNone(s[..|s| - 1], p);
    }
  }

  /** If `p` is either `q` or `r`, its number is the sum of theirs. */
  lemma {:induction false} CountSplit<T>(s: seq<T>, p: T -> bool, q: T -> bool, r: T -> bool)
    requires forall i :: 0 <= i < |s| ==> One(p(s[i])) == One(q(s[i])) + One(r(s[i]))
    ensures Count(s, p) == Count(s, q) + Count(s, r)
  {
    if s != [] {
      CountSplit(s[..|s| - 1], p, q, r);
    }
  }

  // ---------- Events, outputs and workers that belong together ----------

  /** Entries `e` of the log are kept by the workers `w` until they are the outputs `o`: a worker
      comes to be one of `w` only with such an entry, and stops being one only with such an
      output. */
  ghost predicate Kept(e: Event -> bool, w: Worker -> bool, o: Output -> bool) {
    && !w(Waiting) && !w(Gone) && (forall i :: !w(Taken(i)) && !w(Connecting(i)))
    && (forall i, t :: e(Hit(i, t)) == w(Sending(Output(i, true, true))))
    && (forall i :: e(Handshake(i)) == w(Connected(i)))
    && (forall i :: e(Refused(i)) == w(Sending(Output(i, false, false))))
    && (forall i, t :: One(e(Stored(i, t))) + One(w(Connected(i))) == One(w(Sending(Output(i, true, false)))))
    && (forall x :: !e(Sent(x)) && w(Sending(x)) == o(x))
  }

  ghost predicate Balanced(s: State, e: Event -> bool, w: Worker -> bool, o: Output -> bool) {
    Count(s.log, e) == Count(s.outputs, o) + Count(s.workers, w)
  }

  lemma StepKeepsBalance(parses: Address -> bool, s: State, a: Action,
                         e: Event -> bool, w: Worker -> bool, o: Output -> bool)
    requires Kept(e, w, o) && Balanced(s, e, w, o)
    ensures Balanced(Step(parses, s, a), e, w, o)
  {
    hide Count, Recent, KeyOf, Usable;
    var t := Step(parses, s, a);
    if Works(a) && t != s {
      CountMove(s.workers, a.w, t.workers[a.w], w);
      if t.log != s.log {
        CountSnoc(s.log, t.log[|s.log|], e);
        assert t.log == s.log + [t.log[|s.log|]];
      }
      if a.Send? {
        CountSnoc(s.outputs, s.workers[a.w].output, o);
      }
    }
  }

  lemma {:induction false} RunIsBalanced(parses: Address -> bool, workers: nat, actions: seq<Action>,
                                         e: Event -> bool, w: Worker -> bool, o: Output -> bool)
    requires Kept(e, w, o)
    ensures Balanced(Run(parses, workers, actions), e, w, o)
  {
    hide Step, Kept;
    if actions == [] {
      NothingWorks(workers, e, w, o);
    } else {
      RunIsBalanced(parses, workers, actions[..|actions| - 1], e, w, o);
      StepKeepsBalance(parses, Run(parses, workers, actions[..|actions| - 1]), actions[|actions| - 1], e, w, o);
    }
  }

  lemma NothingWorks(workers: nat, e: Event -> bool, w: Worker -> bool, o: Output -> bool)
    requires Kept(e, w, o)
    ensures Balanced(Init(workers), e, w, o)
  {
    CountNone(Init(workers).workers, w);
  }

  // ---------- The outcome of each input ----------

  function Handshakes(q: Input -> bool): Event -> bool {
    (e: Event) => e.Handshake? && q(e.input)
  }

  function Refusals(q: Input -> bool): Event -> bool {
    (e: Event) => e.Refused? && q(e.input)
  }

  function Stores(q: Input -> bool): Event -> bool {
    (e: Event) => e.Stored? && q(e.input)
  }

  function Hits(q: Input -> bool): Event -> bool {
    (e: Event) => e.Hit? && q(e.input)
  }

  function Outputs(q: Input -> bool, result: bool, cached: bool): Output -> bool {
    (o: Output) => q(o.input) && o.result == result && o.cached == cached
  }

  /** Workers about to send such an output. */
  function Senders(q: Input -> bool, result: bool, cached: bool): Worker -> bool {
    (w: Worker) => w.Sending? && q(w.output.input) && w.output.result == result && w.output.cached == cached
  }

  /** Workers that have a connection, or are about to send the success of one. */
  function Successful(q: Input -> bool): Worker -> bool {
    (w: Worker) => match w
      case Connected(i) => q(i)
      case Sending(o) => q(o.input) && o.result && !o.cached
      case _ => false
  }

  lemma HandshakesAreOwed(parses: Address -> bool, workers: nat, actions: seq<Action>, q: Input -> bool)
    ensures Balanced(Run(parses, workers, actions), Handshakes(q), Successful(q), Outputs(q, true, false))
  {
    hide Run, Count;
    RunIsBalanced(parses, workers, actions, Handshakes(q), Successful(q), Outputs(q, true, false));
  }

  lemma StoresAreOwed(parses: Address -> bool, workers: nat, actions: seq<Action>, q: Input -> bool)
    ensures Balanced(Run(parses, workers, actions), Stores(q), Senders(q, true, false), Outputs(q, true, false))
  {
    hide Run, Count;
    RunIsBalanced(parses, workers, actions, Stores(q), Senders(q, true, false), Outputs(q, true, false));
  }

  lemma RefusalsAreOwed(parses: Address -> bool, workers: nat, actions: seq<Action>, q: Input -> bool)
    ensures Balanced(Run(parses, workers, actions), Refusals(q), Senders(q, false, false), Outputs(q, false, false))
  {
    hide Run, Count;
    RunIsBalanced(parses, workers, actions, Refusals(q), Senders(q, false, false), Outputs(q, false, false));
  }

  lemma HitsAreOwed(parses: Address -> bool, workers: nat, actions: seq<Action>, q: Input -> bool)
    ensures Balanced(Run(parses, workers, actions), Hits(q), Senders(q, true, true), Outputs(q, true, true))
  {
    hide Run, Count;
    RunIsBalanced(parses, workers, actions, Hits(q), Senders(q, true, true), Outputs(q, true, true));
  }

  /** In every interleaving and for any set of inputs: the handshakes are the outputs that are
      successful and not cached, and the workers that still owe one; the stores likewise, once the
      worker has stored; the refused attempts are the outputs that are not successful; the cache
      hits are the cached ones; and no output is cached and not successful. */
  lemma OutcomesAreRight(parses: Address -> bool, workers: nat, actions: seq<Action>, q: Input -> bool)
    ensures var s := Run(parses, workers, actions);
      && Count(s.log, Handshakes(q)) == Count(s.outputs, Outputs(q, true, false)) + Count(s.workers, Successful(q))
      && Count(s.log, Stores(q)) ==
         Count(s.outputs, Outputs(q, true, false)) + Count(s.workers, Senders(q, true, false))
      && Count(s.log, Refusals(q)) ==
         Count(s.outputs, Outputs(q, false, false)) + Count(s.workers, Senders(q, false, false))
      && Count(s.log, Hits(q)) == Count(s.outputs, Outputs(q, true, true)) + Count(s.workers, Senders(q, true, true))
      && Count(s.outputs, Outputs(q, false, true)) == 0
  {
    hide Run, Count, Handshakes, Stores, Refusals, Hits, Successful, Senders;
    HandshakesAreOwed(parses, workers, actions, q);
    StoresAreOwed(parses, workers, actions, q);
    RefusalsAreOwed(parses, workers, actions, q);
    HitsAreOwed(parses, workers, actions, q);
    CountersAddUp(parses, workers, actions);
    CountNone(Run(parses, workers, actions).outputs, Outputs(q, false, true));
  }

  // ---------- The counters ----------

  ghost predicate CountersCount(s: State) {
    && s.counted <= |s.outputs|
    && var c := s.outputs[..s.counted];
    s.counters == Counters(|c|, Count(c, (o: Output) => o.result), Count(c, (o: Output) => !o.result),
                           Count(c, (o: Output) => o.cached))
  }

  lemma {:induction false} CountersAreCounts(parses: Address -> bool, workers: nat, actions: seq<Action>)
    ensures CountersCount(Run(parses, workers, actions))
  {
    if actions != [] {
      CountersAreCounts(parses, workers, actions[..|actions| - 1]);
      StepKeepsCounts(parses, Run(parses, workers, actions[..|actions| - 1]), actions[|actions| - 1]);
    }
  }

  lemma StepKeepsCounts(parses: Address -> bool, s: State, a: Action)
    requires CountersCount(s)
    ensures CountersCount(Step(parses, s, a))
  {
    hide Count, Recent, KeyOf, Usable;
    var t := Step(parses, s, a);
    assert t.outputs[..s.counted] == s.outputs[..s.counted];
    if a.Sink? && t != s {
      var c, o := s.outputs[..s.counted], s.outputs[s.counted];
      assert t.outputs[..t.counted] == c + [o];
      CountSnoc(c, o, (o: Output) => o.result);
      CountSnoc(c, o, (o: Output) => !o.result);
      CountSnoc(c, o, (o: Output) => o.cached);
    }
  }

  /** Once the workers are at rest and the sink has nothing left to count, in whatever order all
      that happened: successful are the handshakes and the cache hits, unsuccessful the refused
      attempts, cached the cache hits, and tried all of them. */
  lemma FinalCounters(parses: Address -> bool, workers: nat, actions: seq<Action>)
    requires var s := Run(parses, workers, actions); AtRest(parses, s) && Step(parses, s, Sink) == s
    ensures var s := Run(parses, workers, actions);
      var (handshakes, refused, hits) :=
        (Count(s.log, (e: Event) => e.Handshake?), Count(s.log, (e: Event) => e.Refused?),
         Count(s.log, (e: Event) => e.Hit?));
      s.counters == Counters(handshakes + hits + refused, handshakes + hits, refused, hits)
  {
    hide Run, Count, AtRest;
    var s := Run(parses, workers, actions);
    var all := (i: Input) => true;
    OutcomesAreRight(parses, workers, actions, all);
    CountersAreCounts(parses, workers, actions);
    RunConserves(parses, workers, actions);
    RestingWorkers(parses, s);
    assert s.counted == |s.outputs| && s.outputs[..|s.outputs|] == s.outputs;
    CountNone(s.workers, Successful(all));
    CountNone(s.workers, Senders(all, false, false));
    CountNone(s.workers, Senders(all, true, true));
    SameCount(s.log, Handshakes(all), (e: Event) => e.Handshake?);
    SameCount(s.log, Refusals(all), (e: Event) => e.Refused?);
    SameCount(s.log, Hits(all), (e: Event) => e.Hit?);
    ByResult(parses, workers, actions, all);
  }

  lemma {:induction false} SameCount<T>(s: seq<T>, p: T -> bool, q: T -> bool)
    requires forall i :: 0 <= i < |s| ==> p(s[i]) == q(s[i])
    ensures Count(s, p) == Count(s, q)
  {
    if s != [] {
      SameCount(s[..|s| - 1], p, q);
    }
  }

  lemma ByResult(parses: Address -> bool, workers: nat, actions: seq<Action>, all: Input -> bool)
    requires forall i :: all(i)
    ensures var s := Run(parses, workers, actions);
      && Count(s.outputs, (o: Output) => o.result) ==
         Count(s.outputs, Outputs(all, true, false)) + Count(s.outputs, Outputs(all, true, true))
      && Count(s.outputs, (o: Output) => !o.result) == Count(s.outputs, Outputs(all, false, false))
      && Count(s.outputs, (o: Output) => o.cached) == Count(s.outputs, Outputs(all, true, true))
      && |s.outputs| == Count(s.outputs, (o: Output) => o.result) + Count(s.outputs, (o: Output) => !o.result)
  {
    hide Run, Count;
    var s := Run(parses, workers, actions);
    CountersAddUp(parses, workers, actions);
    CountSplit(s.outputs, (o: Output) => o.result, Outputs(all, true, false), Outputs(all, true, true));
    SameCount(s.outputs, (o: Output) => !o.result, Outputs(all, false, false));
    SameCount(s.outputs, (o: Output) => o.cached, Outputs(all, true, true));
    CountAll(s.outputs, (o: Output) => true);
    CountSplit(s.outputs, (o: Output) => true, (o: Output) => o.result, (o: Output) => !o.result);
  }

  lemma {:induction false} CountAll<T>(s: seq<T>, p: T -> bool)
    requires forall i :: 0 <= i < |s| ==> p(s[i])
    ensures Count(s, p) == |s|
  {
    if s != [] {
      CountAll(s[..|s| - 1], p);
    }
  }

  // ---------- Arrivals, time and the log ----------

  function Arrived(actions: seq<Action>): seq<Input> {
    if actions == [] then []
    else Arrived(actions[..|actions| - 1]) +
         if actions[|actions| - 1].Receive? then [actions[|actions| - 1].input] else []
  }

  function Elapsed(actions: seq<Action>): nat {
    if actions == [] then 0
    else Elapsed(actions[..|actions| - 1]) + if actions[|actions| - 1].Pass? then actions[|actions| - 1].time else 0
  }

  function SentIn(log: seq<Event>): seq<Output> {
    if log == [] then []
    else SentIn(log[..|log| - 1]) + if log[|log| - 1].Sent? then [log[|log| - 1].output] else []
  }

  /** In every run the queue holds all that arrived, in order; the clock is the time that passed;
      and the outputs are those that were logged as sent, in order. */
  lemma {:induction false} RunTellsActions(parses: Address -> bool, workers: nat, actions: seq<Action>)
    ensures var s := Run(parses, workers, actions);
      s.received == Arrived(actions) && s.clock == Elapsed(actions) && s.outputs == SentIn(s.log)
  {
    hide Step;
    if actions != [] {
      RunTellsActions(parses, workers, actions[..|actions| - 1]);
      StepTells(parses, Run(parses, workers, actions[..|actions| - 1]), actions[|actions| - 1]);
    }
  }

  lemma StepTells(parses: Address -> bool, s: State, a: Action)
    requires s.outputs == SentIn(s.log)
    ensures var t := Step(parses, s, a);
      && t.received == s.received + (if a.Receive? then [a.input] else [])
      && t.clock == s.clock + (if a.Pass? then a.time else 0)
      && t.outputs == SentIn(t.log)
      && (t.log == s.log || |t.log| == |s.log| + 1)
      && t.log[..|s.log|] == s.log
      && (t.log != s.log && t.log[|s.log|].Stored? ==> t.log[|s.log|].at == s.clock)
      && (t.log != s.log && t.log[|s.log|].Hit? ==> t.log[|s.log|].at == s.clock)
  {
    hide AfterLookup, KeyOf, Count;
    var t := Step(parses, s, a);
    if t.log != s.log {
      assert t.log[..|s.log|] == s.log;
      assert t.log == s.log + [t.log[|s.log|]];
    }
  }

  /** Action `k` made entry `j` of the log, which has the time that had passed by then, if it is a
      store or a cache hit. */
  ghost predicate MadeBy(parses: Address -> bool, workers: nat, actions: seq<Action>, j: nat, k: nat) {
    && k < |actions|
    && var (s, t) := (Run(parses, workers, actions[..k]), Run(parses, workers, actions[..k + 1]));
    && |s.log| == j < |t.log|
    && (t.log[j].Stored? ==> t.log[j].at == Elapsed(actions[..k]))
    && (t.log[j].Hit? ==> t.log[j].at == Elapsed(actions[..k]))
  }

  lemma MadeEarlier(parses: Address -> bool, workers: nat, before: seq<Action>, a: Action, j: nat, k: nat)
    requires MadeBy(parses, workers, before, j, k)
    ensures MadeBy(parses, workers, before + [a], j, k)
  {
    hide Run, Elapsed;
    assert before[..k] == (before + [a])[..k] && before[..k + 1] == (before + [a])[..k + 1];
  }

  lemma MadeLast(parses: Address -> bool, workers: nat, before: seq<Action>, a: Action, j: nat)
    requires |Run(parses, workers, before).log| == j < |Run(parses, workers, before + [a]).log|
    ensures MadeBy(parses, workers, before + [a], j, |before|)
  {
    hide Step, Elapsed;
    assert (before + [a])[..|before|] == before && (before + [a])[..|before| + 1] == before + [a];
    RunTellsActions(parses, workers, before);
    StepTells(parses, Run(parses, workers, before), a);
  }

  /** Every store and every cache hit in the log has the time that had passed when it was made. */
  lemma {:induction false} LogHasTimes(parses: Address -> bool, workers: nat, actions: seq<Action>, j: nat)
    returns (k: nat)
    requires j < |Run(parses, workers, actions).log|
    ensures MadeBy(parses, workers, actions, j, k)
  {
    hide Step, MadeBy;
    if actions != [] {
      var before, a := actions[..|actions| - 1], actions[|actions| - 1];
      assert actions == before + [a];
      RunTellsActions(parses, workers, before);
      StepTells(parses, Run(parses, workers, before), a);
      if j < |Run(parses, workers, before).log| {
        k := LogHasTimes(parses, workers, before, j);
        MadeEarlier(parses, workers, before, a, j, k);
      } else {
        k := |before|;
        MadeLast(parses, workers, before, a, j);
      }
    }
  }
}
