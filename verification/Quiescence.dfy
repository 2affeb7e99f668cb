/** Where the workers of the connectivity check come to rest, and which inputs have been answered
    by then. A worker is lost on an input without an address, so as many of these as there are
    workers leave all later inputs unanswered. */
module Quiescence {
  import opened Basics
  import opened Folds
  import opened Connectivity

  // ---------- Coming to rest ----------

  /** The steps of the workers. The others are those of the environment and the sink. */
  predicate Works(a: Action) {
    a.Take? || a.Lookup? || a.Connect? || a.Insert? || a.Send?
  }

  /** No worker can take a step, however a connection attempt would turn out. */
  ghost predicate AtRest(parses: Address -> bool, s: State) {
    forall a :: Works(a) ==> Step(parses, s, a) == s
  }

  /** How many steps a worker can take before it waits for an input again. */
  function StepsLeft(w: Worker): nat {
    match w
    case Taken(_) => 4
    case Connecting(_) => 3
    case Connected(_) => 2
    case Sending(_) => 1
    case _ => 0
  }

  function AllStepsLeft(workers: seq<Worker>): nat {
    if workers == [] then 0 else AllStepsLeft(workers[..|workers| - 1]) + StepsLeft(workers[|workers| - 1])
  }

  function Work(s: State): int {
    5 * (|s.received| - s.taken) + AllStepsLeft(s.workers)
  }

  lemma {:induction false} StepsLeftMove(workers: seq<Worker>, w: nat, to: Worker)
    requires w < |workers|
    ensures AllStepsLeft(workers[w := to]) + StepsLeft(workers[w]) == AllStepsLeft(workers) + StepsLeft(to)
  {
    var front := workers[..|workers| - 1];
    if w == |workers| - 1 {
      assert workers[w := to][..w] == front;
    } else {
      StepsLeftMove(front, w, to);
      assert workers[w := to][..|workers| - 1] == front[w := to];
    }
  }

  /** Every step of a worker leaves less work, so the workers cannot go on for ever. */
  lemma WorkShrinks(parses: Address -> bool, s: State, a: Action)
    requires Works(a) && Step(parses, s, a) != s
    ensures Work(Step(parses, s, a)) < Work(s)
  {
    hide AllStepsLeft, Recent, KeyOf, Usable;
    StepsLeftMove(s.workers, a.w, Step(parses, s, a).workers[a.w]);
  }

  lemma WorkIsNatural(parses: Address -> bool, workers: nat, actions: seq<Action>)
    ensures Work(Run(parses, workers, actions)) >= 0
  {
    hide Run;
    RunConserves(parses, workers, actions);
  }

  /** From every reachable state the workers come to rest, within as many steps as there is work. */
  lemma {:induction false} ComesToRest(parses: Address -> bool, workers: nat, actions: seq<Action>)
    returns (more: seq<Action>)
    ensures forall k :: 0 <= k < |more| ==> Works(more[k])
    ensures AtRest(parses, Run(parses, workers, actions + more))
    ensures |more| <= Work(Run(parses, workers, actions))
    decreases Work(Run(parses, workers, actions))
  {
    hide Step, Work;
    var s := Run(parses, workers, actions);
    WorkIsNatural(parses, workers, actions);
    if AtRest(parses, s) {
      more := [];
      assert actions + [] == actions;
    } else {
      var a :| Works(a) && Step(parses, s, a) != s;
      WorkShrinks(parses, s, a);
      assert (actions + [a])[..|actions|] == actions;
      WorkIsNatural(parses, workers, actions + [a]);
      var rest := ComesToRest(parses, workers, actions + [a]);
      more := [a] + rest;
      assert actions + more == actions + [a] + rest;
    }
  }

  /** At rest, every worker waits or is gone, and none waits while there is an input to take. */
  lemma RestingWorkers(parses: Address -> bool, s: State)
    requires AtRest(parses, s) && Conserved(parses, s)
    ensures forall w :: 0 <= w < |s.workers| ==> s.workers[w].Waiting? || s.workers[w].Gone?
    ensures s.taken < |s.received| ==> forall w :: 0 <= w < |s.workers| ==> s.workers[w].Gone?
  {
    hide Step, Recent, KeyOf, Usable, InFlight, UsableOf, InputsOf;
    forall w | 0 <= w < |s.workers|
      ensures s.workers[w].Waiting? || s.workers[w].Gone?
      ensures s.taken < |s.received| ==> s.workers[w].Gone?
    {
      assert Step(parses, s, Take(w)) == s && Step(parses, s, Lookup(w)) == s;
      assert Step(parses, s, Connect(w, false)) == s && Step(parses, s, Insert(w)) == s;
      assert Step(parses, s, Send(w)) == s;
      BusyCanStep(parses, s, w);
    }
  }

  lemma BusyCanStep(parses: Address -> bool, s: State, w: nat)
    requires w < |s.workers| && (s.workers[w].Connected? ==> s.workers[w].input.address.Some?)
    ensures s.workers[w].Waiting? && s.taken < |s.received| ==> Step(parses, s, Take(w)) != s
    ensures s.workers[w].Taken? ==> Step(parses, s, Lookup(w)) != s
    ensures s.workers[w].Connecting? ==> Step(parses, s, Connect(w, false)) != s
    ensures s.workers[w].Connected? ==> Step(parses, s, Insert(w)) != s
    ensures s.workers[w].Sending? ==> Step(parses, s, Send(w)) != s
  {
    hide Recent, KeyOf, Usable;
  }

  // ---------- Inputs without an address ----------

  function Addressless(inputs: seq<Input>): nat {
    if inputs == [] then 0
    else Addressless(inputs[..|inputs| - 1]) + if inputs[|inputs| - 1].address.None? then 1 else 0
  }

  /** A worker that has panicked or is about to. */
  predicate Lost(w: Worker) {
    w.Gone? || (w.Taken? && w.input.address.None?)
  }

  function AllLost(workers: seq<Worker>): (n: nat)
    ensures n <= |workers|
  {
    if workers == [] then 0
    else AllLost(workers[..|workers| - 1]) + if Lost(workers[|workers| - 1]) then 1 else 0
  }

  lemma {:induction false} LostMove(workers: seq<Worker>, w: nat, to: Worker)
    requires w < |workers|
    ensures AllLost(workers[w := to]) + (if Lost(workers[w]) then 1 else 0) ==
            AllLost(workers) + if Lost(to) then 1 else 0
  {
    var front := workers[..|workers| - 1];
    if w == |workers| - 1 {
      assert workers[w := to][..w] == front;
    } else {
      LostMove(front, w, to);
      assert workers[w := to][..|workers| - 1] == front[w := to];
    }
  }

  lemma {:induction false} LostCount(workers: seq<Worker>)
    ensures AllLost(workers) == |workers| <==> forall w :: 0 <= w < |workers| ==> Lost(workers[w])
    ensures (forall w :: 0 <= w < |workers| ==> !Lost(workers[w])) ==> AllLost(workers) == 0
  {
    if workers != [] {
      var front, last := workers[..|workers| - 1], workers[|workers| - 1];
      LostCount(front);
      assert forall w :: 0 <= w < |front| ==> front[w] == workers[w];
    }
  }

  /** There is one lost worker for each input without an address that was taken, and every input
      was taken while there was a worker left. */
  ghost predicate Accounted(workers: nat, s: State) {
    && |s.workers| == workers && s.taken <= |s.received|
    && AllLost(s.workers) == Addressless(s.received[..s.taken])
    && forall k :: 0 <= k < s.taken ==> Addressless(s.received[..k]) < workers
  }

  lemma LookupLoses(parses: Address -> bool, s: State, i: Input)
    ensures Lost(AfterLookup(parses, s, i)) <==> Lost(Taken(i))
  {
  }

  /** A worker takes an input only while one is left, and may be lost by it. */
  lemma TakeAccounts(parses: Address -> bool, workers: nat, s: State, w: nat)
    requires Accounted(workers, s)
    ensures Accounted(workers, Step(parses, s, Take(w)))
  {
    hide AllLost;
    var t := Step(parses, s, Take(w));
    if t != s {
      LostMove(s.workers, w, t.workers[w]);
      LostCount(s.workers);
      assert s.received[..t.taken][..s.taken] == s.received[..s.taken];
    }
  }

  lemma StepAccounts(parses: Address -> bool, workers: nat, s: State, a: Action)
    requires Accounted(workers, s)
    ensures Accounted(workers, Step(parses, s, a))
  {
    hide AllLost, AfterLookup, Addressless, KeyOf;
    if a.Take? {
      TakeAccounts(parses, workers, s, a.w);
    } else {
      var t := Step(parses, s, a);
      assert forall k :: 0 <= k <= s.taken ==> t.received[..k] == s.received[..k];
      if Works(a) && t != s {
        LostMove(s.workers, a.w, t.workers[a.w]);
        if a.Lookup? {
          LookupLoses(parses, s, s.workers[a.w].input);
        }
      }
    }
  }

  lemma {:induction false} RunAccounts(parses: Address -> bool, workers: nat, actions: seq<Action>)
    ensures Accounted(workers, Run(parses, workers, actions))
  {
    hide Step;
    if actions == [] {
      LostCount(Init(workers).workers);
    } else {
      RunAccounts(parses, workers, actions[..|actions| - 1]);
      StepAccounts(parses, workers, Run(parses, workers, actions[..|actions| - 1]), actions[|actions| - 1]);
    }
  }

  // ---------- Which inputs are answered ----------

  /** How many inputs `workers` workers get to: those before and with the one on which the last
      worker is lost, or all. */
  function Reach(received: seq<Input>, workers: nat): (n: nat)
    ensures n <= |received|
  {
    if received == [] then 0
    else if Addressless(received[..|received| - 1]) < workers then |received|
    else Reach(received[..|received| - 1], workers)
  }

  lemma {:induction false} AddresslessGrows(inputs: seq<Input>, k: nat)
    requires k <= |inputs|
    ensures Addressless(inputs[..k]) <= Addressless(inputs)
  {
    if k < |inputs| {
      AddresslessGrows(inputs[..|inputs| - 1], k);
      assert inputs[..|inputs| - 1][..k] == inputs[..k];
    } else {
      assert inputs[..k] == inputs;
    }
  }

  /** An input is within reach if and only if there are fewer inputs without an address before it
      than workers. */
  lemma {:induction false} WithinReach(received: seq<Input>, workers: nat, k: nat)
    requires k < |received|
    ensures k < Reach(received, workers) <==> Addressless(received[..k]) < workers
  {
    var front := received[..|received| - 1];
    assert k <= |front| && front[..k] == received[..k];
    AddresslessGrows(front, k);
    if k < |front| && Addressless(front) >= workers {
      WithinReach(front, workers, k);
    }
  }

  lemma {:induction false} UsableAppend(parses: Address -> bool, a: seq<Input>, b: seq<Input>)
    ensures UsableOf(parses, a + b) == UsableOf(parses, a) + UsableOf(parses, b)
  {
    if b == [] {
      assert a + b == a;
    } else {
      assert (a + b)[..|a + b| - 1] == a + b[..|b| - 1];
      UsableAppend(parses, a, b[..|b| - 1]);
    }
  }

  lemma {:induction false} NoneUsable(parses: Address -> bool, inputs: seq<Input>)
    ensures UsableOf(parses, inputs) == multiset{} <==> forall k :: 0 <= k < |inputs| ==> !Usable(parses, inputs[k])
  {
    if inputs != [] {
      var front, last := inputs[..|inputs| - 1], inputs[|inputs| - 1];
      NoneUsable(parses, front);
      assert forall k :: 0 <= k < |front| ==> front[k] == inputs[k];
      assert UsableOf(parses, inputs) == AddUsable(parses)(UsableOf(parses, front), last);
      assert last in UsableOf(parses, front) + multiset{last};
    }
  }

  lemma UsablePrefix(parses: Address -> bool, inputs: seq<Input>, k: nat)
    requires k <= |inputs|
    ensures UsableOf(parses, inputs[..k]) <= UsableOf(parses, inputs)
    ensures UsableOf(parses, inputs[..k]) == UsableOf(parses, inputs) <==>
            forall i :: k <= i < |inputs| ==> !Usable(parses, inputs[i])
  {
    hide UsableOf, Usable;
    var rest := inputs[k..];
    assert inputs == inputs[..k] + rest;
    UsableAppend(parses, inputs[..k], rest);
    NoneUsable(parses, rest);
    assert forall i :: k <= i < |inputs| ==> inputs[i] == rest[i - k];
    assert (forall i :: k <= i < |inputs| ==> !Usable(parses, inputs[i])) <==>
           forall j :: 0 <= j < |rest| ==> !Usable(parses, rest[j]);
    SumIsFirst(UsableOf(parses, inputs[..k]), UsableOf(parses, rest));
  }

  lemma SumIsFirst(a: multiset<Input>, b: multiset<Input>)
    ensures a <= a + b && (a == a + b <==> b == multiset{})
  {
    if a == a + b {
      forall i ensures b[i] == 0 {
        assert (a + b)[i] == a[i] + b[i];
      }
    }
  }

  /** At no time has anything been answered that is out of reach. */
  lemma NeverAnsweredBeyondReach(parses: Address -> bool, workers: nat, actions: seq<Action>)
    ensures var s := Run(parses, workers, actions);
      s.taken <= Reach(s.received, workers)
      && InputsOf(s.outputs) <= UsableOf(parses, s.received[..Reach(s.received, workers)])
  {
    hide Run, Addressless, UsableOf, InputsOf, InFlight;
    var s := Run(parses, workers, actions);
    RunAccounts(parses, workers, actions);
    RunConserves(parses, workers, actions);
    if s.taken > 0 {
      WithinReach(s.received, workers, s.taken - 1);
    }
    var served := s.received[..Reach(s.received, workers)];
    UsablePrefix(parses, served, s.taken);
    assert served[..s.taken] == s.received[..s.taken];
  }

  /** Whatever the interleaving, once the workers are at rest they have answered each usable
      input within reach once, and nothing else. */
  lemma AnsweredAtRest(parses: Address -> bool, workers: nat, actions: seq<Action>)
    requires AtRest(parses, Run(parses, workers, actions))
    ensures var s := Run(parses, workers, actions);
      s.taken == Reach(s.received, workers)
      && InputsOf(s.outputs) == UsableOf(parses, s.received[..Reach(s.received, workers)])
  {
    hide Run, AtRest, Conserved, Addressless, UsableOf, InputsOf;
    var s := Run(parses, workers, actions);
    RunAccounts(parses, workers, actions);
    RunConserves(parses, workers, actions);
    RestingWorkers(parses, s);
    NeverAnsweredBeyondReach(parses, workers, actions);
    OneOutputPerUsableInput(parses, workers, actions);
    if s.taken < |s.received| {
      LostCount(s.workers);
      WithinReach(s.received, workers, s.taken);
    }
  }

  /** No usable input has as many inputs without an address before it as there are workers. */
  ghost predicate Answerable(parses: Address -> bool, workers: nat, received: seq<Input>) {
    forall k :: 0 <= k < |received| && Usable(parses, received[k]) ==> Addressless(received[..k]) < workers
  }

  /** So every usable input is answered, once, if and only if none has as many inputs without an
      address before it as there are workers. */
  lemma AllAnsweredIff(parses: Address -> bool, workers: nat, actions: seq<Action>)
    requires AtRest(parses, Run(parses, workers, actions))
    ensures var s := Run(parses, workers, actions);
      InputsOf(s.outputs) == UsableOf(parses, s.received) <==> Answerable(parses, workers, s.received)
  {
    hide Run, AtRest, Addressless, Usable, UsableOf, InputsOf, Reach;
    var s := Run(parses, workers, actions);
    var n := Reach(s.received, workers);
    AnsweredAtRest(parses, workers, actions);
    UsablePrefix(parses, s.received, n);
    forall k | 0 <= k < |s.received| ensures k < n <==> Addressless(s.received[..k]) < workers {
      WithinReach(s.received, workers, k);
    }
  }

  /** With fewer inputs without an address than the program has workers, all are answered. */
  lemma FewAddressless(parses: Address -> bool, actions: seq<Action>)
    requires AtRest(parses, Run(parses, WORKERS, actions))
    requires Addressless(Run(parses, WORKERS, actions).received) < WORKERS
    ensures var s := Run(parses, WORKERS, actions); InputsOf(s.outputs) == UsableOf(parses, s.received)
  {
    hide Run, AtRest, Addressless, UsableOf, InputsOf;
    var s := Run(parses, WORKERS, actions);
    AllAnsweredIff(parses, WORKERS, actions);
    forall k | 0 <= k < |s.received| ensures Addressless(s.received[..k]) < WORKERS {
      AddresslessGrows(s.received, k);
    }
  }

  const NO_ADDRESS := Input(None, 8333, 0)
  const LOCALHOST := Input(Some(Ipv4("127.0.0.1")), 8333, 0)
  const TWO_RECEIVED := [Receive(NO_ADDRESS), Receive(LOCALHOST)]
  const WORKER_LOST := TWO_RECEIVED + [Take(0)] + [Lookup(0)]

  /** With one worker, an input without an address and a usable one behind it, the usable input
      stays queued: the worker is gone, no step is left, and there is no output. */
  lemma UsableInputNeverAnswered(parses: Address -> bool)
    requires parses(LOCALHOST.address.value)
    ensures var s := Run(parses, 1, WORKER_LOST);
      && s.received == [NO_ADDRESS, LOCALHOST] && s.workers == [Gone] && s.taken == 1 && s.outputs == []
      && AtRest(parses, s) && UsableOf(parses, s.received) == multiset{LOCALHOST}
  {
    BothReceived(parses);
    RunStep(parses, 1, TWO_RECEIVED, Take(0));
    RunStep(parses, 1, TWO_RECEIVED + [Take(0)], Lookup(0));
    var s := Run(parses, 1, WORKER_LOST);
    assert s.workers == [Gone];
    forall a | Works(a) ensures Step(parses, s, a) == s {
      assert a.w < |s.workers| ==> s.workers[a.w] == Gone;
    }
    assert s.received == [NO_ADDRESS] + [LOCALHOST];
    FoldSnoc(AddUsable(parses), multiset{}, [NO_ADDRESS], LOCALHOST);
    FoldSnoc(AddUsable(parses), multiset{}, [], NO_ADDRESS);
    assert [] + [NO_ADDRESS] == [NO_ADDRESS];
  }

  lemma BothReceived(parses: Address -> bool)
    ensures Run(parses, 1, TWO_RECEIVED) == Init(1).(received := [NO_ADDRESS, LOCALHOST])
  {
    assert TWO_RECEIVED == [] + [Receive(NO_ADDRESS)] + [Receive(LOCALHOST)];
    RunStep(parses, 1, [], Receive(NO_ADDRESS));
    RunStep(parses, 1, [] + [Receive(NO_ADDRESS)], Receive(LOCALHOST));
    assert [] + [NO_ADDRESS] + [LOCALHOST] == [NO_ADDRESS, LOCALHOST];
  }

  lemma RunStep(parses: Address -> bool, workers: nat, actions: seq<Action>, a: Action)
    ensures Run(parses, workers, actions + [a]) == Step(parses, Run(parses, workers, actions), a)
  {
    assert (actions + [a])[..|actions|] == actions;
  }

  // ---------- The same with all workers of the program ----------

  function Arrivals(inputs: seq<Input>): seq<Action> {
    seq(|inputs|, i requires 0 <= i < |inputs| => Receive(inputs[i]))
  }

  lemma {:induction false} AllArrive(parses: Address -> bool, workers: nat, inputs: seq<Input>)
    ensures Run(parses, workers, Arrivals(inputs)).received == inputs
  {
    if inputs != [] {
      AllArrive(parses, workers, inputs[..|inputs| - 1]);
      assert Arrivals(inputs)[..|inputs| - 1] == Arrivals(inputs[..|inputs| - 1]);
    }
  }

  lemma WorkerReceivesNothing(parses: Address -> bool, s: State, a: Action)
    requires Works(a)
    ensures Step(parses, s, a).received == s.received
  {
    hide AfterLookup, KeyOf;
  }

  /** The steps of the workers do not change what was received. */
  lemma {:induction false} WorkReceivesNothing(parses: Address -> bool, workers: nat, actions: seq<Action>,
                                               more: seq<Action>)
    requires forall k :: 0 <= k < |more| ==> Works(more[k])
    ensures Run(parses, workers, actions + more).received == Run(parses, workers, actions).received
  {
    hide Step, Works;
    if more == [] {
      assert actions + [] == actions;
    } else {
      var front, last := more[..|more| - 1], more[|more| - 1];
      WorkReceivesNothing(parses, workers, actions, front);
      assert actions + more == actions + front + [last];
      RunStep(parses, workers, actions + front, last);
      WorkerReceivesNothing(parses, Run(parses, workers, actions + front), last);
    }
  }

  lemma {:induction false} AddresslessInputs(n: nat)
    ensures Addressless(seq(n, _ => NO_ADDRESS)) == n
  {
    if n > 0 {
      AddresslessInputs(n - 1);
      assert seq(n, _ => NO_ADDRESS)[..n - 1] == seq(n - 1, _ => NO_ADDRESS);
    }
  }

  /** As many inputs without an address as the program has workers, and a usable one. */
  const FIFTY_AND_ONE := seq(WORKERS, _ => NO_ADDRESS) + [LOCALHOST]

  /** Whatever the interleaving, the 50 workers come to rest without an output, although a usable
      input was received. */
  lemma ProgramNeverAnswers(parses: Address -> bool, actions: seq<Action>)
    requires parses(LOCALHOST.address.value)
    requires AtRest(parses, Run(parses, WORKERS, actions)) && Run(parses, WORKERS, actions).received == FIFTY_AND_ONE
    ensures Run(parses, WORKERS, actions).outputs == [] && UsableOf(parses, FIFTY_AND_ONE) == multiset{LOCALHOST}
  {
    hide Run, AtRest, Addressless, InputsOf, Reach;
    var front := seq(WORKERS, _ => NO_ADDRESS);
    var s, n := Run(parses, WORKERS, actions), Reach(FIFTY_AND_ONE, WORKERS);
    AnsweredAtRest(parses, WORKERS, actions);
    AddresslessInputs(WORKERS);
    assert FIFTY_AND_ONE[..WORKERS] == front;
    WithinReach(FIFTY_AND_ONE, WORKERS, WORKERS);
    NoneUsable(parses, FIFTY_AND_ONE[..n]);
    AsManyInputs(s.outputs);
    NoneUsable(parses, front);
    FoldSnoc(AddUsable(parses), multiset{}, front, LOCALHOST);
  }

  lemma {:induction false} AsManyInputs(outputs: seq<Output>)
    ensures |InputsOf(outputs)| == |outputs|
  {
    if outputs != [] {
      AsManyInputs(outputs[..|outputs| - 1]);
    }
  }

  /** There is such an interleaving. */
  lemma ProgramCanNeverAnswer(parses: Address -> bool) returns (actions: seq<Action>)
    ensures AtRest(parses, Run(parses, WORKERS, actions)) && Run(parses, WORKERS, actions).received == FIFTY_AND_ONE
  {
    hide Run, AtRest, Works, Work;
    AllArrive(parses, WORKERS, FIFTY_AND_ONE);
    var more := ComesToRest(parses, WORKERS, Arrivals(FIFTY_AND_ONE));
    WorkReceivesNothing(parses, WORKERS, Arrivals(FIFTY_AND_ONE), more);
    actions := Arrivals(FIFTY_AND_ONE) + more;
  }
}
