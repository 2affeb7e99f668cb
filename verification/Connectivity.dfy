/** The connectivity check: workers that take addresses from one queue, look them up in a
    shared cache, connect, remember successes and send results, in any interleaving. */
module Connectivity {
  import opened Basics
  import opened Folds
  import Decimal

  const WORKERS: nat := 50
  const HOUR: nat := 60 * 60 * 1_000_000_000  // nanoseconds

  datatype Address = Ipv4(text: string) | Ipv6(text: string) | OtherNet(network: string, text: string)

  datatype Input = Input(address: Option<Address>, port: nat, tag: nat)

  datatype Output = Output(input: Input, result: bool, cached: bool)

  // ---------- Cache keys ----------

  function Show(a: Address): string {
    match a
    case Ipv4(t) => "IPv4(" + t + ")"
    case Ipv6(t) => "IPv6(" + t + ")"
    case OtherNet(n, t) => n + "(" + t + ")"
  }

  function Key(a: Address, port: nat): string {
    Show(a) + "--" + Decimal.Render(port)
  }

  predicate IsIp(i: Input) {
    i.address.Some? && !i.address.value.OtherNet?
  }

  lemma SuffixLength(a: string, s: string, b: string, t: string)
    requires a + "-" + s == b + "-" + t && Decimal.AllDigits(s) && Decimal.AllDigits(t)
    ensures |s| == |t|
  {
    var x, y := a + "-" + s, b + "-" + t;
    assert x[|a|] == '-' && y[|b|] == '-' && !Decimal.IsDigit('-');
    assert forall i :: |b| < i < |y| ==> y[i] == t[i - |b| - 1];
    assert forall i :: |a| < i < |x| ==> x[i] == s[i - |a| - 1];
  }

  lemma ShowIsInjective(a: Address, b: Address)
    requires Show(a) == Show(b) && !a.OtherNet? && !b.OtherNet?
    ensures a == b
  {
    assert Show(a)[3] == Show(b)[3] && Show(a)[5..|Show(a)| - 1] == Show(b)[5..|Show(b)| - 1];
    assert Show(a)[5..|Show(a)| - 1] == a.text && Show(b)[5..|Show(b)| - 1] == b.text;
  }

  /** Two IP endpoints share a cache key only if they have the same address and port. */
  lemma KeyIsInjective(a: Address, p: nat, b: Address, q: nat)
    requires Key(a, p) == Key(b, q) && !a.OtherNet? && !b.OtherNet?
    ensures a == b && p == q
  {
    hide Decimal.Render, Decimal.Value, Show;
    var s, t := Decimal.Render(p), Decimal.Render(q);
    assert Key(a, p) == (Show(a) + "-") + "-" + s && Key(b, q) == (Show(b) + "-") + "-" + t;
    SuffixLength(Show(a) + "-", s, Show(b) + "-", t);
    assert s == Key(a, p)[|Key(a, p)| - |s|..] && t == Key(b, q)[|Key(b, q)| - |t|..];
    assert Show(a) == Key(a, p)[..|Key(a, p)| - |s| - 2] && Show(b) == Key(b, q)[..|Key(b, q)| - |t| - 2];
    Decimal.ValueOfRender(p);
    Decimal.ValueOfRender(q);
    ShowIsInjective(a, b);
  }

  // ---------- The machine ----------

  /** Where a worker stands. A worker panics, and is gone, on an input without an address. */
  datatype Worker =
    | Waiting
    | Taken(input: Input)
    | Connecting(input: Input)
    | Connected(input: Input)
    | Sending(output: Output)
    | Gone

  /** What has happened, in order, for stating properties of whole runs. */
  datatype Event =
    | Handshake(input: Input)
    | Refused(input: Input)
    | Stored(input: Input, at: nat)
    | Hit(input: Input, at: nat)
    | Sent(output: Output)

  datatype Counters = Counters(tried: nat, successful: nat, unsuccessful: nat, cached: nat)

  datatype State = State(received: seq<Input>, taken: nat, workers: seq<Worker>, cache: map<string, nat>, clock: nat,
                         outputs: seq<Output>, counted: nat, counters: Counters, log: seq<Event>)

  datatype Action =
    | Receive(input: Input)
    | Pass(time: nat)
    | Take(w: nat)
    | Lookup(w: nat)
    | Connect(w: nat, handshake: bool)
    | Insert(w: nat)
    | Send(w: nat)
    | Sink

  function Init(workers: nat): State {
    State([], 0, seq(workers, _ => Waiting), map[], 0, [], 0, Counters(0, 0, 0, 0), [])
  }

  /** An address that the tool connects to: of a supported network, and its text parses. */
  predicate Usable(parses: Address -> bool, i: Input) {
    IsIp(i) && parses(i.address.value)
  }

  predicate Recent(s: State, key: string) {
    key in s.cache && Since(s.clock, s.cache[key]) < HOUR
  }

  /** Usable are the parsable IPv4 and IPv6 addresses. */
  lemma UsableIff(parses: Address -> bool, i: Input)
    ensures Usable(parses, i) <==>
            exists text :: i.address in {Some(Ipv4(text)), Some(Ipv6(text))} && parses(i.address.value)
  {
    if Usable(parses, i) {
      assert i.address in {Some(Ipv4(i.address.value.text)), Some(Ipv6(i.address.value.text))};
    }
  }

  function KeyOf(i: Input): string
    requires i.address.Some?
  {
    Key(i.address.value, i.port)
  }

  function Move(s: State, w: nat, to: Worker): State
    requires w < |s.workers|
  {
    s.(workers := s.workers[w := to])
  }

  function Count(c: Counters, o: Output): Counters {
    Counters(c.tried + 1,
             c.successful + (if o.result then 1 else 0),
             c.unsuccessful + (if o.result then 0 else 1),
             c.cached + (if o.cached then 1 else 0))
  }

  /** What a worker does with an input it has looked up. */
  function AfterLookup(parses: Address -> bool, s: State, i: Input): Worker {
    if i.address.None? then Gone
    else if !Usable(parses, i) then Waiting
    else if Recent(s, KeyOf(i)) then Sending(Output(i, true, true))
    else Connecting(i)
  }

  /** One atomic step; an action that is not possible changes nothing. The lookup reads cache
      and clock under the lock, and so does the insertion. */
  function Step(parses: Address -> bool, s: State, a: Action): State {
    match a
    case Receive(input) => s.(received := s.received + [input])
    case Pass(time) => s.(clock := s.clock + time)
    case Sink =>
      if s.counted < |s.outputs| then
        s.(counted := s.counted + 1, counters := Count(s.counters, s.outputs[s.counted]))
      else s
    case Take(w) =>
      if w < |s.workers| && s.workers[w].Waiting? && s.taken < |s.received| then
        Move(s, w, Taken(s.received[s.taken])).(taken := s.taken + 1)
      else s
    case Lookup(w) =>
      if w < |s.workers| && s.workers[w].Taken? then
        var i := s.workers[w].input;
        var to := AfterLookup(parses, s, i);
        Move(s, w, to).(log := if to.Sending? then s.log + [Hit(i, s.clock)] else s.log)
      else s
    case Connect(w, handshake) =>
      if w < |s.workers| && s.workers[w].Connecting? then
        var i := s.workers[w].input;
        if handshake then Move(s, w, Connected(i)).(log := s.log + [Handshake(i)])
        else Move(s, w, Sending(Output(i, false, false))).(log := s.log + [Refused(i)])
      else s
    case Insert(w) =>
      if w < |s.workers| && s.workers[w].Connected? && s.workers[w].input.address.Some? then
        var i := s.workers[w].input;
        var t := Move(s, w, Sending(Output(i, true, false)));
        t.(cache := s.cache[KeyOf(i) := s.clock], log := s.log + [Stored(i, s.clock)])
      else s
    case Send(w) =>
      if w < |s.workers| && s.workers[w].Sending? then
        var o := s.workers[w].output;
        Move(s, w, Waiting).(outputs := s.outputs + [o], log := s.log + [Sent(o)])
      else s
  }

  function Run(parses: Address -> bool, workers: nat, actions: seq<Action>): State {
    if actions == [] then Init(workers)
    else Step(parses, Run(parses, workers, actions[..|actions| - 1]), actions[|actions| - 1])
  }

  // ---------- Cache soundness ----------

  predicate SameEndpoint(i: Input, j: Input) {
    i.address == j.address && i.port == j.port
  }

  ghost predicate HandshakeAt(log: seq<Event>, h: nat, input: Input) {
    h < |log| && log[h] == Handshake(input)
  }

  /** Entry `s` of the log stores a success at time `at`, after its handshake `h`. */
  ghost predicate StoreAt(log: seq<Event>, h: nat, s: nat, endpoint: Input, at: nat) {
    && h < s < |log| && log[s].Stored? && log[s].at == at && SameEndpoint(log[s].input, endpoint)
    && log[h] == Handshake(log[s].input)
  }

  /** A cache hit for `input`: a lookup `l` less than an hour after a store. */
  ghost predicate HitAt(log: seq<Event>, h: nat, s: nat, l: nat, input: Input) {
    && s < l < |log| && log[l].Hit? && log[l].input == input && log[s].Stored?
    && StoreAt(log, h, s, input, log[s].at) && log[s].at <= log[l].at < log[s].at + 3_600_000_000_000
  }

  ghost predicate CacheJustified(s: State) {
    forall key :: key in s.cache ==> EntryJustified(s, key)
  }

  ghost predicate EntryJustified(s: State, key: string)
    requires key in s.cache
  {
    && s.cache[key] <= s.clock
    && exists h, e, i :: StoreAt(s.log, h, e, i, s.cache[key]) && IsIp(i) && KeyOf(i) == key
  }

  ghost predicate WorkerJustified(log: seq<Event>, w: Worker) {
    match w
    case Connecting(i) => IsIp(i)
    case Connected(i) => IsIp(i) && exists h :: HandshakeAt(log, h, i)
    case Sending(o) => o.cached ==> o.result && exists h, e, l :: HitAt(log, h, e, l, o.input)
    case _ => true
  }

  ghost predicate SentJustified(log: seq<Event>, k: nat)
    requires k < |log|
  {
    log[k].Sent? && log[k].output.cached ==>
      log[k].output.result && exists h, e, l :: HitAt(log[..k], h, e, l, log[k].output.input)
  }

  ghost predicate Justified(s: State) {
    && CacheJustified(s)
    && (forall w :: 0 <= w < |s.workers| ==> WorkerJustified(s.log, s.workers[w]))
    && (forall k :: 0 <= k < |s.log| ==> SentJustified(s.log, k))
  }

  lemma LogGrows(log: seq<Event>, e: Event)
    ensures forall h, i :: HandshakeAt(log, h, i) ==> HandshakeAt(log + [e], h, i)
    ensures forall h, s, i, at :: StoreAt(log, h, s, i, at) ==> StoreAt(log + [e], h, s, i, at)
    ensures forall h, s, l, i :: HitAt(log, h, s, l, i) ==> HitAt(log + [e], h, s, l, i)
    ensures forall w :: WorkerJustified(log, w) ==> WorkerJustified(log + [e], w)
    ensures forall k :: 0 <= k < |log| && SentJustified(log, k) ==> SentJustified(log + [e], k)
  {
    var next := log + [e];
    forall h, i | HandshakeAt(log, h, i) ensures HandshakeAt(next, h, i) {}
    forall h, s, i, at | StoreAt(log, h, s, i, at) ensures StoreAt(next, h, s, i, at) {}
    forall h, s, l, i | HitAt(log, h, s, l, i) ensures HitAt(next, h, s, l, i) {}
    forall k | 0 <= k < |log| && SentJustified(log, k) ensures SentJustified(next, k) {
      assert next[..k] == log[..k];
    }
  }

  /** A lookup that finds a recent entry has a store for the same endpoint behind it. */
  lemma HitIsJustified(s: State, i: Input)
    requires Justified(s) && IsIp(i) && Recent(s, KeyOf(i))
    ensures exists h, e, l :: HitAt(s.log + [Hit(i, s.clock)], h, e, l, i)
  {
    var key := KeyOf(i);
    assert EntryJustified(s, key);
    var h, e, j :| StoreAt(s.log, h, e, j, s.cache[key]) && IsIp(j) && KeyOf(j) == key;
    KeyIsInjective(i.address.value, i.port, j.address.value, j.port);
    assert HitAt(s.log + [Hit(i, s.clock)], h, e, |s.log|, i);
  }

  lemma StoreIsJustified(s: State, i: Input)
    requires WorkerJustified(s.log, Connected(i))
    ensures exists h, e, j :: StoreAt(s.log + [Stored(i, s.clock)], h, e, j, s.clock) && IsIp(j) && KeyOf(j) == KeyOf(i)
  {
    var h :| HandshakeAt(s.log, h, i);
    assert StoreAt(s.log + [Stored(i, s.clock)], h, |s.log|, i, s.clock);
  }

  lemma SendIsJustified(log: seq<Event>, o: Output)
    requires WorkerJustified(log, Sending(o))
    ensures SentJustified(log + [Sent(o)], |log|)
  {
    assert (log + [Sent(o)])[..|log|] == log;
  }

  lemma CacheStays(s: State, t: State)
    requires CacheJustified(s) && t.cache == s.cache && t.clock >= s.clock
    requires forall h, e, i, at :: StoreAt(s.log, h, e, i, at) ==> StoreAt(t.log, h, e, i, at)
    ensures CacheJustified(t)
  {
    forall key | key in t.cache ensures EntryJustified(t, key) {
      assert EntryJustified(s, key);
      var h, e, i :| StoreAt(s.log, h, e, i, s.cache[key]) && IsIp(i) && KeyOf(i) == key;
      assert StoreAt(t.log, h, e, i, t.cache[key]);
    }
  }

  lemma InsertKeepsCache(s: State, i: Input)
    requires CacheJustified(s) && IsIp(i) && WorkerJustified(s.log, Connected(i))
    ensures CacheJustified(s.(cache := s.cache[KeyOf(i) := s.clock], log := s.log + [Stored(i, s.clock)]))
  {
    var t := s.(cache := s.cache[KeyOf(i) := s.clock], log := s.log + [Stored(i, s.clock)]);
    LogGrows(s.log, Stored(i, s.clock));
    StoreIsJustified(s, i);
    forall key | key in t.cache ensures EntryJustified(t, key) {
      if key != KeyOf(i) {
        assert EntryJustified(s, key);
        var h, e, j :| StoreAt(s.log, h, e, j, s.cache[key]) && IsIp(j) && KeyOf(j) == key;
        assert StoreAt(t.log, h, e, j, t.cache[key]);
      }
    }
  }

  lemma StepKeepsJustified(parses: Address -> bool, s: State, a: Action)
    requires Justified(s)
    ensures Justified(Step(parses, s, a))
  {
    hide StoreAt, HitAt, HandshakeAt, SentJustified, KeyOf;
    var t := Step(parses, s, a);
    if t.log != s.log {
      LogGrows(s.log, t.log[|s.log|]);
      assert t.log == s.log + [t.log[|s.log|]];
    }
    match a {
      case Lookup(w) =>
        CacheStays(s, t);
        if w < |s.workers| && s.workers[w].Taken? && Usable(parses, s.workers[w].input) &&
           Recent(s, KeyOf(s.workers[w].input)) {
          HitIsJustified(s, s.workers[w].input);
          NotSent(t.log, |s.log|);
        }
      case Insert(w) =>
        if t != s {
          assert WorkerJustified(s.log, s.workers[w]);
          InsertKeepsCache(s, s.workers[w].input);
          NotSent(t.log, |s.log|);
        }
      case Connect(w, handshake) =>
        CacheStays(s, t);
        if t.log != s.log {
          LastHandshake(s.log, s.workers[w].input);
          NotSent(t.log, |s.log|);
        }
      case Send(w) =>
        CacheStays(s, t);
        if t != s {
          SendIsJustified(s.log, s.workers[w].output);
        }
      case _ => CacheStays(s, t);
    }
  }

  lemma NotSent(log: seq<Event>, k: nat)
    requires k < |log| && !log[k].Sent?
    ensures SentJustified(log, k)
  {
  }

  lemma LastHandshake(log: seq<Event>, i: Input)
    ensures HandshakeAt(log + [Handshake(i)], |log|, i)
  {
  }

  lemma {:induction false} RunIsJustified(parses: Address -> bool, workers: nat, actions: seq<Action>)
    ensures Justified(Run(parses, workers, actions))
  {
    hide Justified, Step;
    if actions == [] {
      InitIsJustified(workers);
    } else {
      RunIsJustified(parses, workers, actions[..|actions| - 1]);
      StepKeepsJustified(parses, Run(parses, workers, actions[..|actions| - 1]), actions[|actions| - 1]);
    }
  }

  lemma InitIsJustified(workers: nat)
    ensures Justified(Init(workers))
  {
  }

  /** In every interleaving, a result that is sent as cached is a success, and before it came a
      lookup of that input, less than an hour before which a success for the same address and
      port had been stored, which in turn followed a handshake. */
  lemma CachedResultsAreSound(parses: Address -> bool, workers: nat, actions: seq<Action>, k: nat)
    requires var log := Run(parses, workers, actions).log; k < |log| && log[k].Sent? && log[k].output.cached
    ensures var log := Run(parses, workers, actions).log;
      log[k].output.result && exists h, e, l :: HitAt(log[..k], h, e, l, log[k].output.input)
  {
    hide Run;
    RunIsJustified(parses, workers, actions);
    assert SentJustified(Run(parses, workers, actions).log, k);
  }

  /** No step removes a cache entry or sets its time back. */
  lemma CacheTimesNeverDecrease(parses: Address -> bool, workers: nat, actions: seq<Action>, a: Action, key: string)
    requires key in Run(parses, workers, actions).cache
    ensures var s := Run(parses, workers, actions);
      key in Step(parses, s, a).cache && s.cache[key] <= Step(parses, s, a).cache[key]
  {
    hide Run, StoreAt;
    RunIsJustified(parses, workers, actions);
    assert EntryJustified(Run(parses, workers, actions), key);
  }

  // ---------- Cache completeness ----------

  /** Every success that was stored is still in the cache, or a later one for the same key is. */
  ghost predicate StoresKept(s: State) {
    forall k :: 0 <= k < |s.log| && s.log[k].Stored? ==> StoreKept(s, s.log[k].input, s.log[k].at)
  }

  ghost predicate StoreKept(s: State, i: Input, at: nat) {
    i.address.Some? && KeyOf(i) in s.cache && at <= s.cache[KeyOf(i)]
  }

  lemma StepKeepsStores(parses: Address -> bool, s: State, a: Action)
    requires StoresKept(s) && CacheJustified(s)
    ensures StoresKept(Step(parses, s, a))
  {
    hide StoreAt, KeyOf, AfterLookup;
    var t := Step(parses, s, a);
    forall k | 0 <= k < |t.log| && t.log[k].Stored? ensures StoreKept(t, t.log[k].input, t.log[k].at) {
      if k < |s.log| {
        assert t.log[k] == s.log[k];
        assert StoreKept(s, s.log[k].input, s.log[k].at);
        assert EntryJustified(s, KeyOf(s.log[k].input));
      }
    }
  }

  lemma {:induction false} RunKeepsStores(parses: Address -> bool, workers: nat, actions: seq<Action>)
    ensures StoresKept(Run(parses, workers, actions))
  {
    hide Step, Justified, StoresKept;
    if actions == [] {
      NoStores(workers);
    } else {
      var before := actions[..|actions| - 1];
      RunKeepsStores(parses, workers, before);
      RunIsJustified(parses, workers, before);
      JustifiedCache(Run(parses, workers, before));
      StepKeepsStores(parses, Run(parses, workers, before), actions[|actions| - 1]);
    }
  }

  lemma NoStores(workers: nat)
    ensures StoresKept(Init(workers))
  {
  }

  lemma JustifiedCache(s: State)
    requires Justified(s)
    ensures CacheJustified(s)
  {
  }

  /** Entry `k` of the log stores a success for an endpoint, less than an hour before now. */
  ghost predicate RecentStore(s: State, k: nat, endpoint: Input) {
    && k < |s.log| && s.log[k].Stored? && SameEndpoint(s.log[k].input, endpoint)
    && s.clock < s.log[k].at + 3_600_000_000_000
  }

  /** In every interleaving, a usable input is answered from the cache if and only if a success
      for its address and port was stored less than an hour ago; otherwise it is connected to. */
  lemma CachedIffRecentlyStored(parses: Address -> bool, workers: nat, actions: seq<Action>, i: Input)
    requires Usable(parses, i)
    ensures var s := Run(parses, workers, actions);
      AfterLookup(parses, s, i) ==
      if exists k :: RecentStore(s, k, i) then Sending(Output(i, true, true)) else Connecting(i)
  {
    hide Run, StoreAt;
    var s := Run(parses, workers, actions);
    RunKeepsStores(parses, workers, actions);
    RunIsJustified(parses, workers, actions);
    if k: nat :| RecentStore(s, k, i) {
      assert StoreKept(s, s.log[k].input, s.log[k].at);
    }
    if Recent(s, KeyOf(i)) {
      RecentHasStore(s, i);
    }
  }

  lemma RecentHasStore(s: State, i: Input)
    requires Justified(s) && IsIp(i) && Recent(s, KeyOf(i))
    ensures exists k :: RecentStore(s, k, i)
  {
    assert EntryJustified(s, KeyOf(i));
    var h, e, j :| StoreAt(s.log, h, e, j, s.cache[KeyOf(i)]) && IsIp(j) && KeyOf(j) == KeyOf(i);
    KeyIsInjective(i.address.value, i.port, j.address.value, j.port);
    assert RecentStore(s, e, i);
  }

  // ---------- One output for each usable input ----------

  /** The usable input that a worker still owes a result for, if any. */
  function Due(parses: Address -> bool, w: Worker): multiset<Input> {
    match w
    case Taken(i) => if Usable(parses, i) then multiset{i} else multiset{}
    case Connecting(i) => multiset{i}
    case Connected(i) => multiset{i}
    case Sending(o) => multiset{o.input}
    case _ => multiset{}
  }

  function AddDue(parses: Address -> bool): (multiset<Input>, Worker) -> multiset<Input> {
    (m: multiset<Input>, w: Worker) => m + Due(parses, w)
  }

  function InFlight(parses: Address -> bool, workers: seq<Worker>): multiset<Input> {
    Fold(AddDue(parses), multiset{}, workers)
  }

  function AddUsable(parses: Address -> bool): (multiset<Input>, Input) -> multiset<Input> {
    (m: multiset<Input>, i: Input) => if Usable(parses, i) then m + multiset{i} else m
  }

  function UsableOf(parses: Address -> bool, inputs: seq<Input>): multiset<Input> {
    Fold(AddUsable(parses), multiset{}, inputs)
  }

  function AddInput(m: multiset<Input>, o: Output): multiset<Input> {
    m + multiset{o.input}
  }

  function InputsOf(outputs: seq<Output>): multiset<Input> {
    Fold(AddInput, multiset{}, outputs)
  }

  /** Every usable input that was taken is owed by one worker or has one output. */
  ghost predicate Conserved(parses: Address -> bool, s: State) {
    && s.taken <= |s.received|
    && UsableOf(parses, s.received[..s.taken]) == InFlight(parses, s.workers) + InputsOf(s.outputs)
    && (forall w :: 0 <= w < |s.workers| && s.workers[w].Connected? ==> s.workers[w].input.address.Some?)
    && (forall w :: 0 <= w < |s.workers| && s.workers[w].Connecting? ==> s.workers[w].input.address.Some?)
  }

  lemma MoveInFlight(parses: Address -> bool, workers: seq<Worker>, w: nat, to: Worker)
    requires w < |workers|
    ensures InFlight(parses, workers[w := to]) + Due(parses, workers[w]) == InFlight(parses, workers) + Due(parses, to)
  {
    hide Due;
    var rest, moved := workers[..w] + workers[w + 1..], workers[w := to];
    forall m, x, y ensures AddDue(parses)(AddDue(parses)(m, x), y) == AddDue(parses)(AddDue(parses)(m, y), x) {
      assert m + Due(parses, x) + Due(parses, y) == m + Due(parses, y) + Due(parses, x);
    }
    FoldMove(AddDue(parses), multiset{}, workers, w);
    FoldMove(AddDue(parses), multiset{}, moved, w);
    assert moved[..w] + moved[w + 1..] == rest;
    assert InFlight(parses, moved) == InFlight(parses, rest) + Due(parses, to);
    assert InFlight(parses, workers) == InFlight(parses, rest) + Due(parses, workers[w]);
  }

  lemma Balance(a: multiset<Input>, f: multiset<Input>, o: multiset<Input>, a': multiset<Input>, f': multiset<Input>,
                o': multiset<Input>, was: multiset<Input>, due: multiset<Input>, taken: multiset<Input>,
                sent: multiset<Input>)
    requires a == f + o && f' + was == f + due && a' == a + taken && o' == o + sent && was + taken == due + sent
    ensures a' == f' + o'
  {
    forall i ensures a'[i] == (f' + o')[i] {
      assert (f' + was)[i] == (f + due)[i] && (was + taken)[i] == (due + sent)[i];
    }
  }

  /** A worker moves on: what it takes and what it owed is what it owes and what it sends. */
  lemma MoveConserves(parses: Address -> bool, s: State, t: State, w: nat, taken: multiset<Input>,
                      sent: multiset<Input>)
    requires Conserved(parses, s) && w < |s.workers| && |t.workers| == |s.workers|
    requires t.workers == s.workers[w := t.workers[w]] && t.received == s.received && s.taken <= t.taken <= |t.received|
    requires UsableOf(parses, t.received[..t.taken]) == UsableOf(parses, s.received[..s.taken]) + taken
    requires InputsOf(t.outputs) == InputsOf(s.outputs) + sent
    requires Due(parses, s.workers[w]) + taken == Due(parses, t.workers[w]) + sent
    requires t.workers[w].Connected? ==> t.workers[w].input.address.Some?
    requires t.workers[w].Connecting? ==> t.workers[w].input.address.Some?
    ensures Conserved(parses, t)
  {
    hide InFlight, UsableOf, InputsOf, Due;
    MoveInFlight(parses, s.workers, w, t.workers[w]);
    Balance(UsableOf(parses, s.received[..s.taken]), InFlight(parses, s.workers), InputsOf(s.outputs),
            UsableOf(parses, t.received[..t.taken]), InFlight(parses, t.workers), InputsOf(t.outputs),
            Due(parses, s.workers[w]), Due(parses, t.workers[w]), taken, sent);
  }

  lemma TakeConserves(parses: Address -> bool, s: State, w: nat)
    requires Conserved(parses, s)
    ensures Conserved(parses, Step(parses, s, Take(w)))
  {
    hide InFlight, InputsOf;
    var t := Step(parses, s, Take(w));
    if t != s {
      var i := s.received[s.taken];
      assert s.received[..s.taken + 1] == s.received[..s.taken] + [i];
      FoldSnoc(AddUsable(parses), multiset{}, s.received[..s.taken], i);
      MoveConserves(parses, s, t, w, if Usable(parses, i) then multiset{i} else multiset{}, multiset{});
    }
  }

  lemma SendConserves(parses: Address -> bool, s: State, w: nat)
    requires Conserved(parses, s)
    ensures Conserved(parses, Step(parses, s, Send(w)))
  {
    hide InFlight, UsableOf;
    var t := Step(parses, s, Send(w));
    if t != s {
      FoldSnoc(AddInput, multiset{}, s.outputs, s.workers[w].output);
      MoveConserves(parses, s, t, w, multiset{}, multiset{s.workers[w].output.input});
    }
  }

  lemma LookupOwes(parses: Address -> bool, s: State, i: Input)
    ensures Due(parses, AfterLookup(parses, s, i)) == Due(parses, Taken(i))
    ensures var to := AfterLookup(parses, s, i); !to.Connected? && (to.Connecting? ==> to.input.address.Some?)
  {
  }

  lemma LookupConserves(parses: Address -> bool, s: State, w: nat)
    requires Conserved(parses, s)
    ensures Conserved(parses, Step(parses, s, Lookup(w)))
  {
    hide InFlight, UsableOf, InputsOf, AfterLookup, Due;
    var t := Step(parses, s, Lookup(w));
    if t != s {
      LookupOwes(parses, s, s.workers[w].input);
      MoveConserves(parses, s, t, w, multiset{}, multiset{});
    }
  }

  lemma ConnectConserves(parses: Address -> bool, s: State, w: nat, handshake: bool)
    requires Conserved(parses, s)
    ensures Conserved(parses, Step(parses, s, Connect(w, handshake)))
  {
    hide InFlight, UsableOf, InputsOf;
    var t := Step(parses, s, Connect(w, handshake));
    if t != s {
      MoveConserves(parses, s, t, w, multiset{}, multiset{});
    }
  }

  lemma InsertConserves(parses: Address -> bool, s: State, w: nat)
    requires Conserved(parses, s)
    ensures Conserved(parses, Step(parses, s, Insert(w)))
  {
    hide InFlight, UsableOf, InputsOf, KeyOf;
    var t := Step(parses, s, Insert(w));
    if t != s {
      MoveConserves(parses, s, t, w, multiset{}, multiset{});
    }
  }

  lemma StepConserves(parses: Address -> bool, s: State, a: Action)
    requires Conserved(parses, s)
    ensures Conserved(parses, Step(parses, s, a))
  {
    hide InFlight, UsableOf, InputsOf, Recent, KeyOf;
    var t := Step(parses, s, a);
    match a {
      case Receive(input) => assert t.received[..s.taken] == s.received[..s.taken];
      case Pass(_) =>
      case Sink =>
      case Take(w) => TakeConserves(parses, s, w);
      case Send(w) => SendConserves(parses, s, w);
      case Lookup(w) => LookupConserves(parses, s, w);
      case Connect(w, handshake) => ConnectConserves(parses, s, w, handshake);
      case Insert(w) => InsertConserves(parses, s, w);
    }
  }

  lemma {:induction false} NothingInFlight(parses: Address -> bool, workers: seq<Worker>)
    requires forall w :: 0 <= w < |workers| ==> workers[w].Waiting? || workers[w].Gone?
    ensures InFlight(parses, workers) == multiset{}
  {
    if workers != [] {
      NothingInFlight(parses, workers[..|workers| - 1]);
    }
  }

  lemma {:induction false} RunConserves(parses: Address -> bool, workers: nat, actions: seq<Action>)
    ensures Conserved(parses, Run(parses, workers, actions))
  {
    hide Step, InFlight;
    if actions == [] {
      NothingInFlight(parses, Init(workers).workers);
    } else {
      RunConserves(parses, workers, actions[..|actions| - 1]);
      StepConserves(parses, Run(parses, workers, actions[..|actions| - 1]), actions[|actions| - 1]);
    }
  }

  /** In every interleaving, whenever no worker is at work, the outputs are for the usable inputs
      taken so far, one for each, and for no others. */
  lemma OneOutputPerUsableInput(parses: Address -> bool, workers: nat, actions: seq<Action>)
    requires var s := Run(parses, workers, actions);
      forall w :: 0 <= w < |s.workers| ==> s.workers[w].Waiting? || s.workers[w].Gone?
    ensures var s := Run(parses, workers, actions);
      s.taken <= |s.received| && InputsOf(s.outputs) == UsableOf(parses, s.received[..s.taken])
  {
    hide Run, InFlight;
    RunConserves(parses, workers, actions);
    NothingInFlight(parses, Run(parses, workers, actions).workers);
  }

  // ---------- The counters of the sink ----------

  ghost predicate CountersRight(s: State) {
    && s.counted <= |s.outputs| && s.counters.tried == s.counted
    && s.counters.tried == s.counters.successful + s.counters.unsuccessful
    && s.counters.cached <= s.counters.successful
    && (forall k :: 0 <= k < |s.outputs| ==> s.outputs[k].cached ==> s.outputs[k].result)
    && (forall w :: 0 <= w < |s.workers| ==>
          s.workers[w].Sending? ==> s.workers[w].output.cached ==> s.workers[w].output.result)
  }

  lemma StepKeepsCounters(parses: Address -> bool, s: State, a: Action)
    requires CountersRight(s)
    ensures CountersRight(Step(parses, s, a))
  {
    hide Recent, KeyOf, Usable;
  }

  /** Every address tried is counted as successful or as unsuccessful, and a cached one as
      successful. */
  lemma {:induction false} CountersAddUp(parses: Address -> bool, workers: nat, actions: seq<Action>)
    ensures CountersRight(Run(parses, workers, actions))
  {
    hide Step;
    if actions != [] {
      CountersAddUp(parses, workers, actions[..|actions| - 1]);
      StepKeepsCounters(parses, Run(parses, workers, actions[..|actions| - 1]), actions[|actions| - 1]);
    }
  }
}
