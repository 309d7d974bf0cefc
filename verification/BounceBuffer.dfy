/** The single bounce buffer of exec.c and the list of clients waiting for it: address_space_map,
    address_space_unmap, cpu_register_map_client and cpu_unregister_map_client, one step per access to
    shared state, with any number of threads. */
module BounceBuffers {
  type Bh = nat

  datatype Thread =
    | Idle
    | Filling                     // address_space_map: in_use taken, buffer not yet allocated
    | Mapped                      // the caller uses the buffer
    | Freed                       // address_space_unmap: buffer freed, in_use not yet cleared
    | Released                    // in_use cleared, about to take the lock for cpu_notify_map_clients
    | Draining                    // cpu_notify_map_clients_locked, under the lock
    | Inserting(bh: Bh)           // cpu_register_map_client, under the lock
    | Checking                    // inserted, about to read in_use
    | Removing(bh: Bh)            // cpu_unregister_map_client, under the lock
    | Leaving                     // about to release the lock

  /** holder and owner are thread numbers, or -1. owner, notifiers and the three multisets record what has
      happened; no step depends on them. */
  datatype State = State(inUse: bool, buffer: bool, clients: seq<Bh>, holder: int, threads: seq<Thread>,
                         owner: int, notifiers: set<nat>,
                         registered: multiset<Bh>, scheduled: multiset<Bh>, unregistered: multiset<Bh>)

  predicate Init(s: State) {
    && !s.inUse && !s.buffer && s.clients == [] && s.holder == -1 && s.owner == -1 && s.notifiers == {}
    && s.registered == multiset{} && s.scheduled == multiset{} && s.unregistered == multiset{}
    && (forall t :: 0 <= t < |s.threads| ==> s.threads[t] == Idle)
  }

  function At(s: State, t: nat, pc: Thread): State
    requires t < |s.threads|
  {
    s.(threads := s.threads[t := pc])
  }

  /** address_space_map and address_space_unmap for memory that is not directly accessible. */
  predicate BufferStep(s: State, t: nat, s': State)
    requires t < |s.threads|
  {
    match s.threads[t]
    case Idle => if s.inUse then s' == s else s' == At(s.(inUse := true, owner := t), t, Filling)
    case Filling => s' == At(s.(buffer := true), t, Mapped)
    case Mapped => s' == At(s.(buffer := false), t, Freed)
    case Freed => s' == At(s.(inUse := false, owner := -1, notifiers := s.notifiers + {t}), t, Released)
    case Released => s.holder == -1 && s' == At(s.(holder := t, notifiers := s.notifiers - {t}), t, Draining)
    case _ => false
  }

  /** Each waiting client is scheduled and removed, from the head of the list. */
  predicate DrainStep(s: State, t: nat, s': State)
    requires t < |s.threads|
  {
    s.threads[t] == Draining &&
    if s.clients == [] then s' == At(s.(holder := -1), t, Idle)
    else s' == s.(clients := s.clients[1..], scheduled := s.scheduled + multiset{s.clients[0]})
  }

  /** Registration and its undoing. */
  predicate ClientStep(s: State, t: nat, bh: Bh, s': State)
    requires t < |s.threads|
  {
    match s.threads[t]
    case Idle =>
      && s.holder == -1
      && (s' == At(s.(holder := t), t, Inserting(bh)) || s' == At(s.(holder := t), t, Removing(bh)))
    case Inserting(b) => s' == At(s.(clients := [b] + s.clients, registered := s.registered + multiset{b}), t, Checking)
    case Checking => s' == At(s, t, if s.inUse then Leaving else Draining)
    case Removing(b) =>
      if b in s.clients then exists i :: 0 <= i < |s.clients| && s.clients[i] == b && RemoveAt(s, t, i, s')
      else s' == At(s, t, Leaving)
    case Leaving => s' == At(s.(holder := -1), t, Idle)
    case _ => false
  }

  /** The first client with this bottom half goes. */
  predicate RemoveAt(s: State, t: nat, i: nat, s': State)
    requires t < |s.threads| && i < |s.clients|
  {
    && (forall j :: 0 <= j < i ==> s.clients[j] != s.clients[i])
    && s' == At(s.(clients := s.clients[..i] + s.clients[i + 1..],
                   unregistered := s.unregistered + multiset{s.clients[i]}),
                t, Leaving)
  }

  predicate Step(s: State, t: nat, bh: Bh, s': State) {
    t < |s.threads| && (BufferStep(s, t, s') || DrainStep(s, t, s') || ClientStep(s, t, bh, s'))
  }

  ghost predicate Next(s: State, s': State) {
    exists t: nat, bh: Bh :: Step(s, t, bh, s')
  }

  ghost predicate IsRun(run: seq<State>) {
    && |run| > 0 && Init(run[0])
    && forall i :: 0 <= i < |run| - 1 ==> Next(run[i], run[i + 1])
  }

  // ------------------------------------------------------------------------------------------
  // The inductive invariant

  /** The thread has the buffer. */
  predicate Owns(pc: Thread) { pc.Filling? || pc.Mapped? || pc.Freed? }

  predicate Locked(pc: Thread) {
    pc.Draining? || pc.Inserting? || pc.Checking? || pc.Removing? || pc.Leaving?
  }

  predicate ThreadOk(s: State, t: nat)
    requires t < |s.threads|
  {
    && (Owns(s.threads[t]) <==> s.owner == t)
    && (Locked(s.threads[t]) <==> s.holder == t)
    && (s.threads[t].Released? <==> t in s.notifiers)
  }

  /** Some thread is still going to drain the list. */
  predicate Pending(s: State) {
    || s.notifiers != {}
    || (0 <= s.holder < |s.threads| && (s.threads[s.holder].Checking? || s.threads[s.holder].Draining?))
  }

  predicate FlagsOk(s: State) {
    && -1 <= s.owner < |s.threads| && -1 <= s.holder < |s.threads|
    && (s.inUse <==> s.owner != -1)
    && (s.buffer <==> s.owner != -1 && s.threads[s.owner].Mapped?)
  }

  predicate PendingOk(s: State) {
    && (forall t :: t in s.notifiers ==> t < |s.threads|)
    && (s.clients != [] && !s.inUse ==> Pending(s))
  }

  predicate ConservedFor(s: State, b: Bh) {
    s.registered[b] == multiset(s.clients)[b] + s.scheduled[b] + s.unregistered[b]
  }

  ghost predicate Conserved(s: State) {
    forall b :: ConservedFor(s, b)
  }

  ghost predicate Inv(s: State) {
    FlagsOk(s) && PendingOk(s) && Conserved(s) && forall t: nat :: t < |s.threads| ==> ThreadOk(s, t)
  }

  lemma BufferKeeps(s: State, t: nat, s': State, u: nat)
    requires Inv(s) && t < |s.threads| && u < |s.threads| && BufferStep(s, t, s')
    ensures |s'.threads| == |s.threads| && ThreadOk(s', u) && FlagsOk(s') && PendingOk(s')
  {
    hide Conserved;
    assert ThreadOk(s, t) && ThreadOk(s, u);
    assert s.threads[t].Released? ==> s'.threads[t].Draining?;
  }

  lemma DrainKeeps(s: State, t: nat, s': State, u: nat)
    requires Inv(s) && t < |s.threads| && u < |s.threads| && DrainStep(s, t, s')
    ensures |s'.threads| == |s.threads| && ThreadOk(s', u) && FlagsOk(s') && PendingOk(s')
  {
    hide Conserved;
    assert ThreadOk(s, t) && ThreadOk(s, u);
  }

  /** A client step changes neither the buffer nor the set of notifiers. */
  predicate Quiet(s: State, t: nat, s': State)
    requires t < |s.threads|
  {
    && s'.inUse == s.inUse && s'.buffer == s.buffer && s'.owner == s.owner && s'.notifiers == s.notifiers
    && |s'.threads| == |s.threads| && s'.threads == s.threads[t := s'.threads[t]]
    && s'.holder == (if Locked(s'.threads[t]) then t else -1)
    && !Owns(s'.threads[t]) && !s'.threads[t].Released?
    && (s'.clients != [] ==> s.clients != [] || s'.threads[t].Checking?)
    && (s.threads[t].Checking? && !s.inUse ==> s'.threads[t].Draining?)
    && (s.threads[t].Idle? ==> s.holder == -1)
  }

  lemma RemoveQuiet(s: State, t: nat, i: nat, s': State)
    requires t < |s.threads| && i < |s.clients| && RemoveAt(s, t, i, s') && s.holder == t && s.threads[t].Removing?
    ensures Quiet(s, t, s')
  {
  }

  lemma ClientQuiet(s: State, t: nat, bh: Bh, s': State)
    requires t < |s.threads| && ClientStep(s, t, bh, s') && (Locked(s.threads[t]) ==> s.holder == t)
    ensures Quiet(s, t, s')
    ensures s.threads[t].Idle? || (Locked(s.threads[t]) && !s.threads[t].Draining?)
  {
    hide RemoveAt;
    if s.threads[t].Removing? && s.threads[t].bh in s.clients {
      var i :| 0 <= i < |s.clients| && s.clients[i] == s.threads[t].bh && RemoveAt(s, t, i, s');
      RemoveQuiet(s, t, i, s');
    }
  }

  lemma ClientKeeps(s: State, t: nat, bh: Bh, s': State, u: nat)
    requires Inv(s) && t < |s.threads| && u < |s.threads| && ClientStep(s, t, bh, s')
    ensures |s'.threads| == |s.threads| && ThreadOk(s', u) && FlagsOk(s') && PendingOk(s')
  {
    hide Conserved, ClientStep;
    assert ThreadOk(s, t) && ThreadOk(s, u);
    ClientQuiet(s, t, bh, s');
  }

  lemma Split(clients: seq<Bh>, i: nat, b: Bh)
    requires i < |clients|
    ensures multiset(clients)[b] == multiset(clients[..i] + clients[i + 1..])[b] + if b == clients[i] then 1 else 0
  {
    assert clients == clients[..i] + [clients[i]] + clients[i + 1..];
  }

  lemma DrainConserved(s: State, t: nat, s': State, b: Bh)
    requires ConservedFor(s, b) && t < |s.threads| && DrainStep(s, t, s')
    ensures ConservedFor(s', b)
  {
    if s.clients != [] { SplitHead(s.clients, b); }
  }

  lemma SplitHead(clients: seq<Bh>, b: Bh)
    requires clients != []
    ensures multiset(clients)[b] == multiset(clients[1..])[b] + if b == clients[0] then 1 else 0
  {
    assert clients == [clients[0]] + clients[1..];
  }

  lemma RemoveConserved(s: State, t: nat, i: nat, s': State, b: Bh)
    requires ConservedFor(s, b) && t < |s.threads| && i < |s.clients| && RemoveAt(s, t, i, s')
    ensures ConservedFor(s', b)
  {
    Split(s.clients, i, b);
  }

  lemma InsertConserved(s: State, t: nat, bh: Bh, s': State, b: Bh)
    requires ConservedFor(s, b) && t < |s.threads|
    requires s' == At(s.(clients := [bh] + s.clients, registered := s.registered + multiset{bh}), t, Checking)
    ensures ConservedFor(s', b)
  {
    SplitHead([bh] + s.clients, b);
    assert ([bh] + s.clients)[1..] == s.clients;
  }

  lemma ClientConserved(s: State, t: nat, bh: Bh, s': State, b: Bh)
    requires ConservedFor(s, b) && t < |s.threads| && ClientStep(s, t, bh, s')
    ensures ConservedFor(s', b)
  {
    hide RemoveAt;
    if s.threads[t].Inserting? {
      InsertConserved(s, t, s.threads[t].bh, s', b);
    } else if s.threads[t].Removing? && s.threads[t].bh in s.clients {
      var i :| 0 <= i < |s.clients| && s.clients[i] == s.threads[t].bh && RemoveAt(s, t, i, s');
      RemoveConserved(s, t, i, s', b);
    }
  }

  lemma ConservedKeeps(s: State, t: nat, bh: Bh, s': State)
    requires Conserved(s) && Step(s, t, bh, s')
    ensures Conserved(s')
  {
    forall b ensures ConservedFor(s', b) {
      hide ClientStep, DrainStep;
      assert ConservedFor(s, b);
      if DrainStep(s, t, s') {
        DrainConserved(s, t, s', b);
      } else if ClientStep(s, t, bh, s') {
        ClientConserved(s, t, bh, s', b);
      }
    }
  }

  lemma StepThread(s: State, t: nat, bh: Bh, s': State, u: nat)
    requires Inv(s) && Step(s, t, bh, s') && u < |s.threads|
    ensures |s'.threads| == |s.threads| && ThreadOk(s', u) && FlagsOk(s') && PendingOk(s')
  {
    hide Inv, BufferStep, DrainStep, ClientStep, FlagsOk, PendingOk, ThreadOk;
    if BufferStep(s, t, s') { BufferKeeps(s, t, s', u); }
    else if DrainStep(s, t, s') { DrainKeeps(s, t, s', u); }
    else { ClientKeeps(s, t, bh, s', u); }
  }

  lemma StepKeeps(s: State, t: nat, bh: Bh, s': State)
    requires Inv(s) && Step(s, t, bh, s')
    ensures Inv(s')
  {
    hide FlagsOk, PendingOk, Conserved, ThreadOk, BufferStep, DrainStep, ClientStep;
    ConservedKeeps(s, t, bh, s');
    StepThread(s, t, bh, s', t);
    forall u: nat | u < |s'.threads| ensures ThreadOk(s', u) { StepThread(s, t, bh, s', u); }
  }

  lemma {:induction false} RunInv(run: seq<State>, i: nat)
    requires IsRun(run) && i < |run|
    ensures Inv(run[i])
  {
    if i > 0 {
      hide Step, Inv, Init;
      RunInv(run, i - 1);
      assert Next(run[i - 1], run[i - 1 + 1]);
      var t: nat, bh: Bh :| Step(run[i - 1], t, bh, run[i]);
      StepKeeps(run[i - 1], t, bh, run[i]);
    }
  }

  // ------------------------------------------------------------------------------------------
  // What the protocol promises

  /** At most one mapping has the buffer, and while it does the flag is set. */
  lemma OneOwner(run: seq<State>, i: nat, t: nat, u: nat)
    requires IsRun(run) && i < |run| && t < |run[i].threads| && u < |run[i].threads|
    requires Owns(run[i].threads[t]) && Owns(run[i].threads[u])
    ensures t == u && run[i].inUse && (run[i].buffer <==> run[i].threads[t].Mapped?)
  {
    RunInv(run, i);
    assert ThreadOk(run[i], t) && ThreadOk(run[i], u);
  }

  /** No client is stranded: if one is listed while the buffer and the lock are free, some unmapper has
      yet to run its notification. */
  lemma NoClientStranded(run: seq<State>, i: nat)
    requires IsRun(run) && i < |run|
    requires run[i].clients != [] && !run[i].inUse && run[i].holder == -1
    ensures exists t: nat :: t < |run[i].threads| && run[i].threads[t] == Released
  {
    RunInv(run, i);
    var t :| t in run[i].notifiers;
    assert ThreadOk(run[i], t);
  }

  /** A client leaves the list only by being scheduled or unregistered, each registration once. */
  lemma ClientsConserved(run: seq<State>, i: nat)
    requires IsRun(run) && i < |run|
    ensures run[i].registered == multiset(run[i].clients) + run[i].scheduled + run[i].unregistered
  {
    RunInv(run, i);
    var s := run[i];
    forall b ensures s.registered[b] == multiset(s.clients)[b] + s.scheduled[b] + s.unregistered[b] {
      assert ConservedFor(s, b);
    }
  }

  /** When a notification finishes, nobody is waiting. */
  lemma DrainedIsEmpty(run: seq<State>, i: nat, t: nat)
    requires IsRun(run) && i < |run| - 1 && t < |run[i].threads|
    requires run[i].threads[t] == Draining && |run[i + 1].threads| == |run[i].threads| && run[i + 1].threads[t] == Idle
    ensures run[i + 1].clients == []
  {
    RunInv(run, i);
    assert Next(run[i], run[i + 1]);
    var u: nat, bh: Bh :| Step(run[i], u, bh, run[i + 1]);
    DrainEnds(run[i], u, bh, run[i + 1], t);
  }

  lemma DrainEnds(s: State, u: nat, bh: Bh, s': State, t: nat)
    requires Inv(s) && Step(s, u, bh, s') && t < |s.threads| == |s'.threads|
    requires s.threads[t] == Draining && s'.threads[t] == Idle
    ensures s'.clients == []
  {
    hide Conserved, FlagsOk, PendingOk;
    assert ThreadOk(s, t) && ThreadOk(s, u);
    if ClientStep(s, u, bh, s') {
      hide ClientStep;
      ClientQuiet(s, u, bh, s');
    }
  }

  /** A step changes no thread but its own. */
  lemma OwnThread(s: State, u: nat, bh: Bh, s': State, t: nat)
    requires Inv(s) && Step(s, u, bh, s') && t < |s.threads| && t != u
    ensures |s'.threads| == |s.threads| && s'.threads[t] == s.threads[t]
  {
    hide Conserved, FlagsOk, PendingOk;
    assert ThreadOk(s, u);
    if ClientStep(s, u, bh, s') {
      hide ClientStep;
      ClientQuiet(s, u, bh, s');
    }
  }

  /** The step of thread t that takes it on from a state under the list lock. */
  lemma ClientMoves(run: seq<State>, i: nat, t: nat) returns (bh: Bh)
    requires IsRun(run) && i < |run| - 1 && t < |run[i].threads|
    requires run[i].threads[t].Inserting? || run[i].threads[t].Checking? || run[i].threads[t].Removing?
    requires |run[i + 1].threads| == |run[i].threads| ==> run[i + 1].threads[t] != run[i].threads[t]
    ensures ClientStep(run[i], t, bh, run[i + 1])
  {
    RunInv(run, i);
    hide Inv, BufferStep, ClientStep, DrainStep;
    assert Next(run[i], run[i + 1]);
    var u: nat;
    u, bh :| Step(run[i], u, bh, run[i + 1]);
    if u != t { OwnThread(run[i], u, bh, run[i + 1], t); }
    OnlyClient(run[i], t, run[i + 1]);
  }

  lemma OnlyClient(s: State, t: nat, s': State)
    requires t < |s.threads| && (s.threads[t].Inserting? || s.threads[t].Checking? || s.threads[t].Removing?)
    ensures !BufferStep(s, t, s') && !DrainStep(s, t, s')
  {
  }

  /** cpu_register_map_client puts its client on the list, once, and looks at the flag next. */
  lemma RegistersOne(run: seq<State>, i: nat, t: nat)
    requires IsRun(run) && i < |run| - 1 && t < |run[i].threads| == |run[i + 1].threads|
    requires run[i].threads[t].Inserting? && run[i + 1].threads[t] != run[i].threads[t]
    ensures var s, s', b := run[i], run[i + 1], run[i].threads[t].bh;
      && s'.threads[t] == Checking && s'.clients == [b] + s.clients && s'.registered == s.registered + multiset{b}
      && s'.scheduled == s.scheduled && s'.unregistered == s.unregistered
  {
    var bh := ClientMoves(run, i, t);
    hide RemoveAt, Next, Init;
  }

  /** It then leaves the notification to the next unmapping if the buffer is in use, and notifies if not. */
  lemma ChecksFlag(run: seq<State>, i: nat, t: nat)
    requires IsRun(run) && i < |run| - 1 && t < |run[i].threads| == |run[i + 1].threads|
    requires run[i].threads[t].Checking? && run[i + 1].threads[t] != Checking
    ensures run[i + 1].threads[t] == if run[i].inUse then Leaving else Draining
  {
    var bh := ClientMoves(run, i, t);
    hide RemoveAt, Next, Init;
  }

  /** The first entry of a client is gone, and the others are left in order. */
  predicate WithoutFirst(clients: seq<Bh>, b: Bh, rest: seq<Bh>) {
    |rest| < |clients| && exists k :: 0 <= k < |clients| && GoneAt(clients, b, rest, k)
  }

  predicate GoneAt(clients: seq<Bh>, b: Bh, rest: seq<Bh>, k: nat)
    requires k < |clients|
  {
    clients[k] == b && b !in clients[..k] && rest == clients[..k] + clients[k + 1..]
  }

  /** cpu_unregister_map_client takes exactly one of its client's entries off the list if there is one, and nothing
      else. */
  lemma UnregistersOne(run: seq<State>, i: nat, t: nat)
    requires IsRun(run) && i < |run| - 1 && t < |run[i].threads| == |run[i + 1].threads|
    requires run[i].threads[t].Removing? && run[i + 1].threads[t] != run[i].threads[t]
    ensures var s, s', b := run[i], run[i + 1], run[i].threads[t].bh;
      && s'.threads[t] == Leaving && s'.registered == s.registered && s'.scheduled == s.scheduled
      && (b !in s.clients ==> s'.clients == s.clients && s'.unregistered == s.unregistered)
      && (b in s.clients ==> WithoutFirst(s.clients, b, s'.clients) && s'.unregistered == s.unregistered + multiset{b})
  {
    var bh := ClientMoves(run, i, t);
    hide Next, Init;
    RemovesOne(run[i], t, bh, run[i + 1]);
  }

  lemma RemovesOne(s: State, t: nat, bh: Bh, s': State)
    requires t < |s.threads| && s.threads[t].Removing? && ClientStep(s, t, bh, s')
    ensures var b := s.threads[t].bh;
      && |s'.threads| == |s.threads| && s'.threads[t] == Leaving
      && s'.registered == s.registered && s'.scheduled == s.scheduled
      && (b !in s.clients ==> s'.clients == s.clients && s'.unregistered == s.unregistered)
      && (b in s.clients ==> WithoutFirst(s.clients, b, s'.clients) && s'.unregistered == s.unregistered + multiset{b})
  {
    hide RemoveAt;
    var b := s.threads[t].bh;
    if b in s.clients {
      var k :| 0 <= k < |s.clients| && s.clients[k] == b && RemoveAt(s, t, k, s');
      RemovedIs(s, t, k, s');
    }
  }

  lemma RemovedIs(s: State, t: nat, k: nat, s': State)
    requires t < |s.threads| && k < |s.clients| && RemoveAt(s, t, k, s')
    ensures |s'.threads| == |s.threads| && s'.threads[t] == Leaving
    ensures s'.registered == s.registered && s'.scheduled == s.scheduled
    ensures WithoutFirst(s.clients, s.clients[k], s'.clients)
    ensures s'.unregistered == s.unregistered + multiset{s.clients[k]}
  {
    assert GoneAt(s.clients, s.clients[k], s'.clients, k);
  }

  /** A thread in one of the functions can go on, unless it waits for the list lock. */
  lemma NeverStuck(run: seq<State>, i: nat, t: nat) returns (s': State)
    requires IsRun(run) && i < |run| && t < |run[i].threads| && run[i].threads[t] != Idle
    requires run[i].threads[t].Released? ==> run[i].holder == -1
    ensures Step(run[i], t, 0, s') && s' != run[i]
  {
    hide IsRun;
    var s := run[i];
    match s.threads[t]
    case Filling => s' := At(s.(buffer := true), t, Mapped);
    case Mapped => s' := At(s.(buffer := false), t, Freed);
    case Freed => s' := At(s.(inUse := false, owner := -1, notifiers := s.notifiers + {t}), t, Released);
    case Released => s' := At(s.(holder := t, notifiers := s.notifiers - {t}), t, Draining);
    case Draining =>
      s' := if s.clients == [] then At(s.(holder := -1), t, Idle)
            else s.(clients := s.clients[1..], scheduled := s.scheduled + multiset{s.clients[0]});
    case Inserting(b) =>
      s' := At(s.(clients := [b] + s.clients, registered := s.registered + multiset{b}), t, Checking);
    case Checking => s' := At(s, t, if s.inUse then Leaving else Draining);
    case Removing(b) => s' := Removal(s, t, b);
    case Leaving => s' := At(s.(holder := -1), t, Idle);
    assert s'.threads[t] != s.threads[t] || s'.clients != s.clients;
  }

  lemma Removal(s: State, t: nat, b: Bh) returns (s': State)
    requires t < |s.threads| && s.threads[t] == Removing(b)
    ensures ClientStep(s, t, 0, s') && |s'.threads| == |s.threads| && s'.threads[t] == Leaving
  {
    if b in s.clients {
      var k := FirstOf(s.clients, b);
      s' := At(s.(clients := s.clients[..k] + s.clients[k + 1..], unregistered := s.unregistered + multiset{b}),
               t, Leaving);
      assert RemoveAt(s, t, k, s');
    } else {
      s' := At(s, t, Leaving);
    }
  }

  lemma {:induction false} FirstOf(clients: seq<Bh>, b: Bh) returns (k: nat)
    requires b in clients
    ensures k < |clients| && clients[k] == b && forall j :: 0 <= j < k ==> clients[j] != b
    decreases |clients|
  {
    var n := |clients| - 1;
    if b in clients[..n] { k := FirstOf(clients[..n], b); } else { k := n; }
  }

  // ------------------------------------------------------------------------------------------
  // A client that has to wait and is served

  ghost predicate Reachable(s: State) {
    exists run :: IsRun(run) && run[|run| - 1] == s
  }

  lemma ReachInit(s: State)
    requires Init(s)
    ensures Reachable(s)
  {
    assert IsRun([s]) && [s][|[s]| - 1] == s;
  }

  lemma Advance(s: State, t: nat, bh: Bh, s': State) returns (r: State)
    requires Reachable(s) && Step(s, t, bh, s')
    ensures Reachable(s') && r == s'
  {
    hide Step, Init;
    var run :| IsRun(run) && run[|run| - 1] == s;
    var run' := run + [s'];
    forall i | 0 <= i < |run'| - 1 ensures Next(run'[i], run'[i + 1]) {
      if i < |run| - 1 { assert Next(run[i], run[i + 1]); } else { assert Step(run'[i], t, bh, run'[i + 1]); }
    }
    assert IsRun(run') && run'[|run'| - 1] == s';
    r := s';
  }

  lemma BufferMove(s: State, t: nat, s': State) returns (r: State)
    requires Reachable(s) && t < |s.threads| && BufferStep(s, t, s')
    ensures Reachable(s') && r == s'
  {
    hide Reachable, BufferStep, ClientStep, DrainStep;
    r := Advance(s, t, 0, s');
  }

  lemma ClientMove(s: State, t: nat, bh: Bh, s': State) returns (r: State)
    requires Reachable(s) && t < |s.threads| && ClientStep(s, t, bh, s')
    ensures Reachable(s') && r == s'
  {
    hide Reachable, BufferStep, ClientStep, DrainStep;
    r := Advance(s, t, bh, s');
  }

  lemma DrainMove(s: State, t: nat, s': State) returns (r: State)
    requires Reachable(s) && t < |s.threads| && DrainStep(s, t, s')
    ensures Reachable(s') && r == s'
  {
    hide Reachable, BufferStep, ClientStep, DrainStep;
    r := Advance(s, t, 0, s');
  }

  lemma BufferTaken()
    ensures Reachable(State(true, true, [], -1, [Mapped, Idle], 0, {}, multiset{}, multiset{}, multiset{}))
  {
    hide Reachable;
    var none := multiset{};
    var s := State(false, false, [], -1, [Idle, Idle], -1, {}, none, none, none);
    ReachInit(s);
    s := BufferMove(s, 0, State(true, false, [], -1, [Filling, Idle], 0, {}, none, none, none));
    s := BufferMove(s, 0, State(true, true, [], -1, [Mapped, Idle], 0, {}, none, none, none));
  }

  lemma ClientWaits()
    requires Reachable(State(true, true, [], -1, [Mapped, Idle], 0, {}, multiset{}, multiset{}, multiset{}))
    ensures Reachable(State(true, true, [7], -1, [Mapped, Idle], 0, {}, multiset{7}, multiset{}, multiset{}))
  {
    hide Reachable, RemoveAt;
    var none, one := multiset{}, multiset{7};
    var s := State(true, true, [], -1, [Mapped, Idle], 0, {}, none, none, none);
    s := ClientMove(s, 1, 7, State(true, true, [], 1, [Mapped, Inserting(7)], 0, {}, none, none, none));
    s := ClientMove(s, 1, 7, State(true, true, [7], 1, [Mapped, Checking], 0, {}, one, none, none));
    s := ClientMove(s, 1, 7, State(true, true, [7], 1, [Mapped, Leaving], 0, {}, one, none, none));
    s := ClientMove(s, 1, 7, State(true, true, [7], -1, [Mapped, Idle], 0, {}, one, none, none));
  }

  lemma BufferReturned()
    requires Reachable(State(true, true, [7], -1, [Mapped, Idle], 0, {}, multiset{7}, multiset{}, multiset{}))
    ensures Reachable(State(false, false, [7], 0, [Draining, Idle], -1, {}, multiset{7}, multiset{}, multiset{}))
  {
    hide Reachable;
    var none, one := multiset{}, multiset{7};
    var s := State(true, true, [7], -1, [Mapped, Idle], 0, {}, one, none, none);
    s := BufferMove(s, 0, State(true, false, [7], -1, [Freed, Idle], 0, {}, one, none, none));
    s := BufferMove(s, 0, State(false, false, [7], -1, [Released, Idle], -1, {0}, one, none, none));
    s := BufferMove(s, 0, State(false, false, [7], 0, [Draining, Idle], -1, {}, one, none, none));
  }

  /** While thread 0 has the buffer, thread 1 registers client 7; when thread 0 unmaps, the client is scheduled and
      the buffer is free. */
  lemma WaitingClientServed() returns (s: State)
    ensures Reachable(s) && s.clients == [] && s.scheduled == multiset{7} && s.registered == multiset{7} && !s.inUse
  {
    hide Reachable;
    BufferTaken();
    ClientWaits();
    BufferReturned();
    s := State(false, false, [7], 0, [Draining, Idle], -1, {}, multiset{7}, multiset{}, multiset{});
    s := DrainMove(s, 0, State(false, false, [], 0, [Draining, Idle], -1, {}, multiset{7}, multiset{7}, multiset{}));
  }
}
