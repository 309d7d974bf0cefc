/** start_exclusive, end_exclusive, cpu_exec_start and cpu_exec_end of cpus-common.c as an
    interleaved step machine: any number of threads, one step per access to shared state. */
module ExclusiveProtocol {

  /** Where a thread is. Threads 0 .. cpus own the CPU of the same number. */
  datatype Pc =
    | Idle
    // cpu_exec_start
    | StartRead                              // running = true; about to read pending_cpus
    | StartLock                              // about to take the list lock
    | StartCheck                             // holds the lock; about to read has_waiter
    | StartClear                             // holds the lock; about to set running = false
    | StartIdle                              // holds the lock; exclusive_idle loop test
    | StartSleep                             // sleeping on exclusive_resume
    | StartRelock                            // woken; about to retake the lock
    | StartSet                               // holds the lock; about to set running = true
    | StartUnlock                            // holds the lock; about to release it
    | Running                                // between cpu_exec_start and cpu_exec_end
    // cpu_exec_end
    | EndRead
    | EndLock
    | EndCheck
    | EndDecrement                           // has_waiter cleared; about to decrement pending_cpus
    | EndSignal                              // about to test for 1 and signal exclusive_cond
    | EndUnlock
    // start_exclusive
    | ExclLock
    | ExclIdle
    | ExclSleep                              // sleeping on exclusive_resume
    | ExclRelock
    | ExclMark                               // about to set pending_cpus = 1
    | ExclScan(next: nat, found: nat)        // CPU_FOREACH
    | ExclTest                               // holds the lock; waiting loop test
    | ExclWait                               // sleeping on exclusive_cond
    | ExclRewait                             // woken; about to retake the lock
    | ExclUnlock
    | Exclusive                              // between start_exclusive and end_exclusive
    // end_exclusive
    | DoneLock
    | DoneReset                              // about to set pending_cpus = 0
    | DoneBroadcast                          // about to broadcast exclusive_resume
    | DoneUnlock

  /** `lock` is the thread that holds qemu_cpu_list_lock, or -1. `owner` records the thread that set
      pending_cpus from 0 to 1, or -1; no step depends on it. */
  datatype State = State(cpus: nat, pc: seq<Pc>, lock: int, pending: int, running: set<nat>, hasWaiter: set<nat>,
      owner: int)

  predicate Holds(pc: Pc) {
    || pc.StartCheck? || pc.StartClear? || pc.StartIdle? || pc.StartSet? || pc.StartUnlock?
    || pc.EndCheck? || pc.EndDecrement? || pc.EndSignal? || pc.EndUnlock?
    || pc.ExclIdle? || pc.ExclMark? || pc.ExclScan? || pc.ExclTest? || pc.ExclUnlock?
    || pc.DoneReset? || pc.DoneBroadcast? || pc.DoneUnlock?
  }

  predicate Init(s: State) {
    && s.cpus <= |s.pc| && (forall t :: 0 <= t < |s.pc| ==> s.pc[t] == Idle)
    && s.lock == -1 && s.owner == -1 && s.pending == 0 && s.running == {} && s.hasWaiter == {}
  }

  function Goto(s: State, t: nat, pc: Pc): State
    requires t < |s.pc|
  {
    s.(pc := s.pc[t := pc])
  }

  /** exclusive_resume wakes every sleeper. */
  function Resumed(pc: Pc): Pc {
    match pc
    case StartSleep => StartRelock
    case ExclSleep => ExclRelock
    case _ => pc
  }

  /** cpu_exec_start, apart from the wait for an exclusive section to end. */
  predicate StartStep(s: State, t: nat, s': State)
    requires t < |s.pc|
  {
    match s.pc[t]
    case Idle => t < s.cpus && s' == Goto(s.(running := s.running + {t}), t, StartRead)
    case StartRead => s' == Goto(s, t, if s.pending != 0 then StartLock else Running)
    case StartLock => s.lock == -1 && s' == Goto(s.(lock := t), t, StartCheck)
    case StartCheck => s' == Goto(s, t, if t in s.hasWaiter then StartUnlock else StartClear)
    case StartUnlock => s' == Goto(s.(lock := -1), t, Running)
    case _ => false
  }

  /** The branch of cpu_exec_start that lets the exclusive item run. */
  predicate YieldStep(s: State, t: nat, s': State)
    requires t < |s.pc|
  {
    match s.pc[t]
    case StartClear => s' == Goto(s.(running := s.running - {t}), t, StartIdle)
    case StartIdle => s' == if s.pending != 0 then Goto(s.(lock := -1), t, StartSleep) else Goto(s, t, StartSet)
    case StartSleep => s' == Goto(s, t, StartRelock)  // a spurious wake-up
    case StartRelock => s.lock == -1 && s' == Goto(s.(lock := t), t, StartIdle)
    case StartSet => s' == Goto(s.(running := s.running + {t}), t, StartUnlock)
    case _ => false
  }

  /** cpu_exec_end, apart from the update of pending_cpus. */
  predicate EndStep(s: State, t: nat, s': State)
    requires t < |s.pc|
  {
    match s.pc[t]
    case Running => s' == Goto(s.(running := s.running - {t}), t, EndRead)
    case EndRead => s' == Goto(s, t, if s.pending != 0 then EndLock else Idle)
    case EndLock => s.lock == -1 && s' == Goto(s.(lock := t), t, EndCheck)
    case EndUnlock => s' == Goto(s.(lock := -1), t, Idle)
    case _ => false
  }

  /** The part of cpu_exec_end that releases the waiter; a signal wakes the sleeper `w`, if there is one. */
  predicate ReleaseStep(s: State, t: nat, w: nat, s': State)
    requires t < |s.pc|
  {
    match s.pc[t]
    case EndCheck => s' == if t in s.hasWaiter then Goto(s.(hasWaiter := s.hasWaiter - {t}), t, EndDecrement)
        else Goto(s, t, EndUnlock)
    case EndDecrement => s' == Goto(s.(pending := s.pending - 1), t, EndSignal)
    case EndSignal =>
      if s.pending == 1 && w < |s.pc| && s.pc[w] == ExclWait then s' == Goto(Goto(s, w, ExclRewait), t, EndUnlock)
      else (s.pending == 1 ==> forall v :: 0 <= v < |s.pc| ==> s.pc[v] != ExclWait) && s' == Goto(s, t, EndUnlock)
    case _ => false
  }

  /** start_exclusive up to the exclusive_idle loop. */
  predicate EnterStep(s: State, t: nat, s': State)
    requires t < |s.pc|
  {
    match s.pc[t]
    case Idle => s' == Goto(s, t, ExclLock)
    case ExclLock => s.lock == -1 && s' == Goto(s.(lock := t), t, ExclIdle)
    case ExclIdle => s' == if s.pending != 0 then Goto(s.(lock := -1), t, ExclSleep) else Goto(s, t, ExclMark)
    case ExclSleep => s' == Goto(s, t, ExclRelock)  // a spurious wake-up
    case ExclRelock => s.lock == -1 && s' == Goto(s.(lock := t), t, ExclIdle)
    case _ => false
  }

  /** start_exclusive from the write of pending_cpus: counting the running CPUs. */
  predicate CountStep(s: State, t: nat, s': State)
    requires t < |s.pc|
  {
    match s.pc[t]
    case ExclMark => s' == Goto(s.(pending := 1, owner := t), t, ExclScan(0, 0))
    case ExclScan(next, found) =>
      if next >= s.cpus then s' == Goto(s.(pending := found + 1), t, ExclTest)
      else if next in s.running then s' == Goto(s.(hasWaiter := s.hasWaiter + {next}), t, ExclScan(next + 1, found + 1))
      else s' == Goto(s, t, ExclScan(next + 1, found))
    case _ => false
  }

  /** The end of start_exclusive: waiting for the counted CPUs. */
  predicate WaitStep(s: State, t: nat, s': State)
    requires t < |s.pc|
  {
    match s.pc[t]
    case ExclTest => s' == if s.pending > 1 then Goto(s.(lock := -1), t, ExclWait) else Goto(s, t, ExclUnlock)
    case ExclWait => s' == Goto(s, t, ExclRewait)  // a spurious wake-up
    case ExclRewait => s.lock == -1 && s' == Goto(s.(lock := t), t, ExclTest)
    case ExclUnlock => s' == Goto(s.(lock := -1), t, Exclusive)
    case _ => false
  }

  /** end_exclusive */
  predicate DoneStep(s: State, t: nat, s': State)
    requires t < |s.pc|
  {
    match s.pc[t]
    case Exclusive => s' == Goto(s, t, DoneLock)
    case DoneLock => s.lock == -1 && s' == Goto(s.(lock := t), t, DoneReset)
    case DoneReset => s' == Goto(s.(pending := 0, owner := -1), t, DoneBroadcast)
    case DoneBroadcast =>
      s' == Goto(s.(pc := seq(|s.pc|, v requires 0 <= v < |s.pc| => Resumed(s.pc[v]))), t, DoneUnlock)
    case DoneUnlock => s' == Goto(s.(lock := -1), t, Idle)
    case _ => false
  }

  ghost predicate Next(s: State, s': State) {
    exists t: nat, w: nat :: t < |s.pc| && Step(s, t, w, s')
  }

  predicate Step(s: State, t: nat, w: nat, s': State)
    requires t < |s.pc|
  {
    || StartStep(s, t, s') || YieldStep(s, t, s') || EndStep(s, t, s') || ReleaseStep(s, t, w, s')
    || EnterStep(s, t, s') || CountStep(s, t, s') || WaitStep(s, t, s') || DoneStep(s, t, s')
  }

  /** A run from an initial state, every state following from the one before. */
  ghost predicate IsRun(run: seq<State>) {
    |run| > 0 && Init(run[0]) && forall i :: 0 <= i < |run| - 1 ==> Next(run[i], run[i + 1])
  }

  // ------------------------------------------------------------------------------------------
  // The inductive invariant

  /** The thread whose start_exclusive has set pending_cpus and whose end_exclusive has not reset it. */
  predicate Owner(pc: Pc) {
    || pc.ExclScan? || pc.ExclTest? || pc.ExclWait? || pc.ExclRewait? || pc.ExclUnlock?
    || pc.Exclusive? || pc.DoneLock? || pc.DoneReset?
  }

  /** The exclusive section proper: no CPU may execute. */
  predicate Inside(pc: Pc) {
    pc.ExclUnlock? || pc.Exclusive? || pc.DoneLock? || pc.DoneReset?
  }

  predicate RunningFlag(pc: Pc) {
    pc.StartRead? || pc.StartLock? || pc.StartCheck? || pc.StartClear? || pc.StartUnlock? || pc.Running?
  }

  predicate OfCpu(pc: Pc) {
    || RunningFlag(pc) || pc.StartIdle? || pc.StartSleep? || pc.StartRelock? || pc.StartSet?
    || pc.EndRead? || pc.EndLock? || pc.EndCheck? || pc.EndDecrement? || pc.EndSignal? || pc.EndUnlock?
  }

  /** A CPU counted in pending_cpus: it will run cpu_exec_end and decrement the counter. */
  predicate Counted(pc: Pc) {
    || pc.StartRead? || pc.StartLock? || pc.StartCheck? || pc.StartUnlock?
    || pc.Running? || pc.EndRead? || pc.EndLock? || pc.EndCheck?
  }

  /** Past cpu_exec_start, or bound to be without another look at pending_cpus. */
  predicate Committed(pc: Pc) {
    pc.StartUnlock? || pc.Running?
  }

  function HolderPc(s: State): Pc {
    if 0 <= s.lock < |s.pc| then s.pc[s.lock] else Idle
  }

  /** What the program counter of one thread says about the shared state. */
  predicate ThreadOk(s: State, t: nat)
    requires t < |s.pc|
  {
    var pc := s.pc[t];
    && (Holds(pc) <==> s.lock == t)
    && (Owner(pc) <==> s.owner == t)
    && (OfCpu(pc) ==> t < s.cpus)
    && (RunningFlag(pc) <==> t in s.running)
    && (t in s.hasWaiter ==> Counted(pc))
    && (pc.StartSet? || pc.ExclMark? ==> s.pending == 0)
    && (Inside(pc) ==> s.pending == 1)
    // a CPU that the owner has passed over does not execute unless it is counted
    && (Committed(pc) && s.owner >= 0 && (HolderPc(s).ExclScan? ==> t < HolderPc(s).next) ==> t in s.hasWaiter)
    // nobody sleeps on a condition that holds, unless the wake-up is still to be sent
    && (pc.ExclWait? ==> s.pending > 1 || HolderPc(s).EndSignal?)
    && (pc.StartSleep? || pc.ExclSleep? ==> s.pending >= 1 || HolderPc(s).DoneBroadcast?)
  }

  /** pending_cpus is one more than the number of counted CPUs, except while the lock holder updates it. */
  predicate SharedOk(s: State) {
    && s.cpus <= |s.pc| && -1 <= s.lock < |s.pc| && -1 <= s.owner < |s.pc|
    && (forall c :: c in s.hasWaiter ==> c < |s.pc|)
    && s.pending >= 0 && (s.owner >= 0 <==> s.pending >= 1) && (s.pending == 0 ==> s.hasWaiter == {})
    && CountOk(HolderPc(s), s.pending, s.hasWaiter, s.owner == s.lock)
  }

  predicate CountOk(holder: Pc, pending: int, hasWaiter: set<nat>, ownerHolds: bool) {
    && (holder.ExclScan? ==>
          && ownerHolds && pending == 1 && holder.found == |hasWaiter|
          && forall c :: c in hasWaiter ==> c < holder.next)
    && (holder.EndDecrement? ==> pending == 2 + |hasWaiter|)
    && (!holder.ExclScan? && !holder.EndDecrement? && pending != 0 ==> pending == 1 + |hasWaiter|)
  }

  ghost predicate Inv(s: State) {
    SharedOk(s) && forall t :: 0 <= t < |s.pc| ==> ThreadOk(s, t)
  }

  lemma InitInv(s: State)
    requires Init(s)
    ensures Inv(s)
  {
  }


  lemma StartSelf(s: State, t: nat, s': State)
    requires SharedOk(s) && t < |s.pc| && StartStep(s, t, s') && ThreadOk(s, t)
    ensures |s'.pc| == |s.pc| && ThreadOk(s', t)
  {
    hide CountOk;
  }

  lemma StartShared(s: State, t: nat, s': State)
    requires SharedOk(s) && t < |s.pc| && StartStep(s, t, s') && ThreadOk(s, t)
    ensures SharedOk(s')
  {
  }

  lemma StartOther(s: State, t: nat, s': State, u: nat)
    requires SharedOk(s) && t < |s.pc| && StartStep(s, t, s') && u < |s.pc| && u != t && ThreadOk(s, t)
    requires ThreadOk(s, u)
    ensures |s'.pc| == |s.pc| && ThreadOk(s', u)
  {
    hide CountOk;
  }

  lemma YieldSelf(s: State, t: nat, s': State)
    requires SharedOk(s) && t < |s.pc| && YieldStep(s, t, s') && ThreadOk(s, t)
    ensures |s'.pc| == |s.pc| && ThreadOk(s', t)
  {
  }

  lemma YieldShared(s: State, t: nat, s': State)
    requires SharedOk(s) && t < |s.pc| && YieldStep(s, t, s') && ThreadOk(s, t)
    ensures SharedOk(s')
  {
  }

  lemma YieldOther(s: State, t: nat, s': State, u: nat)
    requires SharedOk(s) && t < |s.pc| && YieldStep(s, t, s') && u < |s.pc| && u != t && ThreadOk(s, t)
    requires ThreadOk(s, u)
    ensures |s'.pc| == |s.pc| && ThreadOk(s', u)
  {
  }

  lemma EndSelf(s: State, t: nat, s': State)
    requires SharedOk(s) && t < |s.pc| && EndStep(s, t, s') && ThreadOk(s, t)
    ensures |s'.pc| == |s.pc| && ThreadOk(s', t)
  {
  }

  lemma EndShared(s: State, t: nat, s': State)
    requires SharedOk(s) && t < |s.pc| && EndStep(s, t, s') && ThreadOk(s, t)
    ensures SharedOk(s')
  {
  }

  lemma EndOther(s: State, t: nat, s': State, u: nat)
    requires SharedOk(s) && t < |s.pc| && EndStep(s, t, s') && u < |s.pc| && u != t && ThreadOk(s, t) && ThreadOk(s, u)
    ensures |s'.pc| == |s.pc| && ThreadOk(s', u)
  {
  }

  lemma ReleaseSelf(s: State, t: nat, w: nat, s': State)
    requires SharedOk(s) && t < |s.pc| && ReleaseStep(s, t, w, s') && ThreadOk(s, t)
    ensures |s'.pc| == |s.pc| && ThreadOk(s', t)
  {
  }

  lemma ReleaseShared(s: State, t: nat, w: nat, s': State)
    requires SharedOk(s) && t < |s.pc| && ReleaseStep(s, t, w, s') && ThreadOk(s, t)
    ensures SharedOk(s')
  {
  }

  lemma ReleaseOther(s: State, t: nat, w: nat, s': State, u: nat)
    requires SharedOk(s) && t < |s.pc| && ReleaseStep(s, t, w, s') && u < |s.pc| && u != t && ThreadOk(s, t)
    requires ThreadOk(s, u) && (w < |s.pc| ==> ThreadOk(s, w))
    ensures |s'.pc| == |s.pc| && ThreadOk(s', u)
  {
  }

  lemma EnterSelf(s: State, t: nat, s': State)
    requires SharedOk(s) && t < |s.pc| && EnterStep(s, t, s') && ThreadOk(s, t)
    ensures |s'.pc| == |s.pc| && ThreadOk(s', t)
  {
    hide CountOk;
  }

  lemma EnterShared(s: State, t: nat, s': State)
    requires SharedOk(s) && t < |s.pc| && EnterStep(s, t, s') && ThreadOk(s, t)
    ensures SharedOk(s')
  {
  }

  lemma EnterOther(s: State, t: nat, s': State, u: nat)
    requires SharedOk(s) && t < |s.pc| && EnterStep(s, t, s') && u < |s.pc| && u != t && ThreadOk(s, t)
    requires ThreadOk(s, u)
    ensures |s'.pc| == |s.pc| && ThreadOk(s', u)
  {
    hide CountOk;
  }

  lemma CountSelf(s: State, t: nat, s': State)
    requires SharedOk(s) && t < |s.pc| && CountStep(s, t, s') && ThreadOk(s, t)
    ensures |s'.pc| == |s.pc| && ThreadOk(s', t)
  {
  }

  lemma CountShared(s: State, t: nat, s': State)
    requires SharedOk(s) && t < |s.pc| && CountStep(s, t, s') && ThreadOk(s, t)
    ensures SharedOk(s')
  {
  }

  lemma CountOther(s: State, t: nat, s': State, u: nat)
    requires SharedOk(s) && t < |s.pc| && CountStep(s, t, s') && u < |s.pc| && u != t && ThreadOk(s, t)
    requires ThreadOk(s, u)
    ensures |s'.pc| == |s.pc| && ThreadOk(s', u)
  {
  }

  lemma WaitSelf(s: State, t: nat, s': State)
    requires SharedOk(s) && t < |s.pc| && WaitStep(s, t, s') && ThreadOk(s, t)
    ensures |s'.pc| == |s.pc| && ThreadOk(s', t)
  {
  }

  lemma WaitShared(s: State, t: nat, s': State)
    requires SharedOk(s) && t < |s.pc| && WaitStep(s, t, s') && ThreadOk(s, t)
    ensures SharedOk(s')
  {
  }

  lemma WaitOther(s: State, t: nat, s': State, u: nat)
    requires SharedOk(s) && t < |s.pc| && WaitStep(s, t, s') && u < |s.pc| && u != t && ThreadOk(s, t) && ThreadOk(s, u)
    ensures |s'.pc| == |s.pc| && ThreadOk(s', u)
  {
  }

  lemma DoneSelf(s: State, t: nat, s': State)
    requires SharedOk(s) && t < |s.pc| && DoneStep(s, t, s') && ThreadOk(s, t)
    ensures |s'.pc| == |s.pc| && ThreadOk(s', t)
  {
  }

  lemma DoneShared(s: State, t: nat, s': State)
    requires SharedOk(s) && t < |s.pc| && DoneStep(s, t, s') && ThreadOk(s, t)
    ensures SharedOk(s')
  {
  }

  lemma DoneOther(s: State, t: nat, s': State, u: nat)
    requires SharedOk(s) && t < |s.pc| && DoneStep(s, t, s') && u < |s.pc| && u != t && ThreadOk(s, t) && ThreadOk(s, u)
    ensures |s'.pc| == |s.pc| && ThreadOk(s', u)
  {
  }

  /** Every step of every thread keeps the invariant. */
  lemma StepKeeps(s: State, t: nat, w: nat, s': State)
    requires Inv(s) && t < |s.pc| && Step(s, t, w, s')
    ensures Inv(s')
  {
    hide ThreadOk, SharedOk, StartStep, YieldStep, EndStep, ReleaseStep, EnterStep, CountStep, WaitStep, DoneStep;
    MineKeeps(s, t, w, s');
    forall u | 0 <= u < |s'.pc| ensures ThreadOk(s', u) {
      if u != t { OtherKeeps(s, t, w, s', u); }
    }
  }

  lemma MineKeeps(s: State, t: nat, w: nat, s': State)
    requires Inv(s) && t < |s.pc| && Step(s, t, w, s')
    ensures |s'.pc| == |s.pc| && SharedOk(s') && ThreadOk(s', t)
  {
    hide ThreadOk, SharedOk, StartStep, YieldStep, EndStep, ReleaseStep, EnterStep, CountStep, WaitStep, DoneStep;
    if StartStep(s, t, s') { StartSelf(s, t, s'); StartShared(s, t, s'); }
    else if YieldStep(s, t, s') { YieldSelf(s, t, s'); YieldShared(s, t, s'); }
    else if EndStep(s, t, s') { EndSelf(s, t, s'); EndShared(s, t, s'); }
    else if ReleaseStep(s, t, w, s') { ReleaseSelf(s, t, w, s'); ReleaseShared(s, t, w, s'); }
    else if EnterStep(s, t, s') { EnterSelf(s, t, s'); EnterShared(s, t, s'); }
    else if CountStep(s, t, s') { CountSelf(s, t, s'); CountShared(s, t, s'); }
    else if WaitStep(s, t, s') { WaitSelf(s, t, s'); WaitShared(s, t, s'); }
    else { DoneSelf(s, t, s'); DoneShared(s, t, s'); }
  }

  lemma OtherKeeps(s: State, t: nat, w: nat, s': State, u: nat)
    requires Inv(s) && t < |s.pc| && Step(s, t, w, s') && u < |s.pc| && u != t
    ensures |s'.pc| == |s.pc| && ThreadOk(s', u)
  {
    hide ThreadOk, SharedOk, StartStep, YieldStep, EndStep, ReleaseStep, EnterStep, CountStep, WaitStep, DoneStep;
    if StartStep(s, t, s') { StartOther(s, t, s', u); }
    else if YieldStep(s, t, s') { YieldOther(s, t, s', u); }
    else if EndStep(s, t, s') { EndOther(s, t, s', u); }
    else if ReleaseStep(s, t, w, s') { ReleaseOther(s, t, w, s', u); }
    else if EnterStep(s, t, s') { EnterOther(s, t, s', u); }
    else if CountStep(s, t, s') { CountOther(s, t, s', u); }
    else if WaitStep(s, t, s') { WaitOther(s, t, s', u); }
    else { DoneOther(s, t, s', u); }
  }

  lemma {:induction false} RunInv(run: seq<State>, i: nat)
    requires IsRun(run) && i < |run|
    ensures Inv(run[i])
  {
    if i == 0 {
      InitInv(run[0]);
    } else {
      hide Step, Inv, Init;
      RunInv(run, i - 1);
      assert Next(run[i - 1], run[i - 1 + 1]);
      var t: nat, w: nat :| t < |run[i - 1].pc| && Step(run[i - 1], t, w, run[i]);
      StepKeeps(run[i - 1], t, w, run[i]);
    }
  }

  // ------------------------------------------------------------------------------------------
  // What the protocol promises

  /** From the return of start_exclusive to end_exclusive, no CPU is between cpu_exec_start and
      cpu_exec_end and no other thread is in an exclusive section. */
  lemma MutualExclusion(run: seq<State>, i: nat, t: nat, u: nat)
    requires IsRun(run) && i < |run| && t < |run[i].pc| && u < |run[i].pc| && u != t
    requires run[i].pc[t].Exclusive? || run[i].pc[t].DoneLock?
    ensures !run[i].pc[u].Running? && !run[i].pc[u].Exclusive? && !run[i].pc[u].DoneLock?
  {
    RunInv(run, i);
    assert ThreadOk(run[i], t) && ThreadOk(run[i], u);
  }

  /** Whenever the list lock is free, pending_cpus is 0 with no CPU counted, or one more than the
      number of counted CPUs, and each of these has yet to run the decrement of cpu_exec_end. */
  lemma PendingCounts(run: seq<State>, i: nat)
    requires IsRun(run) && i < |run| && run[i].lock == -1
    ensures var s := run[i];
      && (if s.pending == 0 then s.hasWaiter == {} else s.pending == 1 + |s.hasWaiter|)
      && forall c :: c in s.hasWaiter ==> c < |s.pc| && Counted(s.pc[c])
  {
    RunInv(run, i);
    forall c | c in run[i].hasWaiter ensures c < |run[i].pc| && Counted(run[i].pc[c]) {
      assert ThreadOk(run[i], c);
    }
  }

  /** No wake-up is lost: with the lock free, a sleeper that has not been woken waits for something
      that is still the case. */
  lemma SleepersHaveReason(run: seq<State>, i: nat, t: nat)
    requires IsRun(run) && i < |run| && run[i].lock == -1 && t < |run[i].pc|
    ensures run[i].pc[t].ExclWait? ==> run[i].pending > 1
    ensures run[i].pc[t].StartSleep? || run[i].pc[t].ExclSleep? ==> run[i].pending >= 1
  {
    RunInv(run, i);
    assert ThreadOk(run[i], t);
  }

  predicate Asleep(pc: Pc) {
    pc.StartSleep? || pc.ExclSleep? || pc.ExclWait?
  }

  predicate WantsLock(pc: Pc) {
    pc.StartLock? || pc.StartRelock? || pc.EndLock? || pc.ExclLock? || pc.ExclRelock? || pc.ExclRewait? || pc.DoneLock?
  }

  predicate Ready(s: State, t: nat)
    requires t < |s.pc|
  {
    s.pc[t] != Idle && !Asleep(s.pc[t]) && (WantsLock(s.pc[t]) ==> s.lock == -1)
  }

  /** A thread that is in the protocol and awake has a step. */
  ghost predicate CanMove(s: State, t: nat)
    requires t < |s.pc|
  {
    s.pc[t] != Idle && !Asleep(s.pc[t]) && exists w: nat, s': State :: Step(s, t, w, s')
  }

  lemma ReadyMoves(s: State, t: nat)
    requires t < |s.pc| && Ready(s, t)
    ensures CanMove(s, t)
  {
    var w := 0;
    var s' := match s.pc[t]
      case StartRead => Goto(s, t, if s.pending != 0 then StartLock else Running)
      case StartLock => Goto(s.(lock := t), t, StartCheck)
      case StartCheck => Goto(s, t, if t in s.hasWaiter then StartUnlock else StartClear)
      case StartClear => Goto(s.(running := s.running - {t}), t, StartIdle)
      case StartIdle => if s.pending != 0 then Goto(s.(lock := -1), t, StartSleep) else Goto(s, t, StartSet)
      case StartRelock => Goto(s.(lock := t), t, StartIdle)
      case StartSet => Goto(s.(running := s.running + {t}), t, StartUnlock)
      case StartUnlock => Goto(s.(lock := -1), t, Running)
      case Running => Goto(s.(running := s.running - {t}), t, EndRead)
      case EndRead => Goto(s, t, if s.pending != 0 then EndLock else Idle)
      case EndLock => Goto(s.(lock := t), t, EndCheck)
      case EndCheck => if t in s.hasWaiter then Goto(s.(hasWaiter := s.hasWaiter - {t}), t, EndDecrement)
          else Goto(s, t, EndUnlock)
      case EndDecrement => Goto(s.(pending := s.pending - 1), t, EndSignal)
      case EndSignal => Goto(s, t, EndUnlock)
      case EndUnlock => Goto(s.(lock := -1), t, Idle)
      case ExclLock => Goto(s.(lock := t), t, ExclIdle)
      case ExclIdle => if s.pending != 0 then Goto(s.(lock := -1), t, ExclSleep) else Goto(s, t, ExclMark)
      case ExclRelock => Goto(s.(lock := t), t, ExclIdle)
      case ExclMark => Goto(s.(pending := 1, owner := t), t, ExclScan(0, 0))
      case ExclScan(next, found) =>
        if next >= s.cpus then Goto(s.(pending := found + 1), t, ExclTest)
        else if next in s.running then Goto(s.(hasWaiter := s.hasWaiter + {next}), t, ExclScan(next + 1, found + 1))
        else Goto(s, t, ExclScan(next + 1, found))
      case ExclTest => if s.pending > 1 then Goto(s.(lock := -1), t, ExclWait) else Goto(s, t, ExclUnlock)
      case ExclRewait => Goto(s.(lock := t), t, ExclTest)
      case ExclUnlock => Goto(s.(lock := -1), t, Exclusive)
      case Exclusive => Goto(s, t, DoneLock)
      case DoneLock => Goto(s.(lock := t), t, DoneReset)
      case DoneReset => Goto(s.(pending := 0, owner := -1), t, DoneBroadcast)
      case DoneBroadcast => Goto(s.(pc := seq(|s.pc|, v requires 0 <= v < |s.pc| => Resumed(s.pc[v]))), t, DoneUnlock)
      case DoneUnlock => Goto(s.(lock := -1), t, Idle)
      case _ => s;
    if s.pc[t].EndSignal? && s.pending == 1 {
      if v :| 0 <= v < |s.pc| && s.pc[v] == ExclWait {
        w, s' := v, Goto(Goto(s, v, ExclRewait), t, EndUnlock);
      }
    }
    assert Step(s, t, w, s');
  }

  /** The protocol cannot deadlock: while any thread is in it, some thread can move without a
      spurious wake-up. */
  lemma NoDeadlock(run: seq<State>, i: nat, t: nat) returns (u: nat)
    requires IsRun(run) && i < |run| && t < |run[i].pc| && run[i].pc[t] != Idle
    ensures u < |run[i].pc| && CanMove(run[i], u)
  {
    RunInv(run, i);
    var s := run[i];
    u := t;
    assert ThreadOk(s, t);
    if s.lock >= 0 {
      u := s.lock;
      assert ThreadOk(s, u);
    } else if Asleep(s.pc[t]) {
      u := s.owner;
      assert ThreadOk(s, u);
      if s.pc[u].ExclWait? {
        var c :| c in s.hasWaiter;
        u := c;
        assert ThreadOk(s, u);
      }
    }
    ReadyMoves(s, u);
  }


  ghost predicate Reachable(s: State) {
    exists run :: IsRun(run) && run[|run| - 1] == s
  }

  lemma ReachInit(s: State)
    requires Init(s)
    ensures Reachable(s)
  {
    assert IsRun([s]) && [s][|[s]| - 1] == s;
  }

  lemma ReachNext(s: State, t: nat, s': State)
    requires Reachable(s) && t < |s.pc| && Step(s, t, 0, s')
    ensures Reachable(s')
  {
    hide Step, Init;
    var run :| IsRun(run) && run[|run| - 1] == s;
    var run' := run + [s'];
    assert Next(s, s');
    forall i | 0 <= i < |run'| - 1 ensures Next(run'[i], run'[i + 1]) {
      if i < |run| - 1 { assert Next(run[i], run[i + 1]); }
    }
    assert IsRun(run') && run'[|run'| - 1] == s';
  }

  /** Thread 0 of two walks through start_exclusive while the other does not move. */
  lemma ReachScan()
    ensures Reachable(State(2, [ExclScan(0, 0), Idle], 0, 1, {}, {}, 0))
  {
    hide Reachable, StartStep, YieldStep, EndStep, ReleaseStep, WaitStep, DoneStep;
    var s0, s1 := State(2, [Idle, Idle], -1, 0, {}, {}, -1), State(2, [ExclLock, Idle], -1, 0, {}, {}, -1);
    var s2, s3 := State(2, [ExclIdle, Idle], 0, 0, {}, {}, -1), State(2, [ExclMark, Idle], 0, 0, {}, {}, -1);
    ReachInit(s0);
    ReachNext(s0, 0, s1);
    ReachNext(s1, 0, s2);
    ReachNext(s2, 0, s3);
    ReachNext(s3, 0, State(2, [ExclScan(0, 0), Idle], 0, 1, {}, {}, 0));
  }

  lemma ReachTest()
    ensures Reachable(State(2, [ExclTest, Idle], 0, 1, {}, {}, 0))
  {
    hide Reachable, StartStep, YieldStep, EndStep, ReleaseStep, EnterStep, WaitStep, DoneStep;
    ReachScan();
    var s1, s2 := State(2, [ExclScan(1, 0), Idle], 0, 1, {}, {}, 0), State(2, [ExclScan(2, 0), Idle], 0, 1, {}, {}, 0);
    ReachNext(State(2, [ExclScan(0, 0), Idle], 0, 1, {}, {}, 0), 0, s1);
    ReachNext(s1, 0, s2);
    ReachNext(s2, 0, State(2, [ExclTest, Idle], 0, 1, {}, {}, 0));
  }

  lemma ReachExclusive()
    ensures Reachable(State(2, [Exclusive, Idle], -1, 1, {}, {}, 0))
  {
    hide Reachable, StartStep, YieldStep, EndStep, ReleaseStep, EnterStep, CountStep, DoneStep;
    ReachTest();
    var s1 := State(2, [ExclUnlock, Idle], 0, 1, {}, {}, 0);
    ReachNext(State(2, [ExclTest, Idle], 0, 1, {}, {}, 0), 0, s1);
    ReachNext(s1, 0, State(2, [Exclusive, Idle], -1, 1, {}, {}, 0));
  }

  /** The bare running flag is not excluded: a CPU that enters cpu_exec_start during an exclusive section
      shows it until it has seen pending_cpus. */
  lemma FlagMayShow() returns (s: State)
    ensures Reachable(s) && |s.pc| == 2 && s.pc[0] == Exclusive && 1 in s.running
  {
    hide Reachable, YieldStep, EndStep, ReleaseStep, EnterStep, CountStep, WaitStep, DoneStep;
    ReachExclusive();
    s := State(2, [Exclusive, StartRead], -1, 1, {1}, {}, 0);
    ReachNext(State(2, [Exclusive, Idle], -1, 1, {}, {}, 0), 1, s);
  }

  // ------------------------------------------------------------------------------------------
  // Where the four functions lead

  datatype Region = Outside | Starting | Executing | Ending | Entering | Alone | Finishing

  /** The function that a thread is in, or what it does between two of them. */
  function RegionOf(pc: Pc): Region {
    match pc
    case Idle => Outside
    case StartRead | StartLock | StartCheck | StartClear | StartIdle | StartSleep | StartRelock | StartSet
       | StartUnlock => Starting
    case Running => Executing
    case EndRead | EndLock | EndCheck | EndDecrement | EndSignal | EndUnlock => Ending
    case ExclLock | ExclIdle | ExclSleep | ExclRelock | ExclMark | ExclScan(_, _) | ExclTest | ExclWait | ExclRewait
       | ExclUnlock => Entering
    case Exclusive => Alone
    case DoneLock | DoneReset | DoneBroadcast | DoneUnlock => Finishing
  }

  /** A thread stays in the function it is in, or leaves it at its end: cpu_exec_start ends with the CPU executing,
      start_exclusive in the exclusive section, and the other two outside. */
  predicate Leads(pc: Pc, pc': Pc) {
    || RegionOf(pc') == RegionOf(pc)
    || match RegionOf(pc)
       case Outside => pc'.StartRead? || pc'.ExclLock?
       case Starting => RegionOf(pc') == Executing
       case Executing => pc'.EndRead?
       case Ending => RegionOf(pc') == Outside
       case Entering => RegionOf(pc') == Alone
       case Alone => pc'.DoneLock?
       case Finishing => RegionOf(pc') == Outside
  }

  lemma FunctionsEnd(run: seq<State>, i: nat, u: nat)
    requires IsRun(run) && i < |run| - 1 && u < |run[i].pc|
    ensures |run[i + 1].pc| == |run[i].pc| && Leads(run[i].pc[u], run[i + 1].pc[u])
  {
    assert Next(run[i], run[i + 1]);
    var t: nat, w: nat :| t < |run[i].pc| && Step(run[i], t, w, run[i + 1]);
    StepLeads(run[i], t, w, run[i + 1], u);
  }

  lemma StepLeads(s: State, t: nat, w: nat, s': State, u: nat)
    requires t < |s.pc| && u < |s.pc| && Step(s, t, w, s')
    ensures |s'.pc| == |s.pc| && Leads(s.pc[u], s'.pc[u])
  {
    if t == u { SelfLeads(s, t, w, s'); } else { OtherLeads(s, t, w, s', u); }
  }

  lemma StartLeads(s: State, t: nat, s': State)
    requires t < |s.pc| && StartStep(s, t, s')
    ensures |s'.pc| == |s.pc| && Leads(s.pc[t], s'.pc[t])
  {
  }

  lemma YieldLeads(s: State, t: nat, s': State)
    requires t < |s.pc| && YieldStep(s, t, s')
    ensures |s'.pc| == |s.pc| && Leads(s.pc[t], s'.pc[t])
  {
  }

  lemma EndLeads(s: State, t: nat, s': State)
    requires t < |s.pc| && EndStep(s, t, s')
    ensures |s'.pc| == |s.pc| && Leads(s.pc[t], s'.pc[t])
  {
  }

  lemma EnterLeads(s: State, t: nat, s': State)
    requires t < |s.pc| && EnterStep(s, t, s')
    ensures |s'.pc| == |s.pc| && Leads(s.pc[t], s'.pc[t])
  {
  }

  lemma CountLeads(s: State, t: nat, s': State)
    requires t < |s.pc| && CountStep(s, t, s')
    ensures |s'.pc| == |s.pc| && Leads(s.pc[t], s'.pc[t])
  {
  }

  lemma WaitLeads(s: State, t: nat, s': State)
    requires t < |s.pc| && WaitStep(s, t, s')
    ensures |s'.pc| == |s.pc| && Leads(s.pc[t], s'.pc[t])
  {
  }

  lemma DoneLeads(s: State, t: nat, s': State)
    requires t < |s.pc| && DoneStep(s, t, s')
    ensures |s'.pc| == |s.pc| && Leads(s.pc[t], s'.pc[t])
  {
  }

  lemma ReleaseLeads(s: State, t: nat, w: nat, s': State)
    requires t < |s.pc| && ReleaseStep(s, t, w, s')
    ensures |s'.pc| == |s.pc| && Leads(s.pc[t], s'.pc[t])
  {
  }

  lemma SelfLeads(s: State, t: nat, w: nat, s': State)
    requires t < |s.pc| && Step(s, t, w, s')
    ensures |s'.pc| == |s.pc| && Leads(s.pc[t], s'.pc[t])
  {
    hide StartStep, YieldStep, EndStep, ReleaseStep, EnterStep, CountStep, WaitStep, DoneStep, Leads;
    if StartStep(s, t, s') { StartLeads(s, t, s'); }
    else if YieldStep(s, t, s') { YieldLeads(s, t, s'); }
    else if EndStep(s, t, s') { EndLeads(s, t, s'); }
    else if ReleaseStep(s, t, w, s') { ReleaseLeads(s, t, w, s'); }
    else if EnterStep(s, t, s') { EnterLeads(s, t, s'); }
    else if CountStep(s, t, s') { CountLeads(s, t, s'); }
    else if WaitStep(s, t, s') { WaitLeads(s, t, s'); }
    else { DoneLeads(s, t, s'); }
  }

  /** Another thread can only wake a sleeper. */
  predicate Stays(pc: Pc, pc': Pc) {
    pc' == pc || pc' == Resumed(pc) || (pc == ExclWait && pc' == ExclRewait)
  }

  lemma StaysLeads(pc: Pc, pc': Pc)
    requires Stays(pc, pc')
    ensures Leads(pc, pc')
  {
  }

  lemma QuietOthers(s: State, t: nat, s': State, u: nat)
    requires t < |s.pc| && u < |s.pc| && u != t
    requires StartStep(s, t, s') || YieldStep(s, t, s') || EndStep(s, t, s') || EnterStep(s, t, s')
    ensures |s'.pc| == |s.pc| && Stays(s.pc[u], s'.pc[u])
  {
  }

  lemma BusyOthers(s: State, t: nat, w: nat, s': State, u: nat)
    requires t < |s.pc| && u < |s.pc| && u != t
    requires ReleaseStep(s, t, w, s') || CountStep(s, t, s') || WaitStep(s, t, s') || DoneStep(s, t, s')
    ensures |s'.pc| == |s.pc| && Stays(s.pc[u], s'.pc[u])
  {
  }

  lemma OtherLeads(s: State, t: nat, w: nat, s': State, u: nat)
    requires t < |s.pc| && u < |s.pc| && u != t && Step(s, t, w, s')
    ensures |s'.pc| == |s.pc| && Leads(s.pc[u], s'.pc[u])
  {
    hide StartStep, YieldStep, EndStep, ReleaseStep, EnterStep, CountStep, WaitStep, DoneStep, Leads, Stays;
    if StartStep(s, t, s') || YieldStep(s, t, s') || EndStep(s, t, s') || EnterStep(s, t, s') {
      QuietOthers(s, t, s', u);
    } else {
      BusyOthers(s, t, w, s', u);
    }
    StaysLeads(s.pc[u], s'.pc[u]);
  }

  /** The running flag of a CPU is set exactly from its first write in cpu_exec_start, or the one after an exclusive
      section that it let pass, to cpu_exec_end. */
  lemma FlagMeans(run: seq<State>, i: nat, t: nat)
    requires IsRun(run) && i < |run| && t < |run[i].pc|
    ensures run[i].pc[t].Running? ==> t in run[i].running && t < run[i].cpus
    ensures var pc := run[i].pc[t];
      RegionOf(pc) == Ending || pc.Idle? || pc.StartIdle? || pc.StartSleep? ==> t !in run[i].running
  {
    RunInv(run, i);
    assert ThreadOk(run[i], t);
  }

  /** A CPU that comes in during an exclusive section lets it pass and runs after it. */
  lemma YieldedCpuRuns() returns (s: State)
    ensures Reachable(s) && |s.pc| == 2 && s.pc[1] == Running && s.pc[0] == Idle
  {
    hide Reachable, StartStep, YieldStep, DoneStep;
    CpuLooks();
    CpuYields();
    SectionEnds();
    CpuWakes();
    s := State(2, [Idle, Running], -1, 0, {1}, {}, -1);
  }

  lemma CpuLooks()
    ensures Reachable(State(2, [Exclusive, StartClear], 1, 1, {1}, {}, 0))
  {
    hide Reachable;
    ReachExclusive();
    var s := State(2, [Exclusive, Idle], -1, 1, {}, {}, 0);
    s := Starts(s, 1, State(2, [Exclusive, StartRead], -1, 1, {1}, {}, 0));
    s := Starts(s, 1, State(2, [Exclusive, StartLock], -1, 1, {1}, {}, 0));
    s := Starts(s, 1, State(2, [Exclusive, StartCheck], 1, 1, {1}, {}, 0));
    s := Starts(s, 1, State(2, [Exclusive, StartClear], 1, 1, {1}, {}, 0));
  }

  lemma CpuYields()
    requires Reachable(State(2, [Exclusive, StartClear], 1, 1, {1}, {}, 0))
    ensures Reachable(State(2, [Exclusive, StartSleep], -1, 1, {}, {}, 0))
  {
    hide Reachable;
    var s := State(2, [Exclusive, StartClear], 1, 1, {1}, {}, 0);
    s := Yields(s, 1, State(2, [Exclusive, StartIdle], 1, 1, {}, {}, 0));
    s := Yields(s, 1, State(2, [Exclusive, StartSleep], -1, 1, {}, {}, 0));
  }

  lemma SectionEnds()
    requires Reachable(State(2, [Exclusive, StartSleep], -1, 1, {}, {}, 0))
    ensures Reachable(State(2, [Idle, StartRelock], -1, 0, {}, {}, -1))
  {
    hide Reachable;
    var s := State(2, [Exclusive, StartSleep], -1, 1, {}, {}, 0);
    s := Ends(s, 0, State(2, [DoneLock, StartSleep], -1, 1, {}, {}, 0));
    s := Ends(s, 0, State(2, [DoneReset, StartSleep], 0, 1, {}, {}, 0));
    s := Ends(s, 0, State(2, [DoneBroadcast, StartSleep], 0, 0, {}, {}, -1));
    SectionOver();
  }

  lemma SectionOver()
    requires Reachable(State(2, [DoneBroadcast, StartSleep], 0, 0, {}, {}, -1))
    ensures Reachable(State(2, [Idle, StartRelock], -1, 0, {}, {}, -1))
  {
    hide Reachable;
    var s := State(2, [DoneBroadcast, StartSleep], 0, 0, {}, {}, -1);
    SleeperWoken();
    s := Ends(s, 0, State(2, [DoneUnlock, StartRelock], 0, 0, {}, {}, -1));
    s := Ends(s, 0, State(2, [Idle, StartRelock], -1, 0, {}, {}, -1));
  }

  lemma SleeperWoken()
    ensures DoneStep(State(2, [DoneBroadcast, StartSleep], 0, 0, {}, {}, -1), 0,
                     State(2, [DoneUnlock, StartRelock], 0, 0, {}, {}, -1))
  {
    var pc := [DoneBroadcast, StartSleep];
    var woken := seq(2, v requires 0 <= v < 2 => Resumed(pc[v]));
    assert woken[0 := DoneUnlock] == [DoneUnlock, StartRelock];
  }

  lemma CpuWakes()
    requires Reachable(State(2, [Idle, StartRelock], -1, 0, {}, {}, -1))
    ensures Reachable(State(2, [Idle, Running], -1, 0, {1}, {}, -1))
  {
    hide Reachable;
    var s := State(2, [Idle, StartRelock], -1, 0, {}, {}, -1);
    s := Yields(s, 1, State(2, [Idle, StartIdle], 1, 0, {}, {}, -1));
    s := Yields(s, 1, State(2, [Idle, StartSet], 1, 0, {}, {}, -1));
    s := Yields(s, 1, State(2, [Idle, StartUnlock], 1, 0, {1}, {}, -1));
    s := Starts(s, 1, State(2, [Idle, Running], -1, 0, {1}, {}, -1));
  }

  lemma Starts(s: State, t: nat, s': State) returns (r: State)
    requires Reachable(s) && t < |s.pc| && StartStep(s, t, s')
    ensures Reachable(s') && r == s'
  {
    hide Reachable, StartStep;
    ReachNext(s, t, s');
    r := s';
  }

  lemma Yields(s: State, t: nat, s': State) returns (r: State)
    requires Reachable(s) && t < |s.pc| && YieldStep(s, t, s')
    ensures Reachable(s') && r == s'
  {
    hide Reachable, YieldStep;
    ReachNext(s, t, s');
    r := s';
  }

  lemma Ends(s: State, t: nat, s': State) returns (r: State)
    requires Reachable(s) && t < |s.pc| && DoneStep(s, t, s')
    ensures Reachable(s') && r == s'
  {
    hide Reachable, DoneStep;
    ReachNext(s, t, s');
    r := s';
  }
}
