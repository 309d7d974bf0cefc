/** The notify_me wake-up optimisation: qemu_bh_schedule, aio_bh_schedule_oneshot and aio_notify of
    async.c against both kinds of poller, aio_poll of aio-posix.c and the event source of async.c in the main
    loop, one step per access to shared state, with any number of scheduling threads and of threads in
    aio_poll. Pollers in aio_poll add 2 to notify_me, the main loop sets its bit 0. Bottom halves are never
    scheduled idle. */
module NotifyProtocol {
  type Bh = nat

  /** The thread that runs the main loop. It may call aio_poll like any other. */
  const MAIN_LOOP: nat := 0

  /** A thread that polls. `todo` is the part of the bottom-half list that the walk has not reached. The states
      of the event source start with an S. */
  datatype Poller =
    | Resting
    | Begin                       // blocking: notify_me += 2 done
    | Compute(todo: seq<Bh>)      // aio_compute_timeout walks the list
    | Blocked                     // in poll() with a non-zero timeout
    | Instant                     // in poll() with timeout 0
    | Woken                       // poll() has returned; about to do notify_me -= 2
    | Accept                      // aio_notify_accept: about to exchange `notified`
    | Clear                       // about to test and clear the notifier
    | Dispatch                    // about to read first_bh in aio_bh_poll
    | Walk(todo: seq<Bh>)         // aio_bh_poll
    | SBegin                      // aio_ctx_prepare: notify_me |= 1 done
    | SCompute(todo: seq<Bh>)     // aio_compute_timeout walks the list
    | SReady                      // prepare found work: dispatched without a call of aio_ctx_check
    | SBlocked                    // in the main loop's poll()
    | SCheck                      // aio_ctx_check: about to do notify_me &= ~1
    | SAccept                     // aio_notify_accept
    | SClear
    | SLook                       // about to read first_bh
    | SScan(todo: seq<Bh>)        // looks for a scheduled bottom half

  /** A thread that has just set bh->scheduled from 0 to 1. */
  datatype Scheduler =
    | Out
    | ReadMe(bh: Bh)              // aio_notify: about to read notify_me
    | SetEvent(bh: Bh)            // about to call event_notifier_set
    | SetFlag                     // about to set `notified`

  /** `counted` records which pollers have added 2 to notify_me, `raised` how often `notified` was set and `taken`
      how often a poller found it set; no step depends on them. */
  datatype State = State(list: seq<Bh>, scheduled: set<Bh>, notifyMe: int, notifier: bool, notified: bool,
                         pollers: seq<Poller>, threads: seq<Scheduler>, counted: set<nat>, raised: nat, taken: nat)

  predicate Init(s: State) {
    && s.scheduled == {} && s.list == [] && s.notifyMe == 0 && !s.notifier && !s.notified && s.counted == {}
    && s.raised == 0 && s.taken == 0
    && (forall p :: 0 <= p < |s.pollers| ==> s.pollers[p] == Resting)
    && (forall t :: 0 <= t < |s.threads| ==> s.threads[t] == Out)
  }

  function PollerAt(s: State, p: nat, pc: Poller): State
    requires p < |s.pollers|
  {
    s.(pollers := s.pollers[p := pc])
  }

  function ThreadAt(s: State, t: nat, pc: Scheduler): State
    requires t < |s.threads|
  {
    s.(threads := s.threads[t := pc])
  }

  /** The exchange in aio_notify_accept. */
  function Accepted(s: State): State {
    s.(notified := false, taken := if s.notified then s.taken + 1 else s.taken)
  }

  /** aio_poll up to the return of poll(). */
  predicate WaitStep(s: State, p: nat, s': State)
    requires p < |s.pollers|
  {
    match s.pollers[p]
    case Resting =>
      || s' == PollerAt(s.(notifyMe := s.notifyMe + 2, counted := s.counted + {p}), p, Begin)
      || s' == PollerAt(s, p, Accept)                        // non-blocking: poll() with timeout 0
    case Begin => s' == PollerAt(s, p, Compute(s.list))
    case Compute(todo) =>
      if todo == [] then s' == PollerAt(s, p, Blocked) || s' == PollerAt(s, p, Instant)  // the timers decide
      else s' == PollerAt(s, p, if todo[0] in s.scheduled then Instant else Compute(todo[1..]))
    case Blocked => s' == PollerAt(s, p, Woken)              // the notifier, another descriptor or the timeout
    case Instant => s' == PollerAt(s, p, Woken)
    case _ => false
  }

  /** aio_poll from the return of poll() to the start of aio_bh_poll. */
  predicate AcceptStep(s: State, p: nat, s': State)
    requires p < |s.pollers|
  {
    match s.pollers[p]
    case Woken => s' == PollerAt(s.(notifyMe := s.notifyMe - 2, counted := s.counted - {p}), p, Accept)
    case Accept => s' == PollerAt(Accepted(s), p, if s.notified then Clear else Dispatch)
    case Clear => s' == PollerAt(s.(notifier := false), p, Dispatch)
    case Dispatch => s' == PollerAt(s, p, Walk(s.list))
    case _ => false
  }

  function WithBit(n: int): int { n - n % 2 + 1 }

  function WithoutBit(n: int): int { n - n % 2 }

  /** The event source in the main loop, from aio_ctx_prepare to the return of poll(). */
  predicate PrepareStep(s: State, p: nat, s': State)
    requires p < |s.pollers|
  {
    && p == MAIN_LOOP
    && match s.pollers[p]
       case Resting => s' == PollerAt(s.(notifyMe := WithBit(s.notifyMe)), p, SBegin)
       case SBegin => s' == PollerAt(s, p, SCompute(s.list))
       case SCompute(todo) =>
         if todo == [] then s' == PollerAt(s, p, SBlocked) || s' == PollerAt(s, p, SReady)  // the timers decide
         else s' == PollerAt(s, p, if todo[0] in s.scheduled then SReady else SCompute(todo[1..]))
       case SBlocked => s' == PollerAt(s, p, SCheck)
       case _ => false
  }

  /** From aio_ctx_check to aio_ctx_dispatch. */
  predicate CheckStep(s: State, p: nat, s': State)
    requires p < |s.pollers|
  {
    && p == MAIN_LOOP
    && match s.pollers[p]
       case SReady => s' == PollerAt(s, p, Dispatch)
       case SCheck => s' == PollerAt(s.(notifyMe := WithoutBit(s.notifyMe)), p, SAccept)
       case SAccept => s' == PollerAt(Accepted(s), p, if s.notified then SClear else SLook)
       case SClear => s' == PollerAt(s.(notifier := false), p, SLook)
       case SLook => s' == PollerAt(s, p, SScan(s.list))
       case SScan(todo) =>
         if todo == [] then s' == PollerAt(s, p, Dispatch)                  // a descriptor or a timer is ready
         else s' == PollerAt(s, p, if todo[0] in s.scheduled then Dispatch else SScan(todo[1..]))
       case _ => false
  }

  /** An iteration of the main loop that does not dispatch the source: nothing was found, or a source of higher
      priority was ready and this one is not even checked, which leaves bit 0 set. The iteration may have been
      run by a callback of a walk. */
  ghost predicate LeaveStep(s: State, p: nat, s': State)
    requires p < |s.pollers|
  {
    && (s.pollers[p] == SBlocked || s.pollers[p] == SScan([]))
    && (s' == PollerAt(s, p, Resting) || exists outer :: s' == PollerAt(s, p, Walk(outer)))
  }

  /** aio_bh_poll visits a bottom half, and its callback may enter a nested aio_poll or main loop. */
  predicate VisitStep(s: State, p: nat, s': State)
    requires p < |s.pollers|
  {
    && s.pollers[p].Walk? && s.pollers[p].todo != []
    && var todo := s.pollers[p].todo;
       || s' == PollerAt(s.(scheduled := s.scheduled - {todo[0]}), p, Walk(todo[1..]))
       || s' == PollerAt(s.(notifyMe := s.notifyMe + 2, counted := s.counted + {p}), p, Begin)
       || s' == PollerAt(s, p, Accept)
       || (p == MAIN_LOOP && s' == PollerAt(s.(notifyMe := WithBit(s.notifyMe)), p, SBegin))
  }

  /** aio_bh_poll ends: aio_poll returns, perhaps into the walk of an outer one. */
  ghost predicate ReturnStep(s: State, p: nat, s': State)
    requires p < |s.pollers|
  {
    s.pollers[p] == Walk([]) && (s' == PollerAt(s, p, Resting) || exists outer :: s' == PollerAt(s, p, Walk(outer)))
  }

  /** qemu_bh_schedule, aio_bh_schedule_oneshot and aio_notify. */
  predicate ScheduleStep(s: State, t: nat, bh: Bh, s': State)
    requires t < |s.threads|
  {
    match s.threads[t]
    case Out =>
      || (bh in s.list && bh !in s.scheduled && s' == ThreadAt(s.(scheduled := s.scheduled + {bh}), t, ReadMe(bh)))
      || (bh !in s.list && s' == ThreadAt(s.(list := [bh] + s.list, scheduled := s.scheduled + {bh}), t, ReadMe(bh)))
    case ReadMe(b) => s' == ThreadAt(s, t, if s.notifyMe != 0 then SetEvent(b) else Out)
    case SetEvent(b) => s' == ThreadAt(s.(notifier := true), t, SetFlag)
    case SetFlag => s' == ThreadAt(s.(notified := true, raised := s.raised + 1), t, Out)
  }

  /** aio_bh_new, qemu_bh_cancel or qemu_bh_delete, and the unlinking of a deleted bottom half. */
  predicate ListStep(s: State, bh: Bh, s': State) {
    || (bh !in s.list && s' == s.(list := [bh] + s.list))
    || s' == s.(scheduled := s.scheduled - {bh})
    || (bh !in s.scheduled &&
        exists i :: 0 <= i < |s.list| && s.list[i] == bh && s' == s.(list := s.list[..i] + s.list[i + 1..]))
  }

  ghost predicate PollStep(s: State, p: nat, s': State)
    requires p < |s.pollers|
  {
    || WaitStep(s, p, s') || AcceptStep(s, p, s') || VisitStep(s, p, s') || ReturnStep(s, p, s')
    || PrepareStep(s, p, s') || CheckStep(s, p, s') || LeaveStep(s, p, s')
  }

  ghost predicate Step(s: State, n: nat, bh: Bh, s': State) {
    || (n < |s.pollers| && PollStep(s, n, s'))
    || (n < |s.threads| && ScheduleStep(s, n, bh, s')) || ListStep(s, bh, s')
  }

  ghost predicate Next(s: State, s': State) {
    exists n: nat, bh: Bh :: Step(s, n, bh, s')
  }

  ghost predicate IsRun(run: seq<State>) {
    && |run| > 0 && Init(run[0])
    && forall i :: 0 <= i < |run| - 1 ==> Next(run[i], run[i + 1])
  }

  // ------------------------------------------------------------------------------------------
  // The inductive invariant

  predicate Counted(pc: Poller) {
    pc.Begin? || pc.Compute? || pc.Blocked? || pc.Instant? || pc.Woken?
  }

  /** The event source has set bit 0 and not yet cleared it. */
  predicate Announced(pc: Poller) {
    pc.SBegin? || pc.SCompute? || pc.SReady? || pc.SBlocked? || pc.SCheck?
  }

  /** The event source has cleared bit 0 and not yet decided. */
  predicate Checking(pc: Poller) {
    pc.SAccept? || pc.SClear? || pc.SLook? || pc.SScan?
  }

  /** The poller has still to look at `bh` before it can block. */
  predicate WillVisit(pc: Poller, bh: Bh) {
    match pc
    case Resting => false
    case Blocked => false
    case SBlocked => false
    case Compute(todo) => bh in todo
    case SCompute(todo) => bh in todo
    case SScan(todo) => bh in todo
    case Walk(todo) => bh in todo
    case _ => true
  }

  /** A scheduler of `bh` is between its exchange on `scheduled` and its event_notifier_set. */
  predicate InFlight(s: State, bh: Bh) {
    exists t :: 0 <= t < |s.threads| && (s.threads[t] == ReadMe(bh) || s.threads[t] == SetEvent(bh))
  }

  predicate Visited(s: State, bh: Bh) {
    exists p :: 0 <= p < |s.pollers| && WillVisit(s.pollers[p], bh)
  }

  predicate Covered(s: State, bh: Bh) {
    s.notifier || InFlight(s, bh) || Visited(s, bh)
  }

  /** notify_me counts the pollers in aio_poll that have announced themselves, twice, and bit 0 may be set. */
  ghost predicate SetOk(s: State) {
    && (forall p :: p in s.counted <==> 0 <= p < |s.pollers| && Counted(s.pollers[p]))
    && 2 * |s.counted| <= s.notifyMe <= 2 * |s.counted| + 1
  }

  /** Bit 0 is set while the event source has announced itself, and clear while it checks. */
  ghost predicate BitOk(s: State) {
    && (forall p :: 0 <= p < |s.pollers| && Announced(s.pollers[p]) ==> p == MAIN_LOOP && s.notifyMe % 2 == 1)
    && (forall p :: 0 <= p < |s.pollers| && Checking(s.pollers[p]) ==> p == MAIN_LOOP && s.notifyMe % 2 == 0)
  }

  ghost predicate Inv(s: State) {
    && SetOk(s) && BitOk(s)
    && (forall b :: b in s.scheduled ==> b in s.list)
    && (s.notifyMe != 0 ==> forall b :: b in s.scheduled ==> Covered(s, b))
  }

  lemma KeepsCovered(s: State, s': State, bh: Bh)
    requires Covered(s, bh)
    requires s.notifier ==> s'.notifier
    requires |s'.threads| == |s.threads| && |s'.pollers| == |s.pollers|
    requires forall t :: 0 <= t < |s.threads| && (s.threads[t] == ReadMe(bh) || s.threads[t] == SetEvent(bh)) ==>
               s'.notifier || s'.threads[t] == ReadMe(bh) || s'.threads[t] == SetEvent(bh)
    requires forall p :: 0 <= p < |s.pollers| && WillVisit(s.pollers[p], bh) ==> WillVisit(s'.pollers[p], bh)
    ensures Covered(s', bh)
  {
    hide WillVisit;
    if !s'.notifier && InFlight(s, bh) {
      var t :| 0 <= t < |s.threads| && (s.threads[t] == ReadMe(bh) || s.threads[t] == SetEvent(bh));
      assert s'.threads[t] == ReadMe(bh) || s'.threads[t] == SetEvent(bh);
    } else if !s'.notifier && Visited(s, bh) {
      var p :| 0 <= p < |s.pollers| && WillVisit(s.pollers[p], bh);
      assert WillVisit(s'.pollers[p], bh);
    }
  }

  /** What a move of a poller must respect to keep a bottom half covered. */
  predicate Moves(s: State, p: nat, s': State, bh: Bh)
    requires p < |s.pollers|
  {
    && |s'.pollers| == |s.pollers| && s'.pollers == s.pollers[p := s'.pollers[p]] && s'.threads == s.threads
    && (WillVisit(s'.pollers[p], bh) ||
        (s.notifyMe != 0 && (s.notifier ==> s'.notifier) && !WillVisit(s.pollers[p], bh)))
  }

  lemma MoveCovered(s: State, p: nat, s': State, bh: Bh)
    requires p < |s.pollers| && Moves(s, p, s', bh) && (s.notifyMe != 0 ==> Covered(s, bh))
    ensures Covered(s', bh)
  {
    hide WillVisit, Covered;
    if WillVisit(s'.pollers[p], bh) { VisitCovered(s', p, bh); } else { KeepsCovered(s, s', bh); }
  }

  lemma VisitCovered(s: State, p: nat, bh: Bh)
    requires p < |s.pollers| && WillVisit(s.pollers[p], bh)
    ensures Covered(s, bh)
  {
  }

  /** How a poller's move changes the set of announced pollers. */
  predicate Counts(s: State, p: nat, s': State)
    requires p < |s.pollers|
  {
    && |s'.pollers| == |s.pollers| && s'.pollers == s.pollers[p := s'.pollers[p]]
    && s'.list == s.list && s'.scheduled <= s.scheduled
    && var was, now := s.pollers[p], s'.pollers[p];
       || (Counted(now) == Counted(was) && (Announced(now) ==> Announced(was)) && (Checking(now) ==> Checking(was))
           && s'.counted == s.counted && s'.notifyMe == s.notifyMe)
       || (Counted(now) && !Counted(was) && s'.counted == s.counted + {p} && s'.notifyMe == s.notifyMe + 2)
       || (!Counted(now) && Counted(was) && !Announced(now) && !Checking(now)
           && s'.counted == s.counted - {p} && s'.notifyMe == s.notifyMe - 2)
       || (!Counted(now) && !Counted(was) && p == MAIN_LOOP && s'.counted == s.counted
           && (|| (s'.notifyMe == WithBit(s.notifyMe) && !Checking(now))
               || (s'.notifyMe == WithoutBit(s.notifyMe) && !Announced(now))))
  }

  lemma MoveCounts(s: State, p: nat, s': State)
    requires SetOk(s) && BitOk(s) && p < |s.pollers| && Counts(s, p, s')
    ensures SetOk(s') && BitOk(s')
  {
    MoveSet(s, p, s');
    MoveBit(s, p, s');
  }

  lemma MoveSet(s: State, p: nat, s': State)
    requires SetOk(s) && p < |s.pollers| && Counts(s, p, s')
    ensures SetOk(s')
  {
    hide Counted, Announced;
    assert Counted(s.pollers[p]) <==> p in s.counted;
    assert p !in s.counted ==> |s.counted + {p}| == |s.counted| + 1;
    assert p in s.counted ==> |s.counted - {p}| == |s.counted| - 1;
  }

  lemma MoveBit(s: State, p: nat, s': State)
    requires BitOk(s) && p < |s.pollers| && Counts(s, p, s')
    ensures BitOk(s')
  {
    assert forall q :: 0 <= q < |s.pollers| && q != p ==> s'.pollers[q] == s.pollers[q];
    assert Counted(s'.pollers[p]) ==> !Announced(s'.pollers[p]) && !Checking(s'.pollers[p]);
  }

  lemma WaitMoves(s: State, p: nat, s': State)
    requires p < |s.pollers| && WaitStep(s, p, s')
    ensures Counts(s, p, s')
  {
    hide WithBit, WithoutBit;
  }

  lemma WaitKeeps(s: State, p: nat, s': State, b: Bh)
    requires p < |s.pollers| && WaitStep(s, p, s') && b in s.scheduled * s'.scheduled && b in s.list
    requires s'.notifyMe != 0
    ensures Moves(s, p, s', b)
  {
  }

  lemma AcceptMoves(s: State, p: nat, s': State)
    requires p < |s.pollers| && AcceptStep(s, p, s')
    ensures Counts(s, p, s')
  {
    hide WithBit, WithoutBit;
  }

  lemma AcceptKeeps(s: State, p: nat, s': State, b: Bh)
    requires p < |s.pollers| && AcceptStep(s, p, s') && b in s.scheduled * s'.scheduled && b in s.list
    requires s'.notifyMe != 0
    ensures Moves(s, p, s', b)
  {
  }

  lemma VisitMoves(s: State, p: nat, s': State)
    requires p < |s.pollers| && VisitStep(s, p, s')
    ensures Counts(s, p, s')
  {
    hide WithBit, WithoutBit;
  }

  lemma VisitKeeps(s: State, p: nat, s': State, b: Bh)
    requires p < |s.pollers| && VisitStep(s, p, s') && b in s.scheduled * s'.scheduled && b in s.list
    requires s'.notifyMe != 0
    ensures Moves(s, p, s', b)
  {
  }

  lemma ReturnMoves(s: State, p: nat, s': State)
    requires p < |s.pollers| && ReturnStep(s, p, s')
    ensures Counts(s, p, s')
  {
    hide WithBit, WithoutBit;
  }

  lemma ReturnKeeps(s: State, p: nat, s': State, b: Bh)
    requires p < |s.pollers| && ReturnStep(s, p, s') && b in s.scheduled * s'.scheduled && b in s.list
    requires s'.notifyMe != 0
    ensures Moves(s, p, s', b)
  {
  }

  lemma PrepareMoves(s: State, p: nat, s': State)
    requires p < |s.pollers| && PrepareStep(s, p, s')
    ensures Counts(s, p, s')
  {
    hide WithBit, WithoutBit;
  }

  lemma PrepareKeeps(s: State, p: nat, s': State, b: Bh)
    requires p < |s.pollers| && PrepareStep(s, p, s') && b in s.scheduled * s'.scheduled && b in s.list
    requires s'.notifyMe != 0
    ensures Moves(s, p, s', b)
  {
  }

  lemma CheckMoves(s: State, p: nat, s': State)
    requires p < |s.pollers| && CheckStep(s, p, s')
    ensures Counts(s, p, s')
  {
    hide WithBit, WithoutBit;
  }

  lemma CheckKeeps(s: State, p: nat, s': State, b: Bh)
    requires p < |s.pollers| && CheckStep(s, p, s') && b in s.scheduled * s'.scheduled && b in s.list
    requires s'.notifyMe != 0
    ensures Moves(s, p, s', b)
  {
  }

  lemma LeaveMoves(s: State, p: nat, s': State)
    requires p < |s.pollers| && LeaveStep(s, p, s')
    ensures Counts(s, p, s')
  {
    hide WithBit, WithoutBit;
  }

  lemma LeaveKeeps(s: State, p: nat, s': State, b: Bh)
    requires p < |s.pollers| && LeaveStep(s, p, s') && b in s.scheduled * s'.scheduled && b in s.list
    requires s'.notifyMe != 0
    ensures Moves(s, p, s', b)
  {
  }

  lemma ScheduleKeeps(s: State, t: nat, bh: Bh, s': State, b: Bh)
    requires Inv(s) && t < |s.threads| && ScheduleStep(s, t, bh, s') && b in s'.scheduled && s'.notifyMe != 0
    ensures Covered(s', b)
  {
    if b in s.scheduled {
      KeepsCovered(s, s', b);
    } else {
      assert s'.threads[t] == ReadMe(b);
    }
  }

  lemma ScheduleFrame(s: State, t: nat, bh: Bh, s': State)
    requires t < |s.threads| && ScheduleStep(s, t, bh, s') && forall b :: b in s.scheduled ==> b in s.list
    ensures s'.pollers == s.pollers && s'.counted == s.counted && s'.notifyMe == s.notifyMe
    ensures forall b :: b in s'.scheduled ==> b in s'.list
  {
  }

  lemma SchedulerKeeps(s: State, t: nat, bh: Bh, s': State)
    requires Inv(s) && t < |s.threads| && ScheduleStep(s, t, bh, s')
    ensures Inv(s')
  {
    hide ScheduleStep, Covered, Counted, Announced, Checking;
    ScheduleFrame(s, t, bh, s');
    forall b | b in s'.scheduled && s'.notifyMe != 0 ensures Covered(s', b) { ScheduleKeeps(s, t, bh, s', b); }
  }

  /** Every move of a poller changes notify_me as it should and keeps what is scheduled covered. */
  lemma PollMoves(s: State, p: nat, s': State)
    requires Inv(s) && p < |s.pollers| && PollStep(s, p, s')
    ensures Counts(s, p, s')
  {
    hide WaitStep, AcceptStep, VisitStep, ReturnStep, PrepareStep, CheckStep, LeaveStep, Counts;
    if WaitStep(s, p, s') { WaitMoves(s, p, s'); }
    else if AcceptStep(s, p, s') { AcceptMoves(s, p, s'); }
    else if VisitStep(s, p, s') { VisitMoves(s, p, s'); }
    else if ReturnStep(s, p, s') { ReturnMoves(s, p, s'); }
    else if PrepareStep(s, p, s') { PrepareMoves(s, p, s'); }
    else if CheckStep(s, p, s') { CheckMoves(s, p, s'); }
    else { LeaveMoves(s, p, s'); }
  }

  lemma PollCovers(s: State, p: nat, s': State, b: Bh)
    requires p < |s.pollers| && PollStep(s, p, s') && b in s.scheduled * s'.scheduled && b in s.list
    requires s'.notifyMe != 0
    ensures Moves(s, p, s', b)
  {
    hide WaitStep, AcceptStep, VisitStep, ReturnStep, PrepareStep, CheckStep, LeaveStep, Moves;
    if WaitStep(s, p, s') { WaitKeeps(s, p, s', b); }
    else if AcceptStep(s, p, s') { AcceptKeeps(s, p, s', b); }
    else if VisitStep(s, p, s') { VisitKeeps(s, p, s', b); }
    else if ReturnStep(s, p, s') { ReturnKeeps(s, p, s', b); }
    else if PrepareStep(s, p, s') { PrepareKeeps(s, p, s', b); }
    else if CheckStep(s, p, s') { CheckKeeps(s, p, s', b); }
    else { LeaveKeeps(s, p, s', b); }
  }

  lemma PollerKeeps(s: State, p: nat, s': State)
    requires Inv(s) && p < |s.pollers| && PollStep(s, p, s')
    ensures Inv(s')
  {
    hide PollStep, Moves, Covered, SetOk, BitOk, Counted, Announced;
    PollMoves(s, p, s');
    MoveCounts(s, p, s');
    forall b | b in s'.scheduled && s'.notifyMe != 0 ensures Covered(s', b) {
      PollCovers(s, p, s', b);
      MoveCovered(s, p, s', b);
    }
  }

  lemma ListKeeps(s: State, bh: Bh, s': State)
    requires Inv(s) && ListStep(s, bh, s')
    ensures Inv(s')
  {
    hide Covered, Counted, Announced;
    forall b | b in s'.scheduled && s'.notifyMe != 0 ensures Covered(s', b) { KeepsCovered(s, s', b); }
  }

  lemma StepKeeps(s: State, n: nat, bh: Bh, s': State)
    requires Inv(s) && Step(s, n, bh, s')
    ensures Inv(s')
  {
    hide PollStep, ScheduleStep, ListStep, Inv;
    if n < |s.threads| && ScheduleStep(s, n, bh, s') {
      SchedulerKeeps(s, n, bh, s');
    } else if ListStep(s, bh, s') {
      ListKeeps(s, bh, s');
    } else {
      PollerKeeps(s, n, s');
    }
  }

  lemma {:induction false} RunInv(run: seq<State>, i: nat)
    requires IsRun(run) && i < |run|
    ensures Inv(run[i])
  {
    if i > 0 {
      hide Step, Inv, Init;
      RunInv(run, i - 1);
      assert Next(run[i - 1], run[i - 1 + 1]);
      var n: nat, bh: Bh :| Step(run[i - 1], n, bh, run[i]);
      StepKeeps(run[i - 1], n, bh, run[i]);
    }
  }

  // ------------------------------------------------------------------------------------------
  // What the protocol promises

  predicate Sleeps(pc: Poller) { pc.Blocked? || pc.SBlocked? }

  /** While a poller of either kind is blocked, notify_me is not 0. */
  lemma SleeperCounts(s: State, p: nat)
    requires SetOk(s) && BitOk(s) && p < |s.pollers| && Sleeps(s.pollers[p])
    ensures s.notifyMe != 0
  {
    if s.pollers[p].Blocked? { assert p in s.counted; }
  }

  /** No lost wake-up: if a poller of either kind is blocked and the notifier is clear, every scheduled bottom
      half has a scheduler that is still going to set the notifier, or another poller that will visit it. */
  lemma NoLostWakeup(run: seq<State>, i: nat, p: nat, bh: Bh)
    requires IsRun(run) && i < |run| && p < |run[i].pollers| && Sleeps(run[i].pollers[p])
    requires !run[i].notifier && bh in run[i].scheduled
    ensures InFlight(run[i], bh) || exists q :: 0 <= q < |run[i].pollers| && q != p && WillVisit(run[i].pollers[q], bh)
  {
    RunInv(run, i);
    SleeperCounts(run[i], p);
  }

  /** With a single poller the scheduler is the only excuse. */
  lemma NoLostWakeupSingle(run: seq<State>, i: nat, bh: Bh)
    requires IsRun(run) && i < |run| && |run[i].pollers| == 1 && Sleeps(run[i].pollers[0])
    requires !run[i].notifier && bh in run[i].scheduled
    ensures InFlight(run[i], bh)
  {
    NoLostWakeup(run, i, 0, bh);
  }

  /** While a poller is blocked, a scheduler that is about to read notify_me goes on to set the notifier: whatever
      it does next, it does not see 0. */
  lemma InFlightWillSet(run: seq<State>, i: nat, p: nat, t: nat, bh: Bh, s': State)
    requires IsRun(run) && i < |run| && p < |run[i].pollers| && Sleeps(run[i].pollers[p])
    requires t < |run[i].threads| && run[i].threads[t].ReadMe? && ScheduleStep(run[i], t, bh, s')
    ensures s' == ThreadAt(run[i], t, SetEvent(run[i].threads[t].bh))
  {
    RunInv(run, i);
    SleeperCounts(run[i], p);
  }

  /** aio_notify sets the notifier if and only if it has read a notify_me that is not 0. */
  lemma NotifiesIff(run: seq<State>, i: nat, t: nat)
    requires IsRun(run) && i < |run| - 1 && t < |run[i].threads| && run[i].threads[t].ReadMe?
    requires |run[i + 1].threads| == |run[i].threads| && run[i + 1].threads[t] != run[i].threads[t]
    ensures run[i + 1].threads[t] == if run[i].notifyMe != 0 then SetEvent(run[i].threads[t].bh) else Out
  {
    assert Next(run[i], run[i + 1]);
    var n: nat, bh: Bh :| Step(run[i], n, bh, run[i + 1]);
    SchedulerMoves(run[i], n, bh, run[i + 1], t);
  }

  lemma SchedulerMoves(s: State, n: nat, bh: Bh, s': State, t: nat)
    requires Step(s, n, bh, s') && t < |s.threads| == |s'.threads| && s'.threads[t] != s.threads[t]
    ensures t == n && ScheduleStep(s, t, bh, s')
  {
    if n < |s.pollers| && PollStep(s, n, s') {
      hide PollStep;
      PollerThreads(s, n, s');
    }
  }

  lemma PollerThreads(s: State, p: nat, s': State)
    requires p < |s.pollers| && PollStep(s, p, s')
    ensures s'.threads == s.threads
  {
  }

  // ------------------------------------------------------------------------------------------
  // The notifier does not stay set

  predicate Clearing(pc: Poller) { pc.Clear? || pc.SClear? }

  /** If the notifier is set, `notified` is or is about to be, or a poller is about to clear the notifier. */
  predicate NoteOk(s: State) {
    s.notifier ==>
      || s.notified
      || (exists t :: 0 <= t < |s.threads| && s.threads[t] == SetFlag)
      || (exists p :: 0 <= p < |s.pollers| && Clearing(s.pollers[p]))
  }

  lemma NoteKept(s: State, s': State)
    requires NoteOk(s) && s'.notifier == s.notifier && s'.notified == s.notified
    requires |s'.threads| == |s.threads| && |s'.pollers| == |s.pollers|
    requires forall t :: 0 <= t < |s.threads| && s.threads[t] == SetFlag ==> s'.threads[t] == SetFlag
    requires forall p :: 0 <= p < |s.pollers| && Clearing(s.pollers[p]) ==> Clearing(s'.pollers[p])
    ensures NoteOk(s')
  {
    hide Clearing;
    if t :| 0 <= t < |s.threads| && s.threads[t] == SetFlag { assert s'.threads[t] == SetFlag; }
    if p :| 0 <= p < |s.pollers| && Clearing(s.pollers[p]) { assert Clearing(s'.pollers[p]); }
  }

  lemma AcceptNote(s: State, p: nat, s': State)
    requires NoteOk(s) && p < |s.pollers| && (AcceptStep(s, p, s') || CheckStep(s, p, s'))
    ensures NoteOk(s')
  {
    if s.pollers[p].Accept? || s.pollers[p].SAccept? {
      if s.notified { assert Clearing(s'.pollers[p]); } else { NoteKept(s, s'); }
    } else if !Clearing(s.pollers[p]) {
      NoteKept(s, s');
    }
  }

  lemma WaitNote(s: State, p: nat, s': State)
    requires NoteOk(s) && p < |s.pollers| && (WaitStep(s, p, s') || PrepareStep(s, p, s'))
    ensures NoteOk(s')
  {
    NoteKept(s, s');
  }

  lemma WalkNote(s: State, p: nat, s': State)
    requires NoteOk(s) && p < |s.pollers| && (VisitStep(s, p, s') || ReturnStep(s, p, s') || LeaveStep(s, p, s'))
    ensures NoteOk(s')
  {
    NoteKept(s, s');
  }

  lemma ScheduleNote(s: State, t: nat, bh: Bh, s': State)
    requires NoteOk(s) && t < |s.threads| && ScheduleStep(s, t, bh, s')
    ensures NoteOk(s')
  {
    if s.threads[t].SetEvent? {
      assert s'.threads[t] == SetFlag;
    } else if !s.threads[t].SetFlag? {
      NoteKept(s, s');
    }
  }

  lemma StepNote(s: State, n: nat, bh: Bh, s': State)
    requires NoteOk(s) && Step(s, n, bh, s')
    ensures NoteOk(s')
  {
    hide NoteOk, WaitStep, AcceptStep, VisitStep, ReturnStep, PrepareStep, CheckStep, LeaveStep, ScheduleStep;
    if n < |s.threads| && ScheduleStep(s, n, bh, s') {
      ScheduleNote(s, n, bh, s');
    } else if ListStep(s, bh, s') {
      NoteKept(s, s');
    } else if AcceptStep(s, n, s') || CheckStep(s, n, s') {
      AcceptNote(s, n, s');
    } else if WaitStep(s, n, s') || PrepareStep(s, n, s') {
      WaitNote(s, n, s');
    } else {
      WalkNote(s, n, s');
    }
  }

  /** The notifier never stays set unnoticed: as long as it is set, `notified` is set, or a scheduler is about to set
      it, or a poller is about to clear the notifier. So the next poller to accept clears it. */
  lemma {:induction false} NotifierNoticed(run: seq<State>, i: nat)
    requires IsRun(run) && i < |run|
    ensures NoteOk(run[i])
  {
    if i > 0 {
      hide NoteOk, Step, Init;
      NotifierNoticed(run, i - 1);
      assert Next(run[i - 1], run[i - 1 + 1]);
      var n: nat, bh: Bh :| Step(run[i - 1], n, bh, run[i]);
      StepNote(run[i - 1], n, bh, run[i]);
    }
  }

  /** The notifier is cleared at most once for each time it was set: `notified` is found set no more often than a
      scheduler has set it, and no poller clears the notifier unless it was found set. */
  lemma {:induction false} ClearsMatchSets(run: seq<State>, i: nat)
    requires IsRun(run) && i < |run|
    ensures TakenOk(run[i])
  {
    if i > 0 {
      hide Init, Step, TakenOk;
      ClearsMatchSets(run, i - 1);
      assert Next(run[i - 1], run[i - 1 + 1]);
      var n: nat, bh: Bh :| Step(run[i - 1], n, bh, run[i]);
      StepTaken(run[i - 1], n, bh, run[i]);
    }
  }

  predicate Clears(pc: Poller) { pc.Clear? || pc.SClear? }

  predicate TakenOk(s: State) {
    && s.taken + (if s.notified then 1 else 0) <= s.raised
    && forall p :: 0 <= p < |s.pollers| && Clears(s.pollers[p]) ==> s.taken > 0
  }

  lemma StepTaken(s: State, n: nat, bh: Bh, s': State)
    requires TakenOk(s) && Step(s, n, bh, s')
    ensures TakenOk(s')
  {
    if n < |s.pollers| && PollStep(s, n, s') {
      hide PollStep;
      PollTaken(s, n, s');
    }
  }

  lemma WaitTaken(s: State, p: nat, s': State)
    requires TakenOk(s) && p < |s.pollers| && (WaitStep(s, p, s') || PrepareStep(s, p, s'))
    ensures TakenOk(s')
  {
    hide WithBit;
  }

  lemma AcceptTaken(s: State, p: nat, s': State)
    requires TakenOk(s) && p < |s.pollers| && (AcceptStep(s, p, s') || CheckStep(s, p, s'))
    ensures TakenOk(s')
  {
    hide WithoutBit;
  }

  lemma WalkTaken(s: State, p: nat, s': State)
    requires TakenOk(s) && p < |s.pollers| && (VisitStep(s, p, s') || ReturnStep(s, p, s') || LeaveStep(s, p, s'))
    ensures TakenOk(s')
  {
    hide WithBit;
  }

  lemma PollTaken(s: State, p: nat, s': State)
    requires TakenOk(s) && p < |s.pollers| && PollStep(s, p, s')
    ensures TakenOk(s')
  {
    hide WaitStep, AcceptStep, VisitStep, ReturnStep, PrepareStep, CheckStep, LeaveStep, TakenOk;
    if WaitStep(s, p, s') || PrepareStep(s, p, s') { WaitTaken(s, p, s'); }
    else if AcceptStep(s, p, s') || CheckStep(s, p, s') { AcceptTaken(s, p, s'); }
    else { WalkTaken(s, p, s'); }
  }

  /** aio_ctx_check has taken the event source's announcement back. */
  lemma CheckTakesBack(run: seq<State>, i: nat)
    requires IsRun(run) && i < |run| && |run[i].pollers| > 0 && Checking(run[i].pollers[MAIN_LOOP])
    ensures run[i].notifyMe == 2 * |run[i].counted|
  {
    RunInv(run, i);
  }

  /** A thread that enters aio_notify has set the flag of a bottom half that was clear and is on the list. */
  lemma SchedulingSets(run: seq<State>, i: nat, t: nat)
    requires IsRun(run) && i < |run| - 1 && t < |run[i].threads| == |run[i + 1].threads|
    requires run[i].threads[t].Out? && !run[i + 1].threads[t].Out?
    ensures run[i + 1].threads[t].ReadMe?
    ensures var b, s' := run[i + 1].threads[t].bh, run[i + 1];
      b !in run[i].scheduled && b in s'.scheduled && b in s'.list
  {
    RunInv(run, i);
    assert Next(run[i], run[i + 1]);
    var n: nat, bh: Bh :| Step(run[i], n, bh, run[i + 1]);
    SchedulerMoves(run[i], n, bh, run[i + 1], t);
  }

  // ------------------------------------------------------------------------------------------
  // What a poller can do by itself

  ghost predicate OwnPath(path: seq<State>, p: nat) {
    && |path| > 0
    && forall i :: 0 <= i < |path| - 1 ==> p < |path[i].pollers| && PollStep(path[i], p, path[i + 1])
  }

  lemma Advance(path: seq<State>, p: nat, s: State) returns (path': seq<State>)
    requires OwnPath(path, p) && p < |path[|path| - 1].pollers| && PollStep(path[|path| - 1], p, s)
    ensures OwnPath(path', p) && path' == path + [s]
  {
    hide PollStep;
    path' := path + [s];
    forall i | 0 <= i < |path'| - 1 ensures p < |path'[i].pollers| && PollStep(path'[i], p, path'[i + 1]) {
      if i < |path| - 1 { assert PollStep(path[i], p, path[i + 1]); }
    }
  }

  /** aio_bh_poll goes through the rest of the list. */
  lemma {:induction false} WalkOut(path: seq<State>, p: nat, s: State) returns (path': seq<State>, s': State)
    requires OwnPath(path, p) && path[|path| - 1] == s && p < |s.pollers| && s.pollers[p].Walk?
    ensures OwnPath(path', p) && path <= path' && path'[|path'| - 1] == s' && p < |s'.pollers|
    ensures s'.pollers[p] == Resting && s'.scheduled == s.scheduled - (set b | b in s.pollers[p].todo)
    decreases |s.pollers[p].todo|
  {
    hide OwnPath, WaitStep, AcceptStep, PrepareStep, CheckStep, LeaveStep;
    var todo := s.pollers[p].todo;
    if todo == [] {
      s' := PollerAt(s, p, Resting);
      path' := Advance(path, p, s');
    } else {
      var s1 := PollerAt(s.(scheduled := s.scheduled - {todo[0]}), p, Walk(todo[1..]));
      path' := Advance(path, p, s1);
      path', s' := WalkOut(path', p, s1);
    }
  }

  lemma DispatchOut(path: seq<State>, p: nat, s: State) returns (path': seq<State>, s': State)
    requires OwnPath(path, p) && path[|path| - 1] == s && p < |s.pollers| && s.pollers[p].Dispatch?
    requires forall b :: b in s.scheduled ==> b in s.list
    ensures OwnPath(path', p) && path <= path' && path'[|path'| - 1] == s'
    ensures p < |s'.pollers| && s'.pollers[p] == Resting && s'.scheduled == {}
  {
    hide OwnPath, WaitStep, VisitStep, ReturnStep, PrepareStep, CheckStep, LeaveStep;
    path' := Advance(path, p, PollerAt(s, p, Walk(s.list)));
    path', s' := WalkOut(path', p, PollerAt(s, p, Walk(s.list)));
  }

  lemma AcceptOut(path: seq<State>, p: nat, s: State) returns (path': seq<State>, s': State)
    requires OwnPath(path, p) && path[|path| - 1] == s && p < |s.pollers| && s.pollers[p].Accept?
    requires forall b :: b in s.scheduled ==> b in s.list
    ensures OwnPath(path', p) && path <= path' && path'[|path'| - 1] == s'
    ensures p < |s'.pollers| && s'.pollers[p] == Resting && s'.scheduled == {}
  {
    hide OwnPath, WaitStep, VisitStep, ReturnStep, PrepareStep, CheckStep, LeaveStep;
    var s1 := PollerAt(Accepted(s), p, if s.notified then Clear else Dispatch);
    path' := Advance(path, p, s1);
    if s.notified {
      s1 := PollerAt(s1.(notifier := false), p, Dispatch);
      path' := Advance(path', p, s1);
    }
    path', s' := DispatchOut(path', p, s1);
  }

  /** The event source looks through the list and is dispatched. */
  lemma {:induction false} ScanOut(path: seq<State>, p: nat, s: State) returns (path': seq<State>, s': State)
    requires OwnPath(path, p) && path[|path| - 1] == s && p == MAIN_LOOP < |s.pollers| && s.pollers[p].SScan?
    ensures OwnPath(path', p) && path <= path' && path'[|path'| - 1] == s'
    ensures s' == PollerAt(s, p, Dispatch)
    decreases |s.pollers[p].todo|
  {
    hide OwnPath, WaitStep, AcceptStep, VisitStep, ReturnStep, PrepareStep, LeaveStep;
    var todo := s.pollers[p].todo;
    if todo == [] || todo[0] in s.scheduled {
      s' := PollerAt(s, p, Dispatch);
      path' := Advance(path, p, s');
    } else {
      var s1 := PollerAt(s, p, SScan(todo[1..]));
      path' := Advance(path, p, s1);
      path', s' := ScanOut(path', p, s1);
    }
  }

  lemma CheckOut(path: seq<State>, p: nat, s: State) returns (path': seq<State>, s': State)
    requires OwnPath(path, p) && path[|path| - 1] == s && p == MAIN_LOOP < |s.pollers| && s.pollers[p].SCheck?
    requires forall b :: b in s.scheduled ==> b in s.list
    ensures OwnPath(path', p) && path <= path' && path'[|path'| - 1] == s'
    ensures p < |s'.pollers| && s'.pollers[p] == Resting && s'.scheduled == {}
  {
    hide OwnPath, WaitStep, AcceptStep, VisitStep, ReturnStep, PrepareStep, LeaveStep;
    var s1 := PollerAt(s.(notifyMe := WithoutBit(s.notifyMe)), p, SAccept);
    path' := Advance(path, p, s1);
    var s2 := PollerAt(Accepted(s1), p, if s1.notified then SClear else SLook);
    path' := Advance(path', p, s2);
    if s1.notified {
      s2 := PollerAt(s2.(notifier := false), p, SLook);
      path' := Advance(path', p, s2);
    }
    var s3 := PollerAt(s2, p, SScan(s2.list));
    path' := Advance(path', p, s3);
    path', s' := ScanOut(path', p, s3);
    path', s' := DispatchOut(path', p, s');
  }

  /** A blocked poller of either kind, once poll() returns, visits everything that is scheduled. */
  lemma WokenServes(run: seq<State>, i: nat, p: nat) returns (path: seq<State>)
    requires IsRun(run) && i < |run| && p < |run[i].pollers| && Sleeps(run[i].pollers[p])
    ensures OwnPath(path, p) && path[0] == run[i]
    ensures var s' := path[|path| - 1]; p < |s'.pollers| && s'.pollers[p] == Resting && s'.scheduled == {}
  {
    RunInv(run, i);
    var s, s' := run[i], run[i];
    path := [s];
    assert OwnPath(path, p) && (s.pollers[p].SBlocked? ==> p == MAIN_LOOP) by { assert Announced(SBlocked); }
    hide OwnPath, IsRun, Inv, VisitStep, ReturnStep;
    if s.pollers[p].Blocked? {
      path := Advance(path, p, PollerAt(s, p, Woken));
      var s1 := PollerAt(s.(notifyMe := s.notifyMe - 2, counted := s.counted - {p}), p, Accept);
      path := Advance(path, p, s1);
      path, s' := AcceptOut(path, p, s1);
    } else {
      path := Advance(path, p, PollerAt(s, p, SCheck));
      path, s' := CheckOut(path, p, PollerAt(s, p, SCheck));
    }
  }

  /** aio_compute_timeout over a list on which nothing is scheduled. */
  lemma {:induction false} ComputeOut(path: seq<State>, p: nat, s: State, source: bool) returns (path': seq<State>)
    requires OwnPath(path, p) && path[|path| - 1] == s && p < |s.pollers| && s.scheduled == {}
    requires if source then p == MAIN_LOOP && s.pollers[p].SCompute? else s.pollers[p].Compute?
    ensures OwnPath(path', p) && path <= path'
    ensures path'[|path'| - 1] == PollerAt(s, p, if source then SBlocked else Blocked)
    decreases |s.pollers[p].todo|
  {
    hide OwnPath, AcceptStep, VisitStep, ReturnStep, CheckStep, LeaveStep;
    var todo := s.pollers[p].todo;
    if todo == [] {
      path' := Advance(path, p, PollerAt(s, p, if source then SBlocked else Blocked));
    } else {
      var s1 := PollerAt(s, p, if source then SCompute(todo[1..]) else Compute(todo[1..]));
      path' := Advance(path, p, s1);
      path' := ComputeOut(path', p, s1, source);
    }
  }

  /** With nothing scheduled, a thread can go to sleep in aio_poll, and the main loop in its own poll(). */
  lemma IdleBlocks(s: State, p: nat, source: bool) returns (path: seq<State>)
    requires p < |s.pollers| && s.pollers[p] == Resting && s.scheduled == {} && (source ==> p == MAIN_LOOP)
    ensures OwnPath(path, p) && path[0] == s
    ensures var s' := path[|path| - 1]; p < |s'.pollers| && s'.pollers[p] == if source then SBlocked else Blocked
  {
    path := [s];
    assert OwnPath(path, p);
    hide OwnPath, AcceptStep, VisitStep, ReturnStep, CheckStep, LeaveStep;
    var s1 := if source then PollerAt(s.(notifyMe := WithBit(s.notifyMe)), p, SBegin)
              else PollerAt(s.(notifyMe := s.notifyMe + 2, counted := s.counted + {p}), p, Begin);
    path := Advance(path, p, s1);
    var s2 := PollerAt(s1, p, if source then SCompute(s1.list) else Compute(s1.list));
    path := Advance(path, p, s2);
    path := ComputeOut(path, p, s2, source);
  }

  /** A call of aio_poll that does not block visits everything that is scheduled. */
  lemma PollServes(run: seq<State>, i: nat, p: nat) returns (path: seq<State>)
    requires IsRun(run) && i < |run| && p < |run[i].pollers| && run[i].pollers[p] == Resting
    ensures OwnPath(path, p) && path[0] == run[i]
    ensures var s' := path[|path| - 1]; p < |s'.pollers| && s'.pollers[p] == Resting && s'.scheduled == {}
  {
    RunInv(run, i);
    var s, s' := run[i], run[i];
    path := [s];
    assert OwnPath(path, p);
    hide OwnPath, IsRun, Inv;
    path := Advance(path, p, PollerAt(s, p, Accept));
    path, s' := AcceptOut(path, p, PollerAt(s, p, Accept));
  }

  /** A bottom half that is not scheduled can be, whether it is on the list or is a new one-shot. */
  lemma CanSchedule(s: State, t: nat, bh: Bh) returns (s': State)
    requires t < |s.threads| && s.threads[t] == Out && bh !in s.scheduled
    ensures ScheduleStep(s, t, bh, s') && |s'.threads| == |s.threads| && s'.threads[t] == ReadMe(bh)
    ensures s'.scheduled == s.scheduled + {bh} && s'.list == if bh in s.list then s.list else [bh] + s.list
  {
    s' := if bh in s.list then ThreadAt(s.(scheduled := s.scheduled + {bh}), t, ReadMe(bh))
          else ThreadAt(s.(list := [bh] + s.list, scheduled := s.scheduled + {bh}), t, ReadMe(bh));
  }

  /** A callback can poll again, without blocking or through aio_poll or the main loop. */
  lemma CallbackPolls(s: State, p: nat) returns (nested: seq<State>)
    requires p < |s.pollers| && s.pollers[p].Walk? && s.pollers[p].todo != []
    ensures |nested| == if p == MAIN_LOOP then 3 else 2
    ensures forall k :: 0 <= k < |nested| ==>
      && PollStep(s, p, nested[k]) && |nested[k].pollers| == |s.pollers|
      && nested[k].pollers[p] == [Accept, Begin, SBegin][k]
  {
    nested := [PollerAt(s, p, Accept), PollerAt(s.(notifyMe := s.notifyMe + 2, counted := s.counted + {p}), p, Begin)];
    if p == MAIN_LOOP { nested := nested + [PollerAt(s.(notifyMe := WithBit(s.notifyMe)), p, SBegin)]; }
  }

  /** The end of a walk, and an iteration of the main loop that dispatches nothing, can go back to the walk of any
      outer poll. */
  lemma PollsReturn(s: State, p: nat, outer: seq<Bh>) returns (s': State)
    requires p < |s.pollers|
    requires s.pollers[p] == Walk([]) || s.pollers[p] == SBlocked || s.pollers[p] == SScan([])
    ensures PollStep(s, p, s') && s' == PollerAt(s, p, Walk(outer))
    ensures PollStep(s, p, PollerAt(s, p, Resting))
  {
    s' := PollerAt(s, p, Walk(outer));
  }

  /** Bottom halves can be created, cancelled and unlinked at any time. */
  lemma ListsChange(s: State, bh: Bh, i: nat)
    requires i < |s.list|
    ensures bh !in s.list ==> ListStep(s, bh, s.(list := [bh] + s.list))
    ensures ListStep(s, bh, s.(scheduled := s.scheduled - {bh}))
    ensures s.list[i] !in s.scheduled ==> ListStep(s, s.list[i], s.(list := s.list[..i] + s.list[i + 1..]))
  {
  }
}
