/** The per-CPU work queue of cpus-common.c (queue_work_on_cpu, do_run_on_cpu, async_run_on_cpu,
    process_queued_cpu_work) as an interleaved step machine over its linked list. */
module WorkQueue {

  /** struct qemu_work_item; `next` is an item or -1. `free` tells asynchronous items from those on a waiter's stack. */
  datatype Item = Item(next: int, free: bool, done: bool)

  /** A thread that queues work. `wi` is its item. */
  datatype Queuer =
    | Out
    | Lock(wi: nat)          // about to take work_mutex
    | Link(wi: nat)          // holds it; about to hang the item on the list
    | Tail(wi: nat)          // about to set queued_work_last, next and done
    | Unlock(wi: nat)
    | Wait(wi: nat)          // do_run_on_cpu, with the caller's mutex: about to read done
    | Doze(wi: nat)          // saw it clear; about to sleep on qemu_work_cond
    | Sleep(wi: nat)         // asleep, the caller's mutex released
    | Rewake(wi: nat)        // woken; about to retake the caller's mutex

  /** The CPU thread in process_queued_cpu_work, which is called with the big lock held. */
  datatype Worker =
    | Away
    | WPeek                  // with the big lock; about to look at the queue
    | WLock                  // saw a non-empty queue; about to take work_mutex
    | WHead                  // holds it; loop test
    | WUnlock(wi: nat)       // holds it; has unlinked the item
    | WRun(wi: nat)          // runs its function
    | WAlone(wi: nat)        // runs it with the big lock released
    | WRelock(wi: nat)       // the function has returned
    | WFinish(wi: nat)       // holds the mutex; about to free the item or set done
    | WLeave                 // holds it; queue empty
    | WBroadcast             // about to broadcast qemu_work_cond
    | WDone                  // about to release the big lock

  datatype Holder = Nobody | TheWorker | Thread(t: nat)

  /** `bql` is the big lock, the mutex that do_run_on_cpu is given: a thread takes it before a synchronous call
      and gives it up when the call returns. `items` is the memory that holds items: an address outside it must
      not be touched. `enq` and `ran` record the order of enqueues and of finished functions, `returned` the
      finished do_run_on_cpu calls. */
  datatype State = State(items: map<nat, Item>, first: int, last: int, mutex: Holder, bql: Holder, worker: Worker,
                         thr: seq<Queuer>, nextId: nat, enq: seq<nat>, ran: seq<nat>, returned: set<nat>)

  predicate Init(s: State) {
    && s.items == map[] && s.first == -1 && s.last == -1 && s.mutex == Nobody && s.bql == Nobody && s.worker == Away
    && (forall t :: 0 <= t < |s.thr| ==> s.thr[t] == Out)
    && s.nextId == 0 && s.enq == [] && s.ran == [] && s.returned == {}
  }

  function Set(s: State, t: nat, q: Queuer): State
    requires t < |s.thr|
  {
    s.(thr := s.thr[t := q])
  }

  function Fresh(s: State, junk: int, free: bool): State {
    s.(items := s.items[s.nextId := Item(junk, free, false)], nextId := s.nextId + 1)
  }

  /** queue_work_on_cpu around its list update, and the waiting loop of do_run_on_cpu; `junk` is what a
      fresh item holds in `next`. */
  predicate CallStep(s: State, t: nat, junk: int, s': State)
    requires t < |s.thr|
  {
    match s.thr[t]
    case Out =>
      || s' == Set(Fresh(s, junk, true), t, Lock(s.nextId))
      || (s.bql == Nobody && s' == Set(Fresh(s, junk, false).(bql := Thread(t)), t, Lock(s.nextId)))
    case Lock(wi) => s.mutex == Nobody && s' == Set(s.(mutex := Thread(t)), t, Link(wi))
    case Unlock(wi) => wi in s.items && s' == Set(s.(mutex := Nobody), t, if s.items[wi].free then Out else Wait(wi))
    case _ => false
  }

  predicate WaitStep(s: State, t: nat, s': State)
    requires t < |s.thr|
  {
    && s.thr[t].Wait? && s.thr[t].wi in s.items
    && var wi := s.thr[t].wi;
       s' == if s.items[wi].done
             then Set(s.(items := s.items - {wi}, returned := s.returned + {wi}, bql := Nobody), t, Out)
             else Set(s, t, Doze(wi))
  }

  /** qemu_cond_wait, which may also wake up by itself. */
  predicate SleepStep(s: State, t: nat, s': State)
    requires t < |s.thr|
  {
    match s.thr[t]
    case Doze(wi) => s' == Set(s.(bql := Nobody), t, Sleep(wi))
    case Sleep(wi) => s' == Set(s, t, Rewake(wi))
    case Rewake(wi) => s.bql == Nobody && s' == Set(s.(bql := Thread(t)), t, Wait(wi))
    case _ => false
  }

  predicate LinkStep(s: State, t: nat, s': State)
    requires t < |s.thr|
  {
    && s.thr[t].Link?
    && var wi := s.thr[t].wi;
       if s.first == -1 then s' == Set(s.(first := wi, enq := s.enq + [wi]), t, Tail(wi))
       else
         && s.last in s.items
         && s' == Set(s.(items := s.items[s.last := s.items[s.last].(next := wi)], enq := s.enq + [wi]), t, Tail(wi))
  }

  predicate TailStep(s: State, t: nat, s': State)
    requires t < |s.thr|
  {
    && s.thr[t].Tail? && s.thr[t].wi in s.items
    && var wi := s.thr[t].wi;
       s' == Set(s.(last := wi, items := s.items[wi := s.items[wi].(next := -1, done := false)]), t, Unlock(wi))
  }

  predicate QueuerStep(s: State, t: nat, junk: int, s': State)
    requires t < |s.thr|
  {
    CallStep(s, t, junk, s') || WaitStep(s, t, s') || SleepStep(s, t, s') || LinkStep(s, t, s') || TailStep(s, t, s')
  }

  /** process_queued_cpu_work, apart from unlinking and finishing items. */
  predicate LoopStep(s: State, s': State) {
    match s.worker
    case Away => s.bql == Nobody && s' == s.(bql := TheWorker, worker := WPeek)
    case WPeek => s' == s.(worker := if s.first == -1 then WDone else WLock)
    case WLock => s.mutex == Nobody && s' == s.(mutex := TheWorker, worker := WHead)
    case WUnlock(wi) => s' == s.(mutex := Nobody, worker := WRun(wi))
    case WRun(wi) =>
      || s' == s.(ran := s.ran + [wi], worker := WRelock(wi))
      || s' == s.(bql := Nobody, worker := WAlone(wi))       // an exclusive item, or a function that waits
    case WAlone(wi) => s.bql == Nobody && s' == s.(bql := TheWorker, worker := WRun(wi))
    case WRelock(wi) => s.mutex == Nobody && s' == s.(mutex := TheWorker, worker := WFinish(wi))
    case WLeave => s' == s.(mutex := Nobody, worker := WBroadcast)
    case WDone => s' == s.(bql := Nobody, worker := Away)
    case _ => false
  }

  function Woken(q: Queuer): Queuer {
    if q.Sleep? then Rewake(q.wi) else q
  }

  /** qemu_cond_broadcast wakes every sleeper. */
  predicate BroadcastStep(s: State, s': State) {
    && s.worker == WBroadcast
    && s' == s.(thr := seq(|s.thr|, t requires 0 <= t < |s.thr| => Woken(s.thr[t])), worker := WDone)
  }

  predicate PopStep(s: State, s': State) {
    && s.worker == WHead
    && if s.first == -1 then s' == s.(worker := WLeave)
       else
         && s.first >= 0 && s.first in s.items
         && var next := s.items[s.first].next;
            s' == s.(first := next, last := if next == -1 then -1 else s.last, worker := WUnlock(s.first))
  }

  predicate FinishStep(s: State, s': State) {
    && s.worker.WFinish? && s.worker.wi in s.items
    && var wi := s.worker.wi;
       var items := if s.items[wi].free then s.items - {wi} else s.items[wi := s.items[wi].(done := true)];
       s' == s.(items := items, worker := WHead)
  }

  predicate WorkerStep(s: State, s': State) {
    LoopStep(s, s') || PopStep(s, s') || FinishStep(s, s') || BroadcastStep(s, s')
  }

  ghost predicate Next(s: State, s': State) {
    WorkerStep(s, s') || exists t: nat, junk: int :: t < |s.thr| && QueuerStep(s, t, junk, s')
  }

  ghost predicate IsRun(run: seq<State>) {
    |run| > 0 && Init(run[0]) && forall i :: 0 <= i < |run| - 1 ==> Next(run[i], run[i + 1])
  }

  // ------------------------------------------------------------------------------------------
  // The inductive invariant

  /** Items taken off the list so far. */
  function Popped(s: State): nat {
    |s.ran| + if s.worker.WUnlock? || s.worker.WRun? || s.worker.WAlone? then 1 else 0
  }

  predicate HasItem(w: Worker) {
    w.WUnlock? || w.WRun? || w.WAlone? || w.WRelock? || w.WFinish?
  }

  predicate Chained(items: map<nat, Item>, enq: seq<nat>, i: nat) {
    i + 1 < |enq| && enq[i] in items && items[enq[i]].next == enq[i + 1]
  }

  /** The holder of work_mutex has hung its item on the list and not yet finished the link. */
  predicate TailHeld(s: State) {
    s.mutex.Thread? && s.mutex.t < |s.thr| && s.thr[s.mutex.t].Tail?
  }

  /** The list holds the items enqueued and not yet taken, in order; only the last link may be unfinished. */
  ghost predicate ListOk(s: State) {
    && Popped(s) <= |s.enq|
    && (forall i :: Popped(s) <= i < |s.enq| ==> s.enq[i] in s.items)
    && (s.first == if Popped(s) == |s.enq| then -1 else s.enq[Popped(s)])
    && (forall i :: Popped(s) <= i < |s.enq| - 1 ==> Chained(s.items, s.enq, i))
    && (if TailHeld(s)
        then Popped(s) + 2 <= |s.enq| ==> s.last == s.enq[|s.enq| - 2]
        else Popped(s) < |s.enq| ==> s.last == s.enq[|s.enq| - 1] && s.items[s.last].next == -1)
  }

  ghost predicate Distinct(enq: seq<nat>) {
    forall i, j :: 0 <= i < j < |enq| ==> enq[i] != enq[j]
  }

  ghost predicate LogOk(s: State) {
    && (forall i :: 0 <= i < |s.enq| ==> s.enq[i] < s.nextId)
    && Distinct(s.enq)
    && Popped(s) <= |s.enq| && s.ran == s.enq[..|s.ran|]
    && (forall wi :: wi in s.items ==> wi < s.nextId)
    && (forall wi :: wi in s.returned ==> wi in s.ran)
    && (forall wi :: wi in s.items && s.items[wi].done ==> wi in s.ran)
  }

  predicate WorkerOk(s: State) {
    && (s.mutex == TheWorker <==> s.worker.WHead? || s.worker.WUnlock? || s.worker.WFinish? || s.worker.WLeave?)
    && (HasItem(s.worker) ==> s.worker.wi in s.items && !s.items[s.worker.wi].done)
    && (s.worker.WUnlock? || s.worker.WRun? || s.worker.WAlone? ==> |s.ran| < |s.enq| && s.worker.wi == s.enq[|s.ran|])
    && (s.worker.WRelock? || s.worker.WFinish? ==> |s.ran| > 0 && s.worker.wi == s.ran[|s.ran| - 1])
  }

  predicate Waiting(q: Queuer) {
    q.Wait? || q.Doze? || q.Sleep? || q.Rewake?
  }

  predicate ThreadOk(s: State, t: nat)
    requires t < |s.thr|
  {
    var q := s.thr[t];
    && (s.mutex == Thread(t) <==> q.Link? || q.Tail? || q.Unlock?)
    && (!q.Out? ==> q.wi < s.nextId && q.wi in s.items)
    && (q.Lock? || q.Link? ==> q.wi !in s.enq)
    && (q.Tail? || q.Unlock? ==> |s.enq| > 0 && s.enq[|s.enq| - 1] == q.wi)
    && (q.Tail? || q.Unlock? ==> Popped(s) < |s.enq|)
    && (Waiting(q) ==> q.wi in s.enq && !s.items[q.wi].free)
  }

  /** The worker will still broadcast before it leaves. */
  predicate InPass(w: Worker) {
    !w.Away? && !w.WPeek? && !w.WDone?
  }

  predicate HoldsBql(s: State, t: nat)
    requires t < |s.thr|
  {
    var q := s.thr[t];
    q.Wait? || q.Doze? || (!q.Out? && !Waiting(q) && q.wi in s.items && !s.items[q.wi].free)
  }

  /** A sleeper whose item is done will be woken, and nobody falls asleep on an item that is done. */
  predicate WaitOk(s: State, t: nat)
    requires t < |s.thr|
  {
    var q := s.thr[t];
    && (s.bql == Thread(t) <==> HoldsBql(s, t))
    && (q.Doze? && q.wi in s.items ==> !s.items[q.wi].done)
    && (q.Sleep? && q.wi in s.items && s.items[q.wi].done ==> InPass(s.worker))
  }

  predicate BqlOk(s: State) {
    && (s.bql == TheWorker <==> !s.worker.Away? && !s.worker.WAlone?)
    && (s.bql.Thread? ==> s.bql.t < |s.thr|)
  }

  ghost predicate ItemsApart(s: State) {
    forall t, u :: 0 <= t < u < |s.thr| && !s.thr[t].Out? && !s.thr[u].Out? ==> s.thr[t].wi != s.thr[u].wi
  }

  ghost predicate QueueInv(s: State) {
    && ListOk(s) && LogOk(s) && WorkerOk(s)
    && (s.mutex.Thread? ==> s.mutex.t < |s.thr|)
    && (forall t :: 0 <= t < |s.thr| ==> ThreadOk(s, t))
    && ItemsApart(s)
  }

  ghost predicate Inv(s: State) {
    QueueInv(s) && BqlOk(s) && forall t :: 0 <= t < |s.thr| ==> WaitOk(s, t)
  }

  /** A step that leaves the list and its items alone. */
  lemma ListSame(s: State, s': State)
    requires ListOk(s) && s'.enq == s.enq && Popped(s') == Popped(s) && s'.first == s.first && s'.last == s.last
    requires forall wi :: wi in s.items ==> wi in s'.items && s'.items[wi] == s.items[wi]
    requires TailHeld(s') <==> TailHeld(s)
    ensures ListOk(s')
  {
    hide TailHeld, Popped;
    forall i | Popped(s') <= i < |s'.enq| - 1 ensures Chained(s'.items, s'.enq, i) {
      assert Chained(s.items, s.enq, i);
    }
  }

  lemma LoopList(s: State, s': State)
    requires QueueInv(s) && LoopStep(s, s')
    ensures ListOk(s')
  {
    hide ListOk, ThreadOk, LogOk, ItemsApart;
    ListSame(s, s');
  }

  lemma LoopLog(s: State, s': State)
    requires QueueInv(s) && LoopStep(s, s')
    ensures LogOk(s') && WorkerOk(s')
  {
    hide ThreadOk, ListOk, Distinct, ItemsApart;
  }

  lemma LoopThread(s: State, s': State, t: nat)
    requires QueueInv(s) && LoopStep(s, s') && t < |s.thr|
    ensures s'.thr == s.thr && ThreadOk(s', t)
  {
    hide ListOk, Distinct;
    assert ThreadOk(s, t);
  }

  lemma PopKeeps(s: State, s': State)
    requires QueueInv(s) && PopStep(s, s')
    ensures ListOk(s') && LogOk(s') && WorkerOk(s')
  {
    hide ThreadOk;
    if s.first != -1 && Popped(s) + 1 < |s.enq| { assert Chained(s.items, s.enq, Popped(s)); }
  }

  lemma PopThread(s: State, s': State, t: nat)
    requires QueueInv(s) && PopStep(s, s') && t < |s.thr|
    ensures s'.thr == s.thr && ThreadOk(s', t)
  {
    assert ThreadOk(s, t);
  }

  lemma FinishList(s: State, s': State)
    requires QueueInv(s) && FinishStep(s, s')
    ensures ListOk(s')
  {
    hide ThreadOk;
    forall i | Popped(s') <= i < |s'.enq| - 1 ensures Chained(s'.items, s'.enq, i) {
      assert Chained(s.items, s.enq, i);
    }
  }

  lemma FinishLog(s: State, s': State)
    requires QueueInv(s) && FinishStep(s, s')
    ensures LogOk(s') && WorkerOk(s')
  {
    hide ThreadOk, ListOk, Distinct;
  }

  lemma FinishThread(s: State, s': State, t: nat)
    requires QueueInv(s) && FinishStep(s, s') && t < |s.thr|
    ensures s'.thr == s.thr && ThreadOk(s', t)
  {
    assert ThreadOk(s, t);
  }

  lemma CallList(s: State, t: nat, junk: int, s': State)
    requires QueueInv(s) && t < |s.thr| && CallStep(s, t, junk, s')
    ensures ListOk(s')
  {
    hide ListOk, Distinct, ItemsApart, WorkerOk;
    assert ThreadOk(s, t);
    ListSame(s, s');
  }

  lemma CallLog(s: State, t: nat, junk: int, s': State)
    requires QueueInv(s) && t < |s.thr| && CallStep(s, t, junk, s')
    ensures LogOk(s') && WorkerOk(s')
  {
    hide ListOk, Distinct;
    assert ThreadOk(s, t);
  }

  lemma CallThread(s: State, t: nat, junk: int, s': State, u: nat)
    requires QueueInv(s) && t < |s.thr| && CallStep(s, t, junk, s') && u < |s.thr|
    ensures |s'.thr| == |s.thr| && ThreadOk(s', u)
  {
    hide ListOk, WorkerOk, Distinct, ItemsApart;
    assert ThreadOk(s, t) && ThreadOk(s, u);
  }

  /** A finished item is no longer in the list. */
  lemma StillListed(s: State, wi: nat, i: nat)
    requires LogOk(s) && wi in s.items && s.items[wi].done && Popped(s) <= i < |s.enq|
    ensures s.enq[i] != wi
  {
    var j :| 0 <= j < |s.ran| && s.ran[j] == wi;
    assert s.enq[j] == wi;
  }

  lemma WaitList(s: State, t: nat, s': State)
    requires QueueInv(s) && t < |s.thr| && WaitStep(s, t, s')
    ensures ListOk(s')
  {
    hide LogOk, WorkerOk;
    assert ThreadOk(s, t);
    hide ThreadOk;
    var wi := s.thr[t].wi;
    forall i | Popped(s) <= i < |s.enq| && s.items[wi].done ensures s.enq[i] != wi { StillListed(s, wi, i); }
    forall i | Popped(s') <= i < |s'.enq| - 1 ensures Chained(s'.items, s'.enq, i) {
      assert Chained(s.items, s.enq, i);
    }
  }

  lemma WaitLog(s: State, t: nat, s': State)
    requires QueueInv(s) && t < |s.thr| && WaitStep(s, t, s')
    ensures LogOk(s') && WorkerOk(s')
  {
    hide ListOk, Distinct;
    assert ThreadOk(s, t);
  }

  lemma WaitThread(s: State, t: nat, s': State, u: nat)
    requires QueueInv(s) && t < |s.thr| && WaitStep(s, t, s') && u < |s.thr|
    ensures |s'.thr| == |s.thr| && ThreadOk(s', u)
  {
    hide ListOk, WorkerOk, LogOk;
    assert ThreadOk(s, t) && ThreadOk(s, u);
  }

  lemma LinkList(s: State, t: nat, s': State)
    requires QueueInv(s) && t < |s.thr| && LinkStep(s, t, s')
    ensures ListOk(s')
  {
    hide Distinct, ItemsApart, WorkerOk;
    assert ThreadOk(s, t);
    hide ThreadOk;
    forall i | Popped(s') <= i < |s'.enq| - 1 ensures Chained(s'.items, s'.enq, i) {
      if i < |s.enq| - 1 { assert Chained(s.items, s.enq, i) && s.enq[i] != s.last; }
    }
  }

  lemma LinkLog(s: State, t: nat, s': State)
    requires QueueInv(s) && t < |s.thr| && LinkStep(s, t, s')
    ensures LogOk(s')
  {
    assert ThreadOk(s, t);
    hide ListOk, ThreadOk;
    assert s'.enq[..|s.ran|] == s.enq[..|s.ran|];
    forall i, j | 0 <= i < j < |s'.enq| ensures s'.enq[i] != s'.enq[j] {
      if j == |s.enq| { assert s'.enq[i] in s.enq; }
    }
  }

  lemma LinkWorker(s: State, t: nat, s': State)
    requires QueueInv(s) && t < |s.thr| && LinkStep(s, t, s')
    ensures WorkerOk(s')
  {
    assert ThreadOk(s, t);
    hide ThreadOk;
  }

  lemma LinkThread(s: State, t: nat, s': State, u: nat)
    requires QueueInv(s) && t < |s.thr| && LinkStep(s, t, s') && u < |s.thr|
    ensures |s'.thr| == |s.thr| && ThreadOk(s', u)
  {
    assert ThreadOk(s, t) && ThreadOk(s, u);
  }

  lemma TailList(s: State, t: nat, s': State)
    requires QueueInv(s) && t < |s.thr| && TailStep(s, t, s')
    ensures ListOk(s')
  {
    assert ThreadOk(s, t);
    hide ThreadOk;
    forall i | Popped(s') <= i < |s'.enq| - 1 ensures Chained(s'.items, s'.enq, i) {
      assert Chained(s.items, s.enq, i) && s.enq[i] != s.enq[|s.enq| - 1];
    }
  }

  lemma TailLog(s: State, t: nat, s': State)
    requires QueueInv(s) && t < |s.thr| && TailStep(s, t, s')
    ensures LogOk(s') && WorkerOk(s')
  {
    hide ListOk, Distinct;
    assert ThreadOk(s, t);
  }

  lemma TailThread(s: State, t: nat, s': State, u: nat)
    requires QueueInv(s) && t < |s.thr| && TailStep(s, t, s') && u < |s.thr|
    ensures |s'.thr| == |s.thr| && ThreadOk(s', u)
  {
    assert ThreadOk(s, t) && ThreadOk(s, u);
  }

  lemma SleepList(s: State, t: nat, s': State)
    requires QueueInv(s) && t < |s.thr| && SleepStep(s, t, s')
    ensures ListOk(s')
  {
    hide ListOk, LogOk, WorkerOk, ItemsApart;
    assert ThreadOk(s, t);
    ListSame(s, s');
  }

  lemma SleepLog(s: State, t: nat, s': State)
    requires QueueInv(s) && t < |s.thr| && SleepStep(s, t, s')
    ensures LogOk(s') && WorkerOk(s')
  {
    hide ListOk, Distinct, ItemsApart, ThreadOk;
  }

  lemma SleepThread(s: State, t: nat, s': State, u: nat)
    requires QueueInv(s) && t < |s.thr| && SleepStep(s, t, s') && u < |s.thr|
    ensures |s'.thr| == |s.thr| && ThreadOk(s', u)
  {
    hide ListOk, LogOk, WorkerOk, ItemsApart;
    assert ThreadOk(s, t) && ThreadOk(s, u);
  }

  lemma BroadcastKeeps(s: State, s': State)
    requires QueueInv(s) && BroadcastStep(s, s')
    ensures ListOk(s') && LogOk(s') && WorkerOk(s')
  {
    hide Distinct, Chained, ThreadOk;
  }

  lemma BroadcastThread(s: State, s': State, u: nat)
    requires QueueInv(s) && BroadcastStep(s, s') && u < |s.thr|
    ensures |s'.thr| == |s.thr| && ThreadOk(s', u)
  {
    hide ListOk, LogOk;
    assert ThreadOk(s, u);
  }

  // ------------------------------------------------------------------------------------------
  // The waiters

  lemma LoopWait(s: State, s': State, u: nat)
    requires Inv(s) && LoopStep(s, s') && u < |s.thr|
    ensures BqlOk(s') && WaitOk(s', u)
  {
    hide QueueInv;
    assert WaitOk(s, u);
  }

  lemma PopWait(s: State, s': State, u: nat)
    requires Inv(s) && PopStep(s, s') && u < |s.thr|
    ensures BqlOk(s') && WaitOk(s', u)
  {
    hide QueueInv;
    assert WaitOk(s, u);
  }

  /** done is set with the big lock held, so by nobody who is about to fall asleep. */
  lemma FinishWait(s: State, s': State, u: nat)
    requires Inv(s) && FinishStep(s, s') && u < |s.thr|
    ensures BqlOk(s') && WaitOk(s', u)
  {
    hide ListOk, LogOk;
    assert WaitOk(s, u) && ThreadOk(s, u);
  }

  lemma BroadcastWait(s: State, s': State, u: nat)
    requires Inv(s) && BroadcastStep(s, s') && u < |s.thr|
    ensures |s'.thr| == |s.thr| && BqlOk(s') && WaitOk(s', u)
  {
    hide QueueInv;
    assert WaitOk(s, u);
  }

  lemma CallWait(s: State, t: nat, junk: int, s': State, u: nat)
    requires Inv(s) && t < |s.thr| && CallStep(s, t, junk, s') && u < |s.thr|
    ensures |s'.thr| == |s.thr| && BqlOk(s') && WaitOk(s', u)
  {
    hide ListOk, LogOk, WorkerOk;
    assert WaitOk(s, t) && WaitOk(s, u) && ThreadOk(s, t) && ThreadOk(s, u);
  }

  lemma WaitWait(s: State, t: nat, s': State, u: nat)
    requires Inv(s) && t < |s.thr| && WaitStep(s, t, s') && u < |s.thr|
    ensures |s'.thr| == |s.thr| && BqlOk(s') && WaitOk(s', u)
  {
    hide ListOk, LogOk, WorkerOk, ThreadOk;
    assert WaitOk(s, t) && WaitOk(s, u);
  }

  lemma SleepWait(s: State, t: nat, s': State, u: nat)
    requires Inv(s) && t < |s.thr| && SleepStep(s, t, s') && u < |s.thr|
    ensures |s'.thr| == |s.thr| && BqlOk(s') && WaitOk(s', u)
  {
    hide QueueInv;
    assert WaitOk(s, t) && WaitOk(s, u);
  }

  lemma LinkWait(s: State, t: nat, s': State, u: nat)
    requires Inv(s) && t < |s.thr| && LinkStep(s, t, s') && u < |s.thr|
    ensures |s'.thr| == |s.thr| && BqlOk(s') && WaitOk(s', u)
  {
    hide QueueInv;
    assert WaitOk(s, t) && WaitOk(s, u);
  }

  lemma TailWait(s: State, t: nat, s': State, u: nat)
    requires Inv(s) && t < |s.thr| && TailStep(s, t, s') && u < |s.thr|
    ensures |s'.thr| == |s.thr| && BqlOk(s') && WaitOk(s', u)
  {
    hide ListOk, LogOk, WorkerOk, ThreadOk;
    assert WaitOk(s, t) && WaitOk(s, u);
  }

  /** The steps of the machine, one name for each. */
  predicate AnyStep(s: State, t: nat, junk: int, s': State) {
    WorkerStep(s, s') || (t < |s.thr| && QueuerStep(s, t, junk, s'))
  }

  lemma StepShared(s: State, t: nat, junk: int, s': State)
    requires QueueInv(s) && AnyStep(s, t, junk, s')
    ensures ListOk(s') && LogOk(s') && WorkerOk(s')
  {
    hide ListOk, LogOk, WorkerOk, ThreadOk, CallStep, WaitStep, SleepStep, LinkStep, TailStep;
    hide LoopStep, PopStep, FinishStep, BroadcastStep;
    if LoopStep(s, s') { LoopList(s, s'); LoopLog(s, s'); }
    else if PopStep(s, s') { PopKeeps(s, s'); }
    else if FinishStep(s, s') { FinishList(s, s'); FinishLog(s, s'); }
    else if BroadcastStep(s, s') { BroadcastKeeps(s, s'); }
    else if CallStep(s, t, junk, s') { CallList(s, t, junk, s'); CallLog(s, t, junk, s'); }
    else if WaitStep(s, t, s') { WaitList(s, t, s'); WaitLog(s, t, s'); }
    else if SleepStep(s, t, s') { SleepList(s, t, s'); SleepLog(s, t, s'); }
    else if LinkStep(s, t, s') { LinkList(s, t, s'); LinkLog(s, t, s'); LinkWorker(s, t, s'); }
    else { TailList(s, t, s'); TailLog(s, t, s'); }
  }

  lemma StepThread(s: State, t: nat, junk: int, s': State, u: nat)
    requires QueueInv(s) && AnyStep(s, t, junk, s') && u < |s.thr|
    ensures |s'.thr| == |s.thr| && ThreadOk(s', u)
  {
    hide ListOk, LogOk, WorkerOk, ThreadOk, CallStep, WaitStep, SleepStep, LinkStep, TailStep;
    hide LoopStep, PopStep, FinishStep, BroadcastStep;
    if LoopStep(s, s') { LoopThread(s, s', u); }
    else if PopStep(s, s') { PopThread(s, s', u); }
    else if FinishStep(s, s') { FinishThread(s, s', u); }
    else if BroadcastStep(s, s') { BroadcastThread(s, s', u); }
    else if CallStep(s, t, junk, s') { CallThread(s, t, junk, s', u); }
    else if WaitStep(s, t, s') { WaitThread(s, t, s', u); }
    else if SleepStep(s, t, s') { SleepThread(s, t, s', u); }
    else if LinkStep(s, t, s') { LinkThread(s, t, s', u); }
    else { TailThread(s, t, s', u); }
  }

  lemma StepWait(s: State, t: nat, junk: int, s': State, u: nat)
    requires Inv(s) && AnyStep(s, t, junk, s') && u < |s.thr|
    ensures |s'.thr| == |s.thr| && BqlOk(s') && WaitOk(s', u)
  {
    StepThread(s, t, junk, s', u);
    hide QueueInv, BqlOk, WaitOk, CallStep, WaitStep, SleepStep, LinkStep, TailStep;
    hide LoopStep, PopStep, FinishStep, BroadcastStep;
    if LoopStep(s, s') { LoopWait(s, s', u); }
    else if PopStep(s, s') { PopWait(s, s', u); }
    else if FinishStep(s, s') { FinishWait(s, s', u); }
    else if BroadcastStep(s, s') { BroadcastWait(s, s', u); }
    else if CallStep(s, t, junk, s') { CallWait(s, t, junk, s', u); }
    else if WaitStep(s, t, s') { WaitWait(s, t, s', u); }
    else if SleepStep(s, t, s') { SleepWait(s, t, s', u); }
    else if LinkStep(s, t, s') { LinkWait(s, t, s', u); }
    else { TailWait(s, t, s', u); }
  }

  /** Without threads the big lock is the worker's or free. */
  lemma StepBql(s: State, s': State)
    requires Inv(s) && WorkerStep(s, s')
    ensures BqlOk(s')
  {
    hide QueueInv, WaitOk;
  }

  predicate SameItem(q: Queuer, q': Queuer) {
    q'.Out? == q.Out? && (!q.Out? ==> q'.wi == q.wi)
  }

  /** A worker step leaves every thread its item. */
  lemma WorkerFrame(s: State, s': State)
    requires WorkerStep(s, s')
    ensures |s'.thr| == |s.thr| && (s'.mutex.Thread? ==> s'.mutex == s.mutex)
    ensures forall u :: 0 <= u < |s.thr| ==> SameItem(s.thr[u], s'.thr[u])
  {
  }

  /** A thread's step changes that thread, which keeps its item, drops it or takes a fresh one. */
  lemma QueuerFrame(s: State, t: nat, junk: int, s': State)
    requires t < |s.thr| && QueuerStep(s, t, junk, s')
    ensures |s'.thr| == |s.thr| && s'.thr == s.thr[t := s'.thr[t]]
    ensures s'.mutex.Thread? ==> s'.mutex == s.mutex || s'.mutex == Thread(t)
    ensures !s'.thr[t].Out? ==> s'.thr[t].wi == s.nextId || (!s.thr[t].Out? && s'.thr[t].wi == s.thr[t].wi)
  {
  }

  lemma StepApart(s: State, t: nat, junk: int, s': State)
    requires QueueInv(s) && AnyStep(s, t, junk, s')
    ensures |s'.thr| == |s.thr| && (s'.mutex.Thread? ==> s'.mutex.t < |s'.thr|) && ItemsApart(s')
  {
    hide ListOk, LogOk, WorkerOk, ThreadOk, WorkerStep, QueuerStep;
    if WorkerStep(s, s') {
      WorkerFrame(s, s');
      forall t, u | 0 <= t < u < |s'.thr| && !s'.thr[t].Out? && !s'.thr[u].Out? ensures s'.thr[t].wi != s'.thr[u].wi {
        assert SameItem(s.thr[t], s'.thr[t]) && SameItem(s.thr[u], s'.thr[u]);
      }
    } else {
      QueuerFrame(s, t, junk, s');
      forall u | 0 <= u < |s.thr| && !s.thr[u].Out? ensures s.thr[u].wi < s.nextId {
        BelowNext(s, u);
      }
    }
  }

  lemma StepKeeps(s: State, t: nat, junk: int, s': State)
    requires Inv(s) && AnyStep(s, t, junk, s')
    ensures Inv(s')
  {
    hide ListOk, LogOk, WorkerOk, ThreadOk, BqlOk, WaitOk, WorkerStep, QueuerStep;
    StepShared(s, t, junk, s');
    StepApart(s, t, junk, s');
    forall u | 0 <= u < |s'.thr| ensures ThreadOk(s', u) && BqlOk(s') && WaitOk(s', u) {
      StepThread(s, t, junk, s', u);
      StepWait(s, t, junk, s', u);
    }
    if WorkerStep(s, s') {
      StepBql(s, s');
    } else {
      assert WaitOk(s', t);
    }
  }

  lemma BelowNext(s: State, u: nat)
    requires u < |s.thr| && ThreadOk(s, u)
    ensures !s.thr[u].Out? ==> s.thr[u].wi < s.nextId
  {
  }

  lemma {:induction false} RunInv(run: seq<State>, i: nat)
    requires IsRun(run) && i < |run|
    ensures Inv(run[i])
  {
    if i > 0 {
      RunInv(run, i - 1);
      var s, s' := run[i - 1], run[i];
      assert Next(run[i - 1], run[i - 1 + 1]);
      if WorkerStep(s, s') {
        StepKeeps(s, 0, 0, s');
      } else {
        var t: nat, junk: int :| t < |s.thr| && QueuerStep(s, t, junk, s');
        StepKeeps(s, t, junk, s');
      }
    }
  }

  // ------------------------------------------------------------------------------------------
  // What becomes of an item

  predicate InHand(w: Worker, wi: nat) { HasItem(w) && w.wi == wi }

  /** An item whose function has finished and that the worker has let go is done, and not one to be freed. */
  ghost predicate FinishedOk(s: State) {
    forall wi :: wi in s.items && wi in s.ran && !InHand(s.worker, wi) ==> s.items[wi].done && !s.items[wi].free
  }

  predicate InCall(s: State, wi: nat) {
    exists t :: 0 <= t < |s.thr| && !s.thr[t].Out? && s.thr[t].wi == wi
  }

  predicate Queued(s: State, wi: nat) {
    exists k :: Popped(s) <= k < |s.enq| && s.enq[k] == wi
  }

  /** Every item belongs to a call in progress or, if it is to be freed, is on the list or in the worker's hand. */
  ghost predicate OwnedOk(s: State) {
    forall wi :: wi in s.items ==> Owned(s, wi)
  }

  predicate Owned(s: State, wi: nat)
    requires wi in s.items
  {
    InCall(s, wi) || (s.items[wi].free && (Queued(s, wi) || InHand(s.worker, wi)))
  }

  lemma LoopFinished(s: State, s': State)
    requires FinishedOk(s) && WorkerOk(s) && LoopStep(s, s')
    ensures FinishedOk(s')
  {
  }

  lemma PopFinished(s: State, s': State)
    requires FinishedOk(s) && PopStep(s, s')
    ensures FinishedOk(s')
  {
  }

  lemma FinishFinished(s: State, s': State)
    requires FinishedOk(s) && FinishStep(s, s')
    ensures FinishedOk(s')
  {
  }

  lemma CallFinished(s: State, t: nat, junk: int, s': State)
    requires FinishedOk(s) && LogOk(s) && t < |s.thr| && CallStep(s, t, junk, s')
    ensures FinishedOk(s')
  {
    hide Distinct;
    assert forall wi :: wi in s.ran ==> wi in s.enq;
  }

  /** The item that is being queued has not run. */
  lemma NotYetRun(s: State, t: nat)
    requires LogOk(s) && t < |s.thr| && ThreadOk(s, t) && s.thr[t].Tail?
    ensures s.thr[t].wi !in s.ran
  {
    var n := |s.enq| - 1;
    forall k | 0 <= k < |s.ran| ensures s.ran[k] != s.enq[n] { assert s.ran[k] == s.enq[k]; }
  }

  lemma TailFinished(s: State, t: nat, s': State)
    requires FinishedOk(s) && t < |s.thr| && TailStep(s, t, s') && s.thr[t].wi !in s.ran
    ensures FinishedOk(s')
  {
  }

  lemma LinkFinished(s: State, t: nat, s': State)
    requires FinishedOk(s) && t < |s.thr| && (LinkStep(s, t, s') || WaitStep(s, t, s') || SleepStep(s, t, s'))
    ensures FinishedOk(s')
  {
  }

  lemma StepFinished(s: State, t: nat, junk: int, s': State)
    requires QueueInv(s) && FinishedOk(s) && AnyStep(s, t, junk, s')
    ensures FinishedOk(s')
  {
    hide ListOk, LogOk, WorkerOk, ThreadOk, ItemsApart, FinishedOk;
    hide LoopStep, PopStep, FinishStep, CallStep, WaitStep, SleepStep, LinkStep, TailStep;
    if WorkerStep(s, s') {
      if LoopStep(s, s') { LoopFinished(s, s'); }
      else if PopStep(s, s') { PopFinished(s, s'); }
      else if FinishStep(s, s') { FinishFinished(s, s'); }
      else { BroadcastFinished(s, s'); }
    } else {
      if CallStep(s, t, junk, s') { CallFinished(s, t, junk, s'); }
      else if TailStep(s, t, s') { TailQueuer(s, t, s'); NotYetRun(s, t); TailFinished(s, t, s'); }
      else { LinkFinished(s, t, s'); }
    }
  }

  lemma TailQueuer(s: State, t: nat, s': State)
    requires t < |s.thr| && TailStep(s, t, s')
    ensures s.thr[t].Tail?
  {
  }

  lemma BroadcastFinished(s: State, s': State)
    requires FinishedOk(s) && BroadcastStep(s, s')
    ensures FinishedOk(s')
  {
  }

  lemma CallKept(s: State, s': State, wi: nat)
    requires |s'.thr| == |s.thr| && InCall(s, wi)
    requires forall t :: 0 <= t < |s.thr| && !s.thr[t].Out? && s.thr[t].wi == wi ==>
               !s'.thr[t].Out? && s'.thr[t].wi == wi
    ensures InCall(s', wi)
  {
    var t :| 0 <= t < |s.thr| && !s.thr[t].Out? && s.thr[t].wi == wi;
    assert !s'.thr[t].Out? && s'.thr[t].wi == wi;
  }

  lemma QueuedKept(s: State, s': State, wi: nat)
    requires Queued(s, wi) && s.enq <= s'.enq && Popped(s') == Popped(s)
    ensures Queued(s', wi)
  {
    var k :| Popped(s) <= k < |s.enq| && s.enq[k] == wi;
    assert s'.enq[k] == wi;
  }

  lemma LoopOwned(s: State, s': State, wi: nat)
    requires LoopStep(s, s') && wi in s.items && Owned(s, wi)
    ensures wi in s'.items && Owned(s', wi)
  {
    hide Queued;
    if InCall(s, wi) { CallKept(s, s', wi); } else if Queued(s, wi) { QueuedKept(s, s', wi); }
  }

  lemma PopOwned(s: State, s': State, wi: nat)
    requires ListOk(s) && PopStep(s, s') && wi in s.items && Owned(s, wi)
    ensures wi in s'.items && Owned(s', wi)
  {
    hide InCall, Chained;
    if InCall(s, wi) {
      CallKept(s, s', wi);
    } else if Queued(s, wi) {
      var k :| Popped(s) <= k < |s.enq| && s.enq[k] == wi;
      if s.first == -1 || k > Popped(s) { assert s'.enq[k] == wi; }
    }
  }

  lemma FinishOwned(s: State, s': State, wi: nat)
    requires FinishStep(s, s') && wi in s'.items && wi in s.items && Owned(s, wi)
    ensures Owned(s', wi)
  {
    hide Queued;
    if InCall(s, wi) { CallKept(s, s', wi); } else if Queued(s, wi) { QueuedKept(s, s', wi); }
  }

  lemma BroadcastOwned(s: State, s': State, wi: nat)
    requires BroadcastStep(s, s') && wi in s.items && Owned(s, wi)
    ensures wi in s'.items && Owned(s', wi)
  {
    hide Queued;
    if InCall(s, wi) { CallKept(s, s', wi); } else if Queued(s, wi) { QueuedKept(s, s', wi); }
  }

  lemma WorkerItems(s: State, s': State, wi: nat)
    requires WorkerStep(s, s') && wi in s'.items
    ensures wi in s.items
  {
  }

  lemma WorkerOwnedAll(s: State, s': State)
    requires QueueInv(s) && OwnedOk(s) && WorkerStep(s, s')
    ensures OwnedOk(s')
  {
    hide ListOk, LogOk, WorkerOk, ThreadOk, ItemsApart, LoopStep, PopStep, FinishStep, BroadcastStep, Owned;
    forall wi | wi in s'.items ensures Owned(s', wi) {
      WorkerItems(s, s', wi);
      if LoopStep(s, s') { LoopOwned(s, s', wi); }
      else if PopStep(s, s') { PopOwned(s, s', wi); }
      else if FinishStep(s, s') { FinishOwned(s, s', wi); }
      else { BroadcastOwned(s, s', wi); }
    }
  }

  /** A thread that stays in its call keeps its item. */
  lemma StayOwned(s: State, t: nat, s': State, wi: nat)
    requires t < |s.thr| == |s'.thr| && s'.thr == s.thr[t := s'.thr[t]] && s.enq <= s'.enq && s'.worker == s.worker
    requires |s'.ran| == |s.ran| && wi in s.items && wi in s'.items && s'.items[wi].free == s.items[wi].free
    requires s.thr[t].Out? || s.thr[t].wi != wi || (!s'.thr[t].Out? && s'.thr[t].wi == wi)
    requires Owned(s, wi)
    ensures Owned(s', wi)
  {
    hide Queued;
    if InCall(s, wi) { CallKept(s, s', wi); } else if Queued(s, wi) { QueuedKept(s, s', wi); }
  }

  lemma CallOwned(s: State, t: nat, junk: int, s': State, wi: nat)
    requires OwnedOk(s) && t < |s.thr| && ThreadOk(s, t) && CallStep(s, t, junk, s') && wi in s'.items
    ensures Owned(s', wi)
  {
    hide Owned;
    if !s'.thr[t].Out? && s'.thr[t].wi == wi {
      ThreadOwns(s', t);
    } else if s.thr[t].Unlock? && s.thr[t].wi == wi {
      LastOwned(s, t, s', wi);
    } else {
      StayOwned(s, t, s', wi);
    }
  }

  lemma ThreadOwns(s: State, t: nat)
    requires t < |s.thr| && !s.thr[t].Out? && s.thr[t].wi in s.items
    ensures Owned(s, s.thr[t].wi)
  {
  }

  lemma LastOwned(s: State, t: nat, s': State, wi: nat)
    requires t < |s.thr| && ThreadOk(s, t) && s.thr[t] == Unlock(wi) && wi in s'.items && s'.items[wi].free
    requires s'.enq == s.enq && s'.ran == s.ran && s'.worker == s.worker
    ensures Owned(s', wi)
  {
    assert s'.enq[|s'.enq| - 1] == wi;
  }

  lemma OtherOwned(s: State, t: nat, s': State, wi: nat)
    requires OwnedOk(s) && t < |s.thr| && wi in s'.items
    requires WaitStep(s, t, s') || SleepStep(s, t, s') || LinkStep(s, t, s') || TailStep(s, t, s')
    ensures Owned(s', wi)
  {
    hide Owned;
    StayOwned(s, t, s', wi);
  }

  lemma QueuerOwnedAll(s: State, t: nat, junk: int, s': State)
    requires QueueInv(s) && OwnedOk(s) && t < |s.thr| && QueuerStep(s, t, junk, s')
    ensures OwnedOk(s')
  {
    assert ThreadOk(s, t);
    hide QueueInv, OwnedOk, CallStep, WaitStep, SleepStep, LinkStep, TailStep, Owned;
    assert OwnedOk(s') by {
      forall wi | wi in s'.items ensures Owned(s', wi) {
        if CallStep(s, t, junk, s') { CallOwned(s, t, junk, s', wi); } else { OtherOwned(s, t, s', wi); }
      }
      AllOwned(s');
    }
  }

  lemma AllOwned(s: State)
    requires forall wi :: wi in s.items ==> Owned(s, wi)
    ensures OwnedOk(s)
  {
  }

  lemma InitItems(s: State)
    requires Init(s)
    ensures FinishedOk(s) && OwnedOk(s)
  {
  }

  lemma ItemsKept(s: State, s': State)
    requires QueueInv(s) && FinishedOk(s) && OwnedOk(s) && Next(s, s')
    ensures FinishedOk(s') && OwnedOk(s')
  {
    hide WorkerStep, QueuerStep, QueueInv, FinishedOk, OwnedOk;
    if WorkerStep(s, s') {
      StepFinished(s, 0, 0, s');
      WorkerOwnedAll(s, s');
    } else {
      var t: nat, junk: int :| t < |s.thr| && QueuerStep(s, t, junk, s');
      StepFinished(s, t, junk, s');
      QueuerOwnedAll(s, t, junk, s');
    }
  }

  lemma {:induction false} RunItems(run: seq<State>, i: nat)
    requires IsRun(run) && i < |run|
    ensures FinishedOk(run[i]) && OwnedOk(run[i])
  {
    hide Init, Next, QueueInv, FinishedOk, OwnedOk;
    if i == 0 {
      InitItems(run[0]);
    } else {
      RunItems(run, i - 1);
      RunInv(run, i - 1);
      assert Next(run[i - 1], run[i - 1 + 1]);
      ItemsKept(run[i - 1], run[i]);
    }
  }

  // ------------------------------------------------------------------------------------------
  // What the queue promises

  /** Functions finish in the order in which their items were enqueued, each exactly once; an idle
      worker with an empty queue has run everything. */
  lemma FifoExactlyOnce(run: seq<State>, i: nat)
    requires IsRun(run) && i < |run|
    ensures var s := run[i];
      && s.ran <= s.enq
      && (forall j, k :: 0 <= j < k < |s.ran| ==> s.ran[j] != s.ran[k])
      && (s.first == -1 && !s.worker.WUnlock? && !s.worker.WRun? && !s.worker.WAlone? ==> s.ran == s.enq)
  {
    RunInv(run, i);
    var s := run[i];
    forall j, k | 0 <= j < k < |s.ran| ensures s.ran[j] != s.ran[k] {
      assert s.ran[j] == s.enq[j] && s.ran[k] == s.enq[k];
    }
  }

  /** do_run_on_cpu returns only after its function has finished. */
  lemma ReturnsAfterRun(run: seq<State>, i: nat, wi: nat)
    requires IsRun(run) && i < |run| && wi in run[i].returned
    ensures wi in run[i].ran
  {
    RunInv(run, i);
  }

  /** A call of do_run_on_cpu ends only when its function has finished; its item is gone with it. */
  lemma SynchronousWaits(run: seq<State>, i: nat, t: nat)
    requires IsRun(run) && i < |run| - 1 && t < |run[i].thr| && !run[i].thr[t].Out?
    requires run[i].thr[t].wi in run[i].items && !run[i].items[run[i].thr[t].wi].free
    requires |run[i + 1].thr| == |run[i].thr| && run[i + 1].thr[t].Out?
    ensures var wi := run[i].thr[t].wi;
      wi in run[i + 1].ran && wi in run[i + 1].returned && wi !in run[i + 1].items
  {
    RunInv(run, i);
    assert Next(run[i], run[i + 1]);
    CallEnds(run[i], run[i + 1], t);
  }

  lemma CallEnds(s: State, s': State, t: nat)
    requires LogOk(s) && t < |s.thr| == |s'.thr| && Next(s, s') && !s.thr[t].Out? && s'.thr[t].Out?
    requires s.thr[t].wi in s.items && !s.items[s.thr[t].wi].free
    ensures var wi := s.thr[t].wi; wi in s'.ran && wi in s'.returned && wi !in s'.items
  {
    hide WorkerStep, LogOk;
    if WorkerStep(s, s') {
      WorkerFrame(s, s');
    } else {
      var u: nat, junk: int :| u < |s.thr| && QueuerStep(s, u, junk, s');
      assert WaitStep(s, t, s');
      DoneHasRun(s, s.thr[t].wi);
    }
  }

  lemma DoneHasRun(s: State, wi: nat)
    requires LogOk(s) && wi in s.items && s.items[wi].done
    ensures wi in s.ran
  {
  }

  /** Either call can be made at any time, the synchronous one with the big lock, and starts with an item of its own
      that is not queued and not done. */
  lemma CallsBegin(run: seq<State>, i: nat, t: nat, junk: int, free: bool) returns (s': State)
    requires IsRun(run) && i < |run| && t < |run[i].thr| && run[i].thr[t].Out? && (free || run[i].bql == Nobody)
    ensures CallStep(run[i], t, junk, s') && |s'.thr| == |run[i].thr| && s'.thr[t].Lock?
    ensures var wi := s'.thr[t].wi;
      && wi !in run[i].items && wi !in s'.enq && s'.items == run[i].items[wi := Item(junk, free, false)]
      && s'.bql == if free then run[i].bql else Thread(t)
  {
    RunInv(run, i);
    var s := run[i];
    s' := if free then Set(Fresh(s, junk, true), t, Lock(s.nextId))
          else Set(Fresh(s, junk, false).(bql := Thread(t)), t, Lock(s.nextId));
  }

  /** async_run_on_cpu never waits, and every call that ends has queued its item. */
  lemma AsynchronousNeverWaits(run: seq<State>, i: nat, t: nat)
    requires IsRun(run) && i < |run| && t < |run[i].thr| && Waiting(run[i].thr[t])
    ensures run[i].thr[t].wi in run[i].items && !run[i].items[run[i].thr[t].wi].free
    ensures run[i].thr[t].wi in run[i].enq
  {
    RunInv(run, i);
    assert ThreadOk(run[i], t);
  }

  /** Once the worker has let go of an item whose function has finished, an asynchronous item is freed and a
      synchronous one is done, so that its call can return. */
  lemma FinishedItems(run: seq<State>, i: nat, wi: nat)
    requires IsRun(run) && i < |run| && wi in run[i].ran && !InHand(run[i].worker, wi)
    ensures wi in run[i].items ==> run[i].items[wi].done && !run[i].items[wi].free
  {
    RunItems(run, i);
  }

  /** No item is lost: each belongs to a call in progress, or waits on the list, or is in the worker's hand. */
  lemma NoItemLost(run: seq<State>, i: nat, wi: nat)
    requires IsRun(run) && i < |run| && wi in run[i].items
    ensures InCall(run[i], wi) || (run[i].items[wi].free && (Queued(run[i], wi) || InHand(run[i].worker, wi)))
  {
    RunItems(run, i);
    assert Owned(run[i], wi);
  }

  /** Every access is to an item that still exists: neither the worker nor a queueing thread follows a
      pointer to a freed item or to the stack of a call that has returned. */
  lemma NoDanglingAccess(run: seq<State>, i: nat, t: nat)
    requires IsRun(run) && i < |run| && t < |run[i].thr|
    ensures var s := run[i];
      && (s.worker == WHead && s.first != -1 ==> s.first in s.items)
      && (HasItem(s.worker) ==> s.worker.wi in s.items)
      && (s.thr[t].Link? && s.first != -1 ==> s.last in s.items)
      && (!s.thr[t].Out? ==> s.thr[t].wi in s.items)
  {
    RunInv(run, i);
    assert ThreadOk(run[i], t);
  }

  /** The worker holds no pointer to a synchronous item whose `done` flag is set. */
  lemma DoneIsLastTouch(run: seq<State>, i: nat)
    requires IsRun(run) && i < |run| && HasItem(run[i].worker)
    ensures run[i].worker.wi in run[i].items && !run[i].items[run[i].worker.wi].done
  {
    RunInv(run, i);
  }

  /** No waiter is forgotten: a thread that sleeps although its item is done will be woken by the broadcast
      that the worker has yet to make, and none is left once the worker is away. */
  lemma NoForgottenWaiter(run: seq<State>, i: nat, t: nat)
    requires IsRun(run) && i < |run| && t < |run[i].thr| && run[i].thr[t].Sleep?
    ensures run[i].thr[t].wi in run[i].items
    ensures run[i].items[run[i].thr[t].wi].done ==> InPass(run[i].worker)
    ensures run[i].worker.Away? ==> !run[i].items[run[i].thr[t].wi].done
  {
    RunInv(run, i);
    assert ThreadOk(run[i], t) && WaitOk(run[i], t);
  }

  // ------------------------------------------------------------------------------------------
  // What one pass of the worker achieves

  ghost predicate WorkerPath(path: seq<State>) {
    |path| > 0 && forall i :: 0 <= i < |path| - 1 ==> WorkerStep(path[i], path[i + 1])
  }

  lemma PathNext(path: seq<State>, s: State)
    requires WorkerPath(path) && WorkerStep(path[|path| - 1], s)
    ensures WorkerPath(path + [s])
  {
    hide WorkerStep;
    forall i | 0 <= i < |path + [s]| - 1 ensures WorkerStep((path + [s])[i], (path + [s])[i + 1]) {
      if i < |path| - 1 { assert WorkerStep(path[i], path[i + 1]); }
    }
  }

  /** One step of the worker, appended. */
  lemma Advance(path: seq<State>, s: State) returns (path': seq<State>)
    requires WorkerPath(path) && Inv(path[|path| - 1]) && WorkerStep(path[|path| - 1], s)
    ensures WorkerPath(path') && path' == path + [s] && Inv(s)
  {
    hide WorkerStep, Inv;
    PathNext(path, s);
    path' := path + [s];
    StepKeeps(path[|path| - 1], 0, 0, s);
  }

  /** The first item is taken, run and finished. */
  lemma DrainItem(path: seq<State>, s: State) returns (path': seq<State>, s': State)
    requires WorkerPath(path) && path[|path| - 1] == s && Inv(s) && s.worker == WHead && s.first != -1
    ensures WorkerPath(path') && path <= path' && path'[|path'| - 1] == s' && Inv(s')
    ensures s'.worker == WHead && |s'.ran| == |s.ran| + 1 && s'.enq == s.enq && s'.thr == s.thr
  {
    hide ListOk, LogOk, ThreadOk, ItemsApart, WaitOk, BqlOk;
    FirstExists(s);
    var wi: nat, next := s.first, s.items[s.first].next;
    var s1 := s.(first := next, last := if next == -1 then -1 else s.last, worker := WUnlock(wi));
    path' := Advance(path, s1);
    var s2 := s1.(mutex := Nobody, worker := WRun(wi));
    path' := Advance(path', s2);
    var s3 := s2.(ran := s2.ran + [wi], worker := WRelock(wi));
    path' := Advance(path', s3);
    var s4 := s3.(mutex := TheWorker, worker := WFinish(wi));
    path' := Advance(path', s4);
    var items := if s4.items[wi].free then s4.items - {wi} else s4.items[wi := s4.items[wi].(done := true)];
    s' := s4.(items := items, worker := WHead);
    path' := Advance(path', s');
  }

  lemma FirstExists(s: State)
    requires Inv(s) && s.worker == WHead && s.first != -1
    ensures s.first >= 0 && s.first in s.items
  {
  }

  /** And so on until the list is empty. */
  lemma {:induction false} DrainAll(path: seq<State>, s: State) returns (path': seq<State>, s': State)
    requires WorkerPath(path) && path[|path| - 1] == s && Inv(s) && s.worker == WHead
    ensures WorkerPath(path') && path <= path' && path'[|path'| - 1] == s' && Inv(s')
    ensures s'.worker == WHead && s'.first == -1 && s'.enq == s.enq && s'.thr == s.thr
    decreases |s.enq| - |s.ran|
  {
    hide WorkerPath, Inv;
    if s.first == -1 {
      path', s' := path, s;
    } else {
      path', s' := DrainItem(path, s);
      RanBound(s);
      RanBound(s');
      path', s' := DrainAll(path', s');
    }
  }

  lemma RanBound(s: State)
    requires Inv(s)
    ensures |s.ran| <= |s.enq|
  {
  }

  lemma EmptyHasRun(s: State)
    requires Inv(s) && s.worker == WHead && s.first == -1
    ensures s.ran == s.enq
  {
  }

  /** The worker leaves an empty list. */
  lemma PassEnds(path: seq<State>, s: State) returns (path': seq<State>)
    requires WorkerPath(path) && path[|path| - 1] == s && Inv(s) && s.worker == WHead && s.first == -1
    ensures WorkerPath(path') && path <= path'
    ensures var s' := path'[|path'| - 1];
      && s'.worker == Away && s'.ran == s'.enq == s.enq && |s'.thr| == |s.thr|
      && forall t :: 0 <= t < |s.thr| ==> s'.thr[t] == Woken(s.thr[t])
  {
    hide Inv, WorkerPath;
    EmptyHasRun(s);
    var s1 := s.(worker := WLeave);
    path' := Advance(path, s1);
    var s2 := s1.(mutex := Nobody, worker := WBroadcast);
    path' := Advance(path', s2);
    var s3 := s2.(thr := seq(|s2.thr|, t requires 0 <= t < |s2.thr| => Woken(s2.thr[t])), worker := WDone);
    path' := Advance(path', s3);
    var s4 := s3.(bql := Nobody, worker := Away);
    path' := Advance(path', s4);
  }

  /** The pass that a worker makes over a queue that is not empty. */
  lemma Pass(s: State) returns (path: seq<State>)
    requires Inv(s) && s.worker == Away && s.mutex == Nobody && s.bql == Nobody && s.first != -1
    ensures WorkerPath(path) && path[0] == s
    ensures var s' := path[|path| - 1];
      && s'.worker == Away && s'.ran == s'.enq == s.enq && |s'.thr| == |s.thr|
      && forall t :: 0 <= t < |s.thr| ==> s'.thr[t] == Woken(s.thr[t])
  {
    hide Inv;
    path := [s];
    assert WorkerPath(path);
    hide WorkerPath;
    var s1 := s.(bql := TheWorker, worker := WPeek);
    path := Advance(path, s1);
    var s2 := s1.(worker := WLock);
    path := Advance(path, s2);
    var s3 := s2.(mutex := TheWorker, worker := WHead);
    path := Advance(path, s3);
    var s4;
    path, s4 := DrainAll(path, s3);
    path := PassEnds(path, s4);
  }

  /** From every reachable state in which both locks are free and the worker is away with work queued, the worker
      alone can get to a state in which everything queued has run, every item of a waiting call is done and every
      sleeper is awake. */
  lemma WorkerServes(run: seq<State>, i: nat) returns (path: seq<State>)
    requires IsRun(run) && i < |run| && run[i].worker == Away && run[i].mutex == Nobody && run[i].bql == Nobody
    requires run[i].first != -1
    ensures WorkerPath(path) && path[0] == run[i]
    ensures var s' := path[|path| - 1];
      && s'.worker == Away && s'.ran == s'.enq == run[i].enq && |s'.thr| == |run[i].thr|
      && forall t :: 0 <= t < |s'.thr| && Waiting(s'.thr[t]) ==>
           !s'.thr[t].Sleep? && s'.thr[t].wi in s'.items && s'.items[s'.thr[t].wi].done
  {
    RunInv(run, i);
    RunItems(run, i);
    hide Inv, FinishedOk, OwnedOk;
    path := Pass(run[i]);
    PathKeeps(path, |path| - 1);
    WaitersDone(path[|path| - 1]);
    var s' := path[|path| - 1];
    forall t | 0 <= t < |s'.thr| ensures !s'.thr[t].Sleep? {
      assert s'.thr[t] == Woken(run[i].thr[t]);
    }
  }

  lemma {:induction false} PathKeeps(path: seq<State>, i: nat)
    requires WorkerPath(path) && i < |path| && Inv(path[0]) && FinishedOk(path[0])
    ensures Inv(path[i]) && FinishedOk(path[i])
  {
    hide Inv, FinishedOk, WorkerStep;
    if i > 0 {
      PathKeeps(path, i - 1);
      assert WorkerStep(path[i - 1], path[i - 1 + 1]);
      StepKeeps(path[i - 1], 0, 0, path[i]);
      HasQueue(path[i - 1]);
      StepFinished(path[i - 1], 0, 0, path[i]);
    }
  }

  lemma HasQueue(s: State)
    requires Inv(s)
    ensures QueueInv(s)
  {
  }

  lemma WaitersDone(s: State)
    requires Inv(s) && FinishedOk(s) && s.worker == Away && s.ran == s.enq
    ensures forall t :: 0 <= t < |s.thr| && Waiting(s.thr[t]) ==> s.thr[t].wi in s.items && s.items[s.thr[t].wi].done
  {
    forall t | 0 <= t < |s.thr| && Waiting(s.thr[t]) ensures s.thr[t].wi in s.items && s.items[s.thr[t].wi].done {
      assert ThreadOk(s, t);
    }
  }
}
