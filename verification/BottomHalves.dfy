/** aio_bh_poll of async.c under nesting: callbacks that poll again, bottom halves added at the head
    of the list by other threads, and deferred reclamation by the outermost poll. */
module BottomHalves {
  type Bh = nat

  /** struct QEMUBH; `next` is a bottom half or -1. A one-shot is created deleted and scheduled. */
  datatype Node = Node(next: int, scheduled: bool, deleted: bool)

  /** One activation of aio_bh_poll: `next` is its local variable, `rest` counts the bottom halves from
      there to the end of the list. */
  datatype Frame = Frame(next: int, calling: bool, rest: nat)

  /** The reclaiming loop at the end of the outermost poll: `prev` is the node whose link bhp points to,
      or -1 for first_bh; `pos` is its position in the list. */
  datatype Sweep = NoSweep | At(prev: int, pos: nat)

  /** `heap` holds the allocated bottom halves. The rest records what has happened, and no step depends on it:
      `list` is the list as a sequence; `sets` counts how often each bottom half's flag went from clear to set,
      `ran` its runs and `cuts` the cancels and deletes that found it set; `oneshots` are all one-shots so far and
      `batch` those present when the current outermost poll began; `due` are the bottom halves scheduled at that
      time and `base` their runs and cuts so far; `doomed` are those to be reclaimed when its walk ended. */
  datatype State = State(heap: map<Bh, Node>, first: int, stack: seq<Frame>, sweep: Sweep, nextId: Bh,
                         list: seq<Bh>, sets: multiset<Bh>, ran: multiset<Bh>, cuts: multiset<Bh>,
                         oneshots: set<Bh>, batch: set<Bh>, due: set<Bh>, base: multiset<Bh>, doomed: set<Bh>)

  predicate Init(s: State) {
    && s.heap == map[] && s.first == -1 && s.stack == [] && s.sweep == NoSweep && s.list == []
    && s.sets == multiset{} && s.ran == multiset{} && s.cuts == multiset{} && s.oneshots == {} && s.batch == {}
    && s.due == {} && s.base == multiset{} && s.doomed == {}
  }

  function Plus(m: multiset<Bh>, more: bool, b: Bh): multiset<Bh> { if more then m + multiset{b} else m }

  /** aio_bh_new and aio_bh_schedule_oneshot: insertion at the head, under bh_lock. */
  predicate InsertStep(s: State, oneshot: bool, s': State) {
    && s.sweep == NoSweep
    && s' == s.(heap := s.heap[s.nextId := Node(s.first, oneshot, oneshot)], first := s.nextId, nextId := s.nextId + 1,
                list := [s.nextId] + s.list, sets := Plus(s.sets, oneshot, s.nextId),
                oneshots := if oneshot then s.oneshots + {s.nextId} else s.oneshots)
  }

  /** qemu_bh_schedule. */
  predicate ScheduleStep(s: State, b: Bh, s': State) {
    && b in s.heap && !s.heap[b].deleted
    && s' == s.(heap := s.heap[b := s.heap[b].(scheduled := true)], sets := Plus(s.sets, !s.heap[b].scheduled, b))
  }

  /** qemu_bh_cancel, and qemu_bh_delete if the flag says so. */
  predicate CancelStep(s: State, b: Bh, delete: bool, s': State) {
    && b in s.heap && !s.heap[b].deleted
    && s' == s.(heap := s.heap[b := Node(s.heap[b].next, false, delete)], cuts := Plus(s.cuts, s.heap[b].scheduled, b))
  }

  /** A step of the owner of a bottom half that is not yet deleted. */
  predicate OwnerStep(s: State, b: Bh, flag: bool, s': State) {
    ScheduleStep(s, b, s') || CancelStep(s, b, flag, s')
  }

  predicate MayPoll(s: State) {
    s.sweep == NoSweep && (s.stack == [] || s.stack[|s.stack| - 1].calling)
  }

  /** aio_bh_poll is called, by the event loop or by a callback. */
  predicate EnterStep(s: State, s': State) {
    && MayPoll(s)
    && s' == s.(stack := s.stack + [Frame(s.first, false, |s.list|)],
        batch := if s.stack == [] then s.oneshots * s.heap.Keys else s.batch,
        due := if s.stack == [] then set b | b in s.heap && s.heap[b].scheduled else s.due,
        base := if s.stack == [] then s.ran + s.cuts else s.base)
  }

  predicate Walking(s: State) {
    s.stack != [] && !s.stack[|s.stack| - 1].calling
  }

  /** The loop body: read bh->next, exchange bh->scheduled, and run the callback if it was set. */
  predicate VisitStep(s: State, s': State) {
    && Walking(s)
    && var f := s.stack[|s.stack| - 1];
       && f.next >= 0 && f.next in s.heap && f.rest > 0
       && var b, n := f.next, s.heap[f.next];
          s' == s.(heap := s.heap[b := n.(scheduled := false)],
                   stack := s.stack[|s.stack| - 1 := Frame(n.next, n.scheduled, f.rest - 1)],
                   ran := Plus(s.ran, n.scheduled, b))
  }

  predicate CallbackEndStep(s: State, s': State) {
    && s.stack != [] && s.stack[|s.stack| - 1].calling
    && s' == s.(stack := s.stack[|s.stack| - 1 := s.stack[|s.stack| - 1].(calling := false)])
  }

  /** The walk is over: walking_bh--, and the outermost poll starts to reclaim. */
  predicate LeaveStep(s: State, s': State) {
    && Walking(s) && s.stack[|s.stack| - 1].next == -1
    && s' == s.(stack := s.stack[..|s.stack| - 1], sweep := if |s.stack| == 1 then At(-1, 0) else NoSweep,
                doomed := if |s.stack| == 1 then set b | b in s.heap && s.heap[b].deleted && !s.heap[b].scheduled
                          else s.doomed)
  }

  /** *bhp */
  function Link(s: State): int
    requires s.sweep.At? && (s.sweep.prev != -1 ==> s.sweep.prev in s.heap)
  {
    if s.sweep.prev == -1 then s.first else s.heap[s.sweep.prev].next
  }

  predicate SweepStep(s: State, s': State) {
    && s.sweep.At? && (s.sweep.prev != -1 ==> s.sweep.prev in s.heap)
    && Link(s) >= 0 && Link(s) in s.heap && s.sweep.pos < |s.list|
    && var b, n, k := Link(s), s.heap[Link(s)], s.sweep.pos;
       if n.deleted && !n.scheduled then
         && var unlinked := if s.sweep.prev == -1 then s.heap
             else s.heap[s.sweep.prev := s.heap[s.sweep.prev].(next := n.next)];
            s' == s.(heap := unlinked - {b}, first := if s.sweep.prev == -1 then n.next else s.first,
                     list := s.list[..k] + s.list[k + 1..])
       else s' == s.(sweep := At(b, k + 1))
  }

  predicate SweepEndStep(s: State, s': State) {
    && s.sweep.At? && (s.sweep.prev != -1 ==> s.sweep.prev in s.heap) && Link(s) == -1
    && s' == s.(sweep := NoSweep)
  }

  predicate Step(s: State, b: Bh, flag: bool, s': State) {
    || InsertStep(s, flag, s') || OwnerStep(s, b, flag, s') || EnterStep(s, s') || VisitStep(s, s')
    || CallbackEndStep(s, s') || LeaveStep(s, s') || SweepStep(s, s') || SweepEndStep(s, s')
  }

  ghost predicate Next(s: State, s': State) {
    exists b: Bh, flag: bool :: Step(s, b, flag, s')
  }

  ghost predicate IsRun(run: seq<State>) {
    |run| > 0 && Init(run[0]) && forall i :: 0 <= i < |run| - 1 ==> Next(run[i], run[i + 1])
  }

  // ------------------------------------------------------------------------------------------
  // The inductive invariant

  /** The element `rest` places before the end of the list, or -1. */
  function Suffix(list: seq<Bh>, rest: nat): int
    requires rest <= |list|
  {
    if rest == 0 then -1 else list[|list| - rest]
  }

  predicate Linked(heap: map<Bh, Node>, list: seq<Bh>, i: nat) {
    i < |list| && list[i] in heap && heap[list[i]].next == Suffix(list, |list| - 1 - i)
  }

  ghost predicate ListOk(s: State) {
    && (forall b :: b in s.heap ==> From(s.list, 0, b) && b < s.nextId)
    && Distinct(s.list)
    && s.first == Suffix(s.list, |s.list|)
    && (forall i :: 0 <= i < |s.list| ==> Linked(s.heap, s.list, i))
  }

  /** Every activation continues at a bottom half that is on the list, or has reached its end. */
  ghost predicate FramesOk(s: State) {
    && (forall i :: 0 <= i < |s.stack| ==>
        s.stack[i].rest <= |s.list| && s.stack[i].next == Suffix(s.list, s.stack[i].rest))
    && (forall i :: 0 <= i < |s.stack| - 1 ==> s.stack[i].calling)
    && (s.stack != [] ==> s.sweep == NoSweep)
    && (s.sweep.At? ==>
        s.sweep.pos <= |s.list| && s.sweep.prev == if s.sweep.pos == 0 then -1 else s.list[s.sweep.pos - 1])
  }

  /** A one-shot has run once exactly when it is no longer scheduled. */
  ghost predicate OneshotsOk(s: State) {
    && (forall b :: b in s.oneshots ==> b < s.nextId)
    && (forall b :: b in s.ran ==> b < s.nextId)
    && (forall b :: b in s.oneshots && b in s.heap ==>
        s.heap[b].deleted && s.ran[b] == if s.heap[b].scheduled then 0 else 1)
    && (forall b :: b in s.oneshots && b !in s.heap ==> s.ran[b] == 1)
  }

  /** `b` is on the list at position `k` or later. */
  predicate From(list: seq<Bh>, k: int, b: Bh) {
    exists i :: 0 <= i < |list| && k <= i && list[i] == b
  }

  /** The one-shots of the current outermost poll are ahead of it, or have been run and, behind the sweep, freed. */
  ghost predicate BatchOk(s: State) {
    && s.batch <= s.oneshots
    && (s.stack != [] ==> forall b :: b in s.batch ==>
          b in s.heap && (s.heap[b].scheduled ==> From(s.list, |s.list| - s.stack[0].rest, b)))
    && (s.sweep.At? ==> forall b :: b in s.batch && b in s.heap ==>
        From(s.list, s.sweep.pos, b) && !s.heap[b].scheduled)
  }

  /** Every setting of the flag is answered by one run or one cut, or is still pending. */
  ghost predicate CountsOk(s: State) {
    && (forall b :: b in s.sets || b in s.ran || b in s.cuts ==> b < s.nextId)
    && (forall b :: b in s.heap ==> s.sets[b] == s.ran[b] + s.cuts[b] + if s.heap[b].scheduled then 1 else 0)
    && (forall b :: b !in s.heap ==> s.sets[b] == s.ran[b] + s.cuts[b])
  }

  predicate Served(s: State, b: Bh) { s.ran[b] + s.cuts[b] > s.base[b] }

  /** What was scheduled when the outermost poll began has run or been cut since, or is ahead of its walk. */
  ghost predicate DueOk(s: State) {
    forall b :: b in s.due ==>
      && s.ran[b] + s.cuts[b] >= s.base[b]
      && (Served(s, b) ||
          (s.stack != [] && b in s.heap && s.heap[b].scheduled && From(s.list, |s.list| - s.stack[0].rest, b)))
  }

  /** What is to be reclaimed is ahead of the sweep. */
  ghost predicate DoomedOk(s: State) {
    s.sweep.At? ==> forall b :: b in s.doomed && b in s.heap ==>
      From(s.list, s.sweep.pos, b) && s.heap[b].deleted && !s.heap[b].scheduled
  }

  ghost predicate Inv(s: State) {
    ListOk(s) && FramesOk(s) && OneshotsOk(s) && BatchOk(s) && CountsOk(s) && DueOk(s) && DoomedOk(s)
  }

  lemma InitInv(s: State)
    requires Init(s)
    ensures Inv(s)
  {
  }

  lemma FromPrepend(list: seq<Bh>, x: Bh, k: int, b: Bh)
    requires From(list, k, b)
    ensures From([x] + list, k + 1, b)
  {
    var i :| 0 <= i < |list| && k <= i && list[i] == b;
    assert ([x] + list)[i + 1] == b;
  }

  lemma InsertList(s: State, flag: bool, s': State)
    requires Inv(s) && InsertStep(s, flag, s')
    ensures ListOk(s')
  {
    hide FramesOk, OneshotsOk, BatchOk, CountsOk, DueOk, DoomedOk;
    forall i | 0 <= i < |s'.list| ensures Linked(s'.heap, s'.list, i) {
      if i > 0 { assert Linked(s.heap, s.list, i - 1); }
    }
    forall b | b in s'.heap ensures From(s'.list, 0, b) {
      if b == s.nextId { assert s'.list[0] == b; } else { FromPrepend(s.list, s.nextId, 0, b); }
    }
    forall i, j | 0 <= i < j < |s'.list| ensures s'.list[i] != s'.list[j] {
      assert Linked(s.heap, s.list, j - 1);
    }
  }

  lemma InsertOthers(s: State, flag: bool, s': State)
    requires Inv(s) && InsertStep(s, flag, s')
    ensures FramesOk(s') && OneshotsOk(s')
  {
    hide BatchOk, DueOk, CountsOk, DoomedOk;
  }

  lemma InsertCounts(s: State, flag: bool, s': State)
    requires CountsOk(s) && DoomedOk(s) && InsertStep(s, flag, s') && s.nextId !in s.heap
    ensures CountsOk(s') && DoomedOk(s')
  {
    hide From;
  }

  lemma InsertDue(s: State, flag: bool, s': State)
    requires DueOk(s) && InsertStep(s, flag, s') && s.nextId !in s.heap
    ensures DueOk(s')
  {
    hide From;
    forall b | b in s'.due && !Served(s', b)
      ensures s'.stack != [] && b in s'.heap && s'.heap[b].scheduled
      ensures From(s'.list, |s'.list| - s'.stack[0].rest, b)
    {
      assert !Served(s, b) && b != s.nextId;
      FromPrepend(s.list, s.nextId, |s.list| - s.stack[0].rest, b);
    }
  }

  lemma InsertBatch(s: State, flag: bool, s': State)
    requires Inv(s) && InsertStep(s, flag, s')
    ensures BatchOk(s')
  {
    forall b | b in s'.batch && s'.stack != []
      ensures b in s'.heap && (s'.heap[b].scheduled ==> From(s'.list, |s'.list| - s'.stack[0].rest, b))
    {
      assert b in s.heap && b != s.nextId;
      if s.heap[b].scheduled { FromPrepend(s.list, s.nextId, |s.list| - s.stack[0].rest, b); }
    }
  }

  /** Changing the flags of a bottom half leaves the list alone. */
  lemma FlagsList(s: State, s': State, b: Bh, n: Node)
    requires ListOk(s) && b in s.heap && n.next == s.heap[b].next
    requires s'.heap == s.heap[b := n] && s'.list == s.list && s'.first == s.first && s'.nextId == s.nextId
    ensures ListOk(s')
  {
    forall i | 0 <= i < |s'.list| ensures Linked(s'.heap, s'.list, i) {
      assert Linked(s.heap, s.list, i);
    }
  }

  lemma OwnerList(s: State, b: Bh, flag: bool, s': State)
    requires ListOk(s) && FramesOk(s) && OwnerStep(s, b, flag, s')
    ensures ListOk(s') && FramesOk(s')
  {
    FlagsList(s, s', b, s'.heap[b]);
    hide ListOk;
  }

  lemma OwnerOneshots(s: State, b: Bh, flag: bool, s': State)
    requires OneshotsOk(s) && OwnerStep(s, b, flag, s')
    ensures OneshotsOk(s') && b !in s.oneshots
  {
  }

  lemma OwnerBatch(s: State, b: Bh, flag: bool, s': State)
    requires BatchOk(s) && OwnerStep(s, b, flag, s') && b !in s.oneshots
    ensures BatchOk(s')
  {
    hide From;
  }

  lemma ScheduleCounts(s: State, b: Bh, s': State)
    requires CountsOk(s) && ScheduleStep(s, b, s') && b < s.nextId
    ensures CountsOk(s')
  {
  }

  lemma CancelCounts(s: State, b: Bh, flag: bool, s': State)
    requires CountsOk(s) && CancelStep(s, b, flag, s') && b < s.nextId
    ensures CountsOk(s')
  {
  }

  lemma OwnerCounts(s: State, b: Bh, flag: bool, s': State)
    requires CountsOk(s) && OwnerStep(s, b, flag, s') && b < s.nextId
    ensures CountsOk(s')
  {
    hide CountsOk, ScheduleStep, CancelStep;
    if ScheduleStep(s, b, s') { ScheduleCounts(s, b, s'); } else { CancelCounts(s, b, flag, s'); }
  }

  lemma OwnerDue(s: State, b: Bh, flag: bool, s': State)
    requires DueOk(s) && DoomedOk(s) && OwnerStep(s, b, flag, s')
    ensures DueOk(s') && DoomedOk(s')
  {
    hide From;
  }

  lemma OwnerKeeps(s: State, b: Bh, flag: bool, s': State)
    requires Inv(s) && OwnerStep(s, b, flag, s')
    ensures Inv(s')
  {
    assert b < s.nextId by { OwnerNumber(s, b, flag, s'); }
    hide ListOk, FramesOk, OneshotsOk, BatchOk, CountsOk, DueOk, DoomedOk, OwnerStep;
    OwnerList(s, b, flag, s');
    OwnerOneshots(s, b, flag, s');
    OwnerBatch(s, b, flag, s');
    OwnerCounts(s, b, flag, s');
    OwnerDue(s, b, flag, s');
  }

  lemma OwnerNumber(s: State, b: Bh, flag: bool, s': State)
    requires ListOk(s) && OwnerStep(s, b, flag, s')
    ensures b < s.nextId
  {
  }

  lemma EnterKeeps(s: State, s': State)
    requires Inv(s) && EnterStep(s, s')
    ensures Inv(s')
  {
    hide ListOk, FramesOk, OneshotsOk, BatchOk, CountsOk, DueOk, DoomedOk, EnterStep;
    EnterList(s, s');
    EnterBatch(s, s');
    EnterDue(s, s');
  }

  lemma EnterList(s: State, s': State)
    requires ListOk(s) && FramesOk(s) && OneshotsOk(s) && DoomedOk(s) && EnterStep(s, s')
    ensures ListOk(s') && FramesOk(s') && OneshotsOk(s') && DoomedOk(s')
  {
    hide From, Linked;
  }

  lemma EnterBatch(s: State, s': State)
    requires ListOk(s) && FramesOk(s) && BatchOk(s) && EnterStep(s, s')
    ensures BatchOk(s')
  {
    hide Linked;
  }

  lemma EnterDue(s: State, s': State)
    requires ListOk(s) && CountsOk(s) && DueOk(s) && EnterStep(s, s')
    ensures DueOk(s') && CountsOk(s')
  {
  }

  /** A walk stands at a bottom half of the list. */
  lemma FrameAt(s: State)
    requires ListOk(s) && FramesOk(s) && s.stack != [] && s.stack[|s.stack| - 1].next != -1
    ensures var f := s.stack[|s.stack| - 1];
      && 0 < f.rest <= |s.list| && f.next == s.list[|s.list| - f.rest] && f.next in s.heap
      && s.heap[f.next].next == Suffix(s.list, f.rest - 1)
  {
    var f := s.stack[|s.stack| - 1];
    assert f.rest > 0;
    assert Linked(s.heap, s.list, |s.list| - f.rest);
  }

  lemma VisitList(s: State, s': State)
    requires ListOk(s) && FramesOk(s) && VisitStep(s, s')
    ensures ListOk(s') && FramesOk(s')
  {
    FrameAt(s);
    var b := s.stack[|s.stack| - 1].next;
    FlagsList(s, s', b, s.heap[b].(scheduled := false));
    hide ListOk;
  }

  lemma VisitCounts(s: State, s': State)
    requires CountsOk(s) && DoomedOk(s) && FramesOk(s) && VisitStep(s, s') && s.stack[|s.stack| - 1].next < s.nextId
    ensures CountsOk(s') && DoomedOk(s')
  {
    hide From;
  }

  lemma FromNext(list: seq<Bh>, k: int, b: Bh)
    requires From(list, k, b) && (0 <= k < |list| ==> list[k] != b)
    ensures From(list, k + 1, b)
  {
  }

  /** The bottom half that the outermost walk passes is served if it was due. */
  lemma VisitDue(s: State, s': State)
    requires DueOk(s) && FramesOk(s) && VisitStep(s, s')
    ensures DueOk(s')
  {
    hide From;
    var top := |s.stack| - 1;
    var x := s.stack[top].next;
    forall b | b in s'.due && !Served(s', b)
      ensures b in s'.heap && s'.heap[b].scheduled && From(s'.list, |s'.list| - s'.stack[0].rest, b)
    {
      assert !Served(s, b) && b != x;
      if top == 0 { FromNext(s.list, |s.list| - s.stack[0].rest, b); }
    }
  }

  lemma VisitOneshots(s: State, s': State)
    requires OneshotsOk(s) && VisitStep(s, s') && s.stack[|s.stack| - 1].next < s.nextId
    ensures OneshotsOk(s')
  {
  }

  /** What the outermost walk leaves behind is no longer scheduled. */
  lemma VisitBatch(s: State, s': State)
    requires ListOk(s) && FramesOk(s) && BatchOk(s) && VisitStep(s, s')
    ensures BatchOk(s')
  {
    FrameAt(s);
    hide ListOk;
  }

  lemma CallbackEndKeeps(s: State, s': State)
    requires Inv(s) && CallbackEndStep(s, s')
    ensures Inv(s')
  {
    hide From, Linked;
  }

  lemma LeaveList(s: State, s': State)
    requires ListOk(s) && FramesOk(s) && OneshotsOk(s) && CountsOk(s) && LeaveStep(s, s')
    ensures ListOk(s') && FramesOk(s') && OneshotsOk(s') && CountsOk(s')
  {
    hide From, Linked;
  }

  lemma LeaveBatch(s: State, s': State)
    requires ListOk(s) && FramesOk(s) && BatchOk(s) && LeaveStep(s, s')
    ensures BatchOk(s') && DoomedOk(s')
  {
    hide Linked;
  }

  /** The outermost walk is over, so nothing that was due is ahead of it. */
  lemma LeaveDue(s: State, s': State)
    requires FramesOk(s) && ListOk(s) && DueOk(s) && LeaveStep(s, s')
    ensures DueOk(s')
  {
    hide Linked;
  }

  lemma LeaveKeeps(s: State, s': State)
    requires Inv(s) && LeaveStep(s, s')
    ensures Inv(s')
  {
    hide ListOk, FramesOk, OneshotsOk, BatchOk, CountsOk, DueOk, DoomedOk, LeaveStep;
    LeaveList(s, s');
    LeaveBatch(s, s');
    LeaveDue(s, s');
  }

  /** The link under the sweep leads to the bottom half at its position. */
  lemma LinkAt(s: State)
    requires ListOk(s) && FramesOk(s) && s.sweep.At?
    ensures (s.sweep.prev != -1 ==> s.sweep.prev in s.heap) && s.sweep.pos <= |s.list|
    ensures Link(s) == Suffix(s.list, |s.list| - s.sweep.pos)
  {
    if s.sweep.pos > 0 {
      assert Linked(s.heap, s.list, s.sweep.pos - 1);
    }
  }

  lemma FromRemove(list: seq<Bh>, k: nat, b: Bh, lo: int)
    requires k < |list| && From(list, lo, b) && list[k] != b && lo <= k
    ensures From(list[..k] + list[k + 1..], lo, b)
  {
    var i :| 0 <= i < |list| && lo <= i && list[i] == b;
    var list' := list[..k] + list[k + 1..];
    assert list'[if i < k then i else i - 1] == b;
  }

  lemma WithoutAt(list: seq<Bh>, k: nat, i: nat)
    requires k < |list| && i < |list| - 1
    ensures (list[..k] + list[k + 1..])[i] == list[if i < k then i else i + 1]
  {
  }

  /** Unlinking position `k` joins its neighbours. */
  lemma Joined(heap: map<Bh, Node>, heap': map<Bh, Node>, list: seq<Bh>, k: nat, i: nat)
    requires k < |list| && i < |list| - 1
    requires Linked(heap, list, k) && Linked(heap, list, if i < k then i else i + 1)
    requires var b := list[if i < k then i else i + 1];
      b in heap' && heap'[b].next == if i + 1 == k then heap[list[k]].next else heap[b].next
    ensures Linked(heap', list[..k] + list[k + 1..], i)
  {
    WithoutAt(list, k, i);
    if i < |list| - 2 { WithoutAt(list, k, i + 1); }
  }

  lemma UnlinkAt(s: State, s': State, i: nat)
    requires ListOk(s) && s.sweep.At? && SweepStep(s, s') && |s'.list| < |s.list| && i < |s'.list|
    requires s.sweep.prev == if s.sweep.pos == 0 then -1 else s.list[s.sweep.pos - 1]
    requires Link(s) == s.list[s.sweep.pos]
    ensures Linked(s'.heap, s'.list, i)
  {
    var k := s.sweep.pos;
    var j := if i < k then i else i + 1;
    assert Linked(s.heap, s.list, k) && Linked(s.heap, s.list, j);
    assert s.list[j] != s.list[k];
    if k > 0 && i != k - 1 { assert s.list[j] != s.list[k - 1]; }
    hide ListOk;
    Joined(s.heap, s'.heap, s.list, k, i);
  }

  ghost predicate Distinct(list: seq<Bh>) {
    forall i, j :: 0 <= i < j < |list| ==> list[i] != list[j]
  }

  lemma UnlinkDistinct(list: seq<Bh>, k: nat)
    requires Distinct(list) && k < |list|
    ensures Distinct(list[..k] + list[k + 1..])
  {
    var list' := list[..k] + list[k + 1..];
    forall i, j | 0 <= i < j < |list'| ensures list'[i] != list'[j] {
      WithoutAt(list, k, i);
      WithoutAt(list, k, j);
    }
  }

  lemma UnlinkFirst(list: seq<Bh>, k: nat, next: int, first: int)
    requires k < |list| && next == Suffix(list, |list| - 1 - k)
    requires first == if k == 0 then next else list[0]
    ensures first == Suffix(list[..k] + list[k + 1..], |list| - 1)
  {
    if |list| > 1 { WithoutAt(list, k, 0); }
  }

  lemma SweepUnlink(s: State, s': State)
    requires ListOk(s) && FramesOk(s) && SweepStep(s, s') && |s'.list| < |s.list|
    ensures ListOk(s')
  {
    LinkAt(s);
    var k := s.sweep.pos;
    assert Linked(s.heap, s.list, k);
    forall i | 0 <= i < |s'.list| ensures Linked(s'.heap, s'.list, i) { UnlinkAt(s, s', i); }
    forall b | b in s'.heap ensures From(s'.list, 0, b) && b < s'.nextId { FromRemove(s.list, k, b, 0); }
    assert Distinct(s'.list) by { UnlinkDistinct(s.list, k); }
    assert s'.first == Suffix(s'.list, |s'.list|) by {
      UnlinkFirst(s.list, k, s.heap[s.list[k]].next, s'.first);
    }
    hide FramesOk, Linked, From, SweepStep, Suffix;
  }

  lemma SweepFrames(s: State, s': State)
    requires ListOk(s) && FramesOk(s) && SweepStep(s, s')
    ensures FramesOk(s')
  {
    LinkAt(s);
    hide ListOk;
  }

  lemma SweepOneshots(s: State, s': State)
    requires OneshotsOk(s) && SweepStep(s, s')
    ensures OneshotsOk(s')
  {
  }

  lemma SweepCounts(s: State, s': State)
    requires CountsOk(s) && DueOk(s) && SweepStep(s, s') && s.stack == []
    ensures CountsOk(s') && DueOk(s')
  {
    hide From;
  }

  lemma SweepDoomed(s: State, s': State)
    requires ListOk(s) && FramesOk(s) && DoomedOk(s) && SweepStep(s, s')
    ensures DoomedOk(s')
  {
    LinkAt(s);
    hide ListOk;
    var k := s.sweep.pos;
    forall b | b in s'.doomed && b in s'.heap
      ensures From(s'.list, s'.sweep.pos, b) && s'.heap[b].deleted && !s'.heap[b].scheduled
    {
      if |s'.list| != |s.list| { FromRemove(s.list, k, b, k); }
    }
  }

  lemma SweepBatch(s: State, s': State)
    requires ListOk(s) && FramesOk(s) && BatchOk(s) && OneshotsOk(s) && SweepStep(s, s')
    ensures BatchOk(s')
  {
    LinkAt(s);
    hide ListOk, From;
    var k := s.sweep.pos;
    forall b | b in s'.batch && b in s'.heap ensures From(s'.list, s'.sweep.pos, b) && !s'.heap[b].scheduled {
      if |s'.list| != |s.list| {
        FromRemove(s.list, k, b, k);
      }
    }
  }

  lemma SweepEndKeeps(s: State, s': State)
    requires Inv(s) && SweepEndStep(s, s')
    ensures Inv(s')
  {
  }

  lemma StepKeeps(s: State, b: Bh, flag: bool, s': State)
    requires Inv(s) && Step(s, b, flag, s')
    ensures Inv(s')
  {
    hide ListOk, FramesOk, OneshotsOk, BatchOk, CountsOk, DueOk, DoomedOk;
    hide InsertStep, OwnerStep, EnterStep, VisitStep, CallbackEndStep, LeaveStep, SweepEndStep;
    if InsertStep(s, flag, s') { InsertKeeps(s, flag, s'); }
    else if OwnerStep(s, b, flag, s') { OwnerKeeps(s, b, flag, s'); }
    else if EnterStep(s, s') { EnterKeeps(s, s'); }
    else if VisitStep(s, s') { VisitKeeps(s, s'); }
    else if CallbackEndStep(s, s') { CallbackEndKeeps(s, s'); }
    else if LeaveStep(s, s') { LeaveKeeps(s, s'); }
    else if SweepStep(s, s') { SweepKeeps(s, s'); }
    else { SweepEndKeeps(s, s'); }
  }

  lemma SweepKeeps(s: State, s': State)
    requires Inv(s) && SweepStep(s, s')
    ensures Inv(s')
  {
    assert s.stack == [];
    hide ListOk, FramesOk, OneshotsOk, BatchOk, CountsOk, DueOk, DoomedOk, SweepStep;
    SweepList(s, s');
    SweepFrames(s, s');
    SweepOneshots(s, s');
    SweepBatch(s, s');
    SweepCounts(s, s');
    SweepDoomed(s, s');
  }

  lemma NextIsNew(s: State)
    requires ListOk(s)
    ensures s.nextId !in s.heap
  {
  }

  lemma InsertKeeps(s: State, flag: bool, s': State)
    requires Inv(s) && InsertStep(s, flag, s')
    ensures Inv(s')
  {
    hide ListOk, FramesOk, OneshotsOk, BatchOk, CountsOk, DueOk, DoomedOk, InsertStep;
    InsertList(s, flag, s');
    InsertOthers(s, flag, s');
    InsertBatch(s, flag, s');
    NextIsNew(s);
    InsertCounts(s, flag, s');
    InsertDue(s, flag, s');
  }

  lemma VisitNumber(s: State, s': State)
    requires ListOk(s) && VisitStep(s, s')
    ensures s.stack[|s.stack| - 1].next < s.nextId
  {
  }

  lemma VisitKeeps(s: State, s': State)
    requires Inv(s) && VisitStep(s, s')
    ensures Inv(s')
  {
    hide ListOk, FramesOk, OneshotsOk, BatchOk, CountsOk, DueOk, DoomedOk, VisitStep;
    VisitList(s, s');
    VisitNumber(s, s');
    VisitOneshots(s, s');
    VisitBatch(s, s');
    VisitCounts(s, s');
    VisitDue(s, s');
  }

  lemma SweepList(s: State, s': State)
    requires ListOk(s) && FramesOk(s) && SweepStep(s, s')
    ensures ListOk(s')
  {
    if |s'.list| < |s.list| { SweepUnlink(s, s'); }
  }

  lemma {:induction false} RunInv(run: seq<State>, i: nat)
    requires IsRun(run) && i < |run|
    ensures Inv(run[i])
  {
    if i == 0 {
      InitInv(run[0]);
    } else {
      hide Step, Inv, Init;
      RunInv(run, i - 1);
      assert Next(run[i - 1], run[i - 1 + 1]);
      var b: Bh, flag: bool :| Step(run[i - 1], b, flag, run[i]);
      StepKeeps(run[i - 1], b, flag, run[i]);
    }
  }

  // ------------------------------------------------------------------------------------------
  // What aio_bh_poll promises

  /** However deep the nesting, every activation's next bottom half is still allocated, and so are all
      those it will reach from there. */
  lemma WalksReachOnlyAllocated(run: seq<State>, i: nat, d: nat, k: nat)
    requires IsRun(run) && i < |run| && d < |run[i].stack|
    ensures var s, f := run[i], run[i].stack[d];
      && f.rest <= |s.list| && f.next == Suffix(s.list, f.rest)
      && (|s.list| - f.rest <= k < |s.list| ==>
          s.list[k] in s.heap && s.heap[s.list[k]].next == Suffix(s.list, |s.list| - 1 - k))
  {
    RunInv(run, i);
    if k < |run[i].list| { assert Linked(run[i].heap, run[i].list, k); }
  }

  /** Nothing is freed while any activation is walking. */
  lemma FreedOnlyWithoutWalks(run: seq<State>, i: nat, b: Bh)
    requires IsRun(run) && i < |run| - 1 && b in run[i].heap && b !in run[i + 1].heap
    ensures run[i].stack == [] && run[i].heap[b].deleted && !run[i].heap[b].scheduled
  {
    RunInv(run, i);
    assert Next(run[i], run[i + 1]);
    hide ListOk, OneshotsOk, BatchOk, CountsOk, DueOk, DoomedOk;
  }

  /** When the outermost poll has finished reclaiming, every one-shot that was queued when it began has
      run exactly once and is gone. */
  lemma OneshotsRunOnce(run: seq<State>, i: nat, b: Bh)
    requires IsRun(run) && i < |run| && run[i].sweep.At? && b in run[i].batch
    requires (run[i].sweep.prev != -1 ==> run[i].sweep.prev in run[i].heap) && Link(run[i]) == -1
    ensures b !in run[i].heap && run[i].ran[b] == 1
  {
    RunInv(run, i);
    LinkAt(run[i]);
  }

  /** Every setting of a bottom half's flag is answered by exactly one run, or by one cancel or delete that found
      it set, or is still pending. */
  lemma SchedulesAnswered(run: seq<State>, i: nat, b: Bh)
    requires IsRun(run) && i < |run|
    ensures run[i].sets[b] ==
      run[i].ran[b] + run[i].cuts[b] + if b in run[i].heap && run[i].heap[b].scheduled then 1 else 0
  {
    RunInv(run, i);
  }

  /** The flag of a bottom half is cleared by the walk that stands at it, which then is in its callback, or by its
      owner; the one counts as a run and the other does not. */
  lemma FlagCleared(run: seq<State>, i: nat, b: Bh)
    requires IsRun(run) && i < |run| - 1 && b in run[i].heap && run[i].heap[b].scheduled
    requires b in run[i + 1].heap && !run[i + 1].heap[b].scheduled
    ensures var s, s' := run[i], run[i + 1];
      || (s'.ran == s.ran + multiset{b} && s'.cuts == s.cuts && Calls(s, b, s'))
      || (s'.ran == s.ran && s'.cuts == s.cuts + multiset{b} && s'.stack == s.stack)
  {
    RunInv(run, i);
    assert Next(run[i], run[i + 1]);
    var c: Bh, flag: bool :| Step(run[i], c, flag, run[i + 1]);
    ClearedBy(run[i], c, flag, run[i + 1], b);
  }

  lemma ClearedBy(s: State, c: Bh, flag: bool, s': State, b: Bh)
    requires FramesOk(s) && ListOk(s) && Step(s, c, flag, s') && b in s.heap && s.heap[b].scheduled
    requires b in s'.heap && !s'.heap[b].scheduled
    ensures
      || (s'.ran == s.ran + multiset{b} && s'.cuts == s.cuts && Calls(s, b, s'))
      || (s'.ran == s.ran && s'.cuts == s.cuts + multiset{b} && s'.stack == s.stack)
  {
    hide FramesOk, ListOk, InsertStep, EnterStep, CallbackEndStep, LeaveStep, SweepStep, SweepEndStep, ScheduleStep;
    if InsertStep(s, flag, s') {
      NextIsNew(s);
      InsertFlags(s, flag, s', b);
    } else if SweepStep(s, s') {
      SweepFlags(s, s', b);
    } else if !VisitStep(s, s') && !CancelStep(s, c, flag, s') {
      OtherFlags(s, c, s', b);
    }
  }

  lemma InsertFlags(s: State, flag: bool, s': State, b: Bh)
    requires InsertStep(s, flag, s') && s.nextId !in s.heap && b in s.heap
    ensures b in s'.heap && s'.heap[b] == s.heap[b]
  {
  }

  lemma SweepFlags(s: State, s': State, b: Bh)
    requires ListOk(s) && FramesOk(s) && SweepStep(s, s') && b in s.heap && b in s'.heap
    ensures s'.heap[b].scheduled == s.heap[b].scheduled
  {
    LinkAt(s);
    hide ListOk, FramesOk;
  }

  lemma OtherFlags(s: State, c: Bh, s': State, b: Bh)
    requires ScheduleStep(s, c, s') || EnterStep(s, s') || CallbackEndStep(s, s') || LeaveStep(s, s')
      || SweepEndStep(s, s')
    requires b in s.heap
    ensures b in s'.heap && (s.heap[b].scheduled ==> s'.heap[b].scheduled)
  {
  }

  /** The innermost walk passes b and calls its callback. */
  predicate Calls(s: State, b: Bh, s': State) {
    && s.stack != [] && !s.stack[|s.stack| - 1].calling && s.stack[|s.stack| - 1].next == b
    && |s'.stack| == |s.stack| && s'.stack[|s.stack| - 1].calling
  }

  /** A callback runs only for a bottom half whose flag was set, and clears it. */
  lemma RunsOnlyScheduled(run: seq<State>, i: nat) returns (b: Bh)
    requires IsRun(run) && i < |run| - 1 && run[i + 1].ran != run[i].ran
    ensures Runs(run[i], b, run[i + 1])
  {
    assert Next(run[i], run[i + 1]);
    var c: Bh, flag: bool :| Step(run[i], c, flag, run[i + 1]);
    assert VisitStep(run[i], run[i + 1]);
    b := run[i].stack[|run[i].stack| - 1].next;
  }

  predicate Runs(s: State, b: Bh, s': State) {
    && b in s.heap && s.heap[b].scheduled && b in s'.heap && !s'.heap[b].scheduled
    && s'.ran == s.ran + multiset{b} && Calls(s, b, s')
  }

  /** What the calls of an owner do to the flags, and a new bottom half is at the head of the list. */
  lemma CallsTakeEffect(s: State, b: Bh, flag: bool, s': State)
    requires ListOk(s)
    ensures ScheduleStep(s, b, s') ==> s'.heap[b].scheduled && !s'.heap[b].deleted
    ensures CancelStep(s, b, flag, s') ==> !s'.heap[b].scheduled && s'.heap[b].deleted == flag
    ensures InsertStep(s, flag, s') ==>
      && s'.first >= 0 && s'.first !in s.heap && s'.heap == s.heap[s'.first := Node(s.first, flag, flag)]
  {
  }

  /** The states from i to j are those of one outermost poll: it begins after i and its walk has ended at j. */
  predicate OnePoll(run: seq<State>, i: nat, j: nat) {
    && i + 1 < j < |run| && run[i].stack == [] && run[j].stack == []
    && forall k :: i < k < j ==> run[k].stack != []
  }

  /** A bottom half that is scheduled when an outermost poll begins has run, or was cancelled or deleted, when the
      poll's walk ends. */
  lemma PollServes(run: seq<State>, i: nat, j: nat, b: Bh)
    requires IsRun(run) && OnePoll(run, i, j) && b in run[i].heap && run[i].heap[b].scheduled
    ensures run[j].ran[b] > run[i].ran[b] || run[j].cuts[b] > run[i].cuts[b]
  {
    PollBegins(run, i);
    PollRemembers(run, i + 1, j);
    RunInv(run, j);
    assert Served(run[j], b);
  }

  lemma PollBegins(run: seq<State>, i: nat)
    requires IsRun(run) && i < |run| - 1 && run[i].stack == [] && run[i + 1].stack != []
    ensures run[i + 1].due == set b | b in run[i].heap && run[i].heap[b].scheduled
    ensures run[i + 1].base == run[i].ran + run[i].cuts
  {
    assert Next(run[i], run[i + 1]);
  }

  /** Only an outermost poll changes what is due. */
  lemma {:induction false} PollRemembers(run: seq<State>, i: nat, j: nat)
    requires IsRun(run) && i <= j < |run| && forall k :: i <= k < j ==> run[k].stack != []
    ensures run[j].due == run[i].due && run[j].base == run[i].base
    decreases j
  {
    hide Step, Init;
    if i < j {
      PollRemembers(run, i, j - 1);
      assert Next(run[j - 1], run[j - 1 + 1]);
      StillPolling(run[j - 1], run[j]);
    }
  }

  lemma StillPolling(s: State, s': State)
    requires Next(s, s') && s.stack != []
    ensures s'.due == s.due && s'.base == s.base
  {
  }

  /** A bottom half that is deleted and not scheduled when the outermost walk ends is gone when the reclaiming
      loop ends. */
  lemma DeletedReclaimed(run: seq<State>, i: nat, j: nat, b: Bh)
    requires IsRun(run) && i < j < |run| - 1 && run[i].stack != [] && run[i + 1].stack == []
    requires forall k :: i < k <= j ==> run[k].sweep.At?
    requires run[j + 1].sweep == NoSweep
    requires b in run[i + 1].heap && run[i + 1].heap[b].deleted && !run[i + 1].heap[b].scheduled
    ensures b !in run[j + 1].heap
  {
    assert Next(run[i], run[i + 1]) && Next(run[j], run[j + 1]);
    assert b in run[i + 1].doomed;
    SweepRemembers(run, i + 1, j);
    RunInv(run, j);
    LinkAt(run[j]);
    SweepEnds(run[j], run[j + 1]);
  }

  lemma SweepEnds(s: State, s': State)
    requires FramesOk(s) && Next(s, s') && s.sweep.At? && s'.sweep == NoSweep
    ensures SweepEndStep(s, s')
  {
  }

  lemma {:induction false} SweepRemembers(run: seq<State>, i: nat, j: nat)
    requires IsRun(run) && i <= j < |run| && forall k :: i <= k <= j ==> run[k].sweep.At?
    ensures run[j].doomed == run[i].doomed
    decreases j
  {
    if i < j {
      SweepRemembers(run, i, j - 1);
      RunInv(run, j - 1);
      assert Next(run[j - 1], run[j - 1 + 1]);
      StillSweeping(run[j - 1], run[j]);
    }
  }

  lemma StillSweeping(s: State, s': State)
    requires FramesOk(s) && Next(s, s') && s.sweep.At?
    ensures s'.doomed == s.doomed
  {
  }

  /** At no time has a one-shot run more than once. */
  lemma OneshotsNeverTwice(run: seq<State>, i: nat, b: Bh)
    requires IsRun(run) && i < |run| && b in run[i].oneshots
    ensures run[i].ran[b] <= 1
  {
    RunInv(run, i);
  }

  // ------------------------------------------------------------------------------------------
  // A poll comes to its end

  /** A step of the polling thread itself: it goes on with its walk, ends a callback or reclaims. */
  predicate OwnStep(s: State, s': State) {
    VisitStep(s, s') || CallbackEndStep(s, s') || LeaveStep(s, s') || SweepStep(s, s') || SweepEndStep(s, s')
  }

  ghost predicate OwnPath(path: seq<State>) {
    |path| > 0 && forall i :: 0 <= i < |path| - 1 ==> OwnStep(path[i], path[i + 1])
  }

  /** How far a poll is from its end: activations, what the innermost has ahead, and what is left to reclaim. */
  function Ahead(s: State): nat {
    if s.stack == [] then 0
    else 2 * s.stack[|s.stack| - 1].rest + if s.stack[|s.stack| - 1].calling then 1 else 0
  }

  function Unswept(s: State): nat {
    if s.sweep.At? && s.sweep.pos <= |s.list| then |s.list| - s.sweep.pos + 1 else 0
  }

  /** The polling thread has a step of its own, and it brings the poll nearer to its end. */
  lemma OwnNext(s: State) returns (s': State)
    requires Inv(s) && (s.stack != [] || s.sweep.At?)
    ensures OwnStep(s, s')
    ensures |s'.stack| < |s.stack| || (|s'.stack| == |s.stack| && Ahead(s') < Ahead(s))
      || (s'.stack == s.stack == [] && Unswept(s') < Unswept(s))
  {
    hide OneshotsOk, BatchOk, CountsOk, DueOk, DoomedOk;
    if s.stack != [] {
      s' := WalkNext(s);
    } else {
      s' := SweepNext(s);
    }
  }

  lemma WalkNext(s: State) returns (s': State)
    requires ListOk(s) && FramesOk(s) && s.stack != []
    ensures VisitStep(s, s') || CallbackEndStep(s, s') || LeaveStep(s, s')
    ensures |s'.stack| < |s.stack| || (|s'.stack| == |s.stack| && Ahead(s') < Ahead(s))
  {
    var top := |s.stack| - 1;
    var f := s.stack[top];
    if f.calling {
      s' := s.(stack := s.stack[top := f.(calling := false)]);
    } else if f.next == -1 {
      s' := s.(stack := s.stack[..top], sweep := if |s.stack| == 1 then At(-1, 0) else NoSweep,
               doomed := if |s.stack| == 1 then set b | b in s.heap && s.heap[b].deleted && !s.heap[b].scheduled
                         else s.doomed);
    } else {
      FrameAt(s);
      var b, n := f.next, s.heap[f.next];
      s' := s.(heap := s.heap[b := n.(scheduled := false)],
               stack := s.stack[top := Frame(n.next, n.scheduled, f.rest - 1)],
               ran := Plus(s.ran, n.scheduled, b));
    }
  }

  lemma SweepNext(s: State) returns (s': State)
    requires ListOk(s) && FramesOk(s) && s.sweep.At? && s.stack == []
    ensures SweepStep(s, s') || SweepEndStep(s, s')
    ensures s'.stack == [] && Unswept(s') < Unswept(s)
  {
    LinkAt(s);
    var k := s.sweep.pos;
    if k == |s.list| {
      s' := s.(sweep := NoSweep);
    } else {
      assert Linked(s.heap, s.list, k);
      var b, n := Link(s), s.heap[Link(s)];
      if n.deleted && !n.scheduled {
        var unlinked := if s.sweep.prev == -1 then s.heap
            else s.heap[s.sweep.prev := s.heap[s.sweep.prev].(next := n.next)];
        s' := s.(heap := unlinked - {b}, first := if s.sweep.prev == -1 then n.next else s.first,
                 list := s.list[..k] + s.list[k + 1..]);
      } else {
        s' := s.(sweep := At(b, k + 1));
      }
    }
  }

  lemma OwnKeeps(s: State, s': State)
    requires Inv(s) && OwnStep(s, s')
    ensures Inv(s')
  {
    hide Inv, VisitStep, CallbackEndStep, LeaveStep, SweepStep, SweepEndStep;
    assert Step(s, 0, false, s');
    StepKeeps(s, 0, false, s');
  }

  lemma {:induction false} Finish(path: seq<State>, s: State) returns (path': seq<State>)
    requires OwnPath(path) && path[|path| - 1] == s && Inv(s)
    ensures OwnPath(path') && path <= path' && path'[|path'| - 1].stack == [] && path'[|path'| - 1].sweep == NoSweep
    decreases |s.stack|, Ahead(s), Unswept(s)
  {
    hide Inv, OwnStep, Ahead, Unswept;
    if s.stack == [] && s.sweep == NoSweep {
      path' := path;
    } else {
      var s' := OwnNext(s);
      OwnKeeps(s, s');
      if s'.stack == [] && s.stack == [] { SweepTime(s, s'); }
      path' := path + [s'];
      assert OwnPath(path') by {
        forall i | 0 <= i < |path'| - 1 ensures OwnStep(path'[i], path'[i + 1]) {
          if i < |path| - 1 { assert OwnStep(path[i], path[i + 1]); }
        }
      }
      path' := Finish(path', s');
    }
  }

  lemma SweepTime(s: State, s': State)
    requires s'.stack == s.stack == []
    ensures Ahead(s') == Ahead(s) == 0
  {
  }

  /** From every reachable state the polling thread alone, with callbacks that end, reaches the end of all polls in
      progress and of the reclaiming. */
  lemma PollsEnd(run: seq<State>, i: nat) returns (path: seq<State>)
    requires IsRun(run) && i < |run|
    ensures OwnPath(path) && path[0] == run[i]
    ensures path[|path| - 1].stack == [] && path[|path| - 1].sweep == NoSweep
  {
    RunInv(run, i);
    hide Inv, OwnStep;
    path := Finish([run[i]], run[i]);
  }
}
