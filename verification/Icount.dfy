// Instruction counting: the counters of cpus.c and cpu-exec.c that a time slice's budget moves through,
// and the conversion of instructions to virtual time, whose shift changes at run time.

module Icount {
  import opened Basics

  const MAX_ICOUNT_SHIFT: nat := 10
  const ICOUNT_WOBBLE: int := 100_000_000
  const INT32_MAX: int := 0x7fff_ffff
  const DECR_MAX: nat := 0xffff

  /** qemu_icount_round: nanoseconds to instructions, rounded up. */
  function Round(count: nat, shift: nat): int {
    (count + Pow2(shift) - 1) / Pow2(shift)
  }

  /** It is the least number of instructions that takes at least that long. */
  lemma RoundLeast(count: nat, shift: nat, n: int)
    ensures Round(count, shift) >= 0
    ensures Round(count, shift) <= n <==> count <= n * Pow2(shift)
  {
    var p := Pow2(shift);
    hide Pow2;
    RoundUp(count, p, n);
  }

  lemma RoundUp(count: nat, p: nat, n: int)
    requires p > 0
    ensures (count + p - 1) / p >= 0
    ensures (count + p - 1) / p <= n <==> count <= n * p
  {
    var x := count + p - 1;
    var q := x / p;
    assert x == p * q + x % p;
    if q <= n { Scale(q, n, p); } else { Scale(n + 1, q, p); }
  }

  lemma Scale(a: int, b: int, p: nat)
    requires a <= b
    ensures a * p <= b * p
  {
    assert (b - a) * p >= 0;
  }

  /** A value as int32_t. */
  function Signed32(x: int): (r: int)
    ensures -0x8000_0000 <= r < 0x8000_0000 && (x - r) % 0x1_0000_0000 == 0
  {
    if x % 0x1_0000_0000 < 0x8000_0000 then x % 0x1_0000_0000 else x % 0x1_0000_0000 - 0x1_0000_0000
  }

  /** A missing or distant deadline counts as INT32_MAX nanoseconds. */
  function Clamped(deadline: int): nat {
    if deadline < 0 || deadline > INT32_MAX then INT32_MAX else deadline
  }

  /** tcg_get_icount_limit. */
  function Limit(deadline: int, shift: nat): int { Round(Clamped(deadline), shift) }

  /** It is the least number of instructions that takes as long as the deadline, or INT32_MAX nanoseconds. */
  lemma LimitLeast(deadline: int, shift: nat, n: int)
    ensures Limit(deadline, shift) <= n <==>
      (if 0 <= deadline <= 0x7fff_ffff then deadline else 0x7fff_ffff) <= n * Pow2(shift)
  {
    RoundLeast(Clamped(deadline), shift, n);
  }

  /** What happens to the running guest: a translation block of n instructions of which done are executed
      (fewer than n when it is left early), or an interrupt request. */
  datatype Event = Block(n: nat, done: nat) | Interrupt

  predicate EventOk(e: Event) {
    e.Block? ==> e.done <= e.n <= DECR_MAX
  }

  /** How many instructions a slice executes out of a budget: blocks that fit run, the first that does not runs
      as far as the budget goes, and nothing runs after an interrupt request. */
  function Ran(budget: nat, events: seq<Event>): nat {
    if events == [] || events[0].Interrupt? then 0
    else if events[0].n > budget then (if budget < events[0].done then budget else events[0].done)
    else if events[0].done > budget then budget
    else events[0].done + Ran(budget - events[0].done, events[1..])
  }

  class Counters {
    var qemuIcount: int
    var bias: int
    var shift: nat
    var lastDelta: int
    var low: nat
    var high: nat
    var extra: nat
    ghost var executed: nat

    /** Instructions granted to the running CPU and not yet executed. */
    function Pending(): nat
      reads this`low, this`extra
    {
      low + extra
    }

    /** cpu_get_icount_raw; onCpu says whether the caller is the CPU thread. */
    function Raw(onCpu: bool): int
      reads this`qemuIcount, this`low, this`extra
    {
      qemuIcount - if onCpu then Pending() else 0
    }

    /** cpu_get_icount_locked. */
    function VirtualTime(onCpu: bool): int
      reads this`qemuIcount, this`low, this`extra, this`bias, this`shift
    {
      bias + Raw(onCpu) * Pow2(shift)
    }

    /** The raw counter is the number of instructions executed. */
    ghost predicate Valid()
      reads this
    {
      && Raw(true) == executed
      && low <= DECR_MAX && (high == 0 || high == DECR_MAX) && shift <= MAX_ICOUNT_SHIFT
    }

    constructor ()
      ensures Valid() && executed == 0 && Pending() == 0 && high == 0
    {
      qemuIcount, bias, shift, lastDelta, low, high, extra, executed := 0, 0, 3, 0, 0, 0, 0, 0;
    }

    /** The start of a slice in tcg_cpu_exec: what is left is taken back, then the budget is handed out. */
    method BeginSlice(deadline: int)
      requires Valid()
      modifies this`qemuIcount, this`low, this`extra
      ensures Valid() && Pending() == Limit(deadline, shift) && (extra > 0 ==> low == DECR_MAX)
    {
      qemuIcount := qemuIcount - (low + extra);
      low, extra := 0, 0;
      RoundLeast(Clamped(deadline), shift, 0);
      var count := Limit(deadline, shift);
      qemuIcount := qemuIcount + count;
      var decr := if count > DECR_MAX then DECR_MAX else count;
      count := count - decr;
      low := decr;
      extra := count;
    }

    /** The prologue of a translation block and, if it runs, its effect. The prologue subtracts the block's
        length from the decrementer as one signed 32-bit number, leaves on a negative result and otherwise stores
        the low half; what was not executed is given back. A block has at most 0x7fff instructions. */
    method ExecuteBlock(n: nat, done: nat) returns (expired: bool)
      requires Valid() && done <= n <= 0x7fff_0000
      modifies this`low, this`executed
      ensures Valid()
      ensures expired <==> high != 0 || old(low) < n
      ensures expired ==> unchanged(this)
      ensures !expired ==> executed == old(executed) + done && low == old(low) - done
    {
      var u32 := high * 0x1_0000 + low;
      var count := Signed32(u32 - n);
      if count < 0 {
        return true;
      }
      low := count % 0x1_0000;
      low := low + n - done;
      executed := executed + done;
      expired := false;
    }

    /** cpu_interrupt under icount: the sign bit of the decrementer forces the next block out. */
    method Interrupt()
      requires Valid()
      modifies this`high
      ensures Valid() && high == DECR_MAX
    {
      high := DECR_MAX;
    }

    /** The expiry branch of cpu_loop_exec_tb. Left is the number of instructions the CPU may still run
        singly before it leaves the loop. */
    method Expire() returns (refilled: bool, left: nat)
      requires Valid()
      modifies this`low, this`extra
      ensures Valid() && Pending() == old(Pending())
      ensures refilled <==> old(extra) > 0 && high == 0
      ensures refilled ==> left == 0 && (low == DECR_MAX || extra == 0) && low >= old(low)
      ensures refilled && old(low) < DECR_MAX ==> low > old(low)
      ensures !refilled ==> unchanged(this) && left == if high == 0 then low else 0
    {
      var insnsLeft := Signed32(high * 0x1_0000 + low);
      if extra > 0 && insnsLeft >= 0 {
        var total := extra + insnsLeft;
        insnsLeft := if DECR_MAX < total then DECR_MAX else total;
        extra := total - insnsLeft;
        low := insnsLeft;
        return true, 0;
      }
      refilled, left := false, if insnsLeft > 0 then insnsLeft else 0;
    }

    /** The end of a slice in tcg_cpu_exec. */
    method EndSlice()
      requires Valid()
      modifies this`qemuIcount, this`low, this`high, this`extra
      ensures Valid() && Pending() == 0 && high == 0 && qemuIcount == executed
    {
      qemuIcount := qemuIcount - (low + extra);
      low, high, extra := 0, 0, 0;
    }

    /** One round of the loop in cpu_exec: the block runs, or the decrementer is refilled, or the slice ends with as
        much of the block as the budget allows. */
    method TryBlock(n: nat, done: nat) returns (ran: bool, running: bool)
      requires Valid() && done <= n <= DECR_MAX
      modifies this`low, this`extra, this`executed
      ensures Valid() && executed + Pending() == old(executed) + old(Pending()) && executed >= old(executed)
      ensures ran ==> running && high == 0 && n <= old(Pending()) && executed == old(executed) + done
      ensures !ran && running ==> high == 0 && executed == old(executed) && low > old(low)
      ensures !running ==>
        if high != 0 then executed == old(executed)
        else n > old(Pending()) && executed == old(executed) + if old(Pending()) < done then old(Pending()) else done
    {
      var expired := ExecuteBlock(n, done);
      if !expired {
        return true, true;
      }
      var refilled, left := Expire();
      if refilled {
        return false, true;
      }
      if left > 0 {
        var last := if left < done then left else done;
        expired := ExecuteBlock(last, last);
      }
      ran, running := false, false;
    }

    /** tcg_cpu_exec over any sequence of events; the slice ends when the budget is gone, at an interrupt,
        or when the CPU stops for another reason after the last event. */
    method TcgCpuExec(deadline: int, events: seq<Event>)
      requires Valid() && forall i :: 0 <= i < |events| ==> EventOk(events[i])
      modifies this
      ensures Valid() && Pending() == 0 && qemuIcount == executed
      ensures 0 <= Limit(deadline, shift) && old(executed) <= executed <= old(executed) + Limit(deadline, shift)
      ensures executed == old(executed) + if old(high) == 0 then Ran(Limit(deadline, shift), events) else 0
      ensures shift == old(shift) && bias == old(bias)
    {
      hide Round, Pow2, Limit;
      BeginSlice(deadline);
      var i, running := 0, true;
      ghost var total := if high == 0 then Ran(Pending(), events) else 0;
      assert events[0..] == events;
      while i < |events| && running
        invariant 0 <= i <= |events| && Valid()
        invariant running && high == 0 ==> executed + Ran(Pending(), events[i..]) == old(executed) + total
        invariant !running || high != 0 ==> executed == old(executed) + total
        invariant shift == old(shift) && bias == old(bias)
        invariant old(executed) <= executed && executed + Pending() == old(executed) + Limit(deadline, shift)
        decreases |events| - i, if running then 1 else 0, DECR_MAX - low
      {
        assert events[i..][1..] == events[i + 1..] && events[i..][0] == events[i];
        if events[i].Interrupt? {
          Interrupt();
          i := i + 1;
        } else {
          var ran;
          ran, running := TryBlock(events[i].n, events[i].done);
          if ran {
            i := i + 1;
          }
        }
      }
      EndSlice();
    }

    /** icount_adjust: the shift follows the guest's lead or lag, and the bias makes up for the change.
        Time, as the caller reads it, stands still exactly when the caller has no budget outstanding; when
        another thread adjusts it, the CPU's reading moves by its budget's change in worth. */
    method Adjust(onCpu: bool, running: bool, curTime: int)
      requires Valid()
      modifies this`shift, this`bias, this`lastDelta
      ensures Valid()
      ensures !running ==> unchanged(this)
      ensures running ==> (VirtualTime(onCpu) == old(VirtualTime(onCpu)) <==> (onCpu ==> Pending() == 0))
      ensures running ==> VirtualTime(onCpu) == old(VirtualTime(onCpu)) - (if onCpu then Pending() * Pow2(shift) else 0)
      ensures running && !onCpu ==>
        VirtualTime(true) == old(VirtualTime(true)) + Pending() * (Pow2(old(shift)) - Pow2(shift))
      ensures -1 <= shift - old(shift) <= 1
      ensures shift < old(shift) <==>
        && running && 0 < old(VirtualTime(onCpu)) - curTime && old(shift) > 0
        && old(lastDelta) + 100_000_000 < (old(VirtualTime(onCpu)) - curTime) * 2
      ensures shift > old(shift) <==>
        && running && old(VirtualTime(onCpu)) - curTime < 0 && old(shift) < 10
        && old(lastDelta) - 100_000_000 > (old(VirtualTime(onCpu)) - curTime) * 2
      ensures running ==> lastDelta == old(VirtualTime(onCpu)) - curTime
    {
      if !running {
        return;
      }
      var curIcount := VirtualTime(onCpu);
      var delta := curIcount - curTime;
      if delta > 0 && lastDelta + ICOUNT_WOBBLE < delta * 2 && shift > 0 {
        shift := shift - 1;
      }
      if delta < 0 && lastDelta - ICOUNT_WOBBLE > delta * 2 && shift < MAX_ICOUNT_SHIFT {
        shift := shift + 1;
      }
      lastDelta := delta;
      bias := curIcount - qemuIcount * Pow2(shift);
      Rebased(curIcount, qemuIcount, if onCpu then Pending() else 0, Pow2(shift));
      CpuRebased(old(bias), bias, qemuIcount, Pending(), Pow2(old(shift)), Pow2(shift));
    }
  }

  lemma Rebased(now: int, total: int, pending: nat, p: nat)
    requires p > 0
    ensures (now - total * p) + (total - pending) * p == now - pending * p
    ensures pending * p == 0 <==> pending == 0
  {
    if pending > 0 { assert pending * p >= p by { Scale(1, pending, p); } }
  }

  lemma CpuRebased(bias: int, bias': int, total: int, pending: nat, p: nat, q: nat)
    ensures bias' == bias + total * p - total * q ==>
      bias' + (total - pending) * q == bias + (total - pending) * p + pending * (p - q)
  {
    assert (total - pending) * q == total * q - pending * q;
    assert (total - pending) * p == total * p - pending * p;
    assert pending * (p - q) == pending * p - pending * q;
  }

  /** Between slices adjusting leaves virtual time alone, and a slice never moves it back and moves it past the
      deadline, or past INT32_MAX nanoseconds without a near one, by less than the time of one instruction. */
  method SliceThenAdjust(c: Counters, deadline: int, events: seq<Event>, running: bool, curTime: int)
    requires c.Valid() && c.Pending() == 0
    requires forall i :: 0 <= i < |events| ==> EventOk(events[i])
    modifies c
    ensures c.Valid() && c.Pending() == 0
    ensures old(c.VirtualTime(true)) <= c.VirtualTime(true)
    ensures c.VirtualTime(true) < old(c.VirtualTime(true)) + Clamped(deadline) + Pow2(old(c.shift))
  {
    hide Pow2, Round;
    c.TcgCpuExec(deadline, events);
    SliceTime(c.executed - old(c.executed), Clamped(deadline), c.shift);
    assert c.VirtualTime(true) == old(c.VirtualTime(true)) + (c.executed - old(c.executed)) * Pow2(c.shift);
    c.Adjust(true, running, curTime);
  }

  lemma SliceTime(n: nat, deadline: nat, shift: nat)
    requires n <= Round(deadline, shift)
    ensures 0 <= n * Pow2(shift) < deadline + Pow2(shift)
  {
    RoundLeast(deadline, shift, n - 1);
    assert (n - 1) * Pow2(shift) == n * Pow2(shift) - Pow2(shift);
  }
}
