/** The kernel's process table and scheduler code, proved against the functions of `Processes`. */
module Scheduler {
  import opened Bytes
  import opened Processes

  /** Cyclic distance in slots from just after `origin` to `s`. */
  function Dist(origin: int, s: nat): int {
    if s > origin then s - origin - 1 else s - origin - 1 + MAX_PROCESSES
  }

  lemma DistIs(origin: int, k: nat)
    requires -1 <= origin < MAX_PROCESSES && k < MAX_PROCESSES
    ensures Dist(origin, (origin + 1 + k) % MAX_PROCESSES) == k
  {
  }

  lemma {:induction false} FirstHitIs(procs: seq<PCB>, origin: int, s: nat, k: nat)
    requires |procs| == MAX_PROCESSES && -1 <= origin < MAX_PROCESSES && s < MAX_PROCESSES && Hit(procs, s)
    requires forall x :: 0 <= x < MAX_PROCESSES && Hit(procs, x) ==> Dist(origin, s) <= Dist(origin, x)
    requires k <= Dist(origin, s)
    ensures FirstHit(procs, origin, k) == FindPid(procs, procs[s].pid, 0)
    decreases MAX_PROCESSES - k
  {
    DistIs(origin, k);
    var x := (origin + 1 + k) % MAX_PROCESSES;
    if Dist(origin, s) == k {
      assert x == s;
    } else {
      assert !Hit(procs, x);
      FirstHitIs(procs, origin, s, k + 1);
    }
  }

  lemma {:induction false} NoHit(procs: seq<PCB>, origin: int, k: nat)
    requires |procs| == MAX_PROCESSES && -1 <= origin < MAX_PROCESSES && k <= MAX_PROCESSES
    requires forall x :: 0 <= x < MAX_PROCESSES ==> !Hit(procs, x)
    ensures FirstHit(procs, origin, k) == -1
    decreases MAX_PROCESSES - k
  {
    if k < MAX_PROCESSES {
      NoHit(procs, origin, k + 1);
    }
  }

  /** The live entries among the first `n` slots, in slot order. */
  function LiveEntries(procs: seq<PCB>, n: nat): seq<PCB>
    requires n <= |procs|
  {
    if n == 0 then [] else LiveEntries(procs, n - 1) + if Live(procs[n - 1]) then [procs[n - 1]] else []
  }

  /** `slots` lists the live slots in order. */
  ghost predicate LiveSlots(procs: seq<PCB>, slots: seq<nat>, n: nat)
    requires n <= |procs|
  {
    && (forall i :: 0 <= i < |slots| ==> slots[i] < n && Live(procs[slots[i]]))
    && (forall i, j :: 0 <= i < j < |slots| ==> slots[i] < slots[j])
    && (forall k :: 0 <= k < n && Live(procs[k]) ==> k in slots)
  }

  lemma NoSlots(procs: seq<PCB>)
    ensures LiveSlots(procs, [], 0) && LiveEntries(procs, 0) == []
  {
  }

  lemma NextSlot(procs: seq<PCB>, slots: seq<nat>, i: nat)
    requires i < |procs| && LiveSlots(procs, slots, i)
    ensures LiveSlots(procs, if Live(procs[i]) then slots + [i] else slots, i + 1)
    ensures LiveEntries(procs, i + 1) == LiveEntries(procs, i) + if Live(procs[i]) then [procs[i]] else []
  {
    hide Live, LiveSlots;
    if Live(procs[i]) {
      SlotAdded(procs, slots, i);
    } else {
      SlotSkipped(procs, slots, i);
    }
  }

  lemma SlotAdded(procs: seq<PCB>, slots: seq<nat>, i: nat)
    requires i < |procs| && LiveSlots(procs, slots, i) && Live(procs[i])
    ensures LiveSlots(procs, slots + [i], i + 1)
  {
    hide Live;
    forall k | 0 <= k < i + 1 && Live(procs[k])
      ensures k in slots + [i]
    {
      assert k == i || k in slots;
    }
  }

  lemma SlotSkipped(procs: seq<PCB>, slots: seq<nat>, i: nat)
    requires i < |procs| && LiveSlots(procs, slots, i) && !Live(procs[i])
    ensures LiveSlots(procs, slots, i + 1)
  {
    hide Live;
  }

  /** The j-th slot on a cyclic walk through the list from position `start`. */
  function Walk(slots: seq<nat>, start: nat, j: nat): nat
    requires start < |slots| && j < |slots|
  {
    slots[if start + j < |slots| then start + j else start + j - |slots|]
  }

  lemma WrapIs(a: nat, n: nat)
    requires a < 2 * n
    ensures a % n == if a < n then a else a - n
  {
    if a >= n {
      assert a == 1 * n + (a - n);
    }
  }

  /** The walk starts just after the entry of `origin`, or at the beginning when there is none. */
  ghost predicate StartsAfter(slots: seq<nat>, origin: int, start: nat) {
    if origin == -1 then start == 0
    else start < |slots| && slots[if start == 0 then |slots| - 1 else start - 1] == origin
  }

  lemma StartIs(slots: seq<nat>, origin: int, at: int, start: int)
    requires -1 <= at < |slots| && origin == if at < 0 then -1 else slots[at]
    requires start == if at < 0 then 0 else (at + 1) % |slots|
    ensures 0 <= start && (slots != [] ==> start < |slots|) && StartsAfter(slots, origin, start)
  {
    if at >= 0 {
      WrapIs(at + 1, |slots|);
    }
  }

  lemma WalkAt(slots: seq<nat>, start: nat, step: nat)
    requires start < |slots| && step < |slots|
    ensures slots[(start + step) % |slots|] == Walk(slots, start, step)
  {
    WrapIs(start + step, |slots|);
  }

  /** The walk visits slots in order of cyclic distance. */
  lemma WalkOrder(procs: seq<PCB>, slots: seq<nat>, origin: int, start: nat, a: nat, b: nat)
    requires |procs| == MAX_PROCESSES && LiveSlots(procs, slots, MAX_PROCESSES) && a < b < |slots| && start < |slots|
    requires -1 <= origin < MAX_PROCESSES && StartsAfter(slots, origin, start)
    ensures Dist(origin, Walk(slots, start, a)) < Dist(origin, Walk(slots, start, b))
  {
  }

  lemma WalkReaches(procs: seq<PCB>, slots: seq<nat>, start: nat, x: nat) returns (j: nat)
    requires |procs| == MAX_PROCESSES && LiveSlots(procs, slots, MAX_PROCESSES) && start < |slots|
    requires x < MAX_PROCESSES && Live(procs[x])
    ensures j < |slots| && Walk(slots, start, j) == x
  {
    var m :| 0 <= m < |slots| && slots[m] == x;
    j := if m >= start then m - start else m - start + |slots|;
  }

  /** The slot of the list entry with the current pid is the first live slot with that pid. */
  lemma OriginIs(procs: seq<PCB>, slots: seq<nat>, pid: nat, at: int)
    requires |procs| == MAX_PROCESSES && LiveSlots(procs, slots, MAX_PROCESSES) && -1 <= at < |slots|
    requires forall k :: 0 <= k < (if at < 0 then |slots| else at) ==> procs[slots[k]].pid != pid
    requires at >= 0 ==> procs[slots[at]].pid == pid
    ensures FindPid(procs, pid, 0) == if at < 0 then -1 else slots[at]
  {
    var f := FindPid(procs, pid, 0);
    if f >= 0 {
      var k :| 0 <= k < |slots| && slots[k] == f;
    }
  }

  /** The first READY process met on the walk is the nearest one. */
  lemma WalkFinds(procs: seq<PCB>, slots: seq<nat>, origin: int, start: nat, step: nat)
    requires |procs| == MAX_PROCESSES && LiveSlots(procs, slots, MAX_PROCESSES) && start < |slots| && step < |slots|
    requires -1 <= origin < MAX_PROCESSES && StartsAfter(slots, origin, start)
    requires forall j :: 0 <= j < step ==> Walk(slots, start, j) < MAX_PROCESSES && !Hit(procs, Walk(slots, start, j))
    requires Walk(slots, start, step) < MAX_PROCESSES && Hit(procs, Walk(slots, start, step))
    ensures FirstHit(procs, origin, 0) == FindPid(procs, procs[Walk(slots, start, step)].pid, 0)
  {
    hide Hit, FirstHit;
    var s := Walk(slots, start, step);
    forall x | 0 <= x < MAX_PROCESSES && Hit(procs, x)
      ensures Dist(origin, s) <= Dist(origin, x)
    {
      HitLive(procs, x);
      var j := WalkReaches(procs, slots, start, x);
      if j > step {
        WalkOrder(procs, slots, origin, start, step, j);
      }
    }
    FirstHitIs(procs, origin, s, 0);
  }

  lemma HitLive(procs: seq<PCB>, x: nat)
    requires x < |procs| && Hit(procs, x)
    ensures Live(procs[x])
  {
  }

  lemma HitIs(procs: seq<PCB>, s: nat)
    requires s < |procs| && Live(procs[s])
    ensures FindPid(procs, procs[s].pid, 0) >= 0
    ensures Hit(procs, s) <==> procs[FindPid(procs, procs[s].pid, 0)].state == Ready
  {
  }

  lemma WalkMisses(procs: seq<PCB>, slots: seq<nat>, origin: int, start: nat)
    requires |procs| == MAX_PROCESSES && LiveSlots(procs, slots, MAX_PROCESSES) && -1 <= origin < MAX_PROCESSES
    requires slots != [] ==> start < |slots|
    requires forall j :: 0 <= j < |slots| ==> Walk(slots, start, j) < MAX_PROCESSES
                                              && !Hit(procs, Walk(slots, start, j))
    ensures FirstHit(procs, origin, 0) == -1
  {
    forall x | 0 <= x < MAX_PROCESSES
      ensures !Hit(procs, x)
    {
      if Live(procs[x]) {
        assert slots != [];
        var j := WalkReaches(procs, slots, start, x);
      }
    }
    NoHit(procs, origin, 0);
  }

  class Kernel {
    const table: array<PCB>
    var cur: nat
    var nextPid: nat
    var active: bool
    var regs: TrapFrame

    ghost function Abs(): Sys
      reads this, table
    {
      Sys(table[..], cur, nextPid, active, regs)
    }

    /** process_init */
    constructor (frame: TrapFrame)
      ensures fresh(table) && Valid(Abs()) && Abs() == Boot(frame)
    {
      table := new PCB[MAX_PROCESSES](_ => UNUSED_SLOT);
      cur, nextPid, active, regs := 0, 1, false, frame;
      new;
      table[0] := table[0].(state := Running);
      assert table[..] == Boot(frame).procs;
    }

    method SchedInit()
      requires Valid(Abs())
      modifies this`active
      ensures Abs() == old(Abs()).(active := true)
    {
      active := true;
    }

    method GetByPid(pid: nat) returns (r: int)
      requires Valid(Abs())
      ensures r == FindPid(table[..], pid, 0)
    {
      var i := 0;
      while i < MAX_PROCESSES
        invariant 0 <= i <= MAX_PROCESSES
        invariant FindPid(table[..], pid, 0) == FindPid(table[..], pid, i)
      {
        if Live(table[i]) && table[i].pid == pid { return i; }
        i := i + 1;
      }
      r := -1;
    }

    method GetAll() returns (all: seq<PCB>, ghost slots: seq<nat>)
      requires Valid(Abs())
      ensures LiveSlots(table[..], slots, MAX_PROCESSES) && |all| == |slots|
      ensures forall i :: 0 <= i < |all| ==> all[i] == table[slots[i]]
      ensures all == LiveEntries(table[..], MAX_PROCESSES)
    {
      hide LiveSlots, LiveEntries;
      all, slots := [], [];
      var i := 0;
      NoSlots(table[..]);
      while i < MAX_PROCESSES
        invariant 0 <= i <= MAX_PROCESSES
        invariant LiveSlots(table[..], slots, i) && |all| == |slots|
        invariant forall k :: 0 <= k < |all| ==> slots[k] < MAX_PROCESSES && all[k] == table[slots[k]]
        invariant all == LiveEntries(table[..], i)
      {
        NextSlot(table[..], slots, i);
        if table[i].state != Unused {
          all, slots := all + [table[i]], slots + [i];
        }
        i := i + 1;
      }
    }

    /** The first loop: the index after the current process. */
    static method StartIndex(all: seq<PCB>, pid: nat) returns (startIdx: nat, ghost at: int)
      ensures -1 <= at < |all| && startIdx == if at >= 0 then (at + 1) % |all| else 0
      ensures at >= 0 ==> all[at].pid == pid
      ensures forall k :: 0 <= k < (if at < 0 then |all| else at) ==> all[k].pid != pid
    {
      var i := 0;
      while i < |all|
        invariant 0 <= i <= |all| && forall k :: 0 <= k < i ==> all[k].pid != pid
      {
        if all[i].pid == pid { return (i + 1) % |all|, i; }
        i := i + 1;
      }
      startIdx, at := 0, -1;
    }

    method SchedPickNext() returns (r: int)
      requires Valid(Abs())
      ensures r == PickNext(table[..], cur)
    {
      hide Hit, FirstHit, Walk, StartsAfter;
      ghost var procs := table[..];
      var all, slots := GetAll();
      var total := |all|;
      ghost var origin := FindPid(procs, table[cur].pid, 0);
      var startIdx, at := StartIndex(all, table[cur].pid);
      OriginIs(procs, slots, table[cur].pid, at);
      StartIs(slots, origin, at, startIdx);
      var step := 0;
      while step < total
        invariant 0 <= step <= total
        invariant forall j :: 0 <= j < step ==> Walk(slots, startIdx, j) < MAX_PROCESSES
                                                && !Hit(procs, Walk(slots, startIdx, j))
      {
        WalkAt(slots, startIdx, step);
        var idx := (startIdx + step) % total;
        var candidate := GetByPid(all[idx].pid);
        HitIs(procs, slots[idx]);
        if candidate >= 0 && table[candidate].state == Ready {
          WalkFinds(procs, slots, origin, startIdx, step);
          return candidate;
        }
        step := step + 1;
      }
      WalkMisses(procs, slots, origin, startIdx);
      var shell := GetByPid(0);
      if shell >= 0 && (table[shell].state == Ready || table[shell].state == Running) {
        return shell;
      }
      r := -1;
    }

    method SchedTick()
      requires Valid(Abs())
      modifies this`cur, this`regs, table
      ensures Abs() == Tick(old(Abs()))
    {
      hide PickNext, Saved, Loaded;
      if !active { return; }
      ghost var s := Abs();
      var me := cur;
      table[me] := table[me].(totalTicks := (table[me].totalTicks + 1) % U32);
      if table[me].timeSlice > 0 {
        table[me] := table[me].(timeSlice := table[me].timeSlice - 1);
      }
      assert table[..] == s.procs[me := Charged(s.procs[me])];
      if table[me].timeSlice == 0 {
        table[me] := table[me].(timeSlice := QUANTUM);
        ghost var t := Abs();
        assert t.procs == s.procs[me := Charged(s.procs[me]).(timeSlice := QUANTUM)];
        var next := SchedPickNext();
        if next >= 0 && next != me {
          table[me] := table[me].(context := Saved(regs));
          if table[me].state == Running {
            table[me] := table[me].(state := Ready);
          }
          table[next] := table[next].(state := Running);
          table[next] := table[next].(timeSlice := QUANTUM);
          cur := next;
          regs := Loaded(regs, table[next].context);
          assert table[..] == Switched(t, next).procs;
        }
      }
    }

    method SchedYield()
      requires Valid(Abs())
      modifies table
      ensures Abs() == Yield(old(Abs()))
    {
      table[cur] := table[cur].(timeSlice := 0);
    }

    method FindSlot() returns (slot: nat)
      requires Valid(Abs())
      ensures slot == FreeSlot(table[..], 1)
    {
      slot := 1;
      while slot < MAX_PROCESSES
        invariant 1 <= slot <= MAX_PROCESSES
        invariant FreeSlot(table[..], 1) == FreeSlot(table[..], slot)
      {
        if table[slot].state == Unused || table[slot].state == Zombie { return; }
        slot := slot + 1;
      }
    }

    /** Returns the slot taken, or -1; `block` is what kmalloc would return for a kernel stack. */
    method ProcessCreate(entry: nat, ptype: ProcType, user: bool, block: nat) returns (r: int)
      requires Valid(Abs())
      modifies this`nextPid, table
      ensures Abs() == Create(old(Abs()), entry, ptype, user, block)
      ensures r == if FreeSlot(old(table[..]), 1) < MAX_PROCESSES then FreeSlot(old(table[..]), 1) else -1
    {
      hide Filled;
      ghost var s := Abs();
      var slot := FindSlot();
      if slot == MAX_PROCESSES { return -1; }
      var p := table[slot].(pid := nextPid);
      nextPid := (nextPid + 1) % U32;
      table[slot] := p;
      table[slot] := FillEntry(p, table[cur].pid, entry, ptype, user, block);
      assert table[slot] == NewProcess(s, slot, entry, ptype, user, block);
      return slot;
    }

    /** The assignments to the fields of a new entry. */
    static method FillEntry(was: PCB, parent: nat, entry: nat, ptype: ProcType, user: bool, block: nat) returns (p: PCB)
      ensures p == Filled(was, parent, entry, ptype, user, block)
    {
      p := was.(state := Ready, ptype := ptype, parentPid := parent, entryPoint := entry,
                exitCode := 0, timeSlice := QUANTUM, totalTicks := 0);
      if p.kernelStackBase == 0 {
        p := p.(kernelStackBase := block);
      }
      if p.kernelStackBase != 0 {
        p := p.(kernelStackTop := (p.kernelStackBase + STACK_SIZE) / 16 * 16);
      }
      p := p.(context := ZERO_CONTEXT.(rip := entry, rflags := 0x202));
      if user {
        p := p.(context := p.context.(cs := USER_CS, ss := USER_DS, rsp := p.userStackTop));
      } else {
        p := p.(context := p.context.(cs := KERNEL_CS, ss := KERNEL_DS, rsp := p.kernelStackTop));
      }
    }

    /** Returns the child's pid, or -11 when the table is full. */
    method ProcessFork(block: nat) returns (r: int)
      requires Valid(Abs())
      modifies this`nextPid, table
      ensures Abs() == Fork(old(Abs()), block)
      ensures r == if FreeSlot(old(table[..]), 1) < MAX_PROCESSES then AsInt32(old(nextPid)) else -11
    {
      ghost var s := Abs();
      var slot := FindSlot();
      if slot == MAX_PROCESSES { return -11; }
      var p := table[slot].(pid := nextPid);
      r := AsInt32(nextPid);
      nextPid := (nextPid + 1) % U32;
      table[slot] := p;
      p := p.(parentPid := table[cur].pid, state := Ready, ptype := table[cur].ptype, exitCode := 0,
              timeSlice := QUANTUM, totalTicks := 0);
      if p.kernelStackBase == 0 {
        p := p.(kernelStackBase := block);
      }
      if p.kernelStackBase != 0 {
        p := p.(kernelStackTop := (p.kernelStackBase + STACK_SIZE) / 16 * 16);
      }
      p := p.(context := table[cur].context.(rax := 0), userStackTop := table[cur].userStackTop,
              entryPoint := table[cur].entryPoint);
      table[slot] := p;
      assert p == ForkedProcess(s, slot, block);
    }

    method ProcessKill(pid: nat) returns (ok: bool)
      requires Valid(Abs())
      modifies table
      ensures Abs() == Kill(old(Abs()), pid)
      ensures ok <==> pid != 0 && FindPid(old(table[..]), pid, 0) >= 0
    {
      if pid == 0 { return false; }
      var i := GetByPid(pid);
      if i < 0 { return false; }
      table[i] := table[i].(state := Zombie);
      table[i] := table[i].(exitCode := -9);
      ok := true;
    }

    method ProcessExit(code: int)
      requires Valid(Abs())
      modifies table
      ensures Abs() == Exit(old(Abs()), code)
    {
      table[cur] := table[cur].(state := Zombie);
      table[cur] := table[cur].(exitCode := code);
      SchedYield();
    }

    /** One pass of process_waitpid's endless loop; `again` when the kernel goes round once more.
        `status` is the wait status of the reaped child. */
    method WaitPass(pid: int, noHang: bool) returns (again: bool, r: int, status: int)
      requires Valid(Abs())
      modifies table
      ensures Abs() == Wait(old(Abs()), pid, noHang)
      ensures match WaitReply(old(Abs()), pid, noHang)
              case Reaped(child, code) => !again && r == child && status == code
              case NoChildren => !again && r == -10
              case NoneDead => !again && r == 0
              case Again => again
    {
      again, r, status := false, 0, 0;
      var me := table[cur].pid;
      var hasChildren := false;
      ghost var procs := table[..];
      var i := 1;
      while i < MAX_PROCESSES
        invariant 1 <= i <= MAX_PROCESSES && table[..] == procs
        invariant DeadChild(procs, me, pid, 1) == DeadChild(procs, me, pid, i)
        invariant hasChildren <==> exists k :: 1 <= k < i && Waited(procs, me, pid, k)
      {
        assert table[i] == procs[i];
        if Live(table[i]) && (table[i].parentPid == me || me == 0) && (pid == -1 || AsInt32(table[i].pid) == pid) {
          assert Waited(procs, me, pid, i);
          hasChildren := true;
          if table[i].state == Zombie {
            r := AsInt32(table[i].pid);
            status := table[i].exitCode % 256 * 256;
            table[i] := table[i].(state := Unused);
            table[i] := table[i].(pid := 0);
            return;
          }
        }
        i := i + 1;
      }
      if !hasChildren { return false, -10, 0; }
      if noHang { return false, 0, 0; }
      SchedYield();
      again := true;
    }
  }
}
