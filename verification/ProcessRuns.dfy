/** What a process leaves behind and hands on, along every run: exit codes, forked contexts, ticks. */
module ProcessRuns {
  import opened Bytes
  import opened Processes
  import opened Scheduler
  import opened SchedulerRuns

  // ---- exit codes ----

  /** The event takes dead slot `i` for a new process, kills or reaps what is in it, or is another exit of it. */
  predicate Disturbs(s: Sys, e: Event, i: nat)
    requires Valid(s)
  {
    || (Makes(e) && FreeSlot(s.procs, 1) == i)
    || (e.KillEvent? && e.pid != 0 && FindPid(s.procs, e.pid, 0) == i)
    || (e.WaitEvent? && DeadChild(s.procs, s.procs[s.cur].pid, e.child, 1) == i)
    || (e.ExitEvent? && s.cur == i)
  }

  ghost predicate LeftAlone(s: Sys, events: seq<Event>, i: nat)
    requires Valid(s)
    decreases |events|
  {
    events == [] || (!Disturbs(s, events[0], i) && LeftAlone(Step(s, events[0]), events[1..], i))
  }

  /** Slot `i` holds a dead process with this pid, parent and exit code. */
  ghost predicate Dead(s: Sys, i: nat, pid: nat, parent: nat, code: int)
    requires Valid(s)
  {
    && i < MAX_PROCESSES && s.procs[i].state == Zombie && s.procs[i].pid == pid && s.procs[i].parentPid == parent
    && s.procs[i].exitCode == code
  }

  lemma PickedAlive(procs: seq<PCB>, cur: nat)
    requires |procs| == MAX_PROCESSES && cur < MAX_PROCESSES
    ensures var r := PickNext(procs, cur); r >= 0 ==> procs[r].state == Ready || procs[r].state == Running
  {
    hide FirstHit;
  }

  lemma TickKeepsDead(s: Sys, i: nat, pid: nat, parent: nat, code: int)
    requires Valid(s) && Dead(s, i, pid, parent, code)
    ensures Dead(Tick(s), i, pid, parent, code) && (s.cur != i ==> Tick(s).cur != i)
  {
    hide PickNext, Saved, Loaded;
    var t := s.(procs := s.procs[s.cur := Charged(s.procs[s.cur]).(timeSlice := QUANTUM)]);
    PickedAlive(t.procs, t.cur);
  }

  lemma StepKeepsDead(s: Sys, e: Event, i: nat, pid: nat, parent: nat, code: int)
    requires Valid(s) && Dead(s, i, pid, parent, code) && !Disturbs(s, e, i)
    ensures Dead(Step(s, e), i, pid, parent, code) && (s.cur != i ==> Step(s, e).cur != i)
  {
    hide Tick, FreeSlot, FindPid, DeadChild, StartContext;
    if e.TickEvent? {
      TickKeepsDead(s, i, pid, parent, code);
    } else if Makes(e) {
      MakeFacts(s, e);
    }
  }

  lemma {:induction false} RunKeepsDead(s: Sys, events: seq<Event>, i: nat, pid: nat, parent: nat, code: int)
    requires Valid(s) && Dead(s, i, pid, parent, code) && LeftAlone(s, events, i)
    ensures Dead(After(s, events), i, pid, parent, code) && (s.cur != i ==> After(s, events).cur != i)
    decreases |events|
  {
    hide Step, Dead, Disturbs;
    if events != [] {
      StepKeepsDead(s, events[0], i, pid, parent, code);
      RunKeepsDead(Step(s, events[0]), events[1..], i, pid, parent, code);
    }
  }

  /** A dead process does not get the processor back, however long the run, until its slot is recycled. */
  lemma DeadStaysOff(s: Sys, events: seq<Event>, i: nat)
    requires Valid(s) && i < MAX_PROCESSES && s.procs[i].state == Zombie && s.cur != i && LeftAlone(s, events, i)
    ensures After(s, events).cur != i
  {
    RunKeepsDead(s, events, i, s.procs[i].pid, s.procs[i].parentPid, s.procs[i].exitCode);
  }

  function LowByte(code: int): (r: nat)
    ensures r < 256
  {
    code % 256
  }

  /** The state some events after the current process ended. */
  function Ended(s: Sys, code: int, events: seq<Event>): (t: Sys)
    requires Valid(s)
    ensures Valid(t)
  {
    After(Step(s, ExitEvent(code)), events)
  }

  /** The current process ends, and nothing disturbs what it leaves. */
  ghost predicate UntilReaped(s: Sys, code: int, events: seq<Event>)
    requires Valid(s)
  {
    LeftAlone(Step(s, ExitEvent(code)), events, s.cur)
  }

  /** A pass of waiting for `child` reaps slot `i`. */
  predicate Reaps(s: Sys, child: int, i: nat)
    requires Valid(s)
  {
    DeadChild(s.procs, s.procs[s.cur].pid, child, 1) == i < MAX_PROCESSES
  }

  /** Whoever reaps a process that ended gets its pid and the low eight bits of its exit code, whatever happened
      since. */
  lemma ExitIsReported(s: Sys, code: int, events: seq<Event>, child: int, noHang: bool)
    requires Valid(s) && UntilReaped(s, code, events)
    requires Reaps(Ended(s, code, events), child, s.cur)
    ensures WaitReply(Ended(s, code, events), child, noHang) == Reaped(AsInt32(s.procs[s.cur].pid), LowByte(code) * 256)
  {
    hide DeadChild, LeftAlone, After, Waited;
    var a := Step(s, ExitEvent(code));
    RunKeepsDead(a, events, s.cur, s.procs[s.cur].pid, s.procs[s.cur].parentPid, code);
  }

  /** A killed process is reported with the low eight bits of -9. */
  lemma KillIsReported(s: Sys, pid: nat, events: seq<Event>, child: int, noHang: bool, i: nat)
    requires Valid(s) && pid != 0 && FindPid(s.procs, pid, 0) == i
    requires LeftAlone(Step(s, KillEvent(pid)), events, i) && Reaps(After(Step(s, KillEvent(pid)), events), child, i)
    ensures WaitReply(After(Step(s, KillEvent(pid)), events), child, noHang) == Reaped(AsInt32(pid), 0xF7 * 256)
  {
    hide DeadChild, LeftAlone, After, Waited;
    RunKeepsDead(Step(s, KillEvent(pid)), events, i, pid, s.procs[i].parentPid, -9);
  }

  lemma SameInt32(a: nat, b: nat)
    requires a < U32 && b < U32
    ensures AsInt32(a) == AsInt32(b) <==> a == b
  {
  }

  /** A parent that asks for a dead child by its pid gets that child. */
  lemma ParentFinds(s: Sys, i: nat, pid: nat, code: int)
    requires Valid(s) && DistinctPids(s.procs) && i > 0 && Dead(s, i, pid, s.procs[s.cur].pid, code)
             && AsInt32(pid) != -1
    ensures DeadChild(s.procs, s.procs[s.cur].pid, AsInt32(pid), 1) == i
  {
    var me := s.procs[s.cur].pid;
    forall k | 1 <= k < i
      ensures !Waited(s.procs, me, AsInt32(pid), k)
    {
      SameInt32(s.procs[k].pid, pid);
    }
    var r := DeadChild(s.procs, me, AsInt32(pid), 1);
    assert Waited(s.procs, me, AsInt32(pid), i);
    assert r <= i;
  }

  /** From exit to wait: in any run without recycling, a parent that waits for the child by its pid gets its exit
      code. */
  lemma ParentGetsExitCode(s: Sys, code: int, events: seq<Event>, noHang: bool, pid: nat)
    requires Inv(s) && s.cur != 0 && s.procs[s.cur].pid == pid && AsInt32(pid) != -1
    requires AllowedRun(Step(s, ExitEvent(code)), events) && UntilReaped(s, code, events)
    requires var t := Ended(s, code, events); t.procs[t.cur].pid == s.procs[s.cur].parentPid
    ensures WaitReply(Ended(s, code, events), AsInt32(pid), noHang) == Reaped(AsInt32(pid), LowByte(code) * 256)
  {
    hide DeadChild, LeftAlone, After, Waited, WaitReply, AllowedRun;
    var a, parent := Step(s, ExitEvent(code)), s.procs[s.cur].parentPid;
    StepKeepsInv(s, ExitEvent(code));
    RunKeepsInv(a, events);
    RunKeepsDead(a, events, s.cur, pid, parent, code);
    ParentFinds(Ended(s, code, events), s.cur, pid, code);
    ExitIsReported(s, code, events, AsInt32(pid), noHang);
  }

  /** Only the shell reaps children of others, and reaping frees the slot. */
  lemma ReapsOwn(s: Sys, child: int, noHang: bool)
    requires Valid(s) && WaitReply(s, child, noHang).Reaped?
    ensures exists i :: 1 <= i < MAX_PROCESSES && s.procs[i].state == Zombie
                        && AsInt32(s.procs[i].pid) == WaitReply(s, child, noHang).pid
                        && (s.procs[s.cur].pid == 0 || s.procs[i].parentPid == s.procs[s.cur].pid)
                        && (child == -1 || WaitReply(s, child, noHang).pid == child)
                        && Step(s, WaitEvent(child, noHang)).procs[i] == s.procs[i].(state := Unused, pid := 0)
  {
    var i := DeadChild(s.procs, s.procs[s.cur].pid, child, 1);
    assert 1 <= i < MAX_PROCESSES && s.procs[i].state == Zombie;
  }

  /** Slot `i` holds a process, dead or alive, that the current one may wait for under `child`: one of its own, or any
      if it is the shell, with that pid, or any if that is -1. */
  predicate MayWaitFor(s: Sys, child: int, i: int)
    requires Valid(s)
  {
    && 1 <= i < MAX_PROCESSES && s.procs[i].state != Unused
    && (s.procs[i].parentPid == s.procs[s.cur].pid || s.procs[s.cur].pid == 0)
    && (child == -1 || AsInt32(s.procs[i].pid) == child)
  }

  /** What waiting answers depends on whether there are such processes, and whether one of them is dead; and only when
      it is to wait for one still alive does it give way. */
  lemma WaitAnswers(s: Sys, child: int, noHang: bool)
    requires Valid(s)
    ensures var r, t := WaitReply(s, child, noHang), Step(s, WaitEvent(child, noHang));
            && (r.Reaped? <==> exists i :: MayWaitFor(s, child, i) && s.procs[i].state == Zombie)
            && (r.NoChildren? <==> forall i :: !MayWaitFor(s, child, i))
            && (r.NoneDead? ==> noHang) && (r.Again? ==> !noHang)
            && (r.NoChildren? || r.NoneDead? ==> t == s)
            && (r.Again? ==> t.procs[s.cur].timeSlice == 0 && t == s.(procs := s.procs[s.cur := t.procs[s.cur]]))
  {
    var me := s.procs[s.cur].pid;
    forall i: int
      ensures MayWaitFor(s, child, i) <==> 1 <= i < MAX_PROCESSES && Waited(s.procs, me, child, i)
    {
    }
    assert DeadChild(s.procs, me, child, 1) < MAX_PROCESSES ==> MayWaitFor(s, child, DeadChild(s.procs, me, child, 1));
  }

  /** After an exit, and after a pass of waiting that found nothing yet, the next tick gives the processor away exactly
      when somebody is READY. */
  lemma ExitGivesWayIff(s: Sys, code: int)
    requires Inv(s)
    ensures Tick(Step(s, ExitEvent(code))).cur != s.cur
            <==> exists t :: 0 <= t < MAX_PROCESSES && s.procs[t].state == Ready
  {
    hide Tick;
    var z := s.(procs := s.procs[s.cur := s.procs[s.cur].(state := Zombie, exitCode := code)]);
    assert Inv(z);
    YieldGivesWayIff(z);
    assert forall t :: 0 <= t < MAX_PROCESSES ==> (z.procs[t].state == Ready <==> s.procs[t].state == Ready);
  }

  lemma WaitGivesWayIff(s: Sys, child: int)
    requires Inv(s) && WaitReply(s, child, false) == Again
    ensures Tick(Step(s, WaitEvent(child, false))).cur != s.cur
            <==> exists t :: 0 <= t < MAX_PROCESSES && s.procs[t].state == Ready
  {
    hide Tick;
    YieldGivesWayIff(s);
  }

  // ---- the quantum ----

  /** A tick gives the processor away exactly on the last tick of a quantum, and when somebody is READY. */
  lemma TickGivesWayIff(s: Sys)
    requires Inv(s)
    ensures Tick(s).cur != s.cur <==>
            s.procs[s.cur].timeSlice <= 1 && exists t :: 0 <= t < MAX_PROCESSES && s.procs[t].state == Ready
    ensures Tick(s).cur != s.cur ==> Tick(s).procs[Tick(s).cur].timeSlice == 5
  {
    hide PickNext, Saved, Loaded;
    YieldGivesWayIff(s);
    if s.procs[s.cur].timeSlice <= 1 {
      LastTickYields(s);
    }
  }

  lemma LastTickYields(s: Sys)
    requires Valid(s) && s.active && s.procs[s.cur].timeSlice <= 1
    ensures Tick(s).cur == Tick(Yield(s)).cur
  {
    hide PickNext, Saved, Loaded;
    var y, p := Yield(s), Charged(s.procs[s.cur]).(timeSlice := QUANTUM);
    assert p == Charged(y.procs[s.cur]).(timeSlice := QUANTUM);
    assert s.procs[s.cur := p] == y.procs[s.cur := p];
  }

  /** Until the scheduler is started ticks do nothing. */
  lemma NoTicksAtBoot(frame: TrapFrame)
    ensures Tick(Boot(frame)) == Boot(frame)
  {
  }

  /** With nobody READY the shell is the choice if it runs, and there is none otherwise. */
  lemma PickLast(s: Sys)
    requires Inv(s) && forall t :: 0 <= t < MAX_PROCESSES ==> s.procs[t].state != Ready
    ensures PickNext(s.procs, s.cur) == if s.procs[0].state == Running then 0 else -1
  {
    hide FirstHit;
  }

  /** The running process gives up the rest of its quantum. */
  predicate GivesUp(s: Sys, e: Event)
    requires Valid(s)
  {
    e.YieldEvent? || e.ExitEvent? || (e.WaitEvent? && WaitReply(s, e.child, e.noHang) == Again)
  }

  ghost predicate CarriesOn(s: Sys, events: seq<Event>)
    requires Valid(s)
    decreases |events|
  {
    events == [] || (!GivesUp(s, events[0]) && CarriesOn(Step(s, events[0]), events[1..]))
  }

  lemma StepKeepsSlice(s: Sys, e: Event)
    requires Valid(s) && !GivesUp(s, e) && Ticks([e]) < s.procs[s.cur].timeSlice <= QUANTUM
    ensures var r := Step(s, e);
            r.cur == s.cur && s.procs[s.cur].timeSlice - Ticks([e]) <= r.procs[r.cur].timeSlice <= QUANTUM
  {
    hide PickNext, FreeSlot, DeadChild, StartContext, FindPid;
    if Makes(e) {
      MakeFacts(s, e);
    }
  }

  /** Whatever happens, nobody who carries on loses the processor before the quantum is over. */
  lemma {:induction false} QuantumIsKept(s: Sys, events: seq<Event>)
    requires Valid(s) && CarriesOn(s, events) && Ticks(events) < s.procs[s.cur].timeSlice <= QUANTUM
    ensures After(s, events).cur == s.cur
    decreases |events|
  {
    hide Step, GivesUp;
    if events != [] {
      assert Ticks(events) == Ticks([events[0]]) + Ticks(events[1..]);
      StepKeepsSlice(s, events[0]);
      QuantumIsKept(Step(s, events[0]), events[1..]);
    }
  }

  // ---- new processes ----

  /** A kernel stack: the slot's old one or the block, and a top that is aligned and inside it. */
  ghost predicate HasStack(p: PCB, was: PCB, block: nat) {
    && p.kernelStackBase == (if was.kernelStackBase != 0 then was.kernelStackBase else block)
    && (p.kernelStackBase != 0 ==>
          p.kernelStackTop % 16 == 0 && p.kernelStackBase + STACK_SIZE - 16 < p.kernelStackTop <= p.kernelStackBase
              + STACK_SIZE)
  }

  /** A process made by process_create: who it is, whose child, and on which stack. */
  lemma CreatedProcess(s: Sys, e: Event)
    requires Valid(s) && e.CreateEvent? && FreeSlot(s.procs, 1) < MAX_PROCESSES
    ensures var slot := FreeSlot(s.procs, 1); var p := Step(s, e).procs[slot];
            && p.pid == s.nextPid && p.parentPid == (if slot == s.cur then s.nextPid else s.procs[s.cur].pid)
            && p.state == Ready && p.ptype == e.ptype && p.entryPoint == e.entry && p.exitCode == 0
            && p.timeSlice == QUANTUM && p.totalTicks == 0 && HasStack(p, s.procs[slot], e.block)
  {
    hide FreeSlot, StartContext;
  }

  /** A forked process has its parent's program and user stack, and the registers the parent had when it was last
      switched out, but for a result of 0: what the parent computed since is not passed on. */
  lemma ForkedProcessIs(s: Sys, regs: TrapFrame, block: nat)
    requires Valid(s) && FreeSlot(s.procs, 1) < MAX_PROCESSES && FreeSlot(s.procs, 1) != s.cur
    ensures var slot, me, r := FreeSlot(s.procs, 1), s.procs[s.cur], Step(Step(s, ComputeEvent(regs)),
                                                                          ForkEvent(block));
            var p := r.procs[slot];
            && Registers(r, slot) == me.context.(rax := 0)
            && p.pid == s.nextPid && p.parentPid == me.pid && p.state == Ready && p.ptype == me.ptype
            && p.entryPoint == me.entryPoint && p.userStackTop == me.userStackTop && p.exitCode == 0
            && p.timeSlice == QUANTUM && p.totalTicks == 0 && HasStack(p, s.procs[slot], block)
  {
    hide FreeSlot, Saved;
  }

  /** Whoever makes a process, the next one gets the next pid, and a table without room gives out none. */
  lemma PidsCountUp(s: Sys, e: Event)
    requires Valid(s) && Makes(e)
    ensures Step(s, e).nextPid == if FreeSlot(s.procs, 1) < MAX_PROCESSES then (s.nextPid + 1) % U32 else s.nextPid
  {
  }

  // ---- registers ----

  /** Register by register, the context holds what the frame holds. */
  predicate Matches(f: TrapFrame, c: Context) {
    && f.rax == c.rax && f.rbx == c.rbx && f.rcx == c.rcx && f.rdx == c.rdx && f.rsi == c.rsi && f.rdi == c.rdi
    && f.rbp == c.rbp && f.r8 == c.r8 && f.r9 == c.r9 && f.r10 == c.r10 && f.r11 == c.r11 && f.r12 == c.r12
    && f.r13 == c.r13 && f.r14 == c.r14 && f.r15 == c.r15
    && f.rip == c.rip && f.cs == c.cs && f.rflags == c.rflags && f.rsp == c.rsp && f.ss == c.ss
  }

  /** A switch stores every register of the frame under its own name and loads every one of the next process likewise;
      the fault address, vector and error code of the frame stay. */
  lemma SwitchMatches(s: Sys)
    requires Valid(s) && Tick(s).cur != s.cur
    ensures var t := Tick(s);
            && Matches(s.regs, t.procs[s.cur].context) && Matches(t.regs, s.procs[t.cur].context)
            && t.regs.cr2 == s.regs.cr2 && t.regs.vector == s.regs.vector && t.regs.error == s.regs.error
  {
    hide PickNext;
  }

  // ---- ticks ----

  /** How many ticks of the run find slot `i` current. */
  function Charges(s: Sys, events: seq<Event>, i: nat): nat
    requires Valid(s)
    decreases |events|
  {
    if events == [] then 0
    else (if events[0].TickEvent? && s.active && s.cur == i then 1 else 0) + Charges(Step(s, events[0]), events[1..], i)
  }

  /** No event of the run puts a new process into slot `i`. */
  ghost predicate Kept(s: Sys, events: seq<Event>, i: nat)
    requires Valid(s)
    decreases |events|
  {
    events == [] || (!(Makes(events[0]) && FreeSlot(s.procs, 1) == i) && Kept(Step(s, events[0]), events[1..], i))
  }

  lemma StepCharges(s: Sys, e: Event, i: nat)
    requires Valid(s) && i < MAX_PROCESSES && !(Makes(e) && FreeSlot(s.procs, 1) == i)
    ensures Step(s, e).procs[i].totalTicks
            == if e.TickEvent? && s.active && s.cur == i then (s.procs[i].totalTicks + 1) % U32
                else s.procs[i].totalTicks
  {
    hide FreeSlot, PickNext, Saved, Loaded, StartContext;
    if Makes(e) {
      MakeFacts(s, e);
    }
  }

  /** Every tick is charged to the process it interrupts and to no other, modulo 2^32. */
  lemma {:induction false} TicksAreCharged(s: Sys, events: seq<Event>, i: nat)
    requires Valid(s) && i < MAX_PROCESSES && Kept(s, events, i) && s.procs[i].totalTicks < U32
    ensures After(s, events).procs[i].totalTicks == (s.procs[i].totalTicks + Charges(s, events, i)) % U32
    decreases |events|
  {
    hide Step;
    if events != [] {
      StepCharges(s, events[0], i);
      TicksAreCharged(Step(s, events[0]), events[1..], i);
      var n := Charges(Step(s, events[0]), events[1..], i);
      ModStep(s.procs[i].totalTicks, n);
    }
  }

  lemma ModStep(t: nat, n: nat)
    requires t < U32
    ensures ((t + 1) % U32 + n) % U32 == (t + 1 + n) % U32
  {
    if t + 1 == U32 {
      assert (t + 1 + n) % U32 == n % U32;
    }
  }

  // ---- the shell ----

  ghost predicate ShellLives(s: Sys)
    requires Valid(s)
  {
    s.procs[0].pid == 0 && (s.procs[0].state == Ready || s.procs[0].state == Running)
  }

  /** The shell does not exit. */
  ghost predicate ShellStays(s: Sys, events: seq<Event>)
    requires Valid(s)
    decreases |events|
  {
    events == [] || (!(events[0].ExitEvent? && s.cur == 0) && ShellStays(Step(s, events[0]), events[1..]))
  }

  lemma StepKeepsShell(s: Sys, e: Event)
    requires Valid(s) && ShellLives(s) && !(e.ExitEvent? && s.cur == 0)
    ensures ShellLives(Step(s, e))
  {
    hide PickNext, Saved, Loaded, DeadChild, FreeSlot, StartContext;
    if Makes(e) {
      MakeFacts(s, e);
    }
  }

  /** Nothing but its own exit ends the shell: it is never killed, reaped or recycled, in any run from any state. */
  lemma {:induction false} ShellSurvives(s: Sys, events: seq<Event>)
    requires Valid(s) && ShellLives(s) && ShellStays(s, events)
    ensures ShellLives(After(s, events))
    decreases |events|
  {
    hide Step, ShellLives;
    if events != [] {
      StepKeepsShell(s, events[0]);
      ShellSurvives(Step(s, events[0]), events[1..]);
    }
  }
}
