/**
 The process table and the round-robin scheduler as functions on values
 (kernel/proc/process.cpp, kernel/proc/sched.cpp).  `Scheduler` proves the kernel's
 loops against these functions; `SchedulerRuns` proves what holds along runs.
*/
module Processes {
  import opened Bytes

  const MAX_PROCESSES := 32
  const QUANTUM := 5
  const STACK_SIZE := 16384
  const KERNEL_CS := 0x08
  const KERNEL_DS := 0x10
  const USER_DS := 0x1B
  const USER_CS := 0x23

  datatype ProcState = Unused | Ready | Running | Blocked | Zombie

  datatype ProcType = KernelThread | LinuxElf64 | Win32Pe

  /** The 20 registers saved in a PCB. */
  datatype Context = Context(
    r15: nat, r14: nat, r13: nat, r12: nat, rbp: nat, rbx: nat, r11: nat, r10: nat, r9: nat, r8: nat,
    rax: nat, rcx: nat, rdx: nat, rsi: nat, rdi: nat, rip: nat, cs: nat, rflags: nat, rsp: nat, ss: nat)

  /** The frame the interrupt stub pushes, in its own order and with fields a context does not have. */
  datatype TrapFrame = TrapFrame(
    cr2: nat, r15: nat, r14: nat, r13: nat, r12: nat, r11: nat, r10: nat, r9: nat, r8: nat, rbp: nat,
    rdi: nat, rsi: nat, rdx: nat, rcx: nat, rbx: nat, rax: nat, vector: nat, error: nat,
    rip: nat, cs: nat, rflags: nat, rsp: nat, ss: nat)

  const ZERO_CONTEXT := Context(0, 0, 0, 0, 0, 0, 0, 0, 0, 0, 0, 0, 0, 0, 0, 0, 0, 0, 0, 0)

  datatype PCB = PCB(
    pid: nat, state: ProcState, ptype: ProcType, parentPid: nat, exitCode: int,
    kernelStackBase: nat, kernelStackTop: nat, userStackTop: nat, entryPoint: nat,
    timeSlice: nat, totalTicks: nat, context: Context)

  /** The whole state: table, current slot, pid counter, scheduler switch and the live registers. */
  datatype Sys = Sys(procs: seq<PCB>, cur: nat, nextPid: nat, active: bool, regs: TrapFrame)

  const UNUSED_SLOT := PCB(0, Unused, KernelThread, 0, 0, 0, 0, 0, 0, QUANTUM, 0, ZERO_CONTEXT)

  /** process_init on zeroed kernel data: the shell runs in slot 0, the rest is unused. */
  function Boot(frame: TrapFrame): (s: Sys)
    ensures Valid(s)
  {
    Sys([UNUSED_SLOT.(state := Running)] + seq(MAX_PROCESSES - 1, _ => UNUSED_SLOT), 0, 1, false, frame)
  }

  predicate Valid(s: Sys) {
    && |s.procs| == MAX_PROCESSES && s.cur < MAX_PROCESSES && s.nextPid < U32
    && forall i :: 0 <= i < |s.procs| ==> s.procs[i].pid < U32
  }

  /** sched.cpp:71-90 */
  function Saved(f: TrapFrame): Context {
    Context(rax := f.rax, rbx := f.rbx, rcx := f.rcx, rdx := f.rdx, rsi := f.rsi, rdi := f.rdi, rbp := f.rbp,
            r8 := f.r8, r9 := f.r9, r10 := f.r10, r11 := f.r11, r12 := f.r12, r13 := f.r13, r14 := f.r14, r15 := f.r15,
            rip := f.rip, cs := f.cs, rflags := f.rflags, rsp := f.rsp, ss := f.ss)
  }

  /** sched.cpp:112-131 */
  function Loaded(f: TrapFrame, c: Context): TrapFrame {
    f.(rax := c.rax, rbx := c.rbx, rcx := c.rcx, rdx := c.rdx, rsi := c.rsi, rdi := c.rdi, rbp := c.rbp,
       r8 := c.r8, r9 := c.r9, r10 := c.r10, r11 := c.r11, r12 := c.r12, r13 := c.r13, r14 := c.r14, r15 := c.r15,
       rip := c.rip, cs := c.cs, rflags := c.rflags, rsp := c.rsp, ss := c.ss)
  }

  predicate Live(p: PCB) { p.state != Unused }

  /** The first slot from `i` on that holds a live process with this pid, or -1. */
  function FindPid(procs: seq<PCB>, pid: nat, i: nat): (r: int)
    requires i <= |procs|
    ensures -1 <= r < |procs|
    ensures r >= 0 ==> i <= r && Live(procs[r]) && procs[r].pid == pid
    ensures forall k :: i <= k < (if r < 0 then |procs| else r) ==> !(Live(procs[k]) && procs[k].pid == pid)
    decreases |procs| - i
  {
    if i == |procs| then -1 else if Live(procs[i]) && procs[i].pid == pid then i else FindPid(procs, pid, i + 1)
  }

  /** Slot `s` holds a process whose pid leads the scheduler to a READY entry. */
  predicate Hit(procs: seq<PCB>, s: nat)
    requires s < |procs|
  {
    Live(procs[s]) && procs[FindPid(procs, procs[s].pid, 0)].state == Ready
  }

  /** The first hit at `k` or more slots after `origin` (which is -1 for "before slot 0"), cyclically. */
  function FirstHit(procs: seq<PCB>, origin: int, k: nat): (r: int)
    requires |procs| == MAX_PROCESSES && -1 <= origin < MAX_PROCESSES && k <= MAX_PROCESSES
    ensures -1 <= r < MAX_PROCESSES && (r >= 0 ==> procs[r].state == Ready)
    decreases MAX_PROCESSES - k
  {
    if k == MAX_PROCESSES then -1
    else
      var s := (origin + 1 + k) % MAX_PROCESSES;
      if Hit(procs, s) then FindPid(procs, procs[s].pid, 0) else FirstHit(procs, origin, k + 1)
  }

  /** sched_pick_next: round robin from the current process, the shell as a last resort, -1 for none. */
  function PickNext(procs: seq<PCB>, cur: nat): (r: int)
    requires |procs| == MAX_PROCESSES && cur < MAX_PROCESSES
    ensures -1 <= r < MAX_PROCESSES
  {
    var r := FirstHit(procs, FindPid(procs, procs[cur].pid, 0), 0);
    if r >= 0 then r
    else
      var shell := FindPid(procs, 0, 0);
      if shell >= 0 && (procs[shell].state == Ready || procs[shell].state == Running) then shell else -1
  }

  function Charged(p: PCB): PCB {
    p.(totalTicks := (p.totalTicks + 1) % U32, timeSlice := if p.timeSlice > 0 then p.timeSlice - 1 else 0)
  }

  /** The switch from the current process to slot `next`. */
  function Switched(s: Sys, next: nat): Sys
    requires Valid(s) && next < MAX_PROCESSES && next != s.cur
  {
    var p := s.procs[s.cur];
    var out := p.(context := Saved(s.regs), state := if p.state == Running then Ready else p.state);
    s.(procs := s.procs[s.cur := out][next := s.procs[next].(state := Running, timeSlice := QUANTUM)],
       cur := next, regs := Loaded(s.regs, s.procs[next].context))
  }

  /** sched_tick */
  function Tick(s: Sys): (r: Sys)
    requires Valid(s)
    ensures Valid(r)
  {
    if !s.active then s
    else
      var p := Charged(s.procs[s.cur]);
      if p.timeSlice > 0 then s.(procs := s.procs[s.cur := p])
      else
        var t := s.(procs := s.procs[s.cur := p.(timeSlice := QUANTUM)]);
        var next := PickNext(t.procs, t.cur);
        if next >= 0 && next != t.cur then Switched(t, next) else t
  }

  /** sched_yield */
  function Yield(s: Sys): (r: Sys)
    requires Valid(s)
    ensures Valid(r)
  {
    s.(procs := s.procs[s.cur := s.procs[s.cur].(timeSlice := 0)])
  }

  /** The lowest slot from `i` on that can take a new process, or the table size. */
  function FreeSlot(procs: seq<PCB>, i: nat): (r: nat)
    requires i <= |procs|
    ensures i <= r <= |procs|
    ensures r < |procs| ==> procs[r].state == Unused || procs[r].state == Zombie
    ensures forall k :: i <= k < r ==> procs[k].state != Unused && procs[k].state != Zombie
    decreases |procs| - i
  {
    if i == |procs| || procs[i].state == Unused || procs[i].state == Zombie then i else FreeSlot(procs, i + 1)
  }

  /** A PCB with a kernel stack: its old one, or the freshly allocated `block` (0 when allocation failed). */
  function WithStack(p: PCB, block: nat): PCB {
    var base := if p.kernelStackBase == 0 then block else p.kernelStackBase;
    p.(kernelStackBase := base, kernelStackTop := if base != 0 then (base + STACK_SIZE) / 16 * 16 else p.kernelStackTop)
  }

  function StartContext(p: PCB, user: bool): Context {
    ZERO_CONTEXT.(rip := p.entryPoint, rflags := 0x202,
                  cs := if user then USER_CS else KERNEL_CS, ss := if user then USER_DS else KERNEL_DS,
                  rsp := if user then p.userStackTop else p.kernelStackTop)
  }

  /** What process_create stores in the slot it takes.  The parent is read after the new pid was stored,
      so a process recycling its own slot becomes its own parent. */
  function NewProcess(s: Sys, slot: nat, entry: nat, ptype: ProcType, user: bool, block: nat): PCB
    requires Valid(s) && slot < MAX_PROCESSES
  {
    var was := s.procs[slot];
    var parent := if slot == s.cur then s.nextPid else s.procs[s.cur].pid;
    Filled(was.(pid := s.nextPid), parent, entry, ptype, user, block)
  }

  /** The rest of the entry, once it has its pid. */
  function Filled(was: PCB, parent: nat, entry: nat, ptype: ProcType, user: bool, block: nat): PCB {
    var p := WithStack(was.(state := Ready, ptype := ptype, parentPid := parent, entryPoint := entry,
                            exitCode := 0, timeSlice := QUANTUM, totalTicks := 0), block);
    p.(context := StartContext(p, user))
  }

  function Create(s: Sys, entry: nat, ptype: ProcType, user: bool, block: nat): (r: Sys)
    requires Valid(s)
    ensures Valid(r)
  {
    var slot := FreeSlot(s.procs, 1);
    if slot == MAX_PROCESSES then s
    else s.(procs := s.procs[slot := NewProcess(s, slot, entry, ptype, user, block)], nextPid := (s.nextPid + 1) % U32)
  }

  /** What process_fork stores in the slot it takes: copies are read from the current PCB field by field,
      after the fields assigned before. */
  function ForkedProcess(s: Sys, slot: nat, block: nat): PCB
    requires Valid(s) && slot < MAX_PROCESSES
  {
    var was, me := s.procs[slot], s.procs[s.cur];
    var parent := if slot == s.cur then s.nextPid else me.pid;
    var p := WithStack(was.(pid := s.nextPid, parentPid := parent, state := Ready, ptype := me.ptype, exitCode := 0,
                            timeSlice := QUANTUM, totalTicks := 0), block);
    p.(context := me.context.(rax := 0), userStackTop := me.userStackTop, entryPoint := me.entryPoint)
  }

  function Fork(s: Sys, block: nat): (r: Sys)
    requires Valid(s)
    ensures Valid(r)
  {
    var slot := FreeSlot(s.procs, 1);
    if slot == MAX_PROCESSES then s
    else s.(procs := s.procs[slot := ForkedProcess(s, slot, block)], nextPid := (s.nextPid + 1) % U32)
  }

  function Kill(s: Sys, pid: nat): (r: Sys)
    requires Valid(s)
    ensures Valid(r)
  {
    var i := FindPid(s.procs, pid, 0);
    if pid == 0 || i < 0 then s
    else s.(procs := s.procs[i := s.procs[i].(state := Zombie, exitCode := -9)])
  }

  function Exit(s: Sys, code: int): (r: Sys)
    requires Valid(s)
    ensures Valid(r)
  {
    Yield(s.(procs := s.procs[s.cur := s.procs[s.cur].(state := Zombie, exitCode := code)]))
  }

  /** static_cast<int32_t> */
  function AsInt32(pid: nat): int {
    if pid < 0x8000_0000 then pid else pid - U32
  }

  /** Slot `i` holds a child the waiter asked for. */
  predicate Waited(procs: seq<PCB>, me: nat, pid: int, i: nat)
    requires i < |procs|
  {
    && Live(procs[i]) && (procs[i].parentPid == me || me == 0)
    && (pid == -1 || AsInt32(procs[i].pid) == pid)
  }

  /** The first dead child from slot `i` on, or the table size. */
  function DeadChild(procs: seq<PCB>, me: nat, pid: int, i: nat): (r: nat)
    requires i <= |procs|
    ensures i <= r <= |procs|
    ensures r < |procs| ==> Waited(procs, me, pid, r) && procs[r].state == Zombie
    ensures forall k :: i <= k < r ==> !(Waited(procs, me, pid, k) && procs[k].state == Zombie)
    decreases |procs| - i
  {
    if i == |procs| || (Waited(procs, me, pid, i) && procs[i].state == Zombie) then i
        else DeadChild(procs, me, pid, i + 1)
  }

  /** One pass of process_waitpid's loop. */
  function Wait(s: Sys, pid: int, noHang: bool): (r: Sys)
    requires Valid(s)
    ensures Valid(r)
  {
    var me := s.procs[s.cur].pid;
    var i := DeadChild(s.procs, me, pid, 1);
    if i < MAX_PROCESSES then s.(procs := s.procs[i := s.procs[i].(state := Unused, pid := 0)])
    else if (exists k :: 1 <= k < MAX_PROCESSES && Waited(s.procs, me, pid, k)) && !noHang then Yield(s)
    else s
  }

  /** What a pass answers: a dead child's pid and wait status, that there is no such child, that none is dead yet, or
      nothing until another pass. */
  datatype Reply = Reaped(pid: int, status: int) | NoChildren | NoneDead | Again

  function WaitReply(s: Sys, pid: int, noHang: bool): Reply
    requires Valid(s)
  {
    var me := s.procs[s.cur].pid;
    var i := DeadChild(s.procs, me, pid, 1);
    if i < MAX_PROCESSES then Reaped(AsInt32(s.procs[i].pid), s.procs[i].exitCode % 256 * 256)
    else if !exists k :: 1 <= k < MAX_PROCESSES && Waited(s.procs, me, pid, k) then NoChildren
    else if noHang then NoneDead
    else Again
  }
}
