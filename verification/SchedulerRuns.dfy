/** What holds along every run of the process table and scheduler. */
module SchedulerRuns {
  import opened Bytes
  import opened Processes
  import opened Scheduler

  datatype Event =
    | TickEvent
    | YieldEvent
    | CreateEvent(entry: nat, ptype: ProcType, user: bool, block: nat)
    | ForkEvent(block: nat)
    | KillEvent(pid: nat)
    | ExitEvent(code: int)
    | WaitEvent(child: int, noHang: bool)
    | ComputeEvent(regs: TrapFrame)  // the running process changes its registers

  function Step(s: Sys, e: Event): (r: Sys)
    requires Valid(s)
    ensures Valid(r)
  {
    match e
    case TickEvent => Tick(s)
    case YieldEvent => Yield(s)
    case CreateEvent(entry, ptype, user, block) => Create(s, entry, ptype, user, block)
    case ForkEvent(block) => Fork(s, block)
    case KillEvent(pid) => Kill(s, pid)
    case ExitEvent(code) => Exit(s, code)
    case WaitEvent(child, noHang) => Wait(s, child, noHang)
    case ComputeEvent(regs) => s.(regs := regs)
  }

  ghost predicate DistinctPids(procs: seq<PCB>) {
    forall i, j :: 0 <= i < j < |procs| && Live(procs[i]) && Live(procs[j]) ==> procs[i].pid != procs[j].pid
  }

  predicate Makes(e: Event) { e.CreateEvent? || e.ForkEvent? }

  /** The event takes the slot of the current process for a new one. */
  predicate RecyclesCurrent(s: Sys, e: Event)
    requires Valid(s)
  {
    Makes(e) && FreeSlot(s.procs, 1) == s.cur
  }

  /** The pid counter names no live process (it has not wrapped round onto one). */
  ghost predicate FreshPid(s: Sys) {
    forall i :: 0 <= i < |s.procs| && Live(s.procs[i]) ==> s.procs[i].pid != s.nextPid
  }

  ghost predicate Allowed(s: Sys, e: Event)
    requires Valid(s)
  {
    !RecyclesCurrent(s, e) && (Makes(e) ==> FreshPid(s))
  }

  ghost predicate Inv(s: Sys) {
    && Valid(s) && s.active
    && DistinctPids(s.procs)
    && Live(s.procs[0]) && s.procs[0].pid == 0
    && (forall i :: 0 <= i < MAX_PROCESSES ==> s.procs[i].timeSlice <= QUANTUM)
    && (forall i :: 0 <= i < MAX_PROCESSES && s.procs[i].state == Running ==> i == s.cur)
    && Live(s.procs[s.cur]) && s.procs[s.cur].state != Ready
    && (forall i :: 1 <= i < MAX_PROCESSES && Live(s.procs[i]) ==> s.procs[i].parentPid != s.procs[i].pid)
  }

  lemma BootInv(frame: TrapFrame)
    ensures Inv(Boot(frame).(active := true))
  {
  }

  /** With distinct pids a lookup by pid finds the very slot. */
  lemma FindIsSlot(procs: seq<PCB>, s: nat)
    requires DistinctPids(procs) && s < |procs| && Live(procs[s])
    ensures FindPid(procs, procs[s].pid, 0) == s
  {
    var f := FindPid(procs, procs[s].pid, 0);
    assert 0 <= f <= s;
  }

  /** The scheduler's choice is READY and at least as near as any READY process. */
  lemma {:induction false} NearestHit(procs: seq<PCB>, origin: nat, k: nat, t: nat)
    requires |procs| == MAX_PROCESSES && origin < MAX_PROCESSES && DistinctPids(procs)
    requires t < MAX_PROCESSES && procs[t].state == Ready && k <= Dist(origin, t)
    ensures var r := FirstHit(procs, origin, k); r >= 0 && Dist(origin, r) <= Dist(origin, t)
    decreases MAX_PROCESSES - k
  {
    DistIs(origin, k);
    var x := (origin + 1 + k) % MAX_PROCESSES;
    if Live(procs[x]) {
      FindIsSlot(procs, x);
    }
    if !Hit(procs, x) {
      assert x != t;
      NearestHit(procs, origin, k + 1, t);
    }
  }

  lemma PickNearest(s: Sys, t: nat)
    requires Valid(s) && DistinctPids(s.procs) && Live(s.procs[s.cur])
    requires t < MAX_PROCESSES && s.procs[t].state == Ready
    ensures var r := PickNext(s.procs, s.cur);
            0 <= r && s.procs[r].state == Ready && Dist(s.cur, r) <= Dist(s.cur, t)
  {
    FindIsSlot(s.procs, s.cur);
    NearestHit(s.procs, s.cur, 0, t);
  }

  /** A switch only goes to a READY entry, which is then the running and current one. */
  lemma SwitchToReady(s: Sys)
    requires Inv(s) && Tick(s).cur != s.cur
    ensures s.procs[Tick(s).cur].state == Ready && Tick(s).procs[Tick(s).cur].state == Running
    ensures forall i :: 0 <= i < MAX_PROCESSES && Tick(s).procs[i].state == Running ==> i == Tick(s).cur
  {
    var t := s.(procs := s.procs[s.cur := Charged(s.procs[s.cur]).(timeSlice := QUANTUM)]);
    var next := PickNext(t.procs, t.cur);
    assert next == Tick(s).cur && next != s.cur;
    assert t.procs[next] == s.procs[next];
  }

  /** What a tick does to the table: identities stay, and states change only in a switch. */
  lemma TickFacts(s: Sys)
    requires Valid(s) && s.active
    ensures var r := Tick(s);
            && r.active && r.nextPid == s.nextPid
            && (forall i :: 0 <= i < MAX_PROCESSES ==> r.procs[i].pid == s.procs[i].pid
                                                       && r.procs[i].parentPid == s.procs[i].parentPid)
            && (forall i :: 0 <= i < MAX_PROCESSES ==> r.procs[i].timeSlice <= s.procs[i].timeSlice
                                                       || r.procs[i].timeSlice == QUANTUM)
            && (forall i :: 0 <= i < MAX_PROCESSES && (i == s.cur ==> r.cur == s.cur) && i != r.cur ==>
                r.procs[i].state == s.procs[i].state)
            && (r.cur == s.cur ==> r.procs[s.cur].state == s.procs[s.cur].state)
            && (r.cur != s.cur ==> r.procs[r.cur].state == Running)
            && (r.cur != s.cur ==> r.procs[s.cur].state == if s.procs[s.cur].state == Running
                then Ready else s.procs[s.cur].state)
  {
    hide PickNext, Saved, Loaded;
  }

  lemma TickKeepsInv(s: Sys)
    requires Inv(s)
    ensures Inv(Tick(s))
  {
    hide Tick;
    TickFacts(s);
    if Tick(s).cur != s.cur {
      SwitchToReady(s);
    }
  }

  lemma MakeKeepsInv(s: Sys, e: Event)
    requires Inv(s) && Makes(e) && Allowed(s, e)
    ensures Inv(Step(s, e))
  {
    hide StartContext, FreeSlot;
    MakeFacts(s, e);
  }

  /** What making a process does to the slots. */
  lemma MakeFacts(s: Sys, e: Event)
    requires Valid(s) && Makes(e)
    ensures var slot, r := FreeSlot(s.procs, 1), Step(s, e);
            1 <= slot <= MAX_PROCESSES && r.cur == s.cur && r.active == s.active && r.regs == s.regs
            && (slot == MAX_PROCESSES ==> r == s)
            && (forall i :: 0 <= i < MAX_PROCESSES && i != slot ==> r.procs[i] == s.procs[i])
            && (slot < MAX_PROCESSES ==>
                  (s.procs[slot].state == Unused || s.procs[slot].state == Zombie)
                  && r.procs[slot].state == Ready && r.procs[slot].pid == s.nextPid
                  && r.procs[slot].timeSlice == QUANTUM
                  && (slot != s.cur ==> r.procs[slot].parentPid == s.procs[s.cur].pid))
  {
  }

  /** A process that is not its own parent cannot reap itself. */
  lemma WaitSparesCurrent(s: Sys, child: int)
    requires Inv(s)
    ensures DeadChild(s.procs, s.procs[s.cur].pid, child, 1) != s.cur
  {
    assert s.cur != 0 ==> s.procs[s.cur].pid != s.procs[0].pid;
  }

  lemma StepKeepsInv(s: Sys, e: Event)
    requires Inv(s) && Allowed(s, e)
    ensures Inv(Step(s, e))
  {
    hide Inv, Allowed, Tick, Yield, Create, Fork, Kill, Exit, Wait;
    match e
    case TickEvent => TickKeepsInv(s);
    case YieldEvent => YieldKeepsInv(s);
    case CreateEvent(_, _, _, _) => MakeKeepsInv(s, e);
    case ForkEvent(_) => MakeKeepsInv(s, e);
    case KillEvent(pid) => KillKeepsInv(s, pid);
    case ExitEvent(code) => ExitKeepsInv(s, code);
    case WaitEvent(child, noHang) => WaitKeepsInv(s, child, noHang);
    case ComputeEvent(regs) => RegistersKeepInv(s, regs);
  }

  lemma YieldKeepsInv(s: Sys)
    requires Inv(s)
    ensures Inv(Yield(s))
  {
  }

  lemma KillKeepsInv(s: Sys, pid: nat)
    requires Inv(s)
    ensures Inv(Kill(s, pid))
  {
  }

  lemma ExitKeepsInv(s: Sys, code: int)
    requires Inv(s)
    ensures Inv(Exit(s, code))
  {
  }

  lemma WaitKeepsInv(s: Sys, child: int, noHang: bool)
    requires Inv(s)
    ensures Inv(Wait(s, child, noHang))
  {
    hide DeadChild, Waited, Yield;
    WaitSparesCurrent(s, child);
    YieldKeepsInv(s);
  }

  lemma RegistersKeepInv(s: Sys, regs: TrapFrame)
    requires Inv(s)
    ensures Inv(s.(regs := regs))
  {
  }

  /** After a yield the next tick gives the processor away exactly when somebody is READY, and then to one of the
      nearest READY processes. */
  lemma YieldGivesWayIff(s: Sys)
    requires Inv(s)
    ensures var r := Tick(Yield(s));
            && (r.cur != s.cur <==> exists t :: 0 <= t < MAX_PROCESSES && s.procs[t].state == Ready)
            && (r.cur != s.cur ==> s.procs[r.cur].state == Ready
                                   && forall t :: 0 <= t < MAX_PROCESSES && s.procs[t].state == Ready ==>
                                   Dist(s.cur, r.cur) <= Dist(s.cur, t))
  {
    hide Saved, Loaded, PickNext, FirstHit;
    var y := Yield(s);
    assert Inv(y);
    if Tick(y).cur != y.cur {
      SwitchToReady(y);
    }
    forall t: nat | t < MAX_PROCESSES && s.procs[t].state == Ready
      ensures Tick(y).cur != s.cur && Dist(s.cur, Tick(y).cur) <= Dist(s.cur, t)
    {
      var u := y.(procs := y.procs[y.cur := Charged(y.procs[y.cur]).(timeSlice := QUANTUM)]);
      PickNearest(u, t);
      assert PickNext(u.procs, u.cur) != s.cur;
    }
  }

  // ---- bounded waiting ----

  /** An upper bound on the ticks until slot `t` gets the processor. */
  function Patience(s: Sys, t: nat): (m: int)
    requires Valid(s) && t < MAX_PROCESSES
  {
    Dist(s.cur, t) * QUANTUM + if s.procs[s.cur].timeSlice == 0 then 1 else s.procs[s.cur].timeSlice
  }

  function Ticks(events: seq<Event>): nat {
    if events == [] then 0 else (if events[0].TickEvent? then 1 else 0) + Ticks(events[1..])
  }

  /** Every event of the run is allowed where it happens. */
  ghost predicate AllowedRun(s: Sys, events: seq<Event>)
    requires Valid(s)
    decreases |events|
  {
    events == [] || (Allowed(s, events[0]) && AllowedRun(Step(s, events[0]), events[1..]))
  }

  /** What bounded waiting rests on. */
  ghost predicate Steady(s: Sys) {
    && Valid(s) && s.active && DistinctPids(s.procs)
    && Live(s.procs[0]) && s.procs[0].pid == 0 && Live(s.procs[s.cur])
    && forall i :: 0 <= i < MAX_PROCESSES ==> s.procs[i].timeSlice <= QUANTUM
  }

  /** The current process reaps itself. */
  predicate ReapsItself(s: Sys, e: Event)
    requires Valid(s)
  {
    e.WaitEvent? && DeadChild(s.procs, s.procs[s.cur].pid, e.child, 1) == s.cur
  }

  /** The pid counter names no live process but possibly the one whose slot is taken next. */
  ghost predicate PidUnused(s: Sys) {
    forall i :: 0 <= i < |s.procs| && i != FreeSlot(s.procs, 1) && Live(s.procs[i]) ==> s.procs[i].pid != s.nextPid
  }

  /** A new process gets a pid no other has, and the current process does not reap itself; its slot may be recycled. */
  ghost predicate Fair(s: Sys, e: Event)
    requires Valid(s)
  {
    (Makes(e) && FreeSlot(s.procs, 1) < MAX_PROCESSES ==> PidUnused(s)) && !ReapsItself(s, e)
  }

  ghost predicate FairRun(s: Sys, events: seq<Event>)
    requires Valid(s)
    decreases |events|
  {
    events == [] || (Fair(s, events[0]) && FairRun(Step(s, events[0]), events[1..]))
  }

  /** How often a run recycles the slot of the current process. */
  function Recyclings(s: Sys, events: seq<Event>): nat
    requires Valid(s)
    decreases |events|
  {
    if events == [] then 0
    else (if RecyclesCurrent(s, events[0]) then 1 else 0) + Recyclings(Step(s, events[0]), events[1..])
  }

  /** Under the invariant of the runs without recycling, allowed events are fair. */
  lemma AllowedIsFair(s: Sys, e: Event)
    requires Inv(s) && Allowed(s, e)
    ensures Steady(s) && Fair(s, e)
  {
    if e.WaitEvent? {
      WaitSparesCurrent(s, e.child);
    }
  }

  /** Runs that recycle no current slot are fair. */
  lemma {:induction false} AllowedRunIsFair(s: Sys, events: seq<Event>)
    requires Inv(s) && AllowedRun(s, events)
    ensures Steady(s) && FairRun(s, events) && Recyclings(s, events) == 0
    decreases |events|
  {
    hide Step, Fair, Inv;
    if events != [] {
      AllowedIsFair(s, events[0]);
      StepKeepsInv(s, events[0]);
      AllowedRunIsFair(Step(s, events[0]), events[1..]);
    } else {
      InvIsSteady(s);
    }
  }

  lemma InvIsSteady(s: Sys)
    requires Inv(s)
    ensures Steady(s)
  {
  }

  /** A steady state stays steady exactly when the event is fair. */
  lemma StepKeepsSteadyIff(s: Sys, e: Event)
    requires Steady(s)
    ensures Steady(Step(s, e)) <==> Fair(s, e)
  {
    hide Create, Fork, StartContext, Saved, Loaded, PickNext, FreeSlot, Tick;
    if Makes(e) {
      MakeFacts(s, e);
      if FreeSlot(s.procs, 1) < MAX_PROCESSES {
        MakeKeepsPidsIff(s, e);
      }
    } else if e.TickEvent? {
      TickFacts(s);
      if Tick(s).cur != s.cur {
        SwitchToLive(s);
      }
    }
  }

  lemma SwitchToLive(s: Sys)
    requires Valid(s) && s.active && Tick(s).cur != s.cur
    ensures Live(s.procs[Tick(s).cur])
  {
    hide FirstHit, Saved, Loaded;
    var t := s.(procs := s.procs[s.cur := Charged(s.procs[s.cur]).(timeSlice := QUANTUM)]);
    assert PickNext(t.procs, t.cur) == Tick(s).cur;
  }

  /** Nobody kills the process in slot `t` during the run. */
  predicate Spared(pid: nat, events: seq<Event>) {
    forall i :: 0 <= i < |events| ==> !(events[i].KillEvent? && events[i].pid == pid)
  }

  /** At some point of the run slot `t` is current. */
  predicate GetsProcessor(s: Sys, events: seq<Event>, t: nat)
    requires Valid(s)
    decreases |events|
  {
    s.cur == t || (events != [] && GetsProcessor(Step(s, events[0]), events[1..], t))
  }

  /** Each tick brings a waiting process nearer, by time or by slots, or gives it the processor. */
  lemma TickAdvances(s: Sys, t: nat)
    requires Steady(s) && t < MAX_PROCESSES && t != s.cur && s.procs[t].state == Ready
    ensures Tick(s).cur != t ==> Tick(s).procs[t].state == Ready && Tick(s).procs[t].pid == s.procs[t].pid
    ensures Tick(s).cur != t ==> Patience(Tick(s), t) < Patience(s, t)
  {
    hide Saved, Loaded, PickNext, FirstHit;
    var p := Charged(s.procs[s.cur]);
    if p.timeSlice == 0 {
      var u := s.(procs := s.procs[s.cur := p.(timeSlice := QUANTUM)]);
      PickNearest(u, t);
      var r := PickNext(u.procs, u.cur);
      assert r != s.cur;
      if r != t {
        assert Dist(s.cur, r) < Dist(s.cur, t) && Dist(r, t) == Dist(s.cur, t) - Dist(s.cur, r) - 1;
      }
    }
  }

  /** No other fair event takes a READY process out of the queue (but its killing) or puts it back, except that
      recycling the current slot adds up to a quantum less one tick. */
  lemma OthersDoNotDelay(s: Sys, e: Event, t: nat)
    requires Steady(s) && Fair(s, e) && !e.TickEvent? && t < MAX_PROCESSES && s.procs[t].state == Ready
    requires !(e.KillEvent? && e.pid == s.procs[t].pid) && !(e.ExitEvent? && s.cur == t)
    ensures var r := Step(s, e);
            && r.cur == s.cur && r.procs[t].state == Ready && r.procs[t].pid == s.procs[t].pid
            && Patience(r, t) <= Patience(s, t) + if RecyclesCurrent(s, e) then QUANTUM - 1 else 0
  {
    hide Tick, Create, Fork;
    if Makes(e) {
      MakeFacts(s, e);
    }
  }

  /** Bounded waiting: whatever else is created, forked, killed, ended or reaped meanwhile, a READY process that is not
      killed is made current within 31 quanta of 5 ticks, and 4 ticks more for every time the current slot is
      recycled. */
  lemma {:induction false} BoundedWaiting(s: Sys, events: seq<Event>, t: nat)
    requires Steady(s) && FairRun(s, events) && t < MAX_PROCESSES && s.procs[t].state == Ready
    requires Spared(s.procs[t].pid, events)
    requires Ticks(events) >= Patience(s, t) + (QUANTUM - 1) * Recyclings(s, events)
             || Ticks(events) >= (MAX_PROCESSES - 1) * QUANTUM + (QUANTUM - 1) * Recyclings(s, events)
    ensures GetsProcessor(s, events, t)
    decreases |events|
  {
    hide Tick, Create, Fork, Kill, Exit, Yield, Wait, Step, Fair, RecyclesCurrent;
    if s.cur != t {
      PatienceBound(s, t);
      if events != [] {
        var e := events[0];
        TickIsStep(s);
        StepKeepsSteadyIff(s, e);
        if e.TickEvent? {
          TickAdvances(s, t);
        } else {
          OthersDoNotDelay(s, e, t);
        }
        if Step(s, e).cur != t {
          BoundedWaiting(Step(s, e), events[1..], t);
        } else {
          assert GetsProcessor(Step(s, e), events[1..], t);
        }
      }
    }
  }

  lemma TickIsStep(s: Sys)
    requires Valid(s)
    ensures Step(s, TickEvent) == Tick(s)
  {
  }

  lemma PatienceBound(s: Sys, t: nat)
    requires Steady(s) && t < MAX_PROCESSES && t != s.cur
    ensures 0 < Patience(s, t) <= (MAX_PROCESSES - 1) * QUANTUM
  {
  }

  // ---- where bounded waiting fails ----

  /** From any steady state an event other than a tick lengthens a wait exactly when it
      recycles the slot of the current process, whose quantum starts afresh. */
  lemma DelayIffRecycled(s: Sys, e: Event, t: nat)
    requires Steady(s) && !e.TickEvent? && t < MAX_PROCESSES && s.procs[t].state == Ready
    ensures Patience(Step(s, e), t) > Patience(s, t) <==> RecyclesCurrent(s, e) && s.procs[s.cur].timeSlice < QUANTUM
  {
    hide Tick, Create, Fork;
    if Makes(e) {
      MakeFacts(s, e);
    }
  }

  /** A process that ends, takes its own slot for a new one and does so again before its quantum is over. */
  function Hogging(n: nat): (events: seq<Event>)
    ensures |events| == 3 * n
  {
    if n == 0 then [] else [ExitEvent(0), CreateEvent(0, KernelThread, false, 0), TickEvent] + Hogging(n - 1)
  }

  predicate Hog(s: Sys) {
    Valid(s) && s.active && s.cur == 1 && s.procs[2].state == Ready
  }

  lemma HogTurn(s: Sys)
    requires Hog(s)
    ensures var a := Step(s, ExitEvent(0)); var b := Step(a, CreateEvent(0, KernelThread, false, 0)); var c :=
            Step(b, TickEvent);
            a.cur == 1 && b.cur == 1 && Hog(c) && c.procs[2].pid == s.procs[2].pid
  {
    hide StartContext, PickNext, Saved, Loaded;
    var a := Step(s, ExitEvent(0));
    assert a.procs[1].state == Zombie && a.procs[2] == s.procs[2];
    var b := Step(a, CreateEvent(0, KernelThread, false, 0));
    assert FreeSlot(a.procs, 1) == 1 && b.procs[1].timeSlice == QUANTUM && b.procs[2] == s.procs[2];
  }

  /** Recycling the current slot can starve a READY process for any number of ticks. */
  lemma {:induction false} HogStarves(s: Sys, n: nat)
    requires Hog(s)
    ensures Ticks(Hogging(n)) == n && Spared(s.procs[2].pid, Hogging(n))
    ensures !GetsProcessor(s, Hogging(n), 2)
    decreases n
  {
    hide Step;
    if n > 0 {
      HogTurn(s);
      var a := Step(s, ExitEvent(0));
      var b := Step(a, CreateEvent(0, KernelThread, false, 0));
      var c := Step(b, TickEvent);
      HogStarves(c, n - 1);
      var events := Hogging(n);
      assert events[1..][1..][1..] == Hogging(n - 1);
      assert events[0] == ExitEvent(0) && events[1..][0] == events[1] && events[1..][1..][0] == events[2];
      assert !GetsProcessor(b, events[1..][1..], 2);
      assert !GetsProcessor(a, events[1..], 2);
      assert Ticks(events[1..][1..]) == 1 + Ticks(Hogging(n - 1));
      assert Ticks(events[1..]) == Ticks(events[1..][1..]);
    }
  }

  lemma TickCounts(s: Sys)
    requires Inv(s) && s.procs[s.cur].timeSlice >= 2
    ensures var r := Tick(s);
            && Inv(r) && r.cur == s.cur && r.procs[r.cur].timeSlice == s.procs[s.cur].timeSlice - 1
            && forall i :: 0 <= i < MAX_PROCESSES && i != s.cur ==> r.procs[i] == s.procs[i]
  {
    TickKeepsInv(s);
  }

  /** Such a state is reached from boot: the shell starts two processes and its quantum of 5 ticks runs out. */
  lemma HogIsReachable(frame: TrapFrame)
    ensures var make := CreateEvent(0, KernelThread, false, 0);
            var s := Step(Step(Boot(frame).(active := true), make), make);
            Hog(Tick(Tick(Tick(Tick(Tick(s))))))
  {
    hide StartContext, Saved, Loaded, FirstHit, Tick;
    var make := CreateEvent(0, KernelThread, false, 0);
    var s0 := Boot(frame).(active := true);
    BootInv(frame);
    MakeFacts(s0, make);
    assert FreeSlot(s0.procs, 1) == 1;
    StepKeepsInv(s0, make);
    var s1 := Step(s0, make);
    MakeFacts(s1, make);
    assert FreeSlot(s1.procs, 1) == FreeSlot(s1.procs, 2) == 2;
    StepKeepsInv(s1, make);
    var s2 := Step(s1, make);
    TickCounts(s2);
    TickCounts(Tick(s2));
    TickCounts(Tick(Tick(s2)));
    TickCounts(Tick(Tick(Tick(s2))));
    LastTick(Tick(Tick(Tick(Tick(s2)))));
  }

  lemma LastTick(s: Sys)
    requires Inv(s) && s.cur == 0 && s.procs[0].timeSlice == 1 && s.procs[1].state == Ready && s.procs[2].state == Ready
    ensures Hog(Tick(s))
  {
    hide Saved, Loaded, PickNext;
    var u := s.(procs := s.procs[0 := Charged(s.procs[0]).(timeSlice := QUANTUM)]);
    PickNearest(u, 1);
  }

  // ---- a process that reaps itself ----

  /** A process recycled into its own slot is its own parent, so it can exit and reap itself; ending once more it
      leaves a zombie with the shell's pid, which the scheduler takes for the shell. */
  predicate Haunted(s: Sys) {
    && Valid(s) && s.active && s.procs[0].pid == 0 && Live(s.procs[0])
    && s.procs[2].state == Zombie && s.procs[2].pid == 0 && s.procs[3].state == Ready && s.procs[1].pid != 0
    && FindPid(s.procs, s.procs[1].pid, 0) == 1
    && ((s.cur == 0 && s.procs[1].state == Ready && s.procs[0].state == Running)
        || (s.cur == 1 && s.procs[0].state == Ready && s.procs[1].state == Running))
  }

  lemma HauntedPick(s: Sys)
    requires Haunted(s)
    ensures PickNext(s.procs, s.cur) == 1 - s.cur
  {
    assert FindPid(s.procs, 0, 0) == 0;
    assert (1 + 1 + 0) % MAX_PROCESSES == 2 && (0 + 1 + 0) % MAX_PROCESSES == 1;
  }

  lemma HauntedTick(s: Sys)
    requires Haunted(s)
    ensures Haunted(Tick(s)) && Tick(s).procs[3].pid == s.procs[3].pid
  {
    hide Saved, Loaded, FirstHit, PickNext;
    var p := Charged(s.procs[s.cur]);
    var u := s.(procs := s.procs[s.cur := p.(timeSlice := QUANTUM)]);
    SameFind(s.procs, u.procs, s.procs[1].pid, 0);
    HauntedPick(u);
    SameFind(s.procs, Tick(s).procs, s.procs[1].pid, 0);
  }

  function OnlyTicks(n: nat): (events: seq<Event>)
    ensures |events| == n
  {
    if n == 0 then [] else [TickEvent] + OnlyTicks(n - 1)
  }

  /** From then on the shell and the process in slot 1 take turns for any number of ticks, while slot 3 waits: without
      the ban on self-reaping no number of ticks is enough, whatever is added for recycling. */
  lemma {:induction false} HauntedStarves(s: Sys, n: nat)
    requires Haunted(s)
    ensures Ticks(OnlyTicks(n)) == n && Recyclings(s, OnlyTicks(n)) == 0 && !GetsProcessor(s, OnlyTicks(n), 3)
    decreases n
  {
    hide Tick, Haunted, RecyclesCurrent;
    HauntedCur(s);
    if n > 0 {
      TickIsStep(s);
      HauntedTick(s);
      assert OnlyTicks(n)[1..] == OnlyTicks(n - 1);
      HauntedStarves(Tick(s), n - 1);
      NoRecycling(s);
    }
  }

  lemma HauntedCur(s: Sys)
    requires Haunted(s)
    ensures s.cur != 3 && Valid(s)
  {
  }

  lemma NoRecycling(s: Sys)
    requires Valid(s)
    ensures !RecyclesCurrent(s, TickEvent)
  {
  }

  /** Looking up a pid depends on pids and on which entries are live. */
  lemma {:induction false} SameFind(a: seq<PCB>, b: seq<PCB>, pid: nat, i: nat)
    requires |a| == |b| && i <= |a| && forall k :: 0 <= k < |a| ==> a[k].pid == b[k].pid && (Live(a[k]) <==> Live(b[k]))
    ensures FindPid(a, pid, i) == FindPid(b, pid, i)
    decreases |a| - i
  {
    if i < |a| {
      SameFind(a, b, pid, i + 1);
    }
  }

  /** The next tick then leads to such a state. */
  lemma ZombieShellTick(e: Sys)
    requires Valid(e) && e.active && e.cur == 2 && e.procs[2].state == Zombie && e.procs[2].pid == 0
             && e.procs[2].timeSlice == 0
    requires Live(e.procs[0]) && e.procs[0].pid == 0 && e.procs[0].state == Ready && e.procs[1].state == Ready
             && e.procs[3].state == Ready
    requires e.procs[1].pid != 0 && FindPid(e.procs, e.procs[1].pid, 0) == 1
    ensures Haunted(Tick(e))
  {
    hide Saved, Loaded, FirstHit, PickNext;
    var u := e.(procs := e.procs[2 := Charged(e.procs[2]).(timeSlice := QUANTUM)]);
    SameFind(e.procs, u.procs, e.procs[1].pid, 0);
    ZombieShellPick(u);
    SameFind(e.procs, Tick(e).procs, e.procs[1].pid, 0);
  }

  lemma ZombieShellPick(u: Sys)
    requires Valid(u) && u.cur == 2 && u.procs[2].pid == 0 && Live(u.procs[0]) && u.procs[0].pid == 0
    requires u.procs[1].state == Ready && FindPid(u.procs, u.procs[1].pid, 0) == 1
    ensures PickNext(u.procs, 2) == 1
  {
    assert FindPid(u.procs, 0, 0) == 0;
    assert (0 + 1 + 0) % MAX_PROCESSES == 1;
  }

  /** How it comes about: the process in slot 2 exits, is recycled in its slot, exits, reaps itself and exits again. */
  function Reaping(s: Sys): (r: Sys)
    requires Valid(s)
    ensures Valid(r)
  {
    var b := Step(Step(s, ExitEvent(0)), CreateEvent(0, KernelThread, false, 0));
    Step(Step(Step(b, ExitEvent(0)), WaitEvent(-1, true)), ExitEvent(0))
  }

  lemma SelfReaps(s: Sys)
    requires Steady(s) && s.cur == 2 && s.procs[1].state == Ready && FreshPid(s)
    ensures var a := Step(s, ExitEvent(0)); var b := Step(a, CreateEvent(0, KernelThread, false, 0)); var c :=
            Step(b, ExitEvent(0));
            && RecyclesCurrent(a, CreateEvent(0, KernelThread, false, 0)) && ReapsItself(c, WaitEvent(-1, true))
            && Reaping(s) == s.(procs := s.procs[2 := Reaping(s).procs[2]], nextPid := (s.nextPid + 1) % U32)
            && Reaping(s).procs[2].state == Zombie && Reaping(s).procs[2].pid == 0 && Reaping(s).procs[2].timeSlice == 0
  {
    hide StartContext;
    assert s.nextPid != s.procs[0].pid == 0;
    var a := Step(s, ExitEvent(0));
    assert FreeSlot(a.procs, 1) == FreeSlot(a.procs, 2) == 2;
    var b := Step(a, CreateEvent(0, KernelThread, false, 0));
    assert b.procs[2].parentPid == b.procs[2].pid == s.nextPid;
    var c := Step(b, ExitEvent(0));
    assert DeadChild(c.procs, s.nextPid, -1, 1) == DeadChild(c.procs, s.nextPid, -1, 2) == 2;
    var d := Step(c, WaitEvent(-1, true));
    assert d.procs == s.procs[2 := d.procs[2]];
  }

  /** With the shell and the processes in slots 1 and 3 READY, the next tick then leads to starvation. */
  lemma SelfReapHaunts(s: Sys)
    requires Steady(s) && s.cur == 2 && FreshPid(s)
    requires s.procs[0].state == Ready && s.procs[1].state == Ready && s.procs[3].state == Ready
    ensures Haunted(Tick(Reaping(s))) && Tick(Reaping(s)).procs[3].pid == s.procs[3].pid
  {
    hide Saved, Loaded, FirstHit, PickNext, Reaping, Step, Tick;
    SelfReaps(s);
    var e := Reaping(s);
    FindIsSlot(s.procs, 1);
    SameFindElsewhere(s.procs, e.procs, s.procs[1].pid, 0);
    ZombieShellTick(e);
    TickFacts(e);
  }

  /** Changing entry 2 to a live one with another pid does not change where the pid of slot 1 is found. */
  lemma {:induction false} SameFindElsewhere(a: seq<PCB>, b: seq<PCB>, pid: nat, i: nat)
    requires |a| == |b| == MAX_PROCESSES && i <= 1 && pid != 0 && b == a[2 := b[2]] && Live(a[1]) && a[1].pid == pid
    ensures FindPid(b, pid, i) == FindPid(a, pid, i)
    decreases 2 - i
  {
    if i == 0 {
      SameFindElsewhere(a, b, pid, 1);
    }
  }

  /** Such a state is reached from boot: the shell starts three processes, it and the first one yield, and the second
      one reaps itself. */
  lemma HauntedIsReachable(frame: TrapFrame)
    ensures var make := CreateEvent(0, KernelThread, false, 0);
            var s := Step(Step(Step(Boot(frame).(active := true), make), make), make);
            Haunted(Tick(Reaping(Tick(Yield(Tick(Yield(s)))))))
  {
    hide Inv, Tick, Reaping, Yield, Step;
    var make := CreateEvent(0, KernelThread, false, 0);
    var s := Boot(frame).(active := true);
    BootInv(frame);
    OneMade(s, 1);
    OneMade(Step(s, make), 2);
    OneMade(Step(Step(s, make), make), 3);
    var t := Step(Step(Step(s, make), make), make);
    PassedOn(t, 1);
    PassedOn(Tick(Yield(t)), 2);
    InvIsSteady(Tick(Yield(Tick(Yield(t)))));
    SelfReapHaunts(Tick(Yield(Tick(Yield(t)))));
  }

  /** Processes 0 to n - 1 are in the slots of their numbers, all READY but the running one, and no others. */
  ghost predicate Lineup(s: Sys, n: nat, c: nat) {
    && Inv(s) && s.cur == c < n <= 4 && s.nextPid == n
    && (forall i :: 0 <= i < n ==> s.procs[i].pid == i && s.procs[i].state == if i == c then Running else Ready)
    && forall i :: n <= i < MAX_PROCESSES ==> s.procs[i].state == Unused
  }

  lemma OneMade(s: Sys, n: nat)
    requires Lineup(s, n, 0) && n < 4
    ensures Lineup(Step(s, CreateEvent(0, KernelThread, false, 0)), n + 1, 0)
  {
    hide StartContext;
    var make := CreateEvent(0, KernelThread, false, 0);
    MakeFacts(s, make);
    assert s.procs[n].state == Unused;
    assert FreeSlot(s.procs, 1) == n;
    StepKeepsInv(s, make);
  }

  lemma PassedOn(s: Sys, c: nat)
    requires 1 <= c < 4 && Lineup(s, 4, c - 1)
    ensures Lineup(Tick(Yield(s)), 4, c)
  {
    hide Tick;
    YieldGivesWayIff(s);
    var y := Yield(s);
    StepKeepsInv(s, YieldEvent);
    assert s.procs[c].state == Ready && Dist(s.cur, c) == 0;
    TickFacts(y);
    TickKeepsInv(y);
  }

  // ---- pids ----

  /** Making a process keeps live pids distinct exactly when the counter names no other live process. */
  lemma MakeKeepsPidsIff(s: Sys, e: Event)
    requires Valid(s) && DistinctPids(s.procs) && Makes(e) && FreeSlot(s.procs, 1) < MAX_PROCESSES
    ensures DistinctPids(Step(s, e).procs) <==>
            forall i :: 0 <= i < MAX_PROCESSES && i != FreeSlot(s.procs, 1) && Live(s.procs[i]) ==>
                s.procs[i].pid != s.nextPid
  {
    hide StartContext, FreeSlot;
    MakeFacts(s, e);
    var r, slot := Step(s, e), FreeSlot(s.procs, 1);
    assert Live(r.procs[slot]);
  }

  // ---- registers ----

  /** The registers of the process in slot `i`: live if it is current, saved otherwise. */
  function Registers(s: Sys, i: nat): Context
    requires Valid(s) && i < MAX_PROCESSES
  {
    if i == s.cur then Saved(s.regs) else s.procs[i].context
  }

  lemma LoadedSaved(f: TrapFrame, c: Context)
    ensures Saved(Loaded(f, c)) == c
    ensures Loaded(f, Saved(f)) == f && Loaded(f, c).vector == f.vector && Loaded(f, c).error == f.error
            && Loaded(f, c).cr2 == f.cr2
  {
  }

  /** No tick, switching or not, in any state whatever, changes a register of any process. */
  lemma TickKeepsRegisters(s: Sys, i: nat)
    requires Valid(s) && i < MAX_PROCESSES
    ensures Registers(Tick(s), i) == Registers(s, i)
  {
    hide PickNext, Saved, Loaded;
    LoadedSaved(s.regs, s.procs[Tick(s).cur].context);
  }

  /** Whose registers an event may change: those of the running process, and of a process being made. */
  predicate Touches(s: Sys, e: Event, i: nat)
    requires Valid(s)
  {
    (e.ComputeEvent? && i == s.cur) || (Makes(e) && i == FreeSlot(s.procs, 1))
  }

  lemma StepKeepsRegisters(s: Sys, e: Event, i: nat)
    requires Valid(s) && i < MAX_PROCESSES && !Touches(s, e, i)
    ensures Registers(Step(s, e), i) == Registers(s, i)
  {
    hide Tick, Saved, StartContext, FreeSlot;
    TickKeepsRegisters(s, i);
  }

  ghost predicate Untouched(s: Sys, events: seq<Event>, i: nat)
    requires Valid(s)
    decreases |events|
  {
    events == [] || (!Touches(s, events[0], i) && Untouched(Step(s, events[0]), events[1..], i))
  }

  function After(s: Sys, events: seq<Event>): (r: Sys)
    requires Valid(s)
    ensures Valid(r)
    decreases |events|
  {
    if events == [] then s else After(Step(s, events[0]), events[1..])
  }

  /** Along any run, over any number of switches, a process finds its registers as it left them. */
  lemma {:induction false} RunKeepsRegisters(s: Sys, events: seq<Event>, i: nat)
    requires Valid(s) && i < MAX_PROCESSES && Untouched(s, events, i)
    ensures Registers(After(s, events), i) == Registers(s, i)
    decreases |events|
  {
    hide Step, Registers;
    if events != [] {
      StepKeepsRegisters(s, events[0], i);
      RunKeepsRegisters(Step(s, events[0]), events[1..], i);
    }
  }

  /** A new process starts at its entry point on its own stack, unless it was put in the slot of the
      current process: then it carries on with the registers of the process it replaced. */
  lemma NewProcessRegisters(s: Sys, e: Event)
    requires Valid(s) && e.CreateEvent? && FreeSlot(s.procs, 1) < MAX_PROCESSES
    ensures var slot, r := FreeSlot(s.procs, 1), Step(s, e);
            var c := Registers(r, slot);
            if slot == s.cur then c == Registers(s, slot)
            else c.rip == e.entry && c.rflags == 0x202
                 && c.rsp == (if e.user then s.procs[slot].userStackTop else r.procs[slot].kernelStackTop)
                 && c.cs == (if e.user then USER_CS else KERNEL_CS) && c.ss == (if e.user then USER_DS else KERNEL_DS)
  {
    hide Saved;
  }

  /** Along a run without recycling, at every point: pids are distinct, only the current entry is RUNNING and it is not
      READY. */
  lemma {:induction false} RunKeepsInv(s: Sys, events: seq<Event>)
    requires Inv(s) && AllowedRun(s, events)
    ensures Inv(After(s, events))
    decreases |events|
  {
    hide Step, Inv;
    if events != [] {
      InvValid(s);
      StepKeepsInv(s, events[0]);
      RunKeepsInv(Step(s, events[0]), events[1..]);
    }
  }

  lemma InvValid(s: Sys)
    requires Inv(s)
    ensures Valid(s)
  {
  }
}
