/** Runs of the frame allocator: which frames are out, and that they are out only once. */
module FrameRuns {
  import opened Frames

  datatype Event = Alloc | AllocRun(n: nat) | Free(addr: nat)

  /** The bitmap's flags, and the frames handed out and not freed since. */
  datatype State = State(used: seq<bool>, held: set<nat>)

  function Frame(addr: nat): nat { addr / PAGE_SIZE }

  function Span(s: nat, n: nat): (fs: set<nat>)
    ensures forall f: nat {:trigger f in fs} :: f in fs <==> s <= f < s + n
  {
    if n == 0 then {} else Span(s, n - 1) + {s + n - 1}
  }

  ghost predicate NoRun(u: seq<bool>, n: nat) {
    forall s: nat :: !RunAt(u, s, n)
  }

  /** `s` to `s'` by giving out the `n` frames from `f` on; none when `f` is past the end. */
  ghost predicate Gives(s: State, s': State, f: nat, n: nat) {
    if f < |s.used| then f + n <= |s.used| && s' == State(Taken(s.used, f, n), s.held + Span(f, n)) else s' == s
  }

  /** What the allocator's methods do. */
  ghost predicate Step(s: State, e: Event, s': State) {
    match e
    case Alloc => exists f: nat :: LowestFree(s.used, f) && Gives(s, s', f, 1)
    case AllocRun(n) =>
      if n == 0 then s' == s
      else exists f: nat :: Gives(s, s', f, n) && (if f < |s.used| then RunAt(s.used, f, n) else NoRun(s.used, n))
    case Free(addr) =>
      s' == if Frame(addr) < |s.used| then State(s.used[Frame(addr) := false], s.held - {Frame(addr)}) else s
  }

  /** The allocator's calls take these steps. */
  method Perform(a: Allocator, e: Event, ghost held: set<nat>) returns (addr: nat, ghost held': set<nat>)
    requires a.Valid()
    modifies a, a.bitmap
    ensures a.Valid() && Step(State(old(a.Used()), held), e, State(a.Used(), held'))
  {
    hide LowestFree, RunAt, NoRunBefore, Bits, Count;
    addr, held' := 0, held;
    ghost var u, f := a.Used(), 0;
    match e
    case Alloc =>
      addr, f := a.AllocFrame();
      held' := if f < TOTAL then held + Span(f, 1) else held;
      SingleRun(u, f);
      assert Gives(State(u, held), State(a.Used(), held'), f, 1);
    case AllocRun(n) =>
      addr, f := a.AllocContiguousFrames(n);
      if n > 0 {
        held' := if f < TOTAL then held + Span(f, n) else held;
        InBounds(u, f, n);
        assert Gives(State(u, held), State(a.Used(), held'), f, n);
      }
    case Free(p) =>
      a.FreeFrame(p);
      held' := if Frame(p) < TOTAL then held - {Frame(p)} else held;
      BitsSize(a.bitmap[..]);
  }

  lemma InBounds(u: seq<bool>, s: nat, n: nat)
    ensures RunAt(u, s, n) ==> s + n <= |u|
  {
  }

  ghost predicate Run(states: seq<State>, events: seq<Event>) {
    && |states| == |events| + 1 && states[0] == State(Initial(), {})
    && forall i :: 0 <= i < |events| ==> Step(states[i], events[i], states[i + 1])
  }

  /** Whatever addresses are freed: frames that are out are marked used. */
  ghost predicate Marked(s: State) {
    |s.used| == TOTAL && forall f :: f in s.held ==> f < TOTAL && s.used[f]
  }

  lemma GivesFresh(s: State, s': State, f: nat, n: nat)
    requires Marked(s) && Gives(s, s', f, n) && (f < TOTAL ==> RunAt(s.used, f, n))
    ensures Marked(s') && (f < TOTAL ==> Span(f, n) !! s.held)
  {
  }

  /** Every step keeps the marking, and what an allocation gives out was out nowhere. */
  lemma StepKeepsMarked(s: State, e: Event, s': State)
    requires Marked(s) && Step(s, e, s')
    ensures Marked(s')
    ensures e.Free? || exists f: nat, n: nat :: Gives(s, s', f, n) && (f < TOTAL ==> Span(f, n) !! s.held)
  {
    match e
    case Alloc =>
      var f: nat :| LowestFree(s.used, f) && Gives(s, s', f, 1);
      GivesFresh(s, s', f, 1);
    case AllocRun(n) =>
      if n == 0 {
        assert Gives(s, s', TOTAL, 0);
      } else {
        var f: nat :| Gives(s, s', f, n) && (if f < |s.used| then RunAt(s.used, f, n) else NoRun(s.used, n));
        GivesFresh(s, s', f, n);
      }
    case Free(addr) =>
  }

  /** In every state of every run all frames that are out are marked, hence never given out a second time. */
  lemma {:induction false} RunsKeepMarked(states: seq<State>, events: seq<Event>, i: nat)
    requires Run(states, events) && i < |states|
    ensures Marked(states[i])
  {
    if i > 0 {
      RunsKeepMarked(states, events, i - 1);
      StepKeepsMarked(states[i - 1], events[i - 1], states[i]);
    }
  }

  /** The bitmap is the kernel's own frames and those that are out, and no kernel frame is out. */
  ghost predicate Exact(s: State) {
    && |s.used| == TOTAL && (forall f :: f in s.held ==> FIRST_FREE <= f < TOTAL)
    && forall f :: 0 <= f < TOTAL ==> (s.used[f] <==> f < FIRST_FREE || f in s.held)
  }

  lemma GivesExact(s: State, s': State, f: nat, n: nat)
    requires Exact(s) && Gives(s, s', f, n) && (f < TOTAL ==> RunAt(s.used, f, n))
    ensures Exact(s')
  {
    if f < TOTAL {
      forall h | h in Span(f, n)
        ensures h >= FIRST_FREE
      {
        assert !s.used[h];
      }
    }
  }

  /** The only step that spoils this is freeing an address below frame 3584. */
  lemma StepKeepsExactIff(s: State, e: Event, s': State)
    requires Exact(s) && Step(s, e, s')
    ensures Exact(s') <==> !(e.Free? && Frame(e.addr) < FIRST_FREE)
  {
    match e
    case Alloc =>
      var f: nat :| LowestFree(s.used, f) && Gives(s, s', f, 1);
      GivesExact(s, s', f, 1);
    case AllocRun(n) =>
      if n > 0 {
        var f: nat :| Gives(s, s', f, n) && (if f < |s.used| then RunAt(s.used, f, n) else NoRun(s.used, n));
        GivesExact(s, s', f, n);
      }
    case Free(addr) =>
      if Frame(addr) < FIRST_FREE {
        assert !s'.used[Frame(addr)];
      }
  }

  /** As long as no kernel frame is freed the bitmap is exact, and address 0 is never a frame given out. */
  lemma {:induction false} RunsKeepExact(states: seq<State>, events: seq<Event>, i: nat)
    requires Run(states, events) && i < |states|
    requires forall k :: 0 <= k < i ==> !(events[k].Free? && Frame(events[k].addr) < FIRST_FREE)
    ensures Exact(states[i]) && 0 !in states[i].held
  {
    if i > 0 {
      RunsKeepExact(states, events, i - 1);
      StepKeepsExactIff(states[i - 1], events[i - 1], states[i]);
    }
  }

  /** Frame 0 can only be out, and so address 0 can only mean success, after an address of frame 0 was freed. */
  lemma {:induction false} FrameZeroOnlyAfterFree(states: seq<State>, events: seq<Event>, i: nat)
    requires Run(states, events) && i < |states|
    requires forall k :: 0 <= k < i ==> !FreesZero(events[k])
    ensures |states[i].used| == TOTAL && states[i].used[0] && 0 !in states[i].held
  {
    if i > 0 {
      FrameZeroOnlyAfterFree(states, events, i - 1);
      RunsKeepMarked(states, events, i);
      StepKeepsZero(states[i - 1], events[i - 1], states[i]);
    }
  }

  predicate FreesZero(e: Event) { e.Free? && Frame(e.addr) == 0 }

  /** From a state with frame 0 in use, a step frees it exactly when it frees an address of frame 0, and never gives it
      out. */
  lemma StepKeepsZero(s: State, e: Event, s': State)
    requires |s.used| == TOTAL && s.used[0] && 0 !in s.held && Step(s, e, s')
    ensures |s'.used| == TOTAL && 0 !in s'.held && (s'.used[0] <==> !FreesZero(e))
  {
    match e
    case Alloc =>
      var f: nat :| LowestFree(s.used, f) && Gives(s, s', f, 1);
      assert f > 0;
    case AllocRun(n) =>
      if n > 0 {
        var f: nat :| Gives(s, s', f, n) && (if f < |s.used| then RunAt(s.used, f, n) else NoRun(s.used, n));
        assert f == 0 ==> s.used[0];
      }
    case Free(addr) =>
  }

  /** After freeing frame 0, allocation takes frame 0 and returns its address, which is also the answer for failure. */
  lemma FrameZeroLooksLikeFailure()
    ensures var s1 := State(Initial()[0 := false], {});
            Step(State(Initial(), {}), Free(0), s1) && Step(s1, Alloc, State(Initial(), {0}))
  {
    var s1 := State(Initial()[0 := false], {});
    assert LowestFree(s1.used, 0);
    assert Taken(s1.used, 0, 1) == Initial();
    assert Span(0, 1) == {0};
    assert Gives(s1, State(Initial(), {0}), 0, 1);
  }

  // ---- counting and giving back ----

  function UsedSet(u: seq<bool>): set<nat> { set f | 0 <= f < |u| && u[f] }

  /** The counter is the number of used frames. */
  lemma {:induction false} CountIsSize(u: seq<bool>)
    ensures |UsedSet(u)| == Count(u)
  {
    if u != [] {
      var n := |u| - 1;
      CountIsSize(u[..n]);
      assert UsedSet(u) == UsedSet(u[..n]) + if u[n] then {n} else {};
    }
  }

  function FreedRun(u: seq<bool>, s: nat, n: nat): (r: seq<bool>)
    requires s + n <= |u|
    ensures |r| == |u|
  {
    if n == 0 then u else FreedRun(u, s, n - 1)[s + n - 1 := false]
  }

  lemma {:induction false} FreedRunIs(u: seq<bool>, s: nat, n: nat)
    requires s + n <= |u|
    ensures forall f :: 0 <= f < |u| ==> FreedRun(u, s, n)[f] == (u[f] && !(s <= f < s + n))
  {
    if n > 0 {
      FreedRunIs(u, s, n - 1);
    }
  }

  /** Freeing the frames of a run one by one gives back exactly the bitmap from before it was taken. */
  lemma FreeingRestores(u: seq<bool>, s: nat, n: nat)
    requires RunAt(u, s, n)
    ensures FreedRun(Taken(u, s, n), s, n) == u
  {
    FreedRunIs(Taken(u, s, n), s, n);
  }
}
