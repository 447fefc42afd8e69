/** What holds of pipes and descriptors along every run. */
module PipeRuns {
  import opened Bytes
  import opened Pipes
  import opened Descriptors

  datatype Op =
    | OpenOp(id: nat, flags: bv32, offset: nat)  // vfs_open of anything but a pipe
    | PipeOp(flags: bv32)
    | CloseOp(fd: int)
    | DupOp(fd: int)
    | Dup2Op(fd: int, to: int)
    | FcntlOp(fd: int, cmd: int, arg: bv32)
    | ReadOp(fd: int, size: nat, other: int)
    | WriteOp(fd: int, data: seq<byte>, other: int)

  function OpenOther(s: State, id: nat, flags: bv32, offset: nat): (r: State)
    requires Rings(s)
    ensures Rings(r)
  {
    var (t, fd) := AllocFd(s, OtherNode(id), flags);
    if fd < 0 then t else t.(fds := t.fds[fd := t.fds[fd].(offset := offset)])
  }

  function Step(s: State, op: Op): (r: State)
    requires Rings(s)
    ensures Rings(r)
  {
    match op
    case OpenOp(id, flags, offset) => OpenOther(s, id, flags, offset)
    case PipeOp(flags) => CreatePipe(s, flags).0
    case CloseOp(fd) => Close(s, fd).0
    case DupOp(fd) => Dup(s, fd).0
    case Dup2Op(fd, to) => Dup2(s, fd, to).0
    case FcntlOp(fd, cmd, arg) => Fcntl(s, fd, cmd, arg).0
    case ReadOp(fd, size, other) => Read(s, fd, size, other).0
    case WriteOp(fd, data, other) => Write(s, fd, data, other).0
  }

  // ---- reference counts ----

  /** How many open descriptors lead to one end of pipe `p`. */
  function Holders(fds: seq<Fd>, p: nat, w: bool): nat {
    if fds == [] then 0
    else Holders(fds[..|fds| - 1], p, w) + if Holds(fds[|fds| - 1], p, w) then 1 else 0
  }

  predicate Holds(f: Fd, p: nat, w: bool) { f.isOpen && f.node == PipeEnd(p, w) }

  lemma {:induction false} HoldersUpdate(fds: seq<Fd>, i: nat, f: Fd, p: nat, w: bool)
    requires i < |fds|
    ensures Holders(fds[i := f], p, w)
            == Holders(fds, p, w) - (if Holds(fds[i], p, w) then 1 else 0) + (if Holds(f, p, w) then 1 else 0)
  {
    var n := |fds| - 1;
    if i == n {
      assert fds[i := f][..n] == fds[..n];
    } else {
      assert fds[i := f][..n] == fds[..n][i := f];
      HoldersUpdate(fds[..n], i, f, p, w);
    }
  }

  lemma {:induction false} HoldersZero(fds: seq<Fd>, p: nat, w: bool)
    ensures Holders(fds, p, w) == 0 <==> forall i :: 0 <= i < |fds| ==> !Holds(fds[i], p, w)
  {
    if fds != [] {
      HoldersZero(fds[..|fds| - 1], p, w);
    }
  }

  /** Every count of a pipe is exact: `extra` descriptors per end are counted but not (or no longer) in the table. */
  ghost predicate Exact(p: Pipe, readers: int, writers: int) {
    && (p.inUse ==> p.refRead == readers && p.refWrite == writers && readers + writers > 0)
    && (p.inUse ==> (p.readOpen <==> readers > 0) && (p.writeOpen <==> writers > 0))
    && (!p.inUse ==> readers == 0 && writers == 0)
  }

  /** The flags of a pipe descriptor name the end its node is. */
  predicate Labelled(f: Fd) {
    f.isOpen && f.node.PipeEnd? ==> (WriteFlag(f.flags) <==> f.node.writeEnd)
  }

  ghost predicate Inv(s: State) {
    && Rings(s)
    && (forall p :: 0 <= p < MAX_PIPES ==> Exact(s.pipes[p], Holders(s.fds, p, false), Holders(s.fds, p, true)))
    && (forall i :: 0 <= i < MAX_OPEN ==> Labelled(s.fds[i]))
  }

  /** The tables as vfs_init and pipe_init leave them. */
  ghost predicate Booted(s: State) {
    && Rings(s)
    && (forall i :: 0 <= i < MAX_OPEN ==> s.fds[i].node == NoNode)
    && (forall i :: 0 <= i < MAX_PIPES ==> !s.pipes[i].inUse)
  }

  lemma BootedInv(s: State)
    requires Booted(s)
    ensures Inv(s)
  {
    forall p | 0 <= p < MAX_PIPES
      ensures Exact(s.pipes[p], Holders(s.fds, p, false), Holders(s.fds, p, true))
    {
      HoldersZero(s.fds, p, false);
      HoldersZero(s.fds, p, true);
    }
  }

  /** No descriptor leads to a pipe slot that is not in use, so a recycled slot is never shared. */
  lemma UnusedUnreferenced(s: State, i: nat, p: nat)
    requires Inv(s) && i < MAX_OPEN && p < MAX_PIPES && !s.pipes[p].inUse
    ensures !(s.fds[i].isOpen && s.fds[i].node.PipeEnd? && s.fds[i].node.pipe == p)
  {
    HoldersZero(s.fds, p, false);
    HoldersZero(s.fds, p, true);
  }

  /** An open pipe descriptor keeps its pipe in use and its end open. */
  lemma HolderCounts(s: State, i: nat)
    requires Inv(s) && i < MAX_OPEN && s.fds[i].isOpen && s.fds[i].node.PipeEnd?
    ensures var p := s.pipes[s.fds[i].node.pipe];
            p.inUse && if s.fds[i].node.writeEnd then p.refWrite > 0 && p.writeOpen else p.refRead > 0 && p.readOpen
  {
    HoldersZero(s.fds, s.fds[i].node.pipe, s.fds[i].node.writeEnd);
  }

  /** Replacing a descriptor that is not an open pipe end by another such leaves all counts alone. */
  lemma OtherFdKeepsInv(s: State, i: nat, f: Fd)
    requires Inv(s) && i < MAX_OPEN && Rings(s.(fds := s.fds[i := f])) && Labelled(f)
    requires forall p, w :: Holds(f, p, w) <==> Holds(s.fds[i], p, w)
    ensures Inv(s.(fds := s.fds[i := f]))
  {
    var t := s.(fds := s.fds[i := f]);
    forall p | 0 <= p < MAX_PIPES
      ensures Exact(t.pipes[p], Holders(t.fds, p, false), Holders(t.fds, p, true))
    {
      HoldersUpdate(s.fds, i, f, p, false);
      HoldersUpdate(s.fds, i, f, p, true);
    }
  }

  lemma CloseKeepsInv(s: State, fd: int)
    requires Inv(s)
    ensures Inv(Close(s, fd).0)
  {
    if IsOpen(s, fd) {
      var f, t := s.fds[fd], Close(s, fd).0;
      if f.node.PipeEnd? {
        HolderCounts(s, fd);
      }
      forall p | 0 <= p < MAX_PIPES
        ensures Exact(t.pipes[p], Holders(t.fds, p, false), Holders(t.fds, p, true)) && RingOk(t.pipes[p])
      {
        HoldersUpdate(s.fds, fd, CLOSED, p, false);
        HoldersUpdate(s.fds, fd, CLOSED, p, true);
      }
    }
  }

  lemma CopyKeepsInv(s: State, from: nat, to: nat)
    requires Inv(s) && from < MAX_OPEN && to < MAX_OPEN && s.fds[from].isOpen && !s.fds[to].isOpen
    ensures Inv(CopyTo(s, from, to))
  {
    var f, t := s.fds[from], CopyTo(s, from, to);
    if f.node.PipeEnd? {
      HolderCounts(s, from);
    }
    forall p | 0 <= p < MAX_PIPES
      ensures Exact(t.pipes[p], Holders(t.fds, p, false), Holders(t.fds, p, true)) && RingOk(t.pipes[p])
    {
      HoldersUpdate(s.fds, to, f, p, false);
      HoldersUpdate(s.fds, to, f, p, true);
    }
  }

  lemma Dup2KeepsInv(s: State, fd: int, to: int)
    requires Inv(s)
    ensures Inv(Dup2(s, fd, to).0)
  {
    hide Inv, CopyTo;
    InvRings(s);
    if IsOpen(s, fd) && 0 <= to < MAX_OPEN && fd != to {
      if s.fds[to].isOpen {
        CloseKeepsInv(s, to);
        CopyKeepsInv(Close(s, to).0, fd, to);
      } else {
        CopyKeepsInv(s, fd, to);
      }
    }
  }

  lemma InvRings(s: State)
    requires Inv(s)
    ensures Rings(s)
  {
  }

  lemma FcntlKeepsInv(s: State, fd: int, cmd: int, arg: bv32)
    requires Inv(s)
    ensures Inv(Fcntl(s, fd, cmd, arg).0)
  {
    hide Dup2, AsInt32, FdFlags, StatusFlags;
    if IsOpen(s, fd) {
      var f := s.fds[fd];
      FlagsKeepEnd(f.flags, arg);
      if cmd == F_DUPFD {
        var start := AsInt32(arg);
        if 0 <= start < MAX_OPEN {
          Dup2KeepsInv(s, fd, FirstClosed(s.fds, start));
        }
      } else if cmd == F_SETFD {
        OtherFdKeepsInv(s, fd, f.(flags := FdFlags(f.flags, arg)));
      } else if cmd == F_SETFL {
        OtherFdKeepsInv(s, fd, f.(flags := StatusFlags(f.flags, arg)));
      }
    }
  }

  /** F_SETFD and F_SETFL never touch the bit that decides the end. */
  lemma FlagsKeepEnd(flags: bv32, arg: bv32)
    ensures WriteFlag(FdFlags(flags, arg)) <==> WriteFlag(flags)
    ensures WriteFlag(StatusFlags(flags, arg)) <==> WriteFlag(flags)
  {
  }

  lemma MovedKeepsInv(s: State, fd: nat, n: int)
    requires Inv(s) && fd < MAX_OPEN
    ensures Inv(Moved(s, fd, n))
  {
    if n > 0 {
      OtherFdKeepsInv(s, fd, s.fds[fd].(offset := s.fds[fd].offset + n));
    }
  }

  lemma RingChangeKeepsInv(s: State, i: nat, p: Pipe)
    requires Inv(s) && i < MAX_PIPES && RingOk(p) && s.pipes[i].inUse
    requires p == s.pipes[i].(buffer := p.buffer, head := p.head, tail := p.tail, count := p.count)
    ensures Inv(s.(pipes := s.pipes[i := p]))
  {
  }

  lemma ReadKeepsInv(s: State, fd: int, size: nat, other: int)
    requires Inv(s)
    ensures Inv(Read(s, fd, size, other).0)
  {
    hide RingOk, Waiting, Exact, Holders, Labelled;
    if IsOpen(s, fd) {
      if s.fds[fd].node.PipeEnd? && !s.fds[fd].node.writeEnd {
        var i := s.fds[fd].node.pipe;
        var n := ReadCount(s.pipes[i], size);
        if n > 0 {
          TakeRemoves(s.pipes[i], n);
          RingChangeKeepsInv(s, i, Take(s.pipes[i], n));
          MovedKeepsInv(s.(pipes := s.pipes[i := Take(s.pipes[i], n)]), fd, n);
        }
      } else {
        MovedKeepsInv(s, fd, other);
      }
    }
  }

  lemma WriteKeepsInv(s: State, fd: int, data: seq<byte>, other: int)
    requires Inv(s)
    ensures Inv(Write(s, fd, data, other).0)
  {
    hide RingOk, Waiting, Exact, Holders, Labelled;
    if IsOpen(s, fd) {
      if s.fds[fd].node.PipeEnd? && s.fds[fd].node.writeEnd {
        var i := s.fds[fd].node.pipe;
        var n := WriteCount(s.pipes[i], |data|);
        if n > 0 {
          RingChangeKeepsInv(s, i, Put(s.pipes[i], data[..n]));
          MovedKeepsInv(s.(pipes := s.pipes[i := Put(s.pipes[i], data[..n])]), fd, n);
        }
      } else {
        MovedKeepsInv(s, fd, other);
      }
    }
  }

  /** The three outcomes of pipe_create, spelled out. */
  lemma CreateOutcomes(s: State, flags: bv32)
    requires Rings(s)
    ensures var i := FreePipe(s.pipes, 0);
            var a := FirstClosed(s.fds, 3);
            var fds1 := if a < MAX_OPEN then s.fds[a := Fd(PipeEnd(i, false), 0, flags, true)] else s.fds;
            var b := FirstClosed(fds1, 3);
            var t := CreatePipe(s, flags).0;
            if i == MAX_PIPES then t == s
            else if a == MAX_OPEN then t == s.(pipes := s.pipes[i := Opened(s.pipes[i]).(inUse := false)])
            else if b == MAX_OPEN then
              t == State(fds1[a := CLOSED], s.pipes[i :=
                                                    CloseEnd(Opened(s.pipes[i]), WriteFlag(flags)).(inUse := false)])
            else t == State(fds1[b := Fd(PipeEnd(i, true), 0, O_WRONLY | flags, true)],
                            s.pipes[i := Opened(s.pipes[i])]) && a < b
    ensures CreatePipe(s, flags).1 == 0 <==>
              var i, a := FreePipe(s.pipes, 0), FirstClosed(s.fds, 3);
              i < MAX_PIPES && a < MAX_OPEN && FirstClosed(s.fds[a := Fd(PipeEnd(i, false), 0, flags, true)],
                                                           3) < MAX_OPEN
  {
  }

  lemma UnusedCounts(s: State, i: nat)
    requires Inv(s) && i < MAX_PIPES && !s.pipes[i].inUse
    ensures Holders(s.fds, i, false) == 0 && Holders(s.fds, i, true) == 0
  {
  }

  /** A pipe slot not in use may hold anything in its other fields. */
  lemma UnusedPipeKeepsInv(s: State, i: nat, p: Pipe)
    requires Inv(s) && i < MAX_PIPES && !s.pipes[i].inUse && !p.inUse && RingOk(p)
    ensures Inv(s.(pipes := s.pipes[i := p]))
  {
    UnusedCounts(s, i);
  }

  lemma CreatedCounts(s: State, i: nat, a: nat, b: nat, f: Fd, h: Fd, p: Pipe)
    requires Inv(s) && i < MAX_PIPES && !s.pipes[i].inUse && a < MAX_OPEN && b < MAX_OPEN && a != b
    requires !s.fds[a].isOpen && !s.fds[b].isOpen
    requires f.isOpen && f.node == PipeEnd(i, false) && h.isOpen && h.node == PipeEnd(i, true)
    requires RingOk(p) && p.inUse && p.refRead == 1 && p.refWrite == 1 && p.readOpen && p.writeOpen
    requires WriteFlag(h.flags)
    ensures var t := State(s.fds[a := f][b := h], s.pipes[i := p]);
            Inv(t) <==> !WriteFlag(f.flags)
  {
    hide RingOk, WriteFlag;
    var t := State(s.fds[a := f][b := h], s.pipes[i := p]);
    UnusedCounts(s, i);
    forall q | 0 <= q < MAX_PIPES
      ensures Exact(t.pipes[q], Holders(t.fds, q, false), Holders(t.fds, q, true))
    {
      HoldersUpdate(s.fds, a, f, q, false);
      HoldersUpdate(s.fds, a, f, q, true);
      HoldersUpdate(s.fds[a := f], b, h, q, false);
      HoldersUpdate(s.fds[a := f], b, h, q, true);
    }
    assert t.fds[a] == f;
  }

  /** A pipe slot is unused and two descriptors are closed. */
  ghost predicate RoomForPipe(s: State) {
    && (exists i :: 0 <= i < |s.pipes| && !s.pipes[i].inUse)
    && exists a, b :: 3 <= a < b < |s.fds| && !s.fds[a].isOpen && !s.fds[b].isOpen
  }

  /** That is when pipe creation succeeds. */
  lemma CreatesIff(s: State, flags: bv32)
    requires Rings(s)
    ensures CreatePipe(s, flags).1 == 0 <==> RoomForPipe(s)
  {
    hide CreatePipe, RingOk;
    CreateOutcomes(s, flags);
    var i, a := FreePipe(s.pipes, 0), FirstClosed(s.fds, 3);
    if i < MAX_PIPES && a < MAX_OPEN {
      var fds1 := s.fds[a := Fd(PipeEnd(i, false), 0, flags, true)];
      var b := FirstClosed(fds1, 3);
      if b < MAX_OPEN {
        assert fds1[b] == s.fds[b] && a < b;
      } else {
        forall x, y | 3 <= x < y < |s.fds|
          ensures s.fds[x].isOpen || s.fds[y].isOpen
        {
          assert fds1[x].isOpen && fds1[y].isOpen;
        }
      }
    }
  }

  /** Creating a pipe keeps every count exact unless there is room for one and the flags have the write-only bit: then
      both ends would be accounted as writers. */
  lemma CreateKeepsInvIff(s: State, flags: bv32)
    requires Inv(s)
    ensures Inv(CreatePipe(s, flags).0) <==> !(RoomForPipe(s) && WriteFlag(flags))
  {
    hide CreatePipe, RingOk, Labelled, Exact, WriteFlag, RoomForPipe;
    CreateOutcomes(s, flags);
    CreatesIff(s, flags);
    var i, a := FreePipe(s.pipes, 0), FirstClosed(s.fds, 3);
    if i < MAX_PIPES {
      var f := Fd(PipeEnd(i, false), 0, flags, true);
      OpenedRing(s, i, flags);
      if a == MAX_OPEN {
        UnusedPipeKeepsInv(s, i, Opened(s.pipes[i]).(inUse := false));
      } else {
        var b := FirstClosed(s.fds[a := f], 3);
        if b == MAX_OPEN {
          var p := CloseEnd(Opened(s.pipes[i]), WriteFlag(flags)).(inUse := false);
          UnusedPipeKeepsInv(s, i, p);
          assert s.fds[a := f][a := CLOSED] == s.fds[a := CLOSED];
          ClosedFd(s.(pipes := s.pipes[i := p]), a);
        } else {
          CreatedCounts(s, i, a, b, f, Fd(PipeEnd(i, true), 0, O_WRONLY | flags, true), Opened(s.pipes[i]));
        }
      }
    }
  }

  lemma OpenedRing(s: State, i: nat, flags: bv32)
    requires Rings(s) && i < MAX_PIPES
    ensures RingOk(Opened(s.pipes[i])) && RingOk(Opened(s.pipes[i]).(inUse := false))
    ensures RingOk(CloseEnd(Opened(s.pipes[i]), WriteFlag(flags)).(inUse := false))
    ensures WriteFlag(O_WRONLY | flags)
  {
  }

  lemma ClosedFd(s: State, a: nat)
    requires Inv(s) && a < MAX_OPEN && !s.fds[a].isOpen
    ensures Inv(s.(fds := s.fds[a := CLOSED]))
  {
    OtherFdKeepsInv(s, a, CLOSED);
  }

  lemma OpenKeepsInv(s: State, id: nat, flags: bv32, offset: nat)
    requires Inv(s)
    ensures Inv(OpenOther(s, id, flags, offset))
  {
    var i := FirstClosed(s.fds, 3);
    if i < MAX_OPEN {
      var f := Fd(OtherNode(id), offset, flags, true);
      OtherFdKeepsInv(s, i, f);
      assert OpenOther(s, id, flags, offset) == s.(fds := s.fds[i := f]);
    }
  }

  /** pipe_create is only called without the write-only bit. */
  predicate Allowed(op: Op) { op.PipeOp? ==> !WriteFlag(op.flags) }

  lemma StepKeepsInv(s: State, op: Op)
    requires Inv(s) && Allowed(op)
    ensures Inv(Step(s, op))
  {
    hide Inv, Close, CopyTo, Dup2, Fcntl, CreatePipe, Read, Write, OpenOther, WriteFlag;
    InvRings(s);
    match op
    case OpenOp(id, flags, offset) => OpenKeepsInv(s, id, flags, offset);
    case PipeOp(flags) => CreateKeepsInvIff(s, flags);
    case CloseOp(fd) => CloseKeepsInv(s, fd);
    case DupOp(fd) =>
      if IsOpen(s, fd) && FirstClosed(s.fds, 0) < MAX_OPEN {
        CopyKeepsInv(s, fd, FirstClosed(s.fds, 0));
      }
    case Dup2Op(fd, to) => Dup2KeepsInv(s, fd, to);
    case FcntlOp(fd, cmd, arg) => FcntlKeepsInv(s, fd, cmd, arg);
    case ReadOp(fd, size, other) => ReadKeepsInv(s, fd, size, other);
    case WriteOp(fd, data, other) => WriteKeepsInv(s, fd, data, other);
  }

  function After(s: State, ops: seq<Op>): (r: State)
    requires Rings(s)
    ensures Rings(r)
    decreases |ops|
  {
    if ops == [] then s else After(Step(s, ops[0]), ops[1..])
  }

  ghost predicate AllAllowed(ops: seq<Op>) {
    forall i :: 0 <= i < |ops| ==> Allowed(ops[i])
  }

  /** In every run the reference counts are exact. */
  lemma {:induction false} RunKeepsInv(s: State, ops: seq<Op>)
    requires Inv(s) && AllAllowed(ops)
    ensures Inv(After(s, ops))
    decreases |ops|
  {
    hide Inv, Step, Rings, Allowed;
    InvRings(s);
    if ops != [] {
      StepKeepsInv(s, ops[0]);
      InvRings(Step(s, ops[0]));
      RunKeepsInv(Step(s, ops[0]), ops[1..]);
    }
  }

  // ---- first in, first out ----

  /** The bytes an operation gets accepted into pipe `p`, and the bytes it delivers from it. */
  function Accepted(s: State, op: Op, p: nat): seq<byte>
    requires Rings(s) && p < MAX_PIPES
  {
    if op.WriteOp? && IsOpen(s, op.fd) && s.fds[op.fd].node == PipeEnd(p, true)
    then var n := Write(s, op.fd, op.data, op.other).1; if n > 0 then op.data[..n] else []
    else []
  }

  function Delivered(s: State, op: Op, p: nat): seq<byte>
    requires Rings(s) && p < MAX_PIPES
  {
    if op.ReadOp? && IsOpen(s, op.fd) && s.fds[op.fd].node == PipeEnd(p, false)
    then Read(s, op.fd, op.size, op.other).2
    else []
  }

  function AllAccepted(s: State, ops: seq<Op>, p: nat): seq<byte>
    requires Rings(s) && p < MAX_PIPES
    decreases |ops|
  {
    if ops == [] then [] else Accepted(s, ops[0], p) + AllAccepted(Step(s, ops[0]), ops[1..], p)
  }

  function AllDelivered(s: State, ops: seq<Op>, p: nat): seq<byte>
    requires Rings(s) && p < MAX_PIPES
    decreases |ops|
  {
    if ops == [] then [] else Delivered(s, ops[0], p) + AllDelivered(Step(s, ops[0]), ops[1..], p)
  }

  /** The pipe is in use before and after every operation of the run. */
  predicate StaysInUse(s: State, ops: seq<Op>, p: nat)
    requires Rings(s) && p < MAX_PIPES
    decreases |ops|
  {
    s.pipes[p].inUse && (ops == [] || StaysInUse(Step(s, ops[0]), ops[1..], p))
  }

  /** Operations other than reading and writing leave the ring of a pipe that stays in use alone. */
  lemma RingUntouched(s: State, op: Op, p: nat)
    requires Rings(s) && p < MAX_PIPES && s.pipes[p].inUse && Step(s, op).pipes[p].inUse
    requires !(op.WriteOp? && IsOpen(s, op.fd) && s.fds[op.fd].node == PipeEnd(p, true))
    requires !(op.ReadOp? && IsOpen(s, op.fd) && s.fds[op.fd].node == PipeEnd(p, false))
    ensures var a, b := s.pipes[p], Step(s, op).pipes[p]; b.buffer == a.buffer && b.tail == a.tail && b.count == a.count
  {
    hide RingOk, Put, Take, Waiting, AsInt32, FdFlags, StatusFlags, WriteFlag, CreatePipe, Dup2;
    if op.PipeOp? {
      CreateSpares(s, op.flags, p);
    } else if op.Dup2Op? {
      Dup2Spares(s, op.fd, op.to, p);
    } else if op.FcntlOp? && 0 <= AsInt32(op.arg) < MAX_OPEN {
      Dup2Spares(s, op.fd, FirstClosed(s.fds, AsInt32(op.arg)), p);
    }
  }

  lemma CreateSpares(s: State, flags: bv32, p: nat)
    requires Rings(s) && p < MAX_PIPES && p != FreePipe(s.pipes, 0)
    ensures CreatePipe(s, flags).0.pipes[p] == s.pipes[p]
  {
    CreateOutcomes(s, flags);
  }

  /** A pipe that is still in use has its ring as before, and no writer it did not have. */
  predicate Calmer(a: Pipe, b: Pipe) {
    b.inUse ==> a.inUse && b.buffer == a.buffer && b.tail == a.tail && b.count == a.count
                && (b.writeOpen ==> a.writeOpen)
  }

  lemma CloseCalms(s: State, fd: int, p: nat)
    requires Rings(s) && p < MAX_PIPES
    ensures Calmer(s.pipes[p], Close(s, fd).0.pipes[p])
  {
    hide RingOk, WriteFlag;
  }

  lemma CopyCalms(s: State, from: nat, to: nat, p: nat)
    requires Rings(s) && from < MAX_OPEN && to < MAX_OPEN && p < MAX_PIPES
    ensures Calmer(s.pipes[p], CopyTo(s, from, to).pipes[p])
  {
    hide RingOk, WriteFlag;
  }

  lemma Dup2Spares(s: State, fd: int, to: int, p: nat)
    requires Rings(s) && p < MAX_PIPES
    ensures Calmer(s.pipes[p], Dup2(s, fd, to).0.pipes[p])
  {
    hide RingOk, WriteFlag, Close, CopyTo;
    if IsOpen(s, fd) && 0 <= to < MAX_OPEN && fd != to {
      CloseCalms(s, to, p);
      CopyCalms(if s.fds[to].isOpen then Close(s, to).0 else s, fd, to, p);
    }
  }

  lemma SameRing(a: Pipe, b: Pipe)
    requires RingOk(a) && RingOk(b) && b.buffer == a.buffer && b.tail == a.tail && b.count == a.count
    ensures Waiting(b) == Waiting(a)
  {
  }

  lemma WriteOnPipe(s: State, fd: int, data: seq<byte>, other: int)
    requires Rings(s) && IsOpen(s, fd) && s.fds[fd].node.PipeEnd? && s.fds[fd].node.writeEnd
    ensures var p, n := s.fds[fd].node.pipe, Write(s, fd, data, other).1;
            n <= |data| && Write(s, fd, data, other).0.pipes[p] == if n > 0 then Put(s.pipes[p], data[..n])
                else s.pipes[p]
    ensures Write(s, fd, data, other).1 > 0 ==>
            s.pipes[s.fds[fd].node.pipe].count + Write(s, fd, data, other).1 <= CAPACITY
  {
    hide Put;
  }

  lemma ReadOnPipe(s: State, fd: int, size: nat, other: int)
    requires Rings(s) && IsOpen(s, fd) && s.fds[fd].node.PipeEnd? && !s.fds[fd].node.writeEnd
    ensures var p := s.fds[fd].node.pipe; var (t, n, got) := Read(s, fd, size, other);
            && 0 <= |got| <= s.pipes[p].count && got == Waiting(s.pipes[p])[..|got|]
            && t.pipes[p] == if got == [] then s.pipes[p] else Take(s.pipes[p], |got|)
  {
  }

  lemma StepFifo(s: State, op: Op, p: nat)
    requires Rings(s) && p < MAX_PIPES && s.pipes[p].inUse && Step(s, op).pipes[p].inUse
    ensures Waiting(s.pipes[p]) + Accepted(s, op, p) == Delivered(s, op, p) + Waiting(Step(s, op).pipes[p])
  {
    hide Waiting, RingOk, Put, Take, Close, CopyTo, Dup, Dup2, Fcntl, CreatePipe, OpenOther, Read, Write;
    var w := Waiting(s.pipes[p]);
    if op.WriteOp? && IsOpen(s, op.fd) && s.fds[op.fd].node == PipeEnd(p, true) {
      WriteOnPipe(s, op.fd, op.data, op.other);
      var n := Write(s, op.fd, op.data, op.other).1;
      if n > 0 {
        PutAppends(s.pipes[p], op.data[..n]);
      }
      assert [] + (w + Accepted(s, op, p)) == w + Accepted(s, op, p);
    } else if op.ReadOp? && IsOpen(s, op.fd) && s.fds[op.fd].node == PipeEnd(p, false) {
      ReadOnPipe(s, op.fd, op.size, op.other);
      var got := Read(s, op.fd, op.size, op.other).2;
      TakeRemoves(s.pipes[p], |got|);
      assert w + [] == w;
      assert got == [] ==> got + w == w;
    } else {
      RingUntouched(s, op, p);
      SameRing(s.pipes[p], Step(s, op).pipes[p]);
      assert w + [] == [] + w;
    }
  }

  /** A pipe is first in, first out: over any run in which it stays in use, through whatever descriptors and in
      whatever pieces it is written and read, the bytes delivered followed by the bytes waiting at the end are the
      bytes waiting at the start followed by the bytes accepted. */
  lemma {:induction false} Fifo(s: State, ops: seq<Op>, p: nat)
    requires Rings(s) && p < MAX_PIPES && StaysInUse(s, ops, p)
    ensures Waiting(s.pipes[p]) + AllAccepted(s, ops, p) == AllDelivered(s, ops, p) + Waiting(After(s, ops).pipes[p])
    decreases |ops|
  {
    hide Waiting, RingOk, Step, Accepted, Delivered, Rings;
    FifoParts(s, p);
    var w := Waiting(s.pipes[p]);
    if ops == [] {
      assert w + [] == [] + w;
    } else {
      var t := Step(s, ops[0]);
      FifoParts(t, p);
      StepFifo(s, ops[0], p);
      Fifo(t, ops[1..], p);
      FifoParts(After(s, ops), p);
      var a, d := Accepted(s, ops[0], p), Delivered(s, ops[0], p);
      var aa, dd, z := AllAccepted(t, ops[1..], p), AllDelivered(t, ops[1..], p), Waiting(After(s, ops).pipes[p]);
      assert w + (a + aa) == (w + a) + aa == (d + Waiting(t.pipes[p])) + aa == d + (Waiting(t.pipes[p]) + aa)
          == d + (dd + z) == (d + dd) + z;
    }
  }

  lemma FifoParts(s: State, p: nat)
    requires Rings(s) && p < MAX_PIPES
    ensures |s.pipes| == MAX_PIPES && RingOk(s.pipes[p])
  {
  }

  // ---- end of file ----

  /** No bytes are left and no writer either, or the pipe is gone altogether. */
  predicate Ended(s: State, p: nat)
    requires Rings(s) && p < MAX_PIPES
  {
    !s.pipes[p].inUse || (s.pipes[p].count == 0 && !s.pipes[p].writeOpen)
  }

  predicate Recycles(s: State, op: Op, p: nat)
    requires Rings(s)
  {
    op.PipeOp? && FreePipe(s.pipes, 0) == p
  }

  /** A read of at least one byte that returns 0 has met the end. */
  lemma ZeroMeansEnded(s: State, fd: int, size: nat, other: int)
    requires Inv(s) && IsOpen(s, fd) && s.fds[fd].node.PipeEnd? && size > 0
    requires Read(s, fd, size, other).1 == 0
    ensures !s.fds[fd].node.writeEnd && Ended(s, s.fds[fd].node.pipe)
    ensures Read(s, fd, size, other).0 == s
  {
  }

  /** At the end every read of the pipe returns 0. */
  lemma EndedReadsZero(s: State, fd: int, size: nat, other: int)
    requires Inv(s) && IsOpen(s, fd) && s.fds[fd].node.PipeEnd? && !s.fds[fd].node.writeEnd
             && Ended(s, s.fds[fd].node.pipe)
    ensures Read(s, fd, size, other) == (s, 0, [])
  {
    HolderCounts(s, fd);
  }

  lemma StepKeepsEnded(s: State, op: Op, p: nat)
    requires Inv(s) && p < MAX_PIPES && Ended(s, p) && !Recycles(s, op, p)
    ensures Ended(Step(s, op), p)
  {
    hide CreatePipe, Read, Write, Close, CopyTo, Dup2, RingOk, Inv, AsInt32, FdFlags, StatusFlags, WriteFlag;
    InvRings(s);
    match op
    case PipeOp(flags) => CreateSpares(s, flags, p);
    case CloseOp(fd) => CloseCalms(s, fd, p);
    case DupOp(fd) =>
      if IsOpen(s, fd) && FirstClosed(s.fds, 0) < MAX_OPEN {
        CopyCalms(s, fd, FirstClosed(s.fds, 0), p);
      }
    case Dup2Op(fd, to) => Dup2Spares(s, fd, to, p);
    case FcntlOp(fd, cmd, arg) =>
      if 0 <= AsInt32(arg) < MAX_OPEN {
        Dup2Spares(s, fd, FirstClosed(s.fds, AsInt32(arg)), p);
      }
    case ReadOp(_, _, _) => TransferKeepsEnded(s, op, p);
    case WriteOp(_, _, _) => TransferKeepsEnded(s, op, p);
    case OpenOp(_, _, _) =>
  }

  /** Nobody can write to a pipe whose writing end is closed, and reading an empty one takes nothing. */
  lemma TransferKeepsEnded(s: State, op: Op, p: nat)
    requires Inv(s) && p < MAX_PIPES && Ended(s, p) && (op.ReadOp? || op.WriteOp?)
    ensures Ended(Step(s, op), p)
  {
    hide RingOk, Put, Take, Waiting, Inv, WriteFlag;
    InvRings(s);
    if IsOpen(s, op.fd) && s.fds[op.fd].node.PipeEnd? {
      HolderCounts(s, op.fd);
    }
  }


  ghost predicate NotRecycled(s: State, ops: seq<Op>, p: nat)
    requires Rings(s)
    decreases |ops|
  {
    ops == [] || (!Recycles(s, ops[0], p) && NotRecycled(Step(s, ops[0]), ops[1..], p))
  }

  /** End of file is for good: until the pipe slot is recycled, nothing can be read from it again. */
  lemma {:induction false} EndIsPermanent(s: State, ops: seq<Op>, p: nat, fd: int, size: nat, other: int)
    requires Inv(s) && AllAllowed(ops) && p < MAX_PIPES && Ended(s, p) && NotRecycled(s, ops, p)
    requires var t := After(s, ops); IsOpen(t, fd) && t.fds[fd].node == PipeEnd(p, false)
    ensures Read(After(s, ops), fd, size, other).1 == 0
    decreases |ops|
  {
    hide Inv, Step, Read, Allowed, Rings, Recycles;
    InvRings(s);
    if ops == [] {
      EndedReadsZero(s, fd, size, other);
    } else {
      StepKeepsInv(s, ops[0]);
      StepKeepsEnded(s, ops[0], p);
      InvRings(Step(s, ops[0]));
      EndIsPermanent(Step(s, ops[0]), ops[1..], p, fd, size, other);
    }
  }
}
