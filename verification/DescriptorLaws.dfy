/** What programs rely on when they copy descriptors, set their flags and use pipes. */
module DescriptorLaws {
  import opened Bytes
  import opened Pipes
  import opened Descriptors
  import opened PipeRuns

  // ---- copies ----

  /** Only descriptor `fd` differs. */
  ghost predicate OnlyFd(s: State, t: State, fd: nat) {
    |t.fds| == |s.fds| && forall i :: 0 <= i < |s.fds| && i != fd ==> t.fds[i] == s.fds[i]
  }

  /** A duplicate has the node, offset and flags of its original, in the lowest closed descriptor; it fails for closed
      descriptors and on a full table. */
  lemma DupCopies(s: State, fd: int)
    requires Rings(s)
    ensures var (t, r) := Dup(s, fd);
            if !IsOpen(s, fd) then r == EBADF && t == s
            else if FirstClosed(s.fds, 0) == MAX_OPEN then r == EMFILE && t == s
            else r == FirstClosed(s.fds, 0) && !s.fds[r].isOpen && t.fds[r] == s.fds[fd] && OnlyFd(s, t, r)
  {
  }

  /** dup2 makes one descriptor a copy of the other, whatever it was before; the other stays. */
  lemma Dup2Copies(s: State, fd: int, to: int)
    requires Rings(s)
    ensures var (t, r) := Dup2(s, fd, to);
            if IsOpen(s, fd) && 0 <= to < MAX_OPEN
            then r == to && t.fds[to] == s.fds[fd] && t.fds[fd] == s.fds[fd] && OnlyFd(s, t, to)
            else r == EBADF && t == s
  {
  }

  /** F_DUPFD copies to the lowest closed descriptor from its argument on. */
  lemma DupFdCopies(s: State, fd: int, arg: bv32, start: nat)
    requires Rings(s) && IsOpen(s, fd) && AsInt32(arg) == start < MAX_OPEN
    ensures var (t, r) := Fcntl(s, fd, F_DUPFD, arg);
            if FirstClosed(s.fds, start) == MAX_OPEN then r == EMFILE && t == s
            else r == FirstClosed(s.fds, start) >= start && t.fds[r] == s.fds[fd] && OnlyFd(s, t, r)
  {
    hide AsInt32, FdFlags, StatusFlags;
    if FirstClosed(s.fds, start) < MAX_OPEN {
      Dup2Copies(s, fd, FirstClosed(s.fds, start));
    }
  }

  /** A closed descriptor is closed, it cannot be closed again, and the next open that finds no lower one gets it. */
  lemma CloseThenOpen(s: State, fd: nat, node: Node, flags: bv32)
    requires Rings(s) && 3 <= fd < MAX_OPEN && s.fds[fd].isOpen && (node.PipeEnd? ==> node.pipe < MAX_PIPES)
    requires forall i :: 3 <= i < fd ==> s.fds[i].isOpen
    ensures var t := Close(s, fd).0;
            && Close(s, fd).1 == 0 && Close(t, fd) == (t, -1)
            && !t.fds[fd].isOpen && OnlyFd(s, t, fd)
            && AllocFd(t, node, flags).1 == fd && AllocFd(t, node, flags).0.fds[fd] == Fd(node, 0, flags, true)
  {
    LowestClosed(Close(s, fd).0.fds, 3, fd);
  }

  lemma {:induction false} LowestClosed(fds: seq<Fd>, i: nat, fd: nat)
    requires i <= fd < |fds| && !fds[fd].isOpen && forall k :: i <= k < fd ==> fds[k].isOpen
    ensures FirstClosed(fds, i) == fd
    decreases fd - i
  {
    if i < fd {
      LowestClosed(fds, i + 1, fd);
    }
  }

  /** Reading through a copy does not move the original: each has an offset of its own. */
  lemma OffsetsPart(s: State, fd: int, size: nat, n: int)
    requires Rings(s) && IsOpen(s, fd) && s.fds[fd].node.OtherNode? && FirstClosed(s.fds, 0) < MAX_OPEN && n > 0
    ensures var (t, copy) := Dup(s, fd);
            var u := Read(t, copy, size, n).0;
            u.fds[copy].offset == s.fds[fd].offset + n && u.fds[fd].offset == s.fds[fd].offset
  {
    DupCopies(s, fd);
  }

  /** A read or write through one descriptor moves that descriptor's offset by what it returns, if that is positive. */
  lemma TransfersMove(s: State, fd: int, size: nat, data: seq<byte>, n: int)
    requires Rings(s) && IsOpen(s, fd) && s.fds[fd].node.OtherNode?
    ensures var t, u := Read(s, fd, size, n).0, Write(s, fd, data, n).0;
            && t == u && OnlyFd(s, t, fd) && t.pipes == s.pipes
            && t.fds[fd] == s.fds[fd].(offset := if n > 0 then s.fds[fd].offset + n else s.fds[fd].offset)
  {
  }

  // ---- flags ----

  lemma CloexecBit(flags: bv32, arg: bv32)
    ensures FdFlags(flags, arg) & O_CLOEXEC != 0 <==> arg & 1 != 0
    ensures FdFlags(flags, arg) & !O_CLOEXEC == flags & !O_CLOEXEC
  {
  }

  /** What F_SETFD sets F_GETFD answers, and no other bit changes. */
  lemma GetFdAnswersSet(s: State, fd: int, arg: bv32, any: bv32)
    requires Rings(s) && IsOpen(s, fd)
    ensures var t := Fcntl(s, fd, F_SETFD, arg).0;
            && Fcntl(t, fd, F_GETFD, any) == (t, if arg & 1 != 0 then 1 else 0)
            && t.fds[fd].flags & !O_CLOEXEC == s.fds[fd].flags & !O_CLOEXEC
            && t == s.(fds := s.fds[fd := s.fds[fd].(flags := t.fds[fd].flags)])
  {
    hide FdFlags, StatusFlags, AsInt32;
    CloexecBit(s.fds[fd].flags, arg);
  }

  const STATUS: bv32 := 0x0C00  // O_APPEND and O_NONBLOCK

  lemma StatusBits(flags: bv32, arg: bv32)
    ensures StatusFlags(flags, arg) & STATUS == arg & STATUS
    ensures StatusFlags(flags, arg) & !STATUS == flags & !STATUS
  {
  }

  /** F_GETFL answers the two bits F_SETFL may set as they were set, and all others, the access mode among them, as they
      were. */
  lemma GetFlAnswersSet(s: State, fd: int, arg: bv32, any: bv32)
    requires Rings(s) && IsOpen(s, fd)
    ensures var t := Fcntl(s, fd, F_SETFL, arg).0;
            && Fcntl(t, fd, F_GETFL, any) == (t, AsInt32(t.fds[fd].flags))
            && t.fds[fd].flags & STATUS == arg & STATUS && t.fds[fd].flags & !STATUS == s.fds[fd].flags & !STATUS
            && t == s.(fds := s.fds[fd := s.fds[fd].(flags := t.fds[fd].flags)])
  {
    hide AsInt32, StatusFlags;
    StatusBits(s.fds[fd].flags, arg);
  }

  /** fcntl on a closed descriptor, with an unknown command or with a place outside the table changes nothing. */
  lemma FcntlRefuses(s: State, fd: int, cmd: int, arg: bv32)
    requires Rings(s)
    ensures !IsOpen(s, fd) ==> Fcntl(s, fd, cmd, arg) == (s, -9)
    ensures IsOpen(s, fd) && !(0 <= cmd <= 4) ==> Fcntl(s, fd, cmd, arg) == (s, -22)
    ensures IsOpen(s, fd) && cmd == 0 && !(0 <= AsInt32(arg) < 64) ==> Fcntl(s, fd, cmd, arg) == (s, -22)
  {
    hide AsInt32, FdFlags, StatusFlags;
  }

  // ---- pipes ----

  /** The two descriptors of a new pipe: both were closed, and they are the ends of one unused pipe. */
  lemma PipeEnds(s: State, flags: bv32)
    requires Rings(s) && CreatePipe(s, flags).1 == 0
    ensures var (t, _, r, w) := CreatePipe(s, flags);
            && 3 <= r < w < MAX_OPEN && !s.fds[r].isOpen && !s.fds[w].isOpen
            && (forall i :: 0 <= i < MAX_OPEN && i != r && i != w ==> t.fds[i] == s.fds[i])
            && var i := t.fds[r].node;
               && i.PipeEnd? && !s.pipes[i.pipe].inUse && t.pipes[i.pipe].count == 0
               && t.fds[r] == Fd(PipeEnd(i.pipe, false), 0, flags, true)
               && t.fds[w] == Fd(PipeEnd(i.pipe, true), 0, O_WRONLY | flags, true)
  {
    hide WriteFlag, CloseEnd;
  }

  /** What is written to a new pipe is what is read from it. */
  lemma PipeDelivers(s: State, flags: bv32, data: seq<byte>, size: nat, other: int)
    requires Rings(s) && CreatePipe(s, flags).1 == 0 && 0 < |data| <= CAPACITY && |data| <= size
    ensures var (t, _, r, w) := CreatePipe(s, flags);
            var (u, n) := Write(t, w, data, other);
            n == |data| && Read(u, r, size, other).1 == |data| && Read(u, r, size, other).2 == data
  {
    hide CreatePipe, Put, Waiting, RingOk;
    PipeEnds(s, flags);
    var (t, _, r, w) := CreatePipe(s, flags);
    var p := t.pipes[t.fds[r].node.pipe];
    NewPipeOpen(s, flags);
    PutAppends(p, data);
    EmptyPipe(p);
    assert data[..|data|] == data;
  }

  lemma EmptyPipe(p: Pipe)
    requires RingOk(p) && p.count == 0
    ensures forall data: seq<byte> :: Waiting(p) + data == data
  {
  }

  lemma NewPipeOpen(s: State, flags: bv32)
    requires Rings(s) && CreatePipe(s, flags).1 == 0
    ensures var (t, _, r, w) := CreatePipe(s, flags);
            && 3 <= r < MAX_OPEN && t.fds[r].node.PipeEnd? && t.fds[r].node.pipe < MAX_PIPES
            && var p := t.pipes[t.fds[r].node.pipe];
               RingOk(p) && p.inUse && p.readOpen && p.writeOpen && p.count == 0
  {
    hide WriteFlag, CloseEnd;
  }

  /** Of the descriptors only the offset of `fd` changes, and not by less than 0. */
  ghost predicate MovesBy(s: State, t: State, fd: int, n: int) {
    0 <= fd < |s.fds| && t.fds == s.fds[fd := s.fds[fd].(offset := s.fds[fd].offset + Max(n, 0))]
  }

  /** Some open descriptor leads to one end of pipe `p`. */
  ghost predicate EndHeld(s: State, p: nat, w: bool) {
    exists i :: 0 <= i < |s.fds| && Holds(s.fds[i], p, w)
  }

  /** The open flags of a pipe in use say which ends are held. */
  lemma OpenIffHeld(s: State, p: nat)
    requires Inv(s) && p < MAX_PIPES && s.pipes[p].inUse
    ensures s.pipes[p].readOpen <==> EndHeld(s, p, false)
    ensures s.pipes[p].writeOpen <==> EndHeld(s, p, true)
  {
    hide RingOk;
    HoldersZero(s.fds, p, false);
    HoldersZero(s.fds, p, true);
  }

  /** A read from a pipe delivers what waits, as far as it was asked for; of an empty pipe it answers the end exactly
      when no open descriptor leads to its writing end, and asks to try again otherwise. */
  lemma ReadAnswers(s: State, fd: int, size: nat, other: int)
    requires Inv(s) && IsOpen(s, fd) && s.fds[fd].node.PipeEnd? && !s.fds[fd].node.writeEnd
    ensures var p := s.fds[fd].node.pipe;
            var (t, n, got) := Read(s, fd, size, other);
            if s.pipes[p].count > 0
            then n == |got| == Min(size, s.pipes[p].count) && got == Waiting(s.pipes[p])[..n] && MovesBy(s, t, fd, n)
            else got == [] && t == s && n == if EndHeld(s, p, true) then EAGAIN else 0
  {
    hide Waiting, RingOk, Take;
    HolderCounts(s, fd);
    OpenIffHeld(s, s.fds[fd].node.pipe);
  }

  /** A write to a pipe accepts what fits; it fails exactly when no open descriptor leads to the reading end. */
  lemma WriteAnswers(s: State, fd: int, data: seq<byte>, other: int)
    requires Inv(s) && IsOpen(s, fd) && s.fds[fd].node.PipeEnd? && s.fds[fd].node.writeEnd
    ensures var p := s.fds[fd].node.pipe;
            var (t, n) := Write(s, fd, data, other);
            (n == if EndHeld(s, p, false) then Min(|data|, CAPACITY - s.pipes[p].count) else EPIPE)
                && MovesBy(s, t, fd, n)
  {
    hide Waiting, Put;
    HolderCounts(s, fd);
    OpenIffHeld(s, s.fds[fd].node.pipe);
  }

  /** The wrong end refuses. */
  lemma WrongEndRefuses(s: State, fd: int, size: nat, data: seq<byte>, other: int)
    requires Rings(s) && IsOpen(s, fd) && s.fds[fd].node.PipeEnd?
    ensures s.fds[fd].node.writeEnd ==> Read(s, fd, size, other) == (s, -1, [])
    ensures !s.fds[fd].node.writeEnd ==> Write(s, fd, data, other) == (s, -1)
  {
    hide Waiting, Put, Take;
  }

  /** A pipe in use is given back exactly when the last open descriptor that leads to it is closed. */
  lemma GivenBackIff(s: State, fd: int, p: nat)
    requires Inv(s) && IsOpen(s, fd) && p < MAX_PIPES && s.pipes[p].inUse
    ensures !Close(s, fd).0.pipes[p].inUse <==>
            forall i :: 0 <= i < MAX_OPEN && s.fds[i].isOpen && s.fds[i].node.PipeEnd? && s.fds[i].node.pipe == p ==>
                i == fd
  {
    hide RingOk, Close;
    var t := Close(s, fd).0;
    CloseKeepsInv(s, fd);
    ClosedOne(s, fd);
    HoldersZero(t.fds, p, false);
    HoldersZero(t.fds, p, true);
    if t.pipes[p].inUse {
      var w := Holders(t.fds, p, true) > 0;
      var i :| 0 <= i < |t.fds| && Holds(t.fds[i], p, w);
      assert i != fd && s.fds[i].isOpen;
    } else {
      forall i | 0 <= i < MAX_OPEN && s.fds[i].isOpen && s.fds[i].node.PipeEnd? && s.fds[i].node.pipe == p
        ensures i == fd
      {
        assert !Holds(t.fds[i], p, false) && !Holds(t.fds[i], p, true);
      }
    }
  }

  lemma ClosedOne(s: State, fd: int)
    requires Rings(s) && IsOpen(s, fd)
    ensures Close(s, fd).0.fds == s.fds[fd := CLOSED]
  {
  }
}
