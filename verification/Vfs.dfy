/** The descriptor and pipe code of the kernel, proved against the functions of `Descriptors` and `Pipes`. */
module Vfs {
  import opened Bytes
  import opened Pipes
  import opened Descriptors

  class Tables {
    const fds: array<Fd>
    const pipes: array<Pipe>

    ghost function Abs(): State
      reads fds, pipes
    {
      State(fds[..], pipes[..])
    }

    ghost predicate Valid()
      reads fds, pipes
    {
      Rings(Abs())
    }

    /** vfs_init and pipe_init on zeroed kernel data: the console streams are open, no pipe is in use. */
    constructor ()
      ensures fresh(fds) && fresh(pipes) && Valid()
      ensures forall i :: 0 <= i < MAX_OPEN ==> fds[i].node == NoNode && (fds[i].isOpen <==> i < 3)
      ensures forall i :: 0 <= i < MAX_PIPES ==> !pipes[i].inUse
    {
      fds := new Fd[MAX_OPEN](_ => CLOSED);
      pipes := new Pipe[MAX_PIPES](_ => Pipe(Zeros(CAPACITY), 0, 0, 0, false, false, 0, 0, false));
      new;
      fds[0] := Fd(NoNode, 0, 0, true);
      fds[1] := Fd(NoNode, 0, O_WRONLY, true);
      fds[2] := Fd(NoNode, 0, O_WRONLY, true);
    }

    method VfsAllocFd(node: Node, flags: bv32) returns (r: int)
      requires Valid() && (node.PipeEnd? ==> node.pipe < MAX_PIPES)
      modifies fds
      ensures Valid() && (Abs(), r) == AllocFd(old(Abs()), node, flags)
    {
      var i := 3;
      while i < MAX_OPEN
        invariant 3 <= i <= MAX_OPEN && FirstClosed(fds[..], 3) == FirstClosed(fds[..], i)
      {
        if !fds[i].isOpen {
          fds[i] := Fd(node, 0, flags, true);
          return i;
        }
        i := i + 1;
      }
      r := -1;
    }

    method PipeVnodeClose(i: nat, isWrite: bool)
      requires Valid() && i < MAX_PIPES
      modifies pipes
      ensures Valid() && Abs() == old(Abs()).(pipes := old(pipes[..])[i := CloseEnd(old(pipes[i]), isWrite)])
    {
      var p := pipes[i];
      assert pipes[..] == old(pipes[..])[i := p];
      if !p.inUse { return; }
      if isWrite {
        if p.refWrite > 0 { p := p.(refWrite := p.refWrite - 1); }
        if p.refWrite == 0 { p := p.(writeOpen := false); }
      } else {
        if p.refRead > 0 { p := p.(refRead := p.refRead - 1); }
        if p.refRead == 0 { p := p.(readOpen := false); }
      }
      if p.refRead == 0 && p.refWrite == 0 {
        p := p.(inUse := false, count := 0, head := 0, tail := 0);
      }
      pipes[i] := p;
    }

    method VfsClose(fd: int) returns (r: int)
      requires Valid()
      modifies fds, pipes
      ensures Valid() && (Abs(), r) == Close(old(Abs()), fd)
    {
      if fd < 0 || fd >= MAX_OPEN { return -1; }
      if !fds[fd].isOpen { return -1; }
      if fds[fd].node.PipeEnd? {
        PipeVnodeClose(fds[fd].node.pipe, fds[fd].flags & O_WRONLY != 0);
      }
      fds[fd] := CLOSED;
      r := 0;
    }

    method Copy(from: nat, to: nat)
      requires Valid() && from < MAX_OPEN && to < MAX_OPEN
      modifies fds, pipes
      ensures Valid() && Abs() == CopyTo(old(Abs()), from, to)
    {
      fds[to] := fds[from];
      if fds[to].node.PipeEnd? {
        var i := fds[to].node.pipe;
        if fds[to].flags & O_WRONLY != 0 {
          pipes[i] := pipes[i].(refWrite := pipes[i].refWrite + 1);
        } else {
          pipes[i] := pipes[i].(refRead := pipes[i].refRead + 1);
        }
      }
    }

    method VfsDup(fd: int) returns (r: int)
      requires Valid()
      modifies fds, pipes
      ensures Valid() && (Abs(), r) == Dup(old(Abs()), fd)
    {
      if fd < 0 || fd >= MAX_OPEN || !fds[fd].isOpen { return EBADF; }
      var i := 0;
      while i < MAX_OPEN
        invariant 0 <= i <= MAX_OPEN && FirstClosed(fds[..], 0) == FirstClosed(fds[..], i)
        invariant Valid() && Abs() == old(Abs())
      {
        if !fds[i].isOpen {
          Copy(fd, i);
          return i;
        }
        i := i + 1;
      }
      r := EMFILE;
    }

    method VfsDup2(fd: int, to: int) returns (r: int)
      requires Valid()
      modifies fds, pipes
      ensures Valid() && (Abs(), r) == Dup2(old(Abs()), fd, to)
    {
      if fd < 0 || fd >= MAX_OPEN || !fds[fd].isOpen { return EBADF; }
      if to < 0 || to >= MAX_OPEN { return EBADF; }
      if fd == to { return to; }
      if fds[to].isOpen {
        var _ := VfsClose(to);
      }
      Copy(fd, to);
      r := to;
    }

    /** The F_DUPFD loop: the first closed descriptor from `start` on. */
    method DupFrom(fd: int, start: nat) returns (r: int)
      requires Valid() && start < MAX_OPEN
      modifies fds, pipes
      ensures Valid()
      ensures var i := FirstClosed(old(fds[..]), start);
              (Abs(), r) == if i == MAX_OPEN then (old(Abs()), EMFILE) else Dup2(old(Abs()), fd, i)
    {
      hide Dup2, Fcntl, RingOk;
      var i := start;
      while i < MAX_OPEN
        invariant start <= i <= MAX_OPEN && FirstClosed(fds[..], start) == FirstClosed(fds[..], i)
        invariant Valid() && Abs() == old(Abs())
      {
        if !fds[i].isOpen {
          r := VfsDup2(fd, i);
          return;
        }
        i := i + 1;
      }
      return EMFILE;
    }

    method VfsFcntl(fd: int, cmd: int, arg: bv32) returns (r: int)
      requires Valid()
      modifies fds, pipes
      ensures Valid() && (Abs(), r) == Fcntl(old(Abs()), fd, cmd, arg)
    {
      hide Dup2, AsInt32, FdFlags, StatusFlags, RingOk;
      if fd < 0 || fd >= MAX_OPEN || !fds[fd].isOpen { return EBADF; }
      if cmd == F_DUPFD {
        var start := AsInt32(arg);
        if start < 0 || start >= MAX_OPEN { return EINVAL; }
        r := DupFrom(fd, start);
        return;
      } else if cmd == F_GETFD {
        return if fds[fd].flags & O_CLOEXEC != 0 then 1 else 0;
      } else if cmd == F_SETFD {
        fds[fd] := fds[fd].(flags := FdFlags(fds[fd].flags, arg));
        return 0;
      } else if cmd == F_GETFL {
        return AsInt32(fds[fd].flags);
      } else if cmd == F_SETFL {
        fds[fd] := fds[fd].(flags := StatusFlags(fds[fd].flags, arg));
        return 0;
      }
      r := EINVAL;
    }

    method PipeCreate(flags: bv32) returns (r: int, rfd: int, wfd: int)
      requires Valid()
      modifies fds, pipes
      ensures Valid() && (Abs(), r, rfd, wfd) == CreatePipe(old(Abs()), flags)
    {
      var chosen := 0;
      while chosen < MAX_PIPES && pipes[chosen].inUse
        invariant 0 <= chosen <= MAX_PIPES && FreePipe(pipes[..], 0) == FreePipe(pipes[..], chosen)
      {
        chosen := chosen + 1;
      }
      if chosen == MAX_PIPES { return EMFILE, -1, -1; }
      ghost var s := Abs();
      pipes[chosen] := Pipe(pipes[chosen].buffer, 0, 0, 0, true, true, 1, 1, true);
      assert Abs() == s.(pipes := s.pipes[chosen := Opened(s.pipes[chosen])]);
      rfd := VfsAllocFd(PipeEnd(chosen, false), flags);
      if rfd < 0 {
        pipes[chosen] := pipes[chosen].(inUse := false);
        return EMFILE, -1, -1;
      }
      wfd := VfsAllocFd(PipeEnd(chosen, true), O_WRONLY | flags);
      if wfd < 0 {
        var _ := VfsClose(rfd);
        pipes[chosen] := pipes[chosen].(inUse := false);
        return EMFILE, -1, -1;
      }
      r := 0;
    }

    /** The ring loop of the reader. */
    method PipeVnodeRead(i: nat, size: nat) returns (r: int, data: seq<byte>)
      requires Valid() && i < MAX_PIPES
      modifies pipes
      ensures Valid() && r == ReadCount(old(pipes[i]), size) && |data| == Max(r, 0)
      ensures data == Waiting(old(pipes[i]))[..|data|]
      ensures pipes[..] == old(pipes[..])[i := Take(old(pipes[i]), |data|)]
    {
      hide Waiting, RingOk;
      data := [];
      ghost var p := pipes[i];
      TakeNone(p);
      assert pipes[..] == old(pipes[..])[i := p];
      if !pipes[i].inUse { return -1, []; }
      if pipes[i].count == 0 {
        return if !pipes[i].writeOpen then 0 else EAGAIN, [];
      }
      var toRead := if size < pipes[i].count then size else pipes[i].count;
      var k := 0;
      while k < toRead
        invariant 0 <= k <= toRead && |data| == k && data == Waiting(p)[..k]
        invariant pipes[..] == old(pipes[..])[i := p.(tail := (p.tail + k) % CAPACITY)]
      {
        NextByte(p, k);
        data := data + [pipes[i].buffer[pipes[i].tail]];
        pipes[i] := pipes[i].(tail := (pipes[i].tail + 1) % CAPACITY);
        k := k + 1;
      }
      pipes[i] := pipes[i].(count := pipes[i].count - toRead);
      TakeRemoves(p, toRead);
      r := toRead;
    }

    /** The ring loop of the writer. */
    method StoreByte(i: nat, b: byte)
      requires Valid() && i < MAX_PIPES && pipes[i].count < CAPACITY
      modifies pipes
      ensures Valid() && pipes[..] == old(pipes[..])[i := PutByte(old(pipes[i]), b)]
    {
      PutByteOk(pipes[i], b);
      pipes[i] := pipes[i].(buffer := pipes[i].buffer[pipes[i].head := b]);
      pipes[i] := pipes[i].(head := (pipes[i].head + 1) % CAPACITY);
      pipes[i] := pipes[i].(count := pipes[i].count + 1);
    }

    method PipeVnodeWrite(i: nat, data: seq<byte>) returns (r: int)
      requires Valid() && i < MAX_PIPES
      modifies pipes
      ensures Valid() && r == WriteCount(old(pipes[i]), |data|)
      ensures pipes[..] == old(pipes[..])[i := if r > 0 then Put(old(pipes[i]), data[..r]) else old(pipes[i])]
    {
      hide PutByte, Put, RingOk;
      ghost var p := pipes[i];
      assert pipes[..] == old(pipes[..])[i := p];
      PutNone(p);
      if !pipes[i].inUse { return -1; }
      if !pipes[i].readOpen { return EPIPE; }
      if |data| == 0 { return 0; }
      var written := 0;
      while written < |data|
        invariant 0 <= written <= |data| && p.count + written <= CAPACITY
        invariant pipes[..] == old(pipes[..])[i := Put(p, data[..written])]
      {
        if pipes[i].count >= CAPACITY {
          if !pipes[i].readOpen { return EPIPE; }
          break;
        }
        PutNext(p, data, written);
        StoreByte(i, data[written]);
        written := written + 1;
      }
      r := written;
    }

    method VfsRead(fd: int, size: nat, other: int) returns (r: int, data: seq<byte>)
      requires Valid()
      modifies fds, pipes
      ensures Valid() && (Abs(), r, data) == Read(old(Abs()), fd, size, other)
    {
      if fd < 0 || fd >= MAX_OPEN { return -1, []; }
      if !fds[fd].isOpen { return -1, []; }
      r, data := other, [];
      if fds[fd].node.NoNode? { return; }
      if fds[fd].node.PipeEnd? {
        if fds[fd].node.writeEnd { return -1, []; }
        ghost var i := fds[fd].node.pipe;
        TakeNone(pipes[i]);
        assert old(pipes[..])[i := pipes[i]] == old(pipes[..]);
        r, data := PipeVnodeRead(fds[fd].node.pipe, size);
      }
      if r > 0 {
        fds[fd] := fds[fd].(offset := fds[fd].offset + r);
      }
    }

    method VfsWrite(fd: int, data: seq<byte>, other: int) returns (r: int)
      requires Valid()
      modifies fds, pipes
      ensures Valid() && (Abs(), r) == Write(old(Abs()), fd, data, other)
    {
      if fd < 0 || fd >= MAX_OPEN { return -1; }
      if !fds[fd].isOpen { return -1; }
      r := other;
      if fds[fd].node.NoNode? { return; }
      if fds[fd].node.PipeEnd? {
        if !fds[fd].node.writeEnd { return -1; }
        ghost var i := fds[fd].node.pipe;
        assert old(pipes[..])[i := pipes[i]] == old(pipes[..]);
        r := PipeVnodeWrite(fds[fd].node.pipe, data);
      }
      if r > 0 {
        fds[fd] := fds[fd].(offset := fds[fd].offset + r);
      }
    }
  }

  lemma TakeNone(p: Pipe)
    requires RingOk(p)
    ensures Take(p, 0) == p && p.tail % CAPACITY == p.tail && |Waiting(p)| == p.count
  {
  }

  /** The byte the reader takes next. */
  lemma NextByte(p: Pipe, k: nat)
    requires RingOk(p) && k < p.count
    ensures |p.buffer| == CAPACITY && p.buffer[(p.tail + k) % CAPACITY] == Waiting(p)[k]
    ensures ((p.tail + k) % CAPACITY + 1) % CAPACITY == (p.tail + k + 1) % CAPACITY
  {
  }
}
