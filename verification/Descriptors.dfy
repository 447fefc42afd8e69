/**
 The descriptor table and the pipes behind it (kernel/fs/vfs.cpp:331-605,
 kernel/fs/pipe.cpp:121-177) as functions on values.
*/
module Descriptors {
  import opened Bytes
  import opened Pipes

  const MAX_OPEN := 64
  const MAX_PIPES := 16
  const EBADF := -9
  const EINVAL := -22
  const EMFILE := -24
  const O_WRONLY: bv32 := 0x0001
  const O_APPEND: bv32 := 0x0400
  const O_NONBLOCK: bv32 := 0x0800
  const O_CLOEXEC: bv32 := 0x8_0000
  const F_DUPFD := 0
  const F_GETFD := 1
  const F_SETFD := 2
  const F_GETFL := 3
  const F_SETFL := 4

  /** What a descriptor points at; the console streams have no node. */
  datatype Node = NoNode | PipeEnd(pipe: nat, writeEnd: bool) | OtherNode(id: nat)

  datatype Fd = Fd(node: Node, offset: nat, flags: bv32, isOpen: bool)

  const CLOSED := Fd(NoNode, 0, 0, false)

  datatype State = State(fds: seq<Fd>, pipes: seq<Pipe>)

  /** The tables have their sizes, descriptors name existing pipe slots, and every ring is in order. */
  predicate Rings(s: State) {
    && |s.fds| == MAX_OPEN && |s.pipes| == MAX_PIPES
    && (forall i :: 0 <= i < |s.pipes| ==> RingOk(s.pipes[i]))
    && forall i :: 0 <= i < |s.fds| && s.fds[i].node.PipeEnd? ==> s.fds[i].node.pipe < MAX_PIPES
  }

  predicate IsOpen(s: State, fd: int)
    requires |s.fds| == MAX_OPEN
  {
    0 <= fd < MAX_OPEN && s.fds[fd].isOpen
  }

  /** The first closed descriptor from `i` on, or the table size. */
  function FirstClosed(fds: seq<Fd>, i: nat): (r: nat)
    requires i <= |fds|
    ensures i <= r <= |fds| && (r < |fds| ==> !fds[r].isOpen)
    ensures forall k :: i <= k < r ==> fds[k].isOpen
    decreases |fds| - i
  {
    if i == |fds| || !fds[i].isOpen then i else FirstClosed(fds, i + 1)
  }

  function AllocFd(s: State, node: Node, flags: bv32): (r: (State, int))
    requires Rings(s) && (node.PipeEnd? ==> node.pipe < MAX_PIPES)
    ensures Rings(r.0)
  {
    var i: int := FirstClosed(s.fds, 3);
    if i == MAX_OPEN then (s, -1) else (s.(fds := s.fds[i := Fd(node, 0, flags, true)]), i)
  }

  /** The side of the pipe a descriptor is accounted to: decided by its flags, not by its node. */
  predicate WriteFlag(flags: bv32) { flags & O_WRONLY != 0 }

  function Close(s: State, fd: int): (r: (State, int))
    requires Rings(s)
    ensures Rings(r.0)
  {
    if !IsOpen(s, fd) then (s, -1)
    else
      var f := s.fds[fd];
      var pipes := if f.node.PipeEnd? then s.pipes[f.node.pipe := CloseEnd(s.pipes[f.node.pipe], WriteFlag(f.flags))]
          else s.pipes;
      (State(s.fds[fd := CLOSED], pipes), 0)
  }

  /** A descriptor copied into slot `to`, with the reference it adds. */
  function CopyTo(s: State, from: nat, to: nat): (r: State)
    requires Rings(s) && from < MAX_OPEN && to < MAX_OPEN
    ensures Rings(r)
  {
    var f := s.fds[from];
    var pipes :=
      if f.node.PipeEnd? then
        var p := s.pipes[f.node.pipe];
        s.pipes[f.node.pipe := if WriteFlag(f.flags)
                then p.(refWrite := p.refWrite + 1) else p.(refRead := p.refRead + 1)]
      else s.pipes;
    State(s.fds[to := f], pipes)
  }

  function Dup(s: State, fd: int): (r: (State, int))
    requires Rings(s)
    ensures Rings(r.0)
  {
    if !IsOpen(s, fd) then (s, EBADF)
    else
      var i := FirstClosed(s.fds, 0);
      if i == MAX_OPEN then (s, EMFILE) else (CopyTo(s, fd, i), i)
  }

  function Dup2(s: State, fd: int, to: int): (r: (State, int))
    requires Rings(s)
    ensures Rings(r.0)
  {
    if !IsOpen(s, fd) || !(0 <= to < MAX_OPEN) then (s, EBADF)
    else if fd == to then (s, to)
    else (CopyTo(if s.fds[to].isOpen then Close(s, to).0 else s, fd, to), to)
  }

  /** static_cast<int> of the low half of the fcntl argument. */
  function AsInt32(arg: bv32): int {
    if arg < 0x8000_0000 then arg as int else arg as int - 0x1_0000_0000
  }

  /** F_SETFD */
  function FdFlags(flags: bv32, arg: bv32): bv32 {
    if arg & 1 != 0 then flags | O_CLOEXEC else flags & !O_CLOEXEC
  }

  /** F_SETFL */
  function StatusFlags(flags: bv32, arg: bv32): bv32 {
    (flags & !(O_NONBLOCK | O_APPEND)) | (arg & (O_NONBLOCK | O_APPEND))
  }

  function WithFlags(s: State, fd: nat, flags: bv32): (r: State)
    requires Rings(s) && fd < MAX_OPEN
    ensures Rings(r)
  {
    s.(fds := s.fds[fd := s.fds[fd].(flags := flags)])
  }

  function Fcntl(s: State, fd: int, cmd: int, arg: bv32): (r: (State, int))
    requires Rings(s)
    ensures Rings(r.0)
  {
    if !IsOpen(s, fd) then (s, EBADF)
    else
      var flags := s.fds[fd].flags;
      if cmd == F_DUPFD then
        var start := AsInt32(arg);
        if !(0 <= start < MAX_OPEN) then (s, EINVAL)
        else
          var i := FirstClosed(s.fds, start);
          if i == MAX_OPEN then (s, EMFILE) else Dup2(s, fd, i)
      else if cmd == F_GETFD then (s, if flags & O_CLOEXEC != 0 then 1 else 0)
      else if cmd == F_SETFD then (WithFlags(s, fd, FdFlags(flags, arg)), 0)
      else if cmd == F_GETFL then (s, AsInt32(flags))
      else if cmd == F_SETFL then (WithFlags(s, fd, StatusFlags(flags, arg)), 0)
      else (s, EINVAL)
  }

  /** The first pipe slot from `i` on that is not in use, or the table size. */
  function FreePipe(pipes: seq<Pipe>, i: nat): (r: nat)
    requires i <= |pipes|
    ensures i <= r <= |pipes| && (r < |pipes| ==> !pipes[r].inUse)
    ensures forall k :: i <= k < r ==> pipes[k].inUse
    decreases |pipes| - i
  {
    if i == |pipes| || !pipes[i].inUse then i else FreePipe(pipes, i + 1)
  }

  function Opened(p: Pipe): Pipe {
    Pipe(p.buffer, 0, 0, 0, true, true, 1, 1, true)
  }

  function Dropped(s: State, i: nat): (r: State)
    requires Rings(s) && i < MAX_PIPES
    ensures Rings(r)
  {
    s.(pipes := s.pipes[i := s.pipes[i].(inUse := false)])
  }

  /** pipe_create: the two descriptors, or EMFILE with everything undone. */
  function CreatePipe(s: State, flags: bv32): (r: (State, int, int, int))
    requires Rings(s)
    ensures Rings(r.0)
  {
    var i := FreePipe(s.pipes, 0);
    if i == MAX_PIPES then (s, EMFILE, -1, -1)
    else
      var s1 := s.(pipes := s.pipes[i := Opened(s.pipes[i])]);
      var (s2, rfd) := AllocFd(s1, PipeEnd(i, false), flags);
      if rfd < 0 then (Dropped(s2, i), EMFILE, -1, -1)
      else
        var (s3, wfd) := AllocFd(s2, PipeEnd(i, true), O_WRONLY | flags);
        if wfd < 0 then (Dropped(Close(s3, rfd).0, i), EMFILE, -1, -1)
        else (s3, 0, rfd, wfd)
  }

  /** vfs_read of `size` bytes; `other` is what a node that is not a pipe would return. */
  function Read(s: State, fd: int, size: nat, other: int): (r: (State, int, seq<byte>))
    requires Rings(s)
    ensures Rings(r.0)
  {
    if !IsOpen(s, fd) then (s, -1, [])
    else
      match s.fds[fd].node
      case NoNode => (s, other, [])
      case OtherNode(_) => (Moved(s, fd, other), other, [])
      case PipeEnd(p, w) =>
        if w then (s, -1, [])
        else
          var n := ReadCount(s.pipes[p], size);
          if n <= 0 then (s, n, [])
          else (Moved(s.(pipes := s.pipes[p := Take(s.pipes[p], n)]), fd, n), n, Waiting(s.pipes[p])[..n])
  }

  function Moved(s: State, fd: nat, n: int): (r: State)
    requires Rings(s) && fd < MAX_OPEN
    ensures Rings(r)
  {
    if n > 0 then s.(fds := s.fds[fd := s.fds[fd].(offset := s.fds[fd].offset + n)]) else s
  }

  /** vfs_write of `data`; `other` is what a node that is not a pipe would return. */
  function Write(s: State, fd: int, data: seq<byte>, other: int): (r: (State, int))
    requires Rings(s)
    ensures Rings(r.0)
  {
    if !IsOpen(s, fd) then (s, -1)
    else
      match s.fds[fd].node
      case NoNode => (s, other)
      case OtherNode(_) => (Moved(s, fd, other), other)
      case PipeEnd(p, w) =>
        if !w then (s, -1)
        else
          var n := WriteCount(s.pipes[p], |data|);
          if n <= 0 then (s, n)
          else (Moved(s.(pipes := s.pipes[p := Put(s.pipes[p], data[..n])]), fd, n), n)
  }
}
