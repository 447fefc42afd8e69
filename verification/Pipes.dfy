/** One pipe channel (kernel/fs/pipe.cpp:13-88): a ring buffer with counted ends. */
module Pipes {
  import opened Bytes

  const CAPACITY := 4096
  const EAGAIN := -11
  const EPIPE := -32

  datatype Pipe = Pipe(
    buffer: seq<byte>, head: nat, tail: nat, count: nat,
    readOpen: bool, writeOpen: bool, refRead: nat, refWrite: nat, inUse: bool)

  /** The ring is in order: head is `count` places after tail. */
  predicate RingOk(p: Pipe) {
    |p.buffer| == CAPACITY && p.tail < CAPACITY && p.count <= CAPACITY && p.head == (p.tail + p.count) % CAPACITY
  }

  /** The bytes waiting in the pipe, oldest first. */
  function Waiting(p: Pipe): (w: seq<byte>)
    requires RingOk(p)
    ensures |w| == p.count
  {
    seq(p.count, i requires 0 <= i < p.count => p.buffer[(p.tail + i) % CAPACITY])
  }

  function PutByte(p: Pipe, b: byte): Pipe
    requires RingOk(p)
  {
    p.(buffer := p.buffer[p.head := b], head := (p.head + 1) % CAPACITY, count := p.count + 1)
  }

  lemma PutByteOk(p: Pipe, b: byte)
    requires RingOk(p) && p.count < CAPACITY
    ensures RingOk(PutByte(p, b))
  {
  }

  function Put(p: Pipe, data: seq<byte>): (q: Pipe)
    requires RingOk(p) && p.count + |data| <= CAPACITY
    ensures RingOk(q) && q.count == p.count + |data|
    ensures q == p.(buffer := q.buffer, head := q.head, count := q.count)
    decreases |data|
  {
    if data == [] then p
    else
      var q := Put(p, data[..|data| - 1]);
      PutByteOk(q, data[|data| - 1]);
      PutByte(q, data[|data| - 1])
  }

  lemma PutNone(p: Pipe)
    requires RingOk(p)
    ensures Put(p, []) == p && p.count <= CAPACITY
  {
  }

  lemma PutNext(p: Pipe, data: seq<byte>, n: nat)
    requires RingOk(p) && n < |data| && p.count + n < CAPACITY
    ensures Put(p, data[..n + 1]) == PutByte(Put(p, data[..n]), data[n])
  {
    hide RingOk, PutByte;
    assert data[..n + 1][..n] == data[..n];
  }

  /** Writing appends. */
  lemma {:induction false} PutAppends(p: Pipe, data: seq<byte>)
    requires RingOk(p) && p.count + |data| <= CAPACITY
    ensures Waiting(Put(p, data)) == Waiting(p) + data
    decreases |data|
  {
    if data != [] {
      var front := data[..|data| - 1];
      PutAppends(p, front);
      PutByteAppends(Put(p, front), data[|data| - 1]);
      assert front + [data[|data| - 1]] == data;
      assert Waiting(p) + front + [data[|data| - 1]] == Waiting(p) + data;
    }
  }

  lemma PutByteAppends(p: Pipe, b: byte)
    requires RingOk(p) && p.count < CAPACITY
    ensures RingOk(PutByte(p, b)) && Waiting(PutByte(p, b)) == Waiting(p) + [b]
  {
    var q := PutByte(p, b);
    forall i | 0 <= i < p.count
      ensures Waiting(q)[i] == Waiting(p)[i]
    {
      RingApart(p.tail, p.count, i);
    }
  }

  lemma RingApart(t: nat, n: nat, i: nat)
    requires t < CAPACITY && i < n < CAPACITY
    ensures (t + i) % CAPACITY != (t + n) % CAPACITY
  {
    assert (t + i) % CAPACITY == if t + i < CAPACITY then t + i else t + i - CAPACITY;
    assert (t + n) % CAPACITY == if t + n < CAPACITY then t + n else t + n - CAPACITY;
  }

  /** Taking `n` bytes advances the tail; the loop of the reader moves the tail step by step and then drops the
      count. */
  function Take(p: Pipe, n: nat): (q: Pipe)
    requires RingOk(p) && n <= p.count
    ensures RingOk(q)
  {
    RingIndex(p.tail, n, p.count - n);
    p.(tail := (p.tail + n) % CAPACITY, count := p.count - n)
  }

  /** Reading removes from the front. */
  lemma TakeRemoves(p: Pipe, n: nat)
    requires RingOk(p) && n <= p.count
    ensures RingOk(Take(p, n)) && Waiting(p) == Waiting(p)[..n] + Waiting(Take(p, n))
  {
    var q := Take(p, n);
    forall i: nat | i < q.count
      ensures Waiting(q)[i] == Waiting(p)[n + i]
    {
      RingIndex(p.tail, n, i);
    }
    assert Waiting(p) == Waiting(p)[..n] + Waiting(p)[n..];
    assert Waiting(q) == Waiting(p)[n..];
  }

  lemma RingIndex(t: nat, n: nat, i: nat)
    requires t < CAPACITY && n + i <= CAPACITY
    ensures ((t + n) % CAPACITY + i) % CAPACITY == (t + (n + i)) % CAPACITY
  {
    if t + n < CAPACITY {
      assert (t + n) % CAPACITY == t + n;
    } else {
      assert (t + n) % CAPACITY == t + n - CAPACITY;
    }
  }

  /** pipe_vnode_close */
  function CloseEnd(p: Pipe, isWrite: bool): Pipe {
    if !p.inUse then p
    else
      var q := if isWrite then
                 var r := if p.refWrite > 0 then p.refWrite - 1 else p.refWrite;
                 p.(refWrite := r, writeOpen := p.writeOpen && r != 0)
               else
                 var r := if p.refRead > 0 then p.refRead - 1 else p.refRead;
                 p.(refRead := r, readOpen := p.readOpen && r != 0);
      if q.refRead == 0 && q.refWrite == 0 then q.(inUse := false, count := 0, head := 0, tail := 0) else q
  }

  /** What pipe_vnode_read returns: a negative code, or how many bytes it delivers. */
  function ReadCount(p: Pipe, size: nat): int {
    if !p.inUse then -1
    else if p.count == 0 then (if p.writeOpen then EAGAIN else 0)
    else Min(size, p.count)
  }

  /** What pipe_vnode_write returns: a negative code, or how many bytes it accepts. */
  function WriteCount(p: Pipe, size: nat): int {
    if !p.inUse then -1
    else if !p.readOpen then EPIPE
    else if p.count <= CAPACITY then Min(size, CAPACITY - p.count) else 0
  }
}
