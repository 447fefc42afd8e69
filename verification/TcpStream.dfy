/** The receive side of a TCP socket (kernel/net/tcp.cpp:140-162, 217-221): segments are appended to a 4096-byte buffer,
    reads take from its front. */
module TcpStream {
  import opened Bytes
  import opened Memory

  const RX_SIZE := 4096

  class Endpoint {
    const rxBuffer: array<byte>
    var rxLen: nat
    var inUse: bool

    ghost predicate Valid()
      reads this
    {
      rxBuffer.Length == RX_SIZE && rxLen <= RX_SIZE
    }

    /** The bytes waiting to be read. */
    ghost function Waiting(): seq<byte>
      requires Valid()
      reads this, rxBuffer
    {
      rxBuffer[..rxLen]
    }

    constructor ()
      ensures Valid() && inUse && Waiting() == [] && fresh(rxBuffer)
    {
      rxBuffer := new byte[RX_SIZE](_ => 0);
      rxLen := 0;
      inUse := true;
    }

    /** Copies out what fits and moves the rest to the front: a forward copy onto itself. */
    method Recv(outBuf: array<byte>, maxLen: nat) returns (r: int)
      requires Valid() && outBuf != rxBuffer && maxLen <= outBuf.Length
      modifies this, rxBuffer, outBuf
      ensures Valid() && inUse == old(inUse)
      ensures !inUse ==> r == -1 && Waiting() == old(Waiting()) && outBuf[..] == old(outBuf[..])
      ensures inUse ==> r == Min(old(rxLen), maxLen) && old(Waiting()) == outBuf[..r] + Waiting()
      ensures inUse ==> r <= outBuf.Length && outBuf[r..] == old(outBuf[r..])
    {
      hide Splice;
      if !inUse { return -1; }
      if rxLen == 0 { return 0; }
      var copyLen := if rxLen < maxLen then rxLen else maxLen;
      ghost var was, out := rxBuffer[..], outBuf[..];
      Memcpy(outBuf, 0, rxBuffer, 0, copyLen);
      CopiedOut(out, was, copyLen);
      if copyLen < rxLen {
        var remaining := rxLen - copyLen;
        Memcpy(rxBuffer, 0, rxBuffer, copyLen, remaining);
        MovedDown(was, copyLen, rxLen);
        rxLen := remaining;
      } else {
        rxLen := 0;
      }
      r := copyLen;
    }

    /** A segment's payload is appended if all of it fits, and dropped otherwise. */
    method Deliver(data: array<byte>, dataLen: nat)
      requires Valid() && inUse && data != rxBuffer && dataLen <= data.Length
      modifies this, rxBuffer
      ensures Valid() && inUse
      ensures Waiting() == if old(rxLen) + dataLen <= RX_SIZE then old(Waiting()) + old(data[..dataLen])
              else old(Waiting())
    {
      hide Splice;
      if dataLen > 0 {
        if rxLen + dataLen <= RX_SIZE {
          ghost var was := rxBuffer[..];
          Memcpy(rxBuffer, rxLen, data, 0, dataLen);
          Appended(was, rxLen, data[0..dataLen]);
          rxLen := rxLen + dataLen;
        }
      }
    }
  }

  lemma CopiedOut(out: seq<byte>, was: seq<byte>, n: nat)
    requires n <= |out| && n <= |was|
    ensures Splice(out, 0, was[0..n])[..n] == was[..n] && Splice(out, 0, was[0..n])[n..] == out[n..]
  {
  }

  lemma MovedDown(was: seq<byte>, n: nat, len: nat)
    requires n < len <= |was|
    ensures was[..len] == was[..n] + Splice(was, 0, was[n..n + (len - n)])[..len - n]
  {
  }

  lemma Appended(was: seq<byte>, n: nat, x: seq<byte>)
    requires n + |x| <= |was|
    ensures Splice(was, n, x)[..n + |x|] == was[..n] + x
  {
  }

  // ---- runs of one open socket ----

  datatype Event = Segment(data: seq<byte>) | Read(maxLen: nat)

  /** The bytes waiting, those accepted so far and those returned so far. */
  datatype State = State(waiting: seq<byte>, accepted: seq<byte>, returned: seq<byte>)

  function Step(s: State, e: Event): State {
    match e
    case Segment(data) =>
      if |s.waiting| + |data| <= RX_SIZE then State(s.waiting + data, s.accepted + data, s.returned) else s
    case Read(n) =>
      var k := Min(|s.waiting|, n);
      State(s.waiting[k..], s.accepted, s.returned + s.waiting[..k])
  }

  function Run(events: seq<Event>): State {
    if events == [] then State([], [], []) else Step(Run(events[..|events| - 1]), events[|events| - 1])
  }

  /** One call of the class is one step, and its result is what the step returns. */
  method Perform(ep: Endpoint, e: Event, ghost s: State) returns (got: seq<byte>)
    requires ep.Valid() && ep.inUse && ep.Waiting() == s.waiting
    modifies ep, ep.rxBuffer
    ensures ep.Valid() && ep.inUse && ep.Waiting() == Step(s, e).waiting
    ensures Step(s, e).returned == s.returned + got
  {
    hide Splice;
    got := [];
    match e
    case Segment(data) =>
      var payload := new byte[|data|](i requires 0 <= i < |data| => data[i]);
      assert payload[..|data|] == data;
      ep.Deliver(payload, |data|);
      assert s.returned + [] == s.returned;
    case Read(n) =>
      var out := new byte[n](_ => 0);
      var r := ep.Recv(out, n);
      got := out[..r];
      assert s.waiting[..r] == got && s.waiting[r..] == ep.Waiting();
  }

  /** What was returned followed by what waits is what was accepted: reads return a prefix of it, in order, and lose
      nothing. */
  lemma {:induction false} Stream(events: seq<Event>)
    ensures Run(events).accepted == Run(events).returned + Run(events).waiting
    ensures Run(events).returned <= Run(events).accepted && |Run(events).waiting| <= RX_SIZE
  {
    if events != [] {
      var before := Run(events[..|events| - 1]);
      Stream(events[..|events| - 1]);
      match events[|events| - 1]
      case Segment(data) =>
        assert (before.returned + before.waiting) + data == before.returned + (before.waiting + data);
      case Read(n) =>
        var k := Min(|before.waiting|, n);
        assert before.waiting == before.waiting[..k] + before.waiting[k..];
        assert before.returned + (before.waiting[..k] + before.waiting[k..]) == (before.returned + before.waiting[..k])
            + before.waiting[k..];
    }
  }

  /** The payloads of a run that were accepted, in arrival order. */
  function Fitting(events: seq<Event>): seq<seq<byte>> {
    if events == [] then []
    else
      var rest := events[..|events| - 1];
      var e := events[|events| - 1];
      if e.Segment? && |Run(rest).waiting| + |e.data| <= RX_SIZE then Fitting(rest) + [e.data] else Fitting(rest)
  }

  function Concat(xs: seq<seq<byte>>): seq<byte> {
    if xs == [] then [] else Concat(xs[..|xs| - 1]) + xs[|xs| - 1]
  }

  /** What reads return is a prefix of the payloads that fitted, one after the other. */
  lemma {:induction false} ReturnedIsPrefix(events: seq<Event>)
    ensures Run(events).accepted == Concat(Fitting(events)) && Run(events).returned <= Concat(Fitting(events))
  {
    Stream(events);
    if events != [] {
      var rest := events[..|events| - 1];
      ReturnedIsPrefix(rest);
      var e := events[|events| - 1];
      if e.Segment? && |Run(rest).waiting| + |e.data| <= RX_SIZE {
        var xs := Fitting(events);
        assert xs[..|xs| - 1] == Fitting(rest) && xs[|xs| - 1] == e.data;
      }
    }
  }
}
