/**
 UDP over IPv4 over Ethernet as functions on byte strings (kernel/net/udp.cpp, ipv4.cpp,
 ethernet.cpp): the frame the send side emits and what the receive side makes of a frame.
*/
module Packets {
  import opened Bytes
  import opened Checksum

  const ETHERTYPE_IPV4 := 0x0800
  const ETHERTYPE_ARP := 0x0806
  const PROTO_ICMP := 1
  const PROTO_TCP := 6
  const PROTO_UDP := 17
  const BROADCAST := 0xFFFF_FFFF
  const ETH_HEADER := 14
  const IP_HEADER := 20
  const UDP_HEADER := 8
  const MIN_FRAME := 60

  type u16 = x: int | 0 <= x < U16
  type u32 = x: int | 0 <= x < U32

  /** The parts of InterfaceConfig the packet path uses. */
  datatype Config = Config(mac: seq<byte>, ip: u32, netmask: u32, gateway: u32)

  /** swap16, htons and ntohs (kernel/net/ethernet.hpp:12-24) */
  function Swap16(x: u16): u16 { x % 0x100 * 0x100 + x / 0x100 }

  lemma SwapTwice(x: u16)
    ensures Swap16(Swap16(x)) == x
  {
  }

  /** A 16-bit field in network order: the host's little-endian store of the swapped value. */
  function Net16(x: u16): (s: seq<byte>)
    ensures s == [x / 0x100, x % 0x100]
  {
    PutLe16(Swap16(x))
  }

  function Read16(s: seq<byte>, o: nat): u16
    requires o + 2 <= |s|
  {
    Swap16(Le16(s, o))
  }

  /** The high byte comes first. */
  lemma Read16Is(s: seq<byte>, o: nat)
    requires o + 2 <= |s|
    ensures Read16(s, o) / 0x100 == s[o] && Read16(s, o) % 0x100 == s[o + 1]
  {
    hide Swap16, Le16;
    Le16Is(s, o);
    var x := Le16(s, o);
    SwapIs(x, x % 0x100, x / 0x100);
  }

  lemma SwapIs(x: u16, low: int, high: int)
    requires x == low + 0x100 * high && 0 <= low < 0x100 && 0 <= high < 0x100
    ensures Swap16(x) / 0x100 == low && Swap16(x) % 0x100 == high
  {
    assert x / 0x100 == high && x % 0x100 == low;
    assert Swap16(x) == low * 0x100 + high;
  }

  // ---- sending ----

  function Pad(s: seq<byte>): (r: seq<byte>)
    ensures |r| == Max(|s|, MIN_FRAME) && s <= r
  {
    if |s| < MIN_FRAME then s + Zeros(MIN_FRAME - |s|) else s
  }

  function EthernetFrame(dest: seq<byte>, src: seq<byte>, ethertype: u16, payload: seq<byte>): seq<byte> {
    Pad(dest + src + Net16(ethertype) + payload)
  }

  /** The IPv4 header with its checksum field still zero. */
  function BareIpHeader(cfg: Config, id: u16, proto: byte, dst: u32, n: nat): (h: seq<byte>)
    requires IP_HEADER + n < U16
    ensures |h| == IP_HEADER && h[10] == 0 && h[11] == 0
  {
    [0x45, 0] + Net16(IP_HEADER + n) + Net16(id) + Net16(0x4000) + [64, proto] + [0, 0] + PutLe32(cfg.ip) + PutLe32(dst)
  }

  function IpHeader(cfg: Config, id: u16, proto: byte, dst: u32, n: nat): (h: seq<byte>)
    requires IP_HEADER + n < U16
    ensures |h| == IP_HEADER
  {
    var bare := BareIpHeader(cfg, id, proto, dst, n);
    WithWord(bare, 10, ChecksumOf(bare))
  }

  /** The datagram with its checksum field zero. */
  function BareDatagram(srcPort: u16, dstPort: u16, payload: seq<byte>): (d: seq<byte>)
    requires UDP_HEADER + |payload| < U16
    ensures |d| == UDP_HEADER + |payload| && d[6] == 0 && d[7] == 0
  {
    Net16(srcPort) + Net16(dstPort) + Net16(UDP_HEADER + |payload|) + [0, 0] + payload
  }

  function PseudoHeader(src: u32, dst: u32, n: u16): (h: seq<byte>)
    ensures |h| == 12
  {
    PutLe32(src) + PutLe32(dst) + [0, PROTO_UDP] + Net16(n)
  }

  function UdpChecksum(src: u32, dst: u32, bare: seq<byte>): (c: u16)
    requires |bare| < U16
  {
    var c := ChecksumOf(PseudoHeader(src, dst, |bare|) + bare);
    if c == 0 then ONES else c
  }

  function Datagram(cfg: Config, dst: u32, srcPort: u16, dstPort: u16, payload: seq<byte>): (d: seq<byte>)
    requires UDP_HEADER + |payload| < U16
    ensures |d| == UDP_HEADER + |payload|
  {
    var bare := BareDatagram(srcPort, dstPort, payload);
    WithWord(bare, 6, UdpChecksum(cfg.ip, dst, bare))
  }

  /** `a & b` on unsigned numbers. */
  function And(a: nat, b: nat): (r: nat)
    ensures r <= a
  {
    if a == 0 then 0 else 2 * And(a / 2, b / 2) + a % 2 * (b % 2)
  }

  predicate Bit(a: nat, i: nat) { if i == 0 then a % 2 == 1 else Bit(a / 2, i - 1) }

  /** Where the frame goes first: the destination itself on the local net, the gateway otherwise. */
  function NextHop(cfg: Config, dst: u32): u32 {
    if And(dst, cfg.netmask) != And(cfg.ip, cfg.netmask) then cfg.gateway else dst
  }

  /** The hardware address used, if it can be resolved; `arp` is the table once polling is over. */
  function DestMac(cfg: Config, arp: map<u32, seq<byte>>, dst: u32): Option<seq<byte>> {
    if dst == BROADCAST then Some(seq(6, _ => 0xFF))
    else if NextHop(cfg, dst) in arp then Some(arp[NextHop(cfg, dst)])
    else None
  }

  /** The frame udp_send hands to the network card, if any. */
  function Sent(cfg: Config, arp: map<u32, seq<byte>>, id: u16, dst: u32, srcPort: u16, dstPort: u16,
                payload: seq<byte>): Option<seq<byte>> {
    if |payload| > 1400 || DestMac(cfg, arp, dst).None? then None
    else
      var d := Datagram(cfg, dst, srcPort, dstPort, payload);
      Some(EthernetFrame(DestMac(cfg, arp, dst).value, cfg.mac, ETHERTYPE_IPV4,
                         IpHeader(cfg, id, PROTO_UDP, dst, |d|) + d))
  }

  // ---- receiving ----

  /** What the receive side does with a frame. `Beyond`: a header announces less than itself, and the driver
      goes on to read past the frame; the model stops there. */
  datatype Outcome =
    | Ignored
    | Beyond
    | OtherProtocol(proto: byte)
    | Delivered(handler: nat, srcIp: u32, srcPort: u16, data: seq<byte>)

  datatype Binding = Binding(port: u16, handler: nat, inUse: bool)  // handler 0 is the null pointer

  /** The slot udp_handle_packet uses for a port: the first one in use, or the table size. */
  function FindPort(bindings: seq<Binding>, port: u16, i: nat): (r: nat)
    requires i <= |bindings|
    ensures i <= r <= |bindings| && (r < |bindings| ==> bindings[r].inUse && bindings[r].port == port)
    ensures forall k :: i <= k < r ==> !(bindings[k].inUse && bindings[k].port == port)
    decreases |bindings| - i
  {
    if i == |bindings| || (bindings[i].inUse && bindings[i].port == port) then i else FindPort(bindings, port, i + 1)
  }

  /** The handler bound to a port, 0 for none. */
  function Bound(bindings: seq<Binding>, port: u16): nat {
    var i := FindPort(bindings, port, 0);
    if i < |bindings| then bindings[i].handler else 0
  }

  /** A port is bound at most once, and never to the null handler. */
  predicate PortsDistinct(bindings: seq<Binding>) {
    && (forall i :: 0 <= i < |bindings| && bindings[i].inUse ==> bindings[i].handler != 0)
    && (forall i, j :: 0 <= i < j < |bindings| && bindings[i].inUse && bindings[j].inUse ==>
        bindings[i].port != bindings[j].port)
  }

  /** With distinct ports, the handler of a slot in use is the one bound to its port. */
  lemma BoundAt(bindings: seq<Binding>, i: nat)
    requires PortsDistinct(bindings) && i < |bindings| && bindings[i].inUse
    ensures Bound(bindings, bindings[i].port) == bindings[i].handler
  {
  }

  lemma Unbound(bindings: seq<Binding>, port: u16)
    requires forall i :: 0 <= i < |bindings| && bindings[i].inUse ==> bindings[i].port != port
    ensures Bound(bindings, port) == 0
  {
  }

  /** Changing one slot changes only the binding of its old and its new port. */
  lemma OthersBound(bindings: seq<Binding>, i: nat, b: Binding, port: u16)
    requires i < |bindings| && PortsDistinct(bindings) && PortsDistinct(bindings[i := b])
    requires bindings[i].inUse ==> bindings[i].port != port
    requires b.inUse ==> b.port != port
    ensures Bound(bindings[i := b], port) == Bound(bindings, port)
  {
    var k := FindPort(bindings, port, 0);
    if k < |bindings| {
      assert bindings[i := b][k] == bindings[k];
      BoundAt(bindings[i := b], k);
    } else {
      Unbound(bindings[i := b], port);
    }
  }

  function UdpReceive(bindings: seq<Binding>, srcIp: u32, p: seq<byte>): Outcome {
    if |p| < UDP_HEADER then Ignored
    else
      var n := Read16(p, 4);
      if |p| < n || n < UDP_HEADER then Ignored
      else
        var handler := Bound(bindings, Read16(p, 2));
        if handler != 0 then Delivered(handler, srcIp, Read16(p, 0), p[UDP_HEADER..n]) else Ignored
  }

  function Ipv4Receive(cfg: Config, bindings: seq<Binding>, p: seq<byte>): Outcome {
    if |p| < IP_HEADER then Ignored
    else
      var ver, ihl := p[0] / 16, p[0] % 16 * 4;
      if ver != 4 || ihl < IP_HEADER || |p| < ihl then Ignored
      else
        var total := Read16(p, 2);
        if |p| < total || ChecksumOf(p[..ihl]) != 0 then Ignored
        else
          var dst := Le32(p, 16);
          if dst != cfg.ip && dst != BROADCAST && cfg.ip != 0 then Ignored
          else if p[9] != PROTO_UDP && p[9] != PROTO_ICMP && p[9] != PROTO_TCP then Ignored
          else if total < ihl then Beyond
          else if p[9] == PROTO_UDP then UdpReceive(bindings, Le32(p, 12), p[ihl..total])
          else OtherProtocol(p[9])
  }

  function EthernetReceive(cfg: Config, bindings: seq<Binding>, frame: seq<byte>): Outcome {
    if |frame| < ETH_HEADER then Ignored
    else if Read16(frame, 12) == ETHERTYPE_IPV4 then Ipv4Receive(cfg, bindings, frame[ETH_HEADER..])
    else Ignored  // ARP frames update the ARP table
  }

  // ---- what is handed on lies inside the frame ----

  const SIZE_MAX := 0x1_0000_0000_0000_0000

  /** How many bytes ipv4_handle_packet says follow the header: a difference cut to the width of `size_t`. */
  function Announced(p: seq<byte>): nat
    requires |p| >= IP_HEADER
  {
    (Read16(p, 2) - p[0] % 16 * 4) % SIZE_MAX
  }

  /** The packet passes all of the driver's tests and is for one of the three protocols. */
  predicate Passes(cfg: Config, p: seq<byte>) {
    && |p| >= IP_HEADER && p[0] / 16 == 4 && IP_HEADER <= p[0] % 16 * 4 <= |p| && Read16(p, 2) <= |p|
    && ChecksumOf(p[..p[0] % 16 * 4]) == 0 && (Le32(p, 16) == cfg.ip || Le32(p, 16) == BROADCAST || cfg.ip == 0)
    && (p[9] == PROTO_UDP || p[9] == PROTO_ICMP || p[9] == PROTO_TCP)
  }

  predicate SliceAt(data: seq<byte>, s: seq<byte>, o: nat) {
    o + |data| <= |s| && data == s[o..o + |data|]
  }

  lemma SliceOfSliceAt(data: seq<byte>, s: seq<byte>, o: nat, t: seq<byte>, a: nat)
    requires SliceAt(data, s, o) && SliceAt(s, t, a)
    ensures SliceAt(data, t, a + o)
  {
    assert forall k :: 0 <= k < |data| ==> data[k] == s[o + k] && s[o + k] == t[a + (o + k)];
  }

  /** What is handed on lies inside the packet exactly when the total length is at least that of the header. */
  lemma HandedOnInsideIff(cfg: Config, bindings: seq<Binding>, p: seq<byte>)
    requires Passes(cfg, p) && |p| < SIZE_MAX
    ensures p[0] % 16 * 4 + Announced(p) <= |p| <==> Read16(p, 2) >= p[0] % 16 * 4
    ensures Ipv4Receive(cfg, bindings, p) == Beyond <==> p[0] % 16 * 4 + Announced(p) > |p|
  {
    hide Read16, ChecksumOf, Le32, UdpReceive;
    var total, ihl := Read16(p, 2), p[0] % 16 * 4;
    if total >= ihl {
      assert Announced(p) == total - ihl;
      UdpDeliversInside(bindings, Le32(p, 12), p[ihl..total]);
    } else {
      assert Announced(p) == total - ihl + SIZE_MAX;
    }
  }

  lemma UdpDeliversInside(bindings: seq<Binding>, src: u32, p: seq<byte>)
    ensures UdpReceive(bindings, src, p) != Beyond
    ensures var r := UdpReceive(bindings, src, p); r.Delivered? ==> SliceAt(r.data, p, UDP_HEADER)
  {
  }

  /** Whatever a handler gets is a slice of the frame, whatever the frame holds. */
  lemma DeliveredInside(cfg: Config, bindings: seq<Binding>, frame: seq<byte>)
    ensures var r := EthernetReceive(cfg, bindings, frame); r.Delivered? ==> exists o: nat :: SliceAt(r.data, frame, o)
  {
    hide Read16, ChecksumOf, Le32, UdpReceive;
    var r := EthernetReceive(cfg, bindings, frame);
    if r.Delivered? {
      var p := frame[ETH_HEADER..];
      var total, ihl := Read16(p, 2), p[0] % 16 * 4;
      UdpDeliversInside(bindings, Le32(p, 12), p[ihl..total]);
      SliceOfSliceAt(r.data, p[ihl..total], UDP_HEADER, p, ihl);
      SliceOfSliceAt(r.data, p, ihl + UDP_HEADER, frame, ETH_HEADER);
    }
  }

  /** When a frame gets data to a handler, in terms of the frame's bytes. */
  lemma DeliveredIff(cfg: Config, bindings: seq<Binding>, f: seq<byte>, handler: nat, src: u32, port: u16,
                     data: seq<byte>)
    ensures EthernetReceive(cfg, bindings, f) == Delivered(handler, src, port, data) <==>
            && |f| >= 34 && f[12] == 0x08 && f[13] == 0x00
            && var p := f[14..];
               var ihl, total := p[0] % 16 * 4, Read16(p, 2);
               && p[0] / 16 == 4 && ihl >= 20 && ihl + 8 <= total <= |p| && ChecksumOf(p[..ihl]) == 0
               && (Le32(p, 16) == cfg.ip || Le32(p, 16) == 0xFFFF_FFFF || cfg.ip == 0) && p[9] == 17
               && var n := Read16(p, ihl + 4);
                  && 8 <= n <= total - ihl && handler == Bound(bindings, Read16(p, ihl + 2)) != 0
                  && src == Le32(p, 12) && port == Read16(p, ihl) && data == p[ihl + 8..ihl + n]
  {
    hide ChecksumOf, Bound, Le32, Read16;
    if |f| >= 34 {
      Read16Is(f, 12);
      assert Read16(f, 12) == ETHERTYPE_IPV4 <==> f[12] == 0x08 && f[13] == 0x00;
      var p := f[14..];
      var ihl, total := p[0] % 16 * 4, Read16(p, 2);
      if ihl + 8 <= total <= |p| {
        var q := p[ihl..total];
        FieldsInside(p, ihl, q);
        assert Read16(q, 0) == Read16(p, ihl) && Read16(q, 2) == Read16(p, ihl + 2)
            && Read16(q, 4) == Read16(p, ihl + 4);
        var n := Read16(q, 4);
        if 8 <= n <= |q| {
          SliceOfSlice(p, ihl, total - ihl, 8, n - 8);
        }
      }
    }
  }

  // ---- the round trip ----

  lemma Net16Reads(x: u16, a: seq<byte>, b: seq<byte>)
    ensures Read16(a + Net16(x) + b, |a|) == x
  {
    SwapTwice(x);
    var s := a + Net16(x) + b;
    assert s[|a|] == Net16(x)[0] && s[|a| + 1] == Net16(x)[1];
    assert Le16(s, |a|) == Le16(Net16(x), 0);
  }

  lemma Le32Reads(x: u32, a: seq<byte>, b: seq<byte>)
    ensures Le32(a + PutLe32(x) + b, |a|) == x
  {
    var s := a + PutLe32(x) + b;
    assert s[|a|..|a| + 4] == PutLe32(x);
    assert Le32(s, |a|) == Le32(PutLe32(x), 0);
  }

  /** The header the send side builds is one the receive side accepts, field by field. */
  lemma IpHeaderReads(cfg: Config, id: u16, proto: byte, dst: u32, n: nat)
    requires IP_HEADER + n < U16
    ensures var h := IpHeader(cfg, id, proto, dst, n);
            && h[0] == 0x45 && h[1] == 0 && h[8] == 64 && h[9] == proto
            && Read16(h, 2) == IP_HEADER + n && Read16(h, 4) == id && Read16(h, 6) == 0x4000
            && Le32(h, 12) == cfg.ip && Le32(h, 16) == dst && ChecksumOf(h) == 0
  {
    var bare := BareIpHeader(cfg, id, proto, dst, n);
    var h := IpHeader(cfg, id, proto, dst, n);
    var front := [0x45, 0] + Net16(IP_HEADER + n) + Net16(id) + Net16(0x4000) + [64, proto] + [0, 0];
    Net16Reads(IP_HEADER + n, [0x45, 0], bare[4..]);
    assert bare == [0x45, 0] + Net16(IP_HEADER + n) + bare[4..];
    Le32Reads(cfg.ip, front, PutLe32(dst));
    Le32Reads(dst, front + PutLe32(cfg.ip), []);
    assert bare == front + PutLe32(cfg.ip) + PutLe32(dst) + [];
    Net16Reads(id, [0x45, 0] + Net16(IP_HEADER + n), bare[6..]);
    assert bare == [0x45, 0] + Net16(IP_HEADER + n) + Net16(id) + bare[6..];
    Net16Reads(0x4000, [0x45, 0] + Net16(IP_HEADER + n) + Net16(id), bare[8..]);
    assert bare == [0x45, 0] + Net16(IP_HEADER + n) + Net16(id) + Net16(0x4000) + bare[8..];
    StoredChecksumVerifies(bare, 10);
    FieldsApart(bare, 10, ChecksumOf(bare));
  }

  lemma FieldsApart(s: seq<byte>, k: nat, v: u16)
    requires k + 2 <= |s|
    ensures forall o {:trigger Read16(s, o)} :: 0 <= o && (o + 2 <= k || (k + 2 <= o && o + 2 <= |s|)) ==>
            Read16(WithWord(s, k, v), o) == Read16(s, o)
    ensures forall o {:trigger Le32(s, o)} :: 0 <= o && (o + 4 <= k || (k + 2 <= o && o + 4 <= |s|)) ==>
            Le32(WithWord(s, k, v), o) == Le32(s, o)
    ensures forall o :: 0 <= o < |s| && !(k <= o < k + 2) ==> WithWord(s, k, v)[o] == s[o]
  {
  }

  /** The datagram the send side builds reads back. */
  lemma DatagramReads(cfg: Config, dst: u32, srcPort: u16, dstPort: u16, payload: seq<byte>)
    requires UDP_HEADER + |payload| < U16
    ensures var d := Datagram(cfg, dst, srcPort, dstPort, payload);
            Read16(d, 0) == srcPort && Read16(d, 2) == dstPort && Read16(d, 4) == |d| && d[UDP_HEADER..] == payload
  {
    var bare := BareDatagram(srcPort, dstPort, payload);
    Net16Reads(srcPort, [], bare[2..]);
    assert bare == [] + Net16(srcPort) + bare[2..];
    Net16Reads(dstPort, Net16(srcPort), bare[4..]);
    assert bare == Net16(srcPort) + Net16(dstPort) + bare[4..];
    Net16Reads(UDP_HEADER + |payload|, Net16(srcPort) + Net16(dstPort), bare[6..]);
    assert bare == Net16(srcPort) + Net16(dstPort) + Net16(UDP_HEADER + |payload|) + bare[6..];
    FieldsApart(bare, 6, UdpChecksum(cfg.ip, dst, bare));
  }

  /** The frame udp_send produces, fed to the receive side of the addressed host (or, for a broadcast, of any
      host, or of one without an address yet), reaches the handler bound to the port with exactly the payload,
      source address and source port: the padding of short frames is gone. */
  lemma RoundTrip(cfg: Config, arp: map<u32, seq<byte>>, id: u16, dst: u32, srcPort: u16, dstPort: u16,
                  payload: seq<byte>, peer: Config, bindings: seq<Binding>)
    requires |cfg.mac| == 6 && forall ip :: ip in arp ==> |arp[ip]| == 6
    requires |payload| <= 1400 && DestMac(cfg, arp, dst).Some?
    requires peer.ip == dst || dst == BROADCAST || peer.ip == 0
    ensures Sent(cfg, arp, id, dst, srcPort, dstPort, payload).Some?
    ensures EthernetReceive(peer, bindings, Sent(cfg, arp, id, dst, srcPort, dstPort, payload).value)
            == if Bound(bindings, dstPort) != 0 then Delivered(Bound(bindings, dstPort), cfg.ip, srcPort, payload)
                else Ignored
  {
    hide ChecksumOf, IpHeader, Datagram, Bound, And, EthernetFrame, UdpReceive, Net16, WordSum;
    var mac := DestMac(cfg, arp, dst).value;
    var d := Datagram(cfg, dst, srcPort, dstPort, payload);
    var h := IpHeader(cfg, id, PROTO_UDP, dst, |d|);
    IpHeaderReads(cfg, id, PROTO_UDP, dst, |d|);
    var frame := EthernetFrame(mac, cfg.mac, ETHERTYPE_IPV4, h + d);
    FrameReads(mac, cfg.mac, ETHERTYPE_IPV4, h + d);
    var p := frame[ETH_HEADER..];
    HeaderThenData(h, d, p);
    DatagramReceived(cfg, dst, srcPort, dstPort, payload, bindings);
  }

  lemma FrameReads(dest: seq<byte>, src: seq<byte>, ethertype: u16, payload: seq<byte>)
    requires |dest| == 6 && |src| == 6
    ensures var frame := EthernetFrame(dest, src, ethertype, payload);
            && |frame| == Max(ETH_HEADER + |payload|, MIN_FRAME)
            && frame[..6] == dest && frame[6..12] == src && Read16(frame, 12) == ethertype
            && payload <= frame[ETH_HEADER..] && forall k :: ETH_HEADER + |payload| <= k < |frame| ==> frame[k] == 0
  {
    var frame := EthernetFrame(dest, src, ethertype, payload);
    Net16Reads(ethertype, dest + src, frame[ETH_HEADER..]);
    assert frame == (dest + src) + Net16(ethertype) + frame[ETH_HEADER..];
  }

  /** The destination is on the net of the interface: it agrees with its address wherever the mask has a one. */
  ghost predicate OnLocalNet(cfg: Config, dst: u32) { Agree(dst, cfg.ip, cfg.netmask) }

  ghost predicate Agree(a: nat, b: nat, m: nat) {
    forall i: nat :: Bit(m, i) ==> (Bit(a, i) <==> Bit(b, i))
  }

  lemma LocalIff(cfg: Config, dst: u32)
    ensures NextHop(cfg, dst) == if OnLocalNet(cfg, dst) then dst else cfg.gateway
  {
    SameMaskedIff(dst, cfg.ip, cfg.netmask);
  }

  lemma {:induction false} BitOfAnd(a: nat, b: nat, i: nat)
    ensures Bit(And(a, b), i) <==> Bit(a, i) && Bit(b, i)
  {
    HalfOfAnd(a, b);
    if i > 0 {
      BitOfAnd(a / 2, b / 2, i - 1);
    }
  }

  lemma HalfOfAnd(a: nat, b: nat)
    ensures And(a, b) % 2 == a % 2 * (b % 2) && And(a, b) / 2 == And(a / 2, b / 2)
  {
    if a > 0 {
      Halves(And(a / 2, b / 2), a % 2, b % 2);
    }
  }

  lemma Halves(q: nat, x: nat, y: nat)
    requires x < 2 && y < 2
    ensures (2 * q + x * y) / 2 == q && (2 * q + x * y) % 2 == x * y
  {
    if x == 0 {
      assert x * y == 0;
    } else {
      assert x * y == y;
    }
  }

  lemma {:induction false} SameBits(a: nat, b: nat)
    requires forall i: nat :: Bit(a, i) == Bit(b, i)
    ensures a == b
    decreases a + b
  {
    assert Bit(a, 0) == Bit(b, 0);
    forall i: nat
      ensures Bit(a / 2, i) == Bit(b / 2, i)
    {
      assert Bit(a, i + 1) == Bit(b, i + 1);
    }
    if a + b > 0 {
      SameBits(a / 2, b / 2);
    }
  }

  lemma SameMaskedIff(a: nat, b: nat, m: nat)
    ensures And(a, m) == And(b, m) <==> Agree(a, b, m)
  {
    hide And, Bit;
    forall i: nat
      ensures Bit(And(a, m), i) == (Bit(a, i) && Bit(m, i)) && Bit(And(b, m), i) == (Bit(b, i) && Bit(m, i))
    {
      BitOfAnd(a, m, i);
      BitOfAnd(b, m, i);
    }
    if Agree(a, b, m) {
      SameBits(And(a, m), And(b, m));
    } else {
      var i: nat :| Bit(m, i) && Bit(a, i) != Bit(b, i);
      assert Bit(And(a, m), i) != Bit(And(b, m), i);
    }
  }

  /** Where a datagram goes on the wire: to everybody, to the host on the local net, or else to the gateway, and nowhere
      when that has no hardware address; from this interface in any case. */
  lemma SentTo(cfg: Config, arp: map<u32, seq<byte>>, id: u16, dst: u32, srcPort: u16, dstPort: u16, payload: seq<byte>)
    requires |cfg.mac| == 6 && forall ip :: ip in arp ==> |arp[ip]| == 6
    ensures var sent, hop := Sent(cfg, arp, id, dst, srcPort, dstPort, payload),
                             if OnLocalNet(cfg, dst) then dst else cfg.gateway;
            && (sent.Some? <==> |payload| <= 1400 && (dst == BROADCAST || hop in arp))
            && (sent.Some? ==> |sent.value| >= MIN_FRAME && sent.value[6..12] == cfg.mac
                               && sent.value[..6] == if dst == BROADCAST then [0xFF, 0xFF, 0xFF, 0xFF, 0xFF, 0xFF]
                                                     else arp[hop])
  {
    hide IpHeader, Datagram, OnLocalNet, EthernetFrame, NextHop;
    LocalIff(cfg, dst);
    if |payload| <= 1400 && DestMac(cfg, arp, dst).Some? {
      var d := Datagram(cfg, dst, srcPort, dstPort, payload);
      FrameReads(DestMac(cfg, arp, dst).value, cfg.mac, ETHERTYPE_IPV4, IpHeader(cfg, id, PROTO_UDP, dst, |d|) + d);
    }
  }

  /** A sent frame field by field, at the offsets of Ethernet, IPv4 (RFC 791) and UDP (RFC 768). */
  lemma SentFields(cfg: Config, arp: map<u32, seq<byte>>, id: u16, dst: u32, srcPort: u16, dstPort: u16,
                   payload: seq<byte>)
    requires |cfg.mac| == 6 && forall ip :: ip in arp ==> |arp[ip]| == 6
    requires Sent(cfg, arp, id, dst, srcPort, dstPort, payload).Some?
    ensures var f, n := Sent(cfg, arp, id, dst, srcPort, dstPort, payload).value, |payload|;
            && |f| == Max(42 + n, 60) && Read16(f, 12) == 0x0800
            && f[14] == 0x45 && f[15] == 0 && Read16(f, 16) == 28 + n && Read16(f, 18) == id && Read16(f, 20) == 0x4000
            && f[22] == 64 && f[23] == 17 && Le32(f, 26) == cfg.ip && Le32(f, 30) == dst
            && Read16(f, 34) == srcPort && Read16(f, 36) == dstPort && Read16(f, 38) == 8 + n
            && f[42..42 + n] == payload && forall k :: 42 + n <= k < |f| ==> f[k] == 0
  {
    hide ChecksumOf, IpHeader, Datagram, EthernetFrame, Net16, Read16, Le32;
    var d := Datagram(cfg, dst, srcPort, dstPort, payload);
    var h, mac := IpHeader(cfg, id, PROTO_UDP, dst, |d|), DestMac(cfg, arp, dst).value;
    IpHeaderReads(cfg, id, PROTO_UDP, dst, |d|);
    DatagramReads(cfg, dst, srcPort, dstPort, payload);
    var f := EthernetFrame(mac, cfg.mac, ETHERTYPE_IPV4, h + d);
    FrameReads(mac, cfg.mac, ETHERTYPE_IPV4, h + d);
    FieldsInside(f, ETH_HEADER, h);
    assert (h + d)[IP_HEADER..] == d;
    FieldsInside(f, ETH_HEADER + IP_HEADER, d);
    assert d[UDP_HEADER..] == f[42..42 + |payload|];
  }

  /** The fields of a part are fields of the whole. */
  lemma FieldsInside(f: seq<byte>, at: nat, part: seq<byte>)
    requires at + |part| <= |f| && f[at..at + |part|] == part
    ensures forall o: nat {:trigger Read16(part, o)} :: o + 2 <= |part| ==> Read16(f, at + o) == Read16(part, o)
    ensures forall o: nat {:trigger Le32(part, o)} :: o + 4 <= |part| ==> Le32(f, at + o) == Le32(part, o)
    ensures forall o: nat {:trigger part[o]} :: o < |part| ==> f[at + o] == part[o]
    ensures forall o: nat {:trigger part[o..]} :: o <= |part| ==> f[at + o..at + |part|] == part[o..]
  {
  }

  /** The pseudo-header of RFC 768. */
  lemma PseudoHeaderReads(src: u32, dst: u32, n: u16)
    ensures var h := PseudoHeader(src, dst, n);
            Le32(h, 0) == src && Le32(h, 4) == dst && h[8] == 0 && h[9] == 17 && Read16(h, 10) == n
  {
    hide Net16;
    var h := PseudoHeader(src, dst, n);
    Le32Reads(src, [], h[4..]);
    assert h == [] + PutLe32(src) + h[4..];
    Le32Reads(dst, PutLe32(src), h[8..]);
    assert h == PutLe32(src) + PutLe32(dst) + h[8..];
    Net16Reads(n, h[..10], []);
    assert h == h[..10] + Net16(n) + [];
  }

  lemma HeaderThenData(h: seq<byte>, d: seq<byte>, p: seq<byte>)
    requires |h| == IP_HEADER && h + d <= p
    ensures p[..IP_HEADER] == h && p[IP_HEADER..IP_HEADER + |d|] == d
    ensures p[0] == h[0] && p[9] == h[9] && Read16(p, 2) == Read16(h, 2) && Le32(p, 12) == Le32(h, 12)
            && Le32(p, 16) == Le32(h, 16)
  {
    var hd := h + d;
    assert p[..|hd|] == hd && hd[..IP_HEADER] == h && hd[IP_HEADER..] == d;
    SliceOfSlice(p, 0, |hd|, IP_HEADER, |d|);
    SliceOfSlice(p, 0, |hd|, 0, IP_HEADER);
    assert forall k :: 0 <= k < IP_HEADER ==> p[..IP_HEADER][k] == h[k];
  }

  lemma DatagramReceived(cfg: Config, dst: u32, srcPort: u16, dstPort: u16, payload: seq<byte>, bindings: seq<Binding>)
    requires UDP_HEADER + |payload| < U16
    ensures UdpReceive(bindings, cfg.ip, Datagram(cfg, dst, srcPort, dstPort, payload))
            == if Bound(bindings, dstPort) != 0 then Delivered(Bound(bindings, dstPort), cfg.ip, srcPort, payload)
                else Ignored
  {
    hide Datagram, Bound;
    DatagramReads(cfg, dst, srcPort, dstPort, payload);
  }

  /** The UDP checksum verifies as RFC 768 asks: pseudo-header and datagram together check to 0. */
  lemma UdpChecksumVerifies(cfg: Config, dst: u32, srcPort: u16, dstPort: u16, payload: seq<byte>)
    requires UDP_HEADER + |payload| < U16
    ensures var d := Datagram(cfg, dst, srcPort, dstPort, payload);
            ChecksumOf(PseudoHeader(cfg.ip, dst, |d|) + d) == 0
  {
    var bare := BareDatagram(srcPort, dstPort, payload);
    var ph := PseudoHeader(cfg.ip, dst, |bare|);
    var c := ChecksumOf(ph + bare);
    assert ph + WithWord(bare, 6, UdpChecksum(cfg.ip, dst, bare)) == WithWord(ph + bare, 18,
        UdpChecksum(cfg.ip, dst, bare));
    if c == 0 {
      WordSumBound(ph + bare);
      OnesForZeroIff(ph + bare, 18);
    } else {
      StoredChecksumVerifies(ph + bare, 18);
    }
  }

  /** Where the checksum is 0, storing all ones instead verifies as well, unless the accumulator is at its maximum. */
  lemma OnesForZeroIff(s: seq<byte>, k: nat)
    requires k % 2 == 0 && k + 2 <= |s| && Le16(s, k) == 0 && ChecksumOf(s) == 0
    ensures ChecksumOf(WithWord(s, k, ONES)) == 0 <==> WordSum(s) % U32 != U32 - 1
  {
    hide WordSum, WithWord, Fold;
    WordSumStore(s, k, ONES);
    var t := WordSum(s) % U32;
    ModShift(WordSum(s), ONES);
    FoldIsOnes(t);
    OnesMore(t);
    FoldIsOnes((t + ONES) % U32);
  }

  /** Adding 65535 to a multiple of it gives a multiple again, unless it wraps. */
  lemma OnesMore(t: nat)
    requires t < U32 && t % ONES == 0
    ensures ((t + ONES) % U32) % ONES == 0 <==> t != U32 - 1
    ensures (t + ONES) % U32 > 0
  {
    var q := t / ONES;
    assert t == ONES * q && q <= 65537;
    if q == 65537 {
      assert t == U32 - 1 && (t + ONES) % U32 == ONES - 1;
    } else {
      assert (t + ONES) % U32 == ONES * (q + 1);
    }
  }
}
