/** The packet code of the kernel, building frames in place and taking them apart, proved against `Packets`. */
module Network {
  import opened Bytes
  import opened Checksum
  import opened Packets

  const MAX_BINDINGS := 32

  /** memcpy into a buffer that does not overlap its source. */
  method CopyInto(buffer: array<byte>, off: nat, src: seq<byte>)
    requires off + |src| <= buffer.Length
    modifies buffer
    ensures buffer[..off + |src|] == old(buffer[..off]) + src
    ensures buffer[..] == Splice(old(buffer[..]), off, src)
  {
    var i := 0;
    while i < |src|
      invariant 0 <= i <= |src|
      invariant forall k :: 0 <= k < buffer.Length ==> buffer[k] == if off <= k < off + i then src[k - off]
                else old(buffer[k])
    {
      buffer[off + i] := src[i];
      i := i + 1;
    }
  }

  lemma SplicePrefix(s: seq<byte>, n: nat, o: nat, x: seq<byte>)
    requires o + |x| <= n <= |s|
    ensures Splice(s, o, x)[..n] == Splice(s[..n], o, x)
  {
  }

  class Net {
    const cfg: Config
    const bindings: array<Binding>
    var packetId: nat

    ghost predicate Valid()
      reads this, bindings
    {
      && bindings.Length == MAX_BINDINGS && packetId < U16 && |cfg.mac| == 6
      && PortsDistinct(bindings[..])
    }

    /** udp_init */
    constructor (cfg: Config)
      requires |cfg.mac| == 6
      ensures Valid() && fresh(bindings) && this.cfg == cfg && packetId == 1
      ensures forall port :: Bound(bindings[..], port) == 0
    {
      this.cfg := cfg;
      bindings := new Binding[MAX_BINDINGS](_ => Binding(0, 0, false));
      packetId := 1;
    }

    method EthernetSend(destMac: seq<byte>, ethertype: u16, payload: seq<byte>) returns (frame: Option<seq<byte>>)
      requires Valid() && |destMac| == 6
      ensures frame == if payload == [] || |payload| > 1500 then None
              else Some(EthernetFrame(destMac, cfg.mac, ethertype, payload))
    {
      if |payload| == 0 || |payload| > 1500 { return None; }
      var buffer := new byte[1514];
      CopyInto(buffer, 0, destMac);
      CopyInto(buffer, 6, cfg.mac);
      CopyInto(buffer, 12, Net16(ethertype));
      CopyInto(buffer, ETH_HEADER, payload);
      var total := ETH_HEADER + |payload|;
      ghost var bare := destMac + cfg.mac + Net16(ethertype) + payload;
      assert buffer[..0] + destMac == destMac;
      assert buffer[..total] == bare;
      if total < MIN_FRAME {
        CopyInto(buffer, total, Zeros(MIN_FRAME - total));
        total := MIN_FRAME;
      }
      frame := Some(buffer[..total]);
    }

    /** `arp` is the ARP table at the end of the polling loop. */
    method Ipv4Send(arp: map<u32, seq<byte>>, dst: u32, proto: byte, payload: seq<byte>)
        returns (frame: Option<seq<byte>>)
      requires Valid() && forall ip :: ip in arp ==> |arp[ip]| == 6
      modifies this`packetId
      ensures Valid()
      ensures payload == [] || |payload| > 1480 || DestMac(cfg, arp, dst).None? ==> frame == None
                                                                                    && packetId == old(packetId)
      ensures payload != [] && |payload| <= 1480 && DestMac(cfg, arp, dst).Some? ==>
                packetId == (old(packetId) + 1) % U16
                && frame == Some(EthernetFrame(DestMac(cfg, arp, dst).value, cfg.mac, ETHERTYPE_IPV4,
                                               IpHeader(cfg, old(packetId), proto, dst, |payload|) + payload))
    {
      hide Splice, EthernetFrame, IpHeader;
      if |payload| == 0 || |payload| > 1480 { return None; }
      var mac: seq<byte>;
      if dst == BROADCAST {
        mac := seq(6, _ => 0xFF);
      } else {
        var nextHop := dst;
        if And(dst, cfg.netmask) != And(cfg.ip, cfg.netmask) { nextHop := cfg.gateway; }
        if nextHop !in arp { return None; }
        mac := arp[nextHop];
      }
      var packet := new byte[1500];
      var id := packetId;
      packetId := (packetId + 1) % U16;
      WriteIpHeader(packet, id, proto, dst, |payload|);
      CopyInto(packet, IP_HEADER, payload);
      frame := EthernetSend(mac, ETHERTYPE_IPV4, packet[..IP_HEADER + |payload|]);
    }

    method WriteIpHeader(packet: array<byte>, id: u16, proto: byte, dst: u32, n: nat)
      requires packet.Length == 1500 && n <= 1480
      modifies packet
      ensures packet[..IP_HEADER] == IpHeader(cfg, id, proto, dst, n)
    {
      hide Splice, Net16, ChecksumOf;
      packet[0], packet[1] := 0x45, 0;
      assert packet[..2] == [0x45, 0];
      CopyInto(packet, 2, Net16(IP_HEADER + n));
      CopyInto(packet, 4, Net16(id));
      CopyInto(packet, 6, Net16(0x4000));
      CopyInto(packet, 8, [64, proto]);
      CopyInto(packet, 10, [0, 0]);
      CopyInto(packet, 12, PutLe32(cfg.ip));
      CopyInto(packet, 16, PutLe32(dst));
      ghost var bare, whole := BareIpHeader(cfg, id, proto, dst, n), packet[..];
      assert packet[..IP_HEADER] == bare;
      var sum := Ipv4Checksum(packet[..IP_HEADER]);
      CopyInto(packet, 10, PutLe16(sum));
      SplicePrefix(whole, IP_HEADER, 10, PutLe16(sum));
      assert whole[..IP_HEADER] == bare && packet[..][..IP_HEADER] == packet[..IP_HEADER];
    }

    /** The datagram with a zero checksum field. */
    method WriteDatagram(packet: array<byte>, srcPort: u16, dstPort: u16, payload: seq<byte>)
      requires packet.Length == 1500 && |payload| <= 1400
      modifies packet
      ensures packet[..UDP_HEADER + |payload|] == BareDatagram(srcPort, dstPort, payload)
    {
      hide Splice, Net16;
      CopyInto(packet, 0, Net16(srcPort));
      assert packet[..2] == Net16(srcPort);
      CopyInto(packet, 2, Net16(dstPort));
      CopyInto(packet, 4, Net16(UDP_HEADER + |payload|));
      CopyInto(packet, 6, [0, 0]);
      CopyInto(packet, UDP_HEADER, payload);
    }

    method PseudoChecksum(dst: u32, datagram: seq<byte>) returns (sum: u16)
      requires |datagram| <= 1408
      ensures sum == UdpChecksum(cfg.ip, dst, datagram)
    {
      hide Splice, Net16, ChecksumOf;
      var pseudo := new byte[1500];
      CopyInto(pseudo, 0, PutLe32(cfg.ip));
      assert pseudo[..4] == PutLe32(cfg.ip);
      CopyInto(pseudo, 4, PutLe32(dst));
      CopyInto(pseudo, 8, [0, PROTO_UDP]);
      CopyInto(pseudo, 10, Net16(|datagram|));
      CopyInto(pseudo, 12, datagram);
      sum := Ipv4Checksum(pseudo[..12 + |datagram|]);
      if sum == 0 { sum := 0xFFFF; }
    }

    method UdpSend(arp: map<u32, seq<byte>>, dst: u32, srcPort: u16, dstPort: u16, payload: seq<byte>)
        returns (frame: Option<seq<byte>>)
      requires Valid() && forall ip :: ip in arp ==> |arp[ip]| == 6
      modifies this`packetId
      ensures Valid()
      ensures frame == Sent(cfg, arp, old(packetId), dst, srcPort, dstPort, payload)
      ensures packetId == if frame.Some? then (old(packetId) + 1) % U16 else old(packetId)
    {
      hide Splice, EthernetFrame, UdpChecksum, BareDatagram, IpHeader, DestMac;
      if |payload| > 1400 { return None; }
      var packet := new byte[1500];
      var n := UDP_HEADER + |payload|;
      WriteDatagram(packet, srcPort, dstPort, payload);
      ghost var whole := packet[..];
      assert whole[..n] == packet[..n];
      var sum := PseudoChecksum(dst, packet[..n]);
      CopyInto(packet, 6, PutLe16(sum));
      SplicePrefix(whole, n, 6, PutLe16(sum));
      assert packet[..][..n] == packet[..n];
      frame := Ipv4Send(arp, dst, PROTO_UDP, packet[..n]);
    }

    method UdpBind(port: u16, handler: nat) returns (ok: bool)
      requires Valid()
      modifies bindings
      ensures Valid()
      ensures ok <==>
                && handler != 0 && port != 0
                && (Bound(old(bindings[..]), port) != 0 || exists i :: 0 <= i < MAX_BINDINGS && !old(bindings[i]).inUse)
      ensures forall q :: Bound(bindings[..], q) == if ok && q == port then handler else Bound(old(bindings[..]), q)
    {
      if handler == 0 || port == 0 { return false; }
      ghost var was := bindings[..];
      var i := 0;
      while i < MAX_BINDINGS
        invariant 0 <= i <= MAX_BINDINGS && bindings[..] == was
        invariant forall k :: 0 <= k < i && was[k].inUse ==> was[k].port != port
      {
        if bindings[i].inUse && bindings[i].port == port {
          BoundAt(was, i);
          bindings[i] := bindings[i].(handler := handler);
          OneChanged(was, i, bindings[i], port);
          return true;
        }
        i := i + 1;
      }
      Unbound(was, port);
      i := 0;
      while i < MAX_BINDINGS
        invariant 0 <= i <= MAX_BINDINGS && bindings[..] == was
        invariant forall k :: 0 <= k < i ==> was[k].inUse
      {
        if !bindings[i].inUse {
          bindings[i] := Binding(port, handler, true);
          OneChanged(was, i, bindings[i], port);
          return true;
        }
        i := i + 1;
      }
      ok := false;
    }

    method UdpUnbind(port: u16)
      requires Valid()
      modifies bindings
      ensures Valid()
      ensures forall q :: Bound(bindings[..], q) == if q == port then 0 else Bound(old(bindings[..]), q)
    {
      ghost var was := bindings[..];
      var i := 0;
      while i < MAX_BINDINGS
        invariant 0 <= i <= MAX_BINDINGS && bindings[..] == was
        invariant forall k :: 0 <= k < i && was[k].inUse ==> was[k].port != port
      {
        if bindings[i].inUse && bindings[i].port == port {
          bindings[i] := bindings[i].(inUse := false, handler := 0);
          OneChanged(was, i, bindings[i], port);
          return;
        }
        i := i + 1;
      }
      Unbound(was, port);
    }

    method UdpHandlePacket(srcIp: u32, p: seq<byte>) returns (r: Outcome)
      requires Valid()
      ensures r == UdpReceive(bindings[..], srcIp, p)
    {
      if |p| < UDP_HEADER { return Ignored; }
      var dstPort, srcPort, n := Swap16(Le16(p, 2)), Swap16(Le16(p, 0)), Swap16(Le16(p, 4));
      if |p| < n || n < UDP_HEADER { return Ignored; }
      var i := 0;
      while i < MAX_BINDINGS
        invariant 0 <= i <= MAX_BINDINGS
        invariant forall k :: 0 <= k < i && bindings[k].inUse ==> bindings[k].port != dstPort
      {
        if bindings[i].inUse && bindings[i].port == dstPort {
          BoundAt(bindings[..], i);
          if bindings[i].handler != 0 {
            return Delivered(bindings[i].handler, srcIp, srcPort, p[UDP_HEADER..n]);
          }
          return Ignored;
        }
        i := i + 1;
      }
      Unbound(bindings[..], dstPort);
      r := Ignored;
    }

    method Ipv4HandlePacket(p: seq<byte>) returns (r: Outcome)
      requires Valid()
      ensures r == Ipv4Receive(cfg, bindings[..], p)
    {
      if |p| < IP_HEADER { return Ignored; }
      var ver, ihl := p[0] / 16, p[0] % 16 * 4;
      if ver != 4 || ihl < IP_HEADER || |p| < ihl { return Ignored; }
      var total := Swap16(Le16(p, 2));
      if |p| < total { return Ignored; }
      var sum := Ipv4Checksum(p[..ihl]);
      if sum != 0 { return Ignored; }
      if Le32(p, 16) != cfg.ip && Le32(p, 16) != BROADCAST && cfg.ip != 0 { return Ignored; }
      if p[9] == PROTO_ICMP {
        return if total < ihl then Beyond else OtherProtocol(p[9]);
      }
      if p[9] == PROTO_UDP {
        if total < ihl { return Beyond; }
        r := UdpHandlePacket(Le32(p, 12), p[ihl..total]);
        return;
      }
      if p[9] == PROTO_TCP {
        return if total < ihl then Beyond else OtherProtocol(p[9]);
      }
      r := Ignored;
    }

    method EthernetHandlePacket(frame: seq<byte>) returns (r: Outcome)
      requires Valid()
      ensures r == EthernetReceive(cfg, bindings[..], frame)
    {
      if |frame| < ETH_HEADER { return Ignored; }
      var ethertype := Swap16(Le16(frame, 12));
      if ethertype == ETHERTYPE_ARP { return Ignored; }
      if ethertype == ETHERTYPE_IPV4 {
        r := Ipv4HandlePacket(frame[ETH_HEADER..]);
        return;
      }
      r := Ignored;
    }
  }

  /** A slot that gains or loses the binding of one port leaves every other port alone. */
  lemma OneChanged(bindings: seq<Binding>, i: nat, b: Binding, port: u16)
    requires i < |bindings| && PortsDistinct(bindings)
    requires bindings[i].inUse ==> bindings[i].port == port
    requires b.inUse ==> b.port == port && b.handler != 0
    requires b.inUse ==> forall k :: 0 <= k < |bindings| && k != i && bindings[k].inUse ==> bindings[k].port != port
    requires !b.inUse ==> bindings[i].inUse
    ensures PortsDistinct(bindings[i := b])
    ensures forall q :: Bound(bindings[i := b], q) == if q != port then Bound(bindings, q)
            else if b.inUse then b.handler else 0
  {
    forall q: u16
      ensures Bound(bindings[i := b], q) == if q != port then Bound(bindings, q) else if b.inUse then b.handler else 0
    {
      if q != port {
        OthersBound(bindings, i, b, q);
      } else if b.inUse {
        BoundAt(bindings[i := b], i);
      } else {
        Unbound(bindings[i := b], port);
      }
    }
  }
}
