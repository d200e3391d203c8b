/** The data path told by packet bytes: packets written field by field, as RFC 791, RFC 9293 and RFC 768
    lay them out, and what `anlf_xdp_main` and `anlf_tc_egress` (bpf/anlf.c) make of every one of
    their fields. Nothing here is said through the functions that read packets. */
module PacketBytes {
  import opened Gtpu
  import opened Wrappers
  import opened PacketPath
  import Bitmap

  // ---------------------------------------------------------------- packets written field by field

  /** An IPv4 header; `middle` is service type to time to live, bytes 1 to 8. */
  datatype IpFields = IpFields(middle: seq<byte>, checksum: seq<byte>, src: Ip, dst: Ip, options: seq<byte>)

  ghost predicate ValidIp(f: IpFields) {
    |f.middle| == 8 && |f.checksum| == 2 && |f.options| % 4 == 0 && |f.options| <= 40
  }

  ghost function IpBytes(f: IpFields, proto: byte): seq<byte>
    requires ValidIp(f)
  {
    [0x40 + 5 + |f.options| / 4] + f.middle + [proto] + f.checksum
    + [f.src.a, f.src.b, f.src.c, f.src.d, f.dst.a, f.dst.b, f.dst.c, f.dst.d] + f.options
  }

  datatype Flags = Flags(cwr: bool, ece: bool, urg: bool, ack: bool, psh: bool, rst: bool, syn: bool, fin: bool)

  function FlagByte(g: Flags): byte {
    32 * ((if g.cwr then 4 else 0) + (if g.ece then 2 else 0) + (if g.urg then 1 else 0))
    + (if g.ack then 16 else 0) + (if g.psh then 8 else 0) + (if g.rst then 4 else 0) + (if g.syn then 2 else 0)
    + (if g.fin then 1 else 0)
  }

  /** A TCP header; `numbers` is sequence and acknowledgement, `rest` window, checksum, urgent pointer. */
  datatype TcpFields = TcpFields(
    srcPort: nat, dstPort: nat, numbers: seq<byte>, reserved: byte, flags: Flags, rest: seq<byte>, options: seq<byte>)

  ghost predicate ValidTcp(t: TcpFields) {
    && t.srcPort < 0x1_0000 && t.dstPort < 0x1_0000 && |t.numbers| == 8 && t.reserved < 16 && |t.rest| == 6
    && |t.options| % 4 == 0 && |t.options| <= 40
  }

  ghost function TcpBytes(t: TcpFields): seq<byte>
    requires ValidTcp(t)
  {
    [t.srcPort / 256, t.srcPort % 256, t.dstPort / 256, t.dstPort % 256] + t.numbers
    + [16 * (5 + |t.options| / 4) + t.reserved, FlagByte(t.flags)] + t.rest + t.options
  }

  ghost function UdpBytes(srcPort: nat, dstPort: nat, rest: seq<byte>): seq<byte>
    requires srcPort < 0x1_0000 && dstPort < 0x1_0000
  {
    [srcPort / 256, srcPort % 256, dstPort / 256, dstPort % 256] + rest
  }

  ghost function TcpPacket(f: IpFields, t: TcpFields, payload: seq<byte>): seq<byte>
    requires ValidIp(f) && ValidTcp(t)
  {
    IpBytes(f, 6) + (TcpBytes(t) + payload)
  }

  ghost function UdpPacket(f: IpFields, srcPort: nat, dstPort: nat, rest: seq<byte>, payload: seq<byte>): seq<byte>
    requires ValidIp(f) && srcPort < 0x1_0000 && dstPort < 0x1_0000
  {
    IpBytes(f, 17) + (UdpBytes(srcPort, dstPort, rest) + payload)
  }

  // ---------------------------------------------------------------- reading them back

  lemma IpBytesAt(f: IpFields, proto: byte, body: seq<byte>)
    requires ValidIp(f)
    ensures var pkt := IpBytes(f, proto) + body;
            && |pkt| == 20 + |f.options| + |body| && pkt[0] / 16 == 4 && pkt[0] % 16 * 4 == 20 + |f.options|
            && pkt[9] == proto && IpAt(pkt, 12) == f.src && IpAt(pkt, 16) == f.dst
            && pkt[20 + |f.options|..] == body && pkt[20..] == f.options + body
  {
    var pkt := IpBytes(f, proto) + body;
    assert pkt[0] == 0x40 + 5 + |f.options| / 4;
    assert pkt[20..] == f.options + body;
  }

  lemma HighBitsApart(high: nat, low: nat)
    requires low < 32
    ensures (32 * high + low) / 2 % 2 == low / 2 % 2
    ensures (32 * high + low) / 4 % 2 == low / 4 % 2
    ensures (32 * high + low) / 16 % 2 == low / 16 % 2
  {
    EvenApart(8 * high, low / 2);
    EvenApart(4 * high, low / 4);
    EvenApart(high, low / 16);
    assert (32 * high + low) / 2 == 2 * (8 * high) + low / 2;
    assert (32 * high + low) / 4 == 2 * (4 * high) + low / 4;
    assert (32 * high + low) / 16 == 2 * high + low / 16;
  }

  lemma EvenApart(a: nat, b: nat)
    ensures (2 * a + b) % 2 == b % 2
  {
  }

  lemma LowBits(ack: bool, psh: bool, rst: bool, syn: bool, fin: bool)
    ensures var low := (if ack then 16 else 0) + (if psh then 8 else 0) + (if rst then 4 else 0)
                       + (if syn then 2 else 0) + (if fin then 1 else 0);
            low < 32 && (low / 2 % 2 == 1 <==> syn) && (low / 4 % 2 == 1 <==> rst) && (low / 16 % 2 == 1 <==> ack)
  {
  }

  lemma FlagByteBits(g: Flags)
    ensures (FlagByte(g) / 2 % 2 == 1 <==> g.syn) && (FlagByte(g) / 4 % 2 == 1 <==> g.rst)
    ensures FlagByte(g) / 16 % 2 == 1 <==> g.ack
  {
    var low := (if g.ack then 16 else 0) + (if g.psh then 8 else 0) + (if g.rst then 4 else 0)
               + (if g.syn then 2 else 0) + (if g.fin then 1 else 0);
    var high := (if g.cwr then 4 else 0) + (if g.ece then 2 else 0) + (if g.urg then 1 else 0);
    assert FlagByte(g) == 32 * high + low;
    hide FlagByte;
    LowBits(g.ack, g.psh, g.rst, g.syn, g.fin);
    HighBitsApart(high, low);
  }

  lemma TcpBytesAt(t: TcpFields, payload: seq<byte>)
    requires ValidTcp(t)
    ensures var h := TcpBytes(t) + payload;
            && |h| >= 20 && Be16(h[0], h[1]) == t.srcPort && Be16(h[2], h[3]) == t.dstPort
            && h[13] == FlagByte(t.flags) && TcpPayload(h) == payload
  {
    var h := TcpBytes(t) + payload;
    hide FlagByte, Be16;
    assert h[0] == t.srcPort / 256 && h[1] == t.srcPort % 256 && h[2] == t.dstPort / 256 && h[3] == t.dstPort % 256;
    PortBytes(t.srcPort);
    PortBytes(t.dstPort);
    assert |TcpBytes(t)| == 20 + |t.options|;
    assert h[20 + |t.options|..] == payload;
    assert h[12] == 16 * (5 + |t.options| / 4) + t.reserved;
    OffsetNibble(|t.options|, t.reserved);
    hide TcpBytes;
  }

  lemma PortBytes(port: nat)
    requires port < 0x1_0000
    ensures Be16(port / 256, port % 256) == port
  {
  }

  lemma OffsetNibble(options: nat, reserved: nat)
    requires options % 4 == 0 && options <= 40 && reserved < 16
    ensures (16 * (5 + options / 4) + reserved) / 16 * 4 == 20 + options
  {
  }

  /** An uplink TCP packet is read as the fields it was written from. */
  lemma TcpRoundTrip(f: IpFields, t: TcpFields, payload: seq<byte>)
    requires ValidIp(f) && ValidTcp(t) && f.src.a == 10 && f.src.b == 60
    ensures var pkt := TcpPacket(f, t, payload);
            SeenIngress(pkt)
            == Some(Seen(f.src, f.dst, 6, |pkt|, true, FlagByte(t.flags), t.srcPort, t.dstPort, payload))
  {
    var pkt := TcpPacket(f, t, payload);
    IpBytesAt(f, 6, TcpBytes(t) + payload);
    TcpBytesAt(t, payload);
    SourceIsNotType(pkt);
    hide IpBytes, TcpBytes, TcpPayload, FlagByte, IpAt, Be16;
    assert pkt[L4Start(pkt)..] == TcpBytes(t) + payload;
  }

  /** A source in 10.60/16 keeps a packet from being taken for an Ethernet frame with IPv4 in it. */
  lemma SourceIsNotType(pkt: seq<byte>)
    requires |pkt| >= 20 && IpAt(pkt, 12).a == 10 && IpAt(pkt, 12).b == 60
    ensures !LooksEthernet(pkt) && SeenIngress(pkt) == SeenInner(pkt)
  {
  }

  /** An uplink UDP packet without IP options likewise. */
  lemma UdpRoundTrip(f: IpFields, srcPort: nat, dstPort: nat, rest: seq<byte>, payload: seq<byte>)
    requires ValidIp(f) && f.options == [] && f.src.a == 10 && f.src.b == 60
    requires srcPort < 0x1_0000 && dstPort < 0x1_0000 && |rest| == 4
    ensures var pkt := UdpPacket(f, srcPort, dstPort, rest, payload);
            SeenIngress(pkt) == Some(Seen(f.src, f.dst, 17, |pkt|, true, 0, srcPort, dstPort, []))
  {
    var pkt := UdpPacket(f, srcPort, dstPort, rest, payload);
    IpBytesAt(f, 17, UdpBytes(srcPort, dstPort, rest) + payload);
    SourceIsNotType(pkt);
    hide IpBytes, IpAt;
    assert pkt[L4Start(pkt)..] == UdpBytes(srcPort, dstPort, rest) + payload;
  }

  /** With IP options the ports of a UDP packet are read from the options: unlike for TCP, the header
      length field is not honoured. */
  lemma UdpBehindOptionsIsMisread(f: IpFields, srcPort: nat, dstPort: nat, rest: seq<byte>, payload: seq<byte>)
    requires ValidIp(f) && f.options != [] && f.src.a == 10 && f.src.b == 60
    requires srcPort < 0x1_0000 && dstPort < 0x1_0000 && |rest| == 4
    ensures var o, opts := SeenIngress(UdpPacket(f, srcPort, dstPort, rest, payload)), f.options;
            && o.Some? && |opts| >= 4
            && o.value.srcPort == Be16(opts[0], opts[1]) && o.value.dstPort == Be16(opts[2], opts[3])
  {
    var pkt := UdpPacket(f, srcPort, dstPort, rest, payload);
    IpBytesAt(f, 17, UdpBytes(srcPort, dstPort, rest) + payload);
    SourceIsNotType(pkt);
    hide IpBytes, IpAt, Be16;
    var h := pkt[L4Start(pkt)..];
    assert h[0] == f.options[0] && h[1] == f.options[1] && h[2] == f.options[2] && h[3] == f.options[3];
  }

  // ---------------------------------------------------------------- what an uplink packet counts as

  /** The counters of a UE before a packet: its entry, or nothing. */
  function Before(m: Maps, ip: Ip): Metrics {
    if ip in m.ue then m.ue[ip] else Metrics(0, 0, 0, 0, 0, 0, 0, 0, 0, 0, 0, 0, 0)
  }

  /** The bucket of an address. */
  function DstBit(ip: Ip): Bitmap.bucket {
    ((Bits(ip.a) ^ Bits(ip.b) ^ Bits(ip.c) ^ Bits(ip.d)) & 0x3F) as bv64
  }

  /** What any packet adds to the counters of its UE. */
  lemma UplinkEntry(m: Maps, u: Seen)
    requires u.src in m.ue || |m.ue| < 10240
    ensures var v := Before(m, u.src);
            var isNew := u.l4 && (u.proto == 17 || (u.proto == 6 && u.flags / 2 % 2 == 1)) && FlowOf(u) !in m.flows;
            Uplink(m, u).ue
            == m.ue[u.src := Metrics(
                 v.packets + 1, v.bytes + u.len, v.tcp + (if u.proto == 6 then 1 else 0),
                 v.udp + (if u.proto == 17 then 1 else 0), v.icmp + (if u.proto == 1 then 1 else 0),
                 v.syn + (if u.proto == 6 && u.flags / 2 % 2 == 1 then 1 else 0),
                 v.rst + (if u.proto == 6 && u.flags / 4 % 2 == 1 then 1 else 0),
                 v.newFlows + (if isNew then 1 else 0), v.bitmap | (1 << DstBit(u.dst)),
                 v.dlPackets, v.dlBytes, v.dlTcp, v.dlAck)]
  {
    NewFlowByFields(m.flows, u);
    CountByFields(Before(m, u.src), u, IsNewFlow(m.flows, u));
    EntryReplaced(m, u);
    hide *;
  }

  lemma NewFlowByFields(flows: map<FlowKey, byte>, u: Seen)
    ensures IsNewFlow(flows, u) <==>
            u.l4 && (u.proto == 17 || (u.proto == 6 && u.flags / 2 % 2 == 1)) && FlowOf(u) !in flows
  {
  }

  lemma CountByFields(v: Metrics, u: Seen, isNew: bool)
    ensures Count(v, u, isNew)
         == Metrics(v.packets + 1, v.bytes + u.len, v.tcp + (if u.proto == 6 then 1 else 0),
                    v.udp + (if u.proto == 17 then 1 else 0), v.icmp + (if u.proto == 1 then 1 else 0),
                    v.syn + (if u.proto == 6 && u.flags / 2 % 2 == 1 then 1 else 0),
                    v.rst + (if u.proto == 6 && u.flags / 4 % 2 == 1 then 1 else 0),
                    v.newFlows + (if isNew then 1 else 0), v.bitmap | (1 << DstBit(u.dst)),
                    v.dlPackets, v.dlBytes, v.dlTcp, v.dlAck)
  {
    MarkedByBytes(v.bitmap, u.dst);
    assert Syn(u.flags) <==> u.flags / 2 % 2 == 1;
    assert Rst(u.flags) <==> u.flags / 4 % 2 == 1;
    hide Syn, Rst, Bucket, Bitmap.With, DstBit;
  }

  lemma MarkedByBytes(bitmap: bv64, dst: Ip)
    ensures Bitmap.With(bitmap, Bucket(dst)) == bitmap | (1 << DstBit(dst))
  {
    BucketOfBytes(dst);
    hide Bucket, Bits;
  }

  lemma EntryReplaced(m: Maps, u: Seen)
    requires u.src in m.ue || |m.ue| < 10240
    ensures Uplink(m, u).ue == m.ue[u.src := Count(Before(m, u.src), u, IsNewFlow(m.flows, u))]
  {
    hide Count, IsNewFlow, FlowsAfter, TlsAfter, EventsAfter, Added, HasPort, InLab, Bucket;
  }

  lemma UplinkIfSome(m: Maps, o: Option<Seen>, u: Seen)
    requires o == Some(u)
    ensures UplinkIf(m, o) == Uplink(m, u) && FlowOf(u) == FlowKey(u.src, u.dst, u.srcPort, u.dstPort, u.proto)
    ensures Uplink(m, u).tls == TlsAfter(m.tls, u) && Uplink(m, u).events == EventsAfter(m.events, m.tls, u)
  {
    hide Count, TlsAfter, EventsAfter, FlowsAfter, Added, InLab, HasPort, Bucket;
  }

  /** When the map is full, a UE without an entry gets none, and nobody else's changes. */
  lemma FullMapRefuses(m: Maps, u: Seen)
    requires u.src !in m.ue && |m.ue| >= 10240
    ensures Uplink(m, u).ue == m.ue
  {
    hide Count, FlowsAfter, TlsAfter, EventsAfter, Added, HasPort, InLab, Bucket;
  }

  /** An uplink TCP packet in the counters of its UE: one packet, all its bytes, TCP; SYN and RST if their
      flags are set; a new flow if it has SYN and its five-tuple is not tracked; the bit of its
      destination. Nothing on the downlink side. */
  lemma TcpCounters(m: Maps, f: IpFields, t: TcpFields, payload: seq<byte>)
    requires ValidIp(f) && ValidTcp(t) && f.src.a == 10 && f.src.b == 60 && (f.src in m.ue || |m.ue| < 10240)
    ensures var pkt, v := TcpPacket(f, t, payload), Before(m, f.src);
            var isNew := t.flags.syn && FlowKey(f.src, f.dst, t.srcPort, t.dstPort, 6) !in m.flows;
            UplinkIf(m, SeenIngress(pkt)).ue
            == m.ue[f.src := Metrics(
                 v.packets + 1, v.bytes + |pkt|, v.tcp + 1, v.udp, v.icmp,
                 v.syn + (if t.flags.syn then 1 else 0), v.rst + (if t.flags.rst then 1 else 0),
                 v.newFlows + (if isNew then 1 else 0), v.bitmap | (1 << DstBit(f.dst)),
                 v.dlPackets, v.dlBytes, v.dlTcp, v.dlAck)]
  {
    hide *;
    TcpRoundTrip(f, t, payload);
    var o := SeenIngress(TcpPacket(f, t, payload));
    UplinkIfSome(m, o, o.value);
    FlagByteBits(t.flags);
    UplinkEntry(m, o.value);
  }

  /** The flow map after it. */
  lemma TcpFlows(m: Maps, f: IpFields, t: TcpFields, payload: seq<byte>)
    requires ValidIp(f) && ValidTcp(t) && f.src.a == 10 && f.src.b == 60
    ensures var k := FlowKey(f.src, f.dst, t.srcPort, t.dstPort, 6);
            UplinkIf(m, SeenIngress(TcpPacket(f, t, payload))).flows
            == if t.flags.syn && k !in m.flows then m.flows[k := 1] else m.flows
  {
    TcpRoundTrip(f, t, payload);
    FlagByteBits(t.flags);
    hide SeenIngress, TcpPacket, FlagByte, Count, TlsAfter, EventsAfter, Added, HasPort, InLab, Bucket, ValidIp, ValidTcp;
  }

  /** TLS: on port 443 a first payload byte of 0x16 on a flow not yet captured is sent to userspace with
      the first ten payload bytes, zero-padded, and marks the flow captured; any other packet there
      marks an unknown flow seen. */
  lemma TcpTls(m: Maps, f: IpFields, t: TcpFields, payload: seq<byte>)
    requires ValidIp(f) && ValidTcp(t) && f.src.a == 10 && f.src.b == 60
    ensures var k := FlowKey(f.src, f.dst, t.srcPort, t.dstPort, 6);
            var after := UplinkIf(m, SeenIngress(TcpPacket(f, t, payload)));
            var hello := t.dstPort == 443 && payload != [] && payload[0] == 0x16 && !(k in m.tls && m.tls[k] / 2 % 2 == 1);
            && (hello ==> Reported(m.events, after.events, k, payload) && Marked(m.tls, after.tls, k))
            && (!hello ==> after.events == m.events && after.tls == if t.dstPort == 443 && k !in m.tls then m.tls[k := 1] else m.tls)
  {
    hide *;
    TcpRoundTrip(f, t, payload);
    var o := SeenIngress(TcpPacket(f, t, payload));
    UplinkIfSome(m, o, o.value);
    TlsStep(m, o.value, FlowOf(o.value));
  }

  /** One more event, for this flow and payload. */
  ghost predicate Reported(was: seq<TlsEvent>, now: seq<TlsEvent>, k: FlowKey, payload: seq<byte>) {
    && |now| == |was| + 1 && now[..|was|] == was
    && var e := now[|was|];
       && e.src == k.src && e.dst == k.dst && e.srcPort == k.srcPort && e.dstPort == k.dstPort
       && e.payloadLen == (if |payload| > 10 then 10 else |payload|) && |e.payload| == 10
       && forall i | 0 <= i < 10 :: e.payload[i] == if i < |payload| then payload[i] else 0
  }

  /** The two low bits of the flow's state are set; its other bits and all other flows are as before. */
  ghost predicate Marked(was: map<FlowKey, byte>, now: map<FlowKey, byte>, k: FlowKey) {
    && k in now && now == was[k := now[k]] && now[k] % 4 == 3
    && now[k] / 4 == if k in was then was[k] / 4 else 0
  }

  lemma TlsStep(m: Maps, u: Seen, k: FlowKey)
    requires u.l4 && u.proto == 6 && k == FlowOf(u)
    ensures var hello := u.dstPort == 443 && u.payload != [] && u.payload[0] == 0x16 && !(k in m.tls && m.tls[k] / 2 % 2 == 1);
            && (hello ==> Reported(m.events, EventsAfter(m.events, m.tls, u), k, u.payload) && Marked(m.tls, TlsAfter(m.tls, u), k))
            && (!hello ==> EventsAfter(m.events, m.tls, u) == m.events
                           && TlsAfter(m.tls, u) == if u.dstPort == 443 && k !in m.tls then m.tls[k := 1] else m.tls)
  {
  }

  lemma UplinkStats(m: Maps, u: Seen)
    requires InLab(u.dst) ==> (u.dst in m.ips || |m.ips| < 65536)
    requires InLab(u.dst) ==> (u.dst.(d := 0) in m.subnets || |m.subnets| < 256)
    requires u.dstPort in m.ports || |m.ports| < 65536
    ensures var after, lab := Uplink(m, u), u.dst.a == 10 && u.dst.b == 201;
            var net := Ip(u.dst.a, u.dst.b, u.dst.c, 0);
            && after.ips == (if lab then m.ips[u.dst := (if u.dst in m.ips then m.ips[u.dst] else 0) + u.len] else m.ips)
            && after.subnets == (if lab then m.subnets[net := (if net in m.subnets then m.subnets[net] else 0) + u.len] else m.subnets)
            && after.ports == (if lab && (u.proto == 6 || u.proto == 17) && u.dstPort > 0
                               then m.ports[u.dstPort := (if u.dstPort in m.ports then m.ports[u.dstPort] else 0) + u.len]
                               else m.ports)
  {
    hide Count, FlowsAfter, TlsAfter, EventsAfter, Bucket;
  }

  /** The byte maps: only for destinations in 10.201/16, by address, by /24, and by port when there is
      one. Their capacities are 65536, 256 and 65536 keys. */
  lemma TcpStats(m: Maps, f: IpFields, t: TcpFields, payload: seq<byte>)
    requires ValidIp(f) && ValidTcp(t) && f.src.a == 10 && f.src.b == 60
    requires |m.ips| < 65536 && |m.subnets| < 256 && |m.ports| < 65536
    ensures var pkt := TcpPacket(f, t, payload);
            var after, lab := UplinkIf(m, SeenIngress(pkt)), f.dst.a == 10 && f.dst.b == 201;
            var net := Ip(10, 201, f.dst.c, 0);
            && after.ips == (if lab then m.ips[f.dst := (if f.dst in m.ips then m.ips[f.dst] else 0) + |pkt|] else m.ips)
            && after.subnets == (if lab then m.subnets[net := (if net in m.subnets then m.subnets[net] else 0) + |pkt|] else m.subnets)
            && after.ports == (if lab && t.dstPort > 0
                               then m.ports[t.dstPort := (if t.dstPort in m.ports then m.ports[t.dstPort] else 0) + |pkt|]
                               else m.ports)
  {
    hide *;
    TcpRoundTrip(f, t, payload);
    var o := SeenIngress(TcpPacket(f, t, payload));
    UplinkIfSome(m, o, o.value);
    UplinkStats(m, o.value);
  }

  /** An uplink UDP packet: one packet, all its bytes, UDP; a new flow if its five-tuple is not tracked. */
  lemma UdpCounters(m: Maps, f: IpFields, srcPort: nat, dstPort: nat, rest: seq<byte>, payload: seq<byte>)
    requires ValidIp(f) && f.options == [] && f.src.a == 10 && f.src.b == 60 && (f.src in m.ue || |m.ue| < 10240)
    requires srcPort < 0x1_0000 && dstPort < 0x1_0000 && |rest| == 4
    ensures var pkt, v := UdpPacket(f, srcPort, dstPort, rest, payload), Before(m, f.src);
            var isNew := FlowKey(f.src, f.dst, srcPort, dstPort, 17) !in m.flows;
            UplinkIf(m, SeenIngress(pkt)).ue
            == m.ue[f.src := Metrics(
                 v.packets + 1, v.bytes + |pkt|, v.tcp, v.udp + 1, v.icmp, v.syn, v.rst,
                 v.newFlows + (if isNew then 1 else 0), v.bitmap | (1 << DstBit(f.dst)),
                 v.dlPackets, v.dlBytes, v.dlTcp, v.dlAck)]
  {
    hide *;
    UdpRoundTrip(f, srcPort, dstPort, rest, payload);
    var o := SeenIngress(UdpPacket(f, srcPort, dstPort, rest, payload));
    UplinkIfSome(m, o, o.value);
    UplinkEntry(m, o.value);
  }

  /** Its five-tuple is tracked from then on; TLS is not looked for. */
  lemma UdpFlows(m: Maps, f: IpFields, srcPort: nat, dstPort: nat, rest: seq<byte>, payload: seq<byte>)
    requires ValidIp(f) && f.options == [] && f.src.a == 10 && f.src.b == 60
    requires srcPort < 0x1_0000 && dstPort < 0x1_0000 && |rest| == 4
    ensures var k := FlowKey(f.src, f.dst, srcPort, dstPort, 17);
            var after := UplinkIf(m, SeenIngress(UdpPacket(f, srcPort, dstPort, rest, payload)));
            && after.flows == (if k !in m.flows then m.flows[k := 1] else m.flows)
            && after.tls == m.tls && after.events == m.events
  {
    hide *;
    UdpRoundTrip(f, srcPort, dstPort, rest, payload);
    var o := SeenIngress(UdpPacket(f, srcPort, dstPort, rest, payload));
    UplinkIfSome(m, o, o.value);
    NotHttps(m, o.value);
    UdpOpens(m, o.value);
  }

  lemma NotHttps(m: Maps, u: Seen)
    requires u.proto != 6 || !u.l4
    ensures TlsAfter(m.tls, u) == m.tls && EventsAfter(m.events, m.tls, u) == m.events
  {
    OtherTraffic(m.tls, m.events, u);
  }

  lemma UdpOpens(m: Maps, u: Seen)
    requires u.l4 && u.proto == 17
    ensures Uplink(m, u).flows == if FlowOf(u) !in m.flows then m.flows[FlowOf(u) := 1] else m.flows
  {
    hide Count, TlsAfter, EventsAfter, Added, HasPort, InLab, Bucket, FlowOf;
  }

  /** An IPv4 packet from 10.60/16 without a whole TCP or UDP header where one would be read. */
  predicate WithoutTransport(pkt: seq<byte>) {
    && |pkt| >= 20 && pkt[0] / 16 == 4 && pkt[12] == 10 && pkt[13] == 60
    && (pkt[9] == 6 ==> var ihl: nat := pkt[0] % 16; 4 * ihl + 20 > |pkt|)
    && (pkt[9] == 17 ==> |pkt| < 28)
  }

  /** Every other uplink packet, ICMP, another protocol, or a transport header cut short: counted by its
      protocol byte, with no flow, no flags and no TLS. */
  lemma OtherCounters(m: Maps, pkt: seq<byte>)
    requires WithoutTransport(pkt)
    requires Ip(10, 60, pkt[14], pkt[15]) in m.ue || |m.ue| < 10240
    ensures var src, dst := Ip(10, 60, pkt[14], pkt[15]), Ip(pkt[16], pkt[17], pkt[18], pkt[19]);
            var v, after := Before(m, src), UplinkIf(m, SeenIngress(pkt));
            && after.ue
               == m.ue[src := Metrics(
                    v.packets + 1, v.bytes + |pkt|, v.tcp + (if pkt[9] == 6 then 1 else 0),
                    v.udp + (if pkt[9] == 17 then 1 else 0), v.icmp + (if pkt[9] == 1 then 1 else 0), v.syn, v.rst,
                    v.newFlows, v.bitmap | (1 << DstBit(dst)), v.dlPackets, v.dlBytes, v.dlTcp, v.dlAck)]
            && after.flows == m.flows && after.tls == m.tls && after.events == m.events && after.ports == m.ports
  {
    hide *;
    CutShort(pkt);
    var o := SeenIngress(pkt);
    UplinkIfSome(m, o, o.value);
    UplinkEntry(m, o.value);
    NotHttps(m, o.value);
    OthersOpenNothing(m, o.value);
  }

  lemma CutShort(pkt: seq<byte>)
    requires WithoutTransport(pkt)
    ensures SeenIngress(pkt) == Some(Seen(Ip(10, 60, pkt[14], pkt[15]), Ip(pkt[16], pkt[17], pkt[18], pkt[19]),
                                        pkt[9], |pkt|, false, 0, 0, 0, []))
  {
    SourceIsNotType(pkt);
    hide SeenIngress;
  }

  lemma OthersOpenNothing(m: Maps, u: Seen)
    requires !u.l4 && u.dstPort == 0
    ensures Uplink(m, u).flows == m.flows && Uplink(m, u).ports == m.ports
  {
    hide Count, TlsAfter, EventsAfter, Added, InLab, Bucket, FlowOf;
  }

  // ---------------------------------------------------------------- what a downlink packet counts as

  /** A raw downlink TCP packet without IP options whose source is not in 8.0/16, in the counters of the UE
      it is for: one packet, all its bytes, TCP, and an acknowledgement if the ACK flag is set. */
  lemma TcpDownlinkCounters(m: Maps, f: IpFields, t: TcpFields, payload: seq<byte>)
    requires ValidIp(f) && f.options == [] && ValidTcp(t) && f.dst.a == 10 && f.dst.b == 60
    requires !(f.src.a == 8 && f.src.b == 0) && (f.dst in m.ue || |m.ue| < 10240)
    ensures var pkt, v := TcpPacket(f, t, payload), Before(m, f.dst);
            DownlinkIf(m, SentEgress(pkt))
            == m.(ue := m.ue[f.dst := v.(dlPackets := v.dlPackets + 1, dlBytes := v.dlBytes + |pkt|, dlTcp := v.dlTcp + 1,
                                         dlAck := v.dlAck + (if t.flags.ack then 1 else 0))])
  {
    var pkt := TcpPacket(f, t, payload);
    IpBytesAt(f, 6, TcpBytes(t) + payload);
    TcpBytesAt(t, payload);
    FlagByteBits(t.flags);
    RawTcpIsSent(pkt);
    assert pkt[33] == pkt[20..][13];
    hide IpBytes, TcpBytes, FlagByte, TcpPayload, SentEgress;
  }

  lemma RawTcpIsSent(pkt: seq<byte>)
    requires |pkt| >= 40 && pkt[0] / 16 == 4 && pkt[9] == 6 && pkt[16] == 10 && pkt[17] == 60
    requires !(pkt[12] == 8 && pkt[13] == 0)
    ensures SentEgress(pkt) == Some(Sent(Ip(10, 60, pkt[18], pkt[19]), |pkt|, 6, pkt[33]))
  {
  }

  /** Any raw downlink packet that is not UDP and whose source is not in 8.0/16, by its bytes. The flags are
      those at byte 33: IP options are not skipped on this side. */
  lemma DownlinkCounters(m: Maps, pkt: seq<byte>)
    requires |pkt| >= 20 && pkt[0] / 16 == 4 && pkt[9] != 17 && pkt[16] == 10 && pkt[17] == 60
    requires !(pkt[12] == 8 && pkt[13] == 0)
    requires Ip(10, 60, pkt[18], pkt[19]) in m.ue || |m.ue| < 10240
    ensures var ue := Ip(10, 60, pkt[18], pkt[19]);
            var v, ack := Before(m, ue), pkt[9] == 6 && |pkt| >= 40 && pkt[33] / 16 % 2 == 1;
            DownlinkIf(m, SentEgress(pkt))
            == m.(ue := m.ue[ue := v.(dlPackets := v.dlPackets + 1, dlBytes := v.dlBytes + |pkt|,
                                      dlTcp := v.dlTcp + (if pkt[9] == 6 then 1 else 0),
                                      dlAck := v.dlAck + (if ack then 1 else 0))])
  {
  }
}
