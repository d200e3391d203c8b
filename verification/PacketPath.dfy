/** The eBPF data path of bpf/anlf.c over the maps of bpf/include/maps.h: one method per C function,
    working on the maps as fields, each proved against what the packet means and what each map
    becomes. A pointer into the packet is the sequence of bytes from there to the packet's end. */
module PacketPath {
  import opened Gtpu
  import opened MapTotals
  import opened Wrappers
  import Bitmap

  // ---------------------------------------------------------------- maps

  /** An IPv4 address, in the order its bytes are sent. */
  datatype Ip = Ip(a: byte, b: byte, c: byte, d: byte)

  datatype FlowKey = FlowKey(src: Ip, dst: Ip, srcPort: nat, dstPort: nat, proto: byte)

  datatype Metrics = Metrics(
    packets: nat, bytes: nat, tcp: nat, udp: nat, icmp: nat, syn: nat, rst: nat, newFlows: nat,
    bitmap: bv64, dlPackets: nat, dlBytes: nat, dlTcp: nat, dlAck: nat)

  const ZERO := Metrics(0, 0, 0, 0, 0, 0, 0, 0, 0, 0, 0, 0, 0)

  datatype TlsEvent = TlsEvent(src: Ip, dst: Ip, srcPort: nat, dstPort: nat, payloadLen: nat, payload: seq<byte>)

  /** The maps, and the TLS events sent so far. An LRU map takes every insert; what it evicts to make
      room is a step of its own. */
  datatype Maps = Maps(
    ue: map<Ip, Metrics>, flows: map<FlowKey, byte>, tls: map<FlowKey, byte>,
    ips: map<Ip, nat>, subnets: map<Ip, nat>, ports: map<nat, nat>, events: seq<TlsEvent>)

  const EMPTY := Maps(map[], map[], map[], map[], map[], map[], [])

  const UE_CAP := 10240
  const SUBNET_CAP := 256
  const IP_CAP := 65536
  const PORT_CAP := 65536

  /** `bpf_map_update_elem` on a hash map with BPF_ANY: a new key is refused when the map is full,
      and the program ignores the error. */
  function Put<K, V>(m: map<K, V>, cap: nat, k: K, v: V): map<K, V> {
    if k in m || |m| < cap then m[k := v] else m
  }

  const ICMP: byte := 1
  const TCP: byte := 6
  const UDP: byte := 17

  predicate InUeSubnet(ip: Ip) { ip.a == 10 && ip.b == 60 }

  predicate InLab(ip: Ip) { ip.a == 10 && ip.b == 201 }

  /** The /24 of an address. */
  function Subnet(ip: Ip): Ip { ip.(d := 0) }

  function BitIf(c: bool, bit: bv8): bv8 {
    if c then bit else 0
  }

  /** A byte as its eight bits. */
  function Bits(b: byte): bv8 {
    BitIf(b % 2 == 1, 1) | BitIf(b / 2 % 2 == 1, 2) | BitIf(b / 4 % 2 == 1, 4) | BitIf(b / 8 % 2 == 1, 8)
    | BitIf(b / 16 % 2 == 1, 16) | BitIf(b / 32 % 2 == 1, 32) | BitIf(b / 64 % 2 == 1, 64) | BitIf(b / 128 % 2 == 1, 128)
  }

  lemma BitsTell(b: byte)
    ensures (Bits(b) & 0x01 != 0 <==> b % 2 == 1) && (Bits(b) & 0x02 != 0 <==> b / 2 % 2 == 1)
    ensures (Bits(b) & 0x04 != 0 <==> b / 4 % 2 == 1) && (Bits(b) & 0x08 != 0 <==> b / 8 % 2 == 1)
    ensures (Bits(b) & 0x10 != 0 <==> b / 16 % 2 == 1) && (Bits(b) & 0x20 != 0 <==> b / 32 % 2 == 1)
    ensures (Bits(b) & 0x40 != 0 <==> b / 64 % 2 == 1) && (Bits(b) & 0x80 != 0 <==> b / 128 % 2 == 1)
  {
  }

  function Word(ip: Ip): bv32 {
    (Bits(ip.a) as bv32) | ((Bits(ip.b) as bv32) << 8) | ((Bits(ip.c) as bv32) << 16) | ((Bits(ip.d) as bv32) << 24)
  }

  function Bucket(ip: Ip): Bitmap.bucket {
    Bitmap.BucketOf(Word(ip))
  }

  lemma WordBytes(a: bv8, b: bv8, c: bv8, d: bv8)
    ensures Bitmap.BucketOf((a as bv32) | ((b as bv32) << 8) | ((c as bv32) << 16) | ((d as bv32) << 24))
         == ((a ^ b ^ c ^ d) & 0x3F) as bv64
  {
  }

  /** The bucket of an address: the low six bits of the exclusive-or of its four bytes. */
  lemma BucketOfBytes(ip: Ip)
    ensures Bucket(ip) == ((Bits(ip.a) ^ Bits(ip.b) ^ Bits(ip.c) ^ Bits(ip.d)) & 0x3F) as bv64
  {
    hide *;
    BucketOfBits(ip);
    WordBytes(Bits(ip.a), Bits(ip.b), Bits(ip.c), Bits(ip.d));
  }

  lemma BucketOfBits(ip: Ip)
    ensures Bucket(ip) == Bitmap.BucketOf(
              (Bits(ip.a) as bv32) | ((Bits(ip.b) as bv32) << 8) | ((Bits(ip.c) as bv32) << 16) | ((Bits(ip.d) as bv32) << 24))
  {
    hide Bitmap.BucketOf, Bits;
  }

  // ---------------------------------------------------------------- what a packet says

  /** An uplink packet as the program reads it. `l4` tells whether a whole TCP or UDP header was
      there; without it the ports, flags and payload are empty. */
  datatype Seen = Seen(
    src: Ip, dst: Ip, proto: byte, len: nat, l4: bool,
    flags: byte, srcPort: nat, dstPort: nat, payload: seq<byte>)

  function IpAt(pkt: seq<byte>, i: nat): Ip
    requires i + 4 <= |pkt|
  {
    Ip(pkt[i], pkt[i + 1], pkt[i + 2], pkt[i + 3])
  }

  /** Where the transport header starts: TCP honours the header length field, UDP does not. */
  function L4Start(pkt: seq<byte>): nat
    requires |pkt| >= 20
  {
    if pkt[9] == TCP then pkt[0] % 16 * 4 else 20
  }

  predicate HasL4(pkt: seq<byte>)
    requires |pkt| >= 20
  {
    (pkt[9] == TCP && L4Start(pkt) + 20 <= |pkt|) || (pkt[9] == UDP && L4Start(pkt) + 8 <= |pkt|)
  }

  function TcpPayload(tcp: seq<byte>): seq<byte>
    requires |tcp| >= 20
  {
    var start: nat := tcp[12] / 16 * 4;
    if start < |tcp| then tcp[start..] else []
  }

  function ReadInner(pkt: seq<byte>): Seen
    requires |pkt| >= 20
  {
    var proto := pkt[9];
    if !HasL4(pkt) then Seen(IpAt(pkt, 12), IpAt(pkt, 16), proto, |pkt|, false, 0, 0, 0, [])
    else
      var h := pkt[L4Start(pkt)..];
      Seen(IpAt(pkt, 12), IpAt(pkt, 16), proto, |pkt|, true, if proto == TCP then h[13] else 0,
           Be16(h[0], h[1]), Be16(h[2], h[3]), if proto == TCP then TcpPayload(h) else [])
  }

  lemma ReadInnerHead(pkt: seq<byte>)
    requires |pkt| >= 20
    ensures var u := ReadInner(pkt);
            u.src == IpAt(pkt, 12) && u.dst == IpAt(pkt, 16) && u.proto == pkt[9] && u.len == |pkt|
  {
  }

  /** The uplink packet in an inner IP packet, if it is one. */
  function SeenInner(pkt: seq<byte>): Option<Seen> {
    if |pkt| >= 20 && pkt[0] / 16 == 4 && InUeSubnet(IpAt(pkt, 12)) then Some(ReadInner(pkt)) else None
  }

  function SeenGtpu(g: seq<byte>): Option<Seen> {
    if Inner(g) < 0 then None
    else
      InnerBounds(g);
      SeenInner(g[Inner(g)..])
  }

  predicate IsGtpu(udp: seq<byte>) {
    |udp| >= 8 && (Be16(udp[2], udp[3]) == 2152 || Be16(udp[0], udp[1]) == 2152)
  }

  /** What the outer IPv4 packet carries; options of the outer header are not skipped. */
  function SeenIpv4(ip: seq<byte>): Option<Seen> {
    if |ip| >= 20 && ip[9] == UDP && IsGtpu(ip[20..]) then SeenGtpu(ip[28..]) else None
  }

  predicate LooksEthernet(frame: seq<byte>) {
    |frame| >= 14 && Be16(frame[12], frame[13]) == 0x0800
  }

  /** The uplink packet a received frame is counted as. */
  function SeenIngress(frame: seq<byte>): Option<Seen> {
    if LooksEthernet(frame) then SeenIpv4(frame[14..]) else SeenInner(frame)
  }

  /** A downlink packet as the egress program reads it. */
  datatype Sent = Sent(ue: Ip, len: nat, proto: byte, flags: byte)

  function SentInner(pkt: seq<byte>): Option<Sent> {
    if |pkt| >= 20 && pkt[0] / 16 == 4 && InUeSubnet(IpAt(pkt, 16))
    then Some(Sent(IpAt(pkt, 16), |pkt|, pkt[9], if pkt[9] == TCP && |pkt| >= 40 then pkt[33] else 0))
    else None
  }

  function SentGtpu(g: seq<byte>): Option<Sent> {
    if Inner(g) < 0 then None
    else
      InnerBounds(g);
      SentInner(g[Inner(g)..])
  }

  function SentUdp(udp: seq<byte>): Option<Sent> {
    if IsGtpu(udp) then SentGtpu(udp[8..]) else None
  }

  /** The downlink packet a sent frame is counted as. */
  function SentEgress(frame: seq<byte>): Option<Sent> {
    if LooksEthernet(frame) && |frame| < 34 then None
    else if LooksEthernet(frame) && frame[23] == UDP then SentUdp(frame[34..])
    else if |frame| < 20 || frame[0] / 16 != 4 then None
    else if frame[9] == UDP then SentUdp(frame[20..])
    else SentInner(frame)
  }

  // ---------------------------------------------------------------- what each map becomes

  function FlowOf(u: Seen): FlowKey {
    FlowKey(u.src, u.dst, u.srcPort, u.dstPort, u.proto)
  }

  predicate Syn(flags: byte) { flags / 2 % 2 == 1 }

  predicate Rst(flags: byte) { flags / 4 % 2 == 1 }

  predicate Ack(flags: byte) { flags / 16 % 2 == 1 }

  /** Packets that start or continue a tracked flow: TCP with SYN, and every UDP packet. */
  predicate Opens(u: Seen) {
    u.l4 && (u.proto == UDP || (u.proto == TCP && Syn(u.flags)))
  }

  predicate IsNewFlow(flows: map<FlowKey, byte>, u: Seen) {
    Opens(u) && FlowOf(u) !in flows
  }

  function FlowsAfter(flows: map<FlowKey, byte>, u: Seen): map<FlowKey, byte> {
    if IsNewFlow(flows, u) then flows[FlowOf(u) := 1] else flows
  }

  /** A TCP packet to port 443 whose whole header is there. */
  predicate ToHttps(u: Seen) {
    u.l4 && u.proto == TCP && u.dstPort == 443
  }

  predicate IsHello(u: Seen) {
    ToHttps(u) && u.payload != [] && u.payload[0] == 0x16
  }

  predicate Captured(tls: map<FlowKey, byte>, k: FlowKey) {
    k in tls && tls[k] / 2 % 2 == 1
  }

  predicate Captures(tls: map<FlowKey, byte>, u: Seen) {
    IsHello(u) && !Captured(tls, FlowOf(u))
  }

  /** `x | 0x03` on a byte. */
  function MarkCaptured(x: byte): byte {
    x - x % 4 + 3
  }

  function TlsAfter(tls: map<FlowKey, byte>, u: Seen): map<FlowKey, byte> {
    var k := FlowOf(u);
    if Captures(tls, u) then tls[k := MarkCaptured(if k in tls then tls[k] else 0)]
    else if ToHttps(u) && k !in tls then tls[k := 1]
    else tls
  }

  function Padded(payload: seq<byte>): seq<byte> {
    if |payload| >= 10 then payload[..10] else payload + seq(10 - |payload|, _ => 0)
  }

  function EventOf(u: Seen): TlsEvent {
    TlsEvent(u.src, u.dst, u.srcPort, u.dstPort, if |u.payload| > 10 then 10 else |u.payload|, Padded(u.payload))
  }

  function EventsAfter(events: seq<TlsEvent>, tls: map<FlowKey, byte>, u: Seen): seq<TlsEvent> {
    if Captures(tls, u) then events + [EventOf(u)] else events
  }

  function If(c: bool): nat { if c then 1 else 0 }

  /** One uplink packet added to a UE's counters. */
  function Count(v: Metrics, u: Seen, isNew: bool): Metrics {
    v.(packets := v.packets + 1, bytes := v.bytes + u.len,
       tcp := v.tcp + If(u.proto == TCP), udp := v.udp + If(u.proto == UDP), icmp := v.icmp + If(u.proto == ICMP),
       syn := v.syn + If(u.proto == TCP && Syn(u.flags)), rst := v.rst + If(u.proto == TCP && Rst(u.flags)),
       newFlows := v.newFlows + If(isNew), bitmap := Bitmap.With(v.bitmap, Bucket(u.dst)))
  }

  function CountSent(v: Metrics, s: Sent): Metrics {
    v.(dlPackets := v.dlPackets + 1, dlBytes := v.dlBytes + s.len,
       dlTcp := v.dlTcp + If(s.proto == TCP), dlAck := v.dlAck + If(s.proto == TCP && Ack(s.flags)))
  }

  function Entry(ue: map<Ip, Metrics>, ip: Ip): Metrics {
    if ip in ue then ue[ip] else ZERO
  }

  function Added<K>(m: map<K, nat>, cap: nat, k: K, n: nat): map<K, nat> {
    Put(m, cap, k, Got(m, k) + n)
  }

  predicate HasPort(u: Seen) {
    (u.proto == TCP || u.proto == UDP) && u.dstPort > 0
  }

  /** Every map after an uplink packet. */
  function Uplink(m: Maps, u: Seen): Maps {
    Maps(Put(m.ue, UE_CAP, u.src, Count(Entry(m.ue, u.src), u, IsNewFlow(m.flows, u))),
         FlowsAfter(m.flows, u),
         TlsAfter(m.tls, u),
         if InLab(u.dst) then Added(m.ips, IP_CAP, u.dst, u.len) else m.ips,
         if InLab(u.dst) then Added(m.subnets, SUBNET_CAP, Subnet(u.dst), u.len) else m.subnets,
         if InLab(u.dst) && HasPort(u) then Added(m.ports, PORT_CAP, u.dstPort, u.len) else m.ports,
         EventsAfter(m.events, m.tls, u))
  }

  lemma OtherTraffic(tls: map<FlowKey, byte>, events: seq<TlsEvent>, u: Seen)
    requires !ToHttps(u)
    ensures TlsAfter(tls, u) == tls && EventsAfter(events, tls, u) == events
  {
  }

  function Downlink(m: Maps, s: Sent): Maps {
    m.(ue := Put(m.ue, UE_CAP, s.ue, CountSent(Entry(m.ue, s.ue), s)))
  }

  function UplinkIf(m: Maps, o: Option<Seen>): Maps {
    match o
    case None => m
    case Some(u) => Uplink(m, u)
  }

  function DownlinkIf(m: Maps, o: Option<Sent>): Maps {
    match o
    case None => m
    case Some(s) => Downlink(m, s)
  }

  // ---------------------------------------------------------------- the programs

  class Datapath {
    var ue: map<Ip, Metrics>
    var flows: map<FlowKey, byte>
    var tls: map<FlowKey, byte>
    var ips: map<Ip, nat>
    var subnets: map<Ip, nat>
    var ports: map<nat, nat>
    var events: seq<TlsEvent>

    function View(): Maps
      reads this
    {
      Maps(ue, flows, tls, ips, subnets, ports, events)
    }

    constructor ()
      ensures View() == EMPTY
    {
      ue, flows, tls, ips, subnets, ports, events := map[], map[], map[], map[], map[], map[], [];
    }

    method UpdateUeUplinkMetrics(src: Ip, len: nat, proto: byte, flags: byte, dst: Ip, isNew: bool, ghost u: Seen)
      requires u.src == src && u.len == len && u.proto == proto && u.flags == flags && u.dst == dst
      modifies this`ue
      ensures ue == Put(old(ue), UE_CAP, src, Count(Entry(old(ue), src), u, isNew))
    {
      hide Bitmap.With, Bucket;
      var v := Entry(ue, src);
      if src in ue {
        v := v.(packets := v.packets + 1);
        v := v.(bytes := v.bytes + len);
        if proto == TCP {
          v := v.(tcp := v.tcp + 1);
          if Syn(flags) { v := v.(syn := v.syn + 1); }
          if Rst(flags) { v := v.(rst := v.rst + 1); }
        } else if proto == UDP {
          v := v.(udp := v.udp + 1);
        } else if proto == ICMP {
          v := v.(icmp := v.icmp + 1);
        }
        if isNew { v := v.(newFlows := v.newFlows + 1); }
        v := v.(bitmap := Bitmap.With(v.bitmap, Bucket(dst)));
        ue := ue[src := v];
      } else {
        v := v.(packets := 1, bytes := len);
        if proto == TCP {
          v := v.(tcp := 1);
          if Syn(flags) { v := v.(syn := 1); }
          if Rst(flags) { v := v.(rst := 1); }
        } else if proto == UDP {
          v := v.(udp := 1);
        } else if proto == ICMP {
          v := v.(icmp := 1);
        }
        if isNew { v := v.(newFlows := 1); }
        v := v.(bitmap := Bitmap.With(0, Bucket(dst)));
        ue := Put(ue, UE_CAP, src, v);
      }
    }

    method UpdateUeDlMetrics(dst: Ip, len: nat, proto: byte, flags: byte)
      modifies this`ue
      ensures View() == Downlink(old(View()), Sent(dst, len, proto, flags))
    {
      if dst in ue {
        var v := ue[dst];
        v := v.(dlPackets := v.dlPackets + 1);
        v := v.(dlBytes := v.dlBytes + len);
        if proto == TCP {
          v := v.(dlTcp := v.dlTcp + 1);
          if Ack(flags) { v := v.(dlAck := v.dlAck + 1); }
        }
        ue := ue[dst := v];
      } else {
        var v := ZERO.(dlPackets := 1, dlBytes := len);
        if proto == TCP {
          v := v.(dlTcp := 1);
          if Ack(flags) { v := v.(dlAck := 1); }
        }
        ue := Put(ue, UE_CAP, dst, v);
      }
    }

    /** Bytes beyond the payload stay zero. */
    method CopyPayload(payload: seq<byte>) returns (dst: seq<byte>)
      ensures dst == Padded(payload)
    {
      dst := seq(10, _ => 0);
      var i := 0;
      while i < 10
        invariant 0 <= i <= 10 && i <= |payload| && |dst| == 10
        invariant forall j | 0 <= j < 10 :: dst[j] == if j < i then payload[j] else 0
      {
        if i >= |payload| {
          return;
        }
        dst := dst[i := payload[i]];
        i := i + 1;
      }
    }

    method CheckAndCaptureTls(src: Ip, dst: Ip, tcp: seq<byte>) returns (captured: bool)
      requires |tcp| >= 20
      modifies this`events
      ensures captured <==> TcpPayload(tcp) != [] && TcpPayload(tcp)[0] == 0x16
      ensures forall u: Seen | u.src == src && u.dst == dst && u.srcPort == Be16(tcp[0], tcp[1])
                               && u.dstPort == Be16(tcp[2], tcp[3]) && u.payload == TcpPayload(tcp) ::
                events == if captured then old(events) + [EventOf(u)] else old(events)
    {
      var start: nat := tcp[12] / 16 * 4;
      if start >= |tcp| {
        return false;
      }
      var payload := tcp[start..];
      if payload[0] != 0x16 {
        return false;
      }
      var copy := CopyPayload(payload);
      events := events + [TlsEvent(src, dst, Be16(tcp[0], tcp[1]), Be16(tcp[2], tcp[3]),
                                   if |payload| > 10 then 10 else |payload|, copy)];
      return true;
    }

    method TrackFlow(key: FlowKey) returns (isNew: bool)
      modifies this`flows
      ensures isNew <==> key !in old(flows)
      ensures flows == if isNew then old(flows)[key := 1] else old(flows)
    {
      isNew := key !in flows;
      if isNew {
        flows := flows[key := 1];
      }
    }

    /** The once-per-flow TLS capture for a packet to port 443. */
    method TrackTls(src: Ip, dst: Ip, tcp: seq<byte>)
      requires |tcp| >= 20 && Be16(tcp[2], tcp[3]) == 443
      modifies this`tls, this`events
      ensures forall u: Seen | u.src == src && u.dst == dst && u.srcPort == Be16(tcp[0], tcp[1]) && u.dstPort == 443
                               && u.payload == TcpPayload(tcp) && u.proto == TCP && u.l4 ::
                tls == TlsAfter(old(tls), u) && events == EventsAfter(old(events), old(tls), u)
    {
      hide TcpPayload;
      var key := FlowKey(src, dst, Be16(tcp[0], tcp[1]), Be16(tcp[2], tcp[3]), TCP);
      if key !in tls || tls[key] / 2 % 2 != 1 {
        var captured := CheckAndCaptureTls(src, dst, tcp);
        if captured {
          tls := tls[key := MarkCaptured(if key in tls then tls[key] else 0)];
        } else if key !in tls {
          tls := tls[key := 1];
        }
      }
    }

    method AddTo(m: map<Ip, nat>, cap: nat, k: Ip, n: nat) returns (r: map<Ip, nat>)
      ensures r == Added(m, cap, k, n)
    {
      if k in m {
        r := m[k := m[k] + n];
      } else {
        r := Put(m, cap, k, n);
      }
    }

    method UpdateTopStats(dst: Ip, len: nat, proto: byte, dstPort: nat, ghost u: Seen)
      requires u.dst == dst && u.len == len && u.proto == proto && u.dstPort == dstPort
      modifies this`ips, this`subnets, this`ports
      ensures ips == if InLab(dst) then Added(old(ips), IP_CAP, dst, len) else old(ips)
      ensures subnets == if InLab(dst) then Added(old(subnets), SUBNET_CAP, Subnet(dst), len) else old(subnets)
      ensures ports == if InLab(dst) && HasPort(u) then Added(old(ports), PORT_CAP, dstPort, len) else old(ports)
    {
      if InLab(dst) {
        ips := AddTo(ips, IP_CAP, dst, len);
        subnets := AddTo(subnets, SUBNET_CAP, Subnet(dst), len);
        if (proto == TCP || proto == UDP) && dstPort > 0 {
          if dstPort in ports {
            ports := ports[dstPort := ports[dstPort] + len];
          } else {
            ports := Put(ports, PORT_CAP, dstPort, len);
          }
        }
      }
    }

    /** The transport header: flags, destination port, whether a new flow starts; TLS capture. */
    method TrackTransport(pkt: seq<byte>) returns (flags: byte, dstPort: nat, isNew: bool)
      requires |pkt| >= 20
      modifies this`flows, this`tls, this`events
      ensures var u := ReadInner(pkt);
              && flags == u.flags && dstPort == u.dstPort && isNew == IsNewFlow(old(flows), u)
              && flows == FlowsAfter(old(flows), u)
              && tls == TlsAfter(old(tls), u) && events == EventsAfter(old(events), old(tls), u)
    {
      hide TlsAfter, EventsAfter, TcpPayload;
      var src, dst, proto := IpAt(pkt, 12), IpAt(pkt, 16), pkt[9];
      flags, isNew, dstPort := 0, false, 0;
      ghost var u := ReadInner(pkt);
      if !ToHttps(u) {
        OtherTraffic(tls, events, u);
      }
      if proto == TCP {
        var tcph: nat := pkt[0] % 16 * 4;
        if tcph + 20 <= |pkt| {
          var tcp := pkt[tcph..];
          flags := tcp[13];
          dstPort := Be16(tcp[2], tcp[3]);
          if dstPort == 443 {
            TrackTls(src, dst, tcp);
          }
          if Syn(flags) {
            isNew := TrackFlow(FlowKey(src, dst, Be16(tcp[0], tcp[1]), dstPort, proto));
          }
        }
      } else if proto == UDP {
        if 28 <= |pkt| {
          var udp := pkt[20..];
          dstPort := Be16(udp[2], udp[3]);
          isNew := TrackFlow(FlowKey(src, dst, Be16(udp[0], udp[1]), dstPort, proto));
        }
      }
    }

    method ProcessInnerIp(pkt: seq<byte>)
      modifies this
      ensures View() == UplinkIf(old(View()), SeenInner(pkt))
    {
      if 20 > |pkt| {
        return;
      }
      if pkt[0] / 16 != 4 {
        return;
      }
      if !InUeSubnet(IpAt(pkt, 12)) {
        return;
      }
      CountUplink(pkt);
      hide ReadInner, FlowsAfter, TlsAfter, EventsAfter, Added, Put, Count;
    }

    /** The updates for an accepted uplink packet, map by map. */
    method CountUplink(pkt: seq<byte>)
      requires |pkt| >= 20
      modifies this
      ensures var u := ReadInner(pkt);
              && ue == Put(old(ue), UE_CAP, u.src, Count(Entry(old(ue), u.src), u, IsNewFlow(old(flows), u)))
              && flows == FlowsAfter(old(flows), u) && tls == TlsAfter(old(tls), u)
              && events == EventsAfter(old(events), old(tls), u)
              && ips == (if InLab(u.dst) then Added(old(ips), IP_CAP, u.dst, u.len) else old(ips))
              && subnets == (if InLab(u.dst) then Added(old(subnets), SUBNET_CAP, Subnet(u.dst), u.len) else old(subnets))
              && ports == if InLab(u.dst) && HasPort(u) then Added(old(ports), PORT_CAP, u.dstPort, u.len) else old(ports)
    {
      hide *;
      ghost var u := ReadInner(pkt);
      ReadInnerHead(pkt);
      var src, dst, proto := IpAt(pkt, 12), IpAt(pkt, 16), pkt[9];
      var flags, dstPort, isNew := TrackTransport(pkt);
      UpdateUeUplinkMetrics(src, |pkt|, proto, flags, dst, isNew, u);
      UpdateTopStats(dst, |pkt|, proto, dstPort, u);
    }

    method HandleGtpu(g: seq<byte>)
      modifies this
      ensures View() == UplinkIf(old(View()), SeenGtpu(g))
    {
      var inner, _ := GtpuLocateInnerL3(g);
      if inner < 0 {
        return;
      }
      InnerBounds(g);
      if inner + 20 > |g| {
        return;
      }
      ProcessInnerIp(g[inner..]);
    }

    method HandleUdp(udp: seq<byte>)
      modifies this
      ensures View() == UplinkIf(old(View()), if IsGtpu(udp) then SeenGtpu(udp[8..]) else None)
    {
      if 8 > |udp| {
        return;
      }
      var destPort, srcPort := Be16(udp[2], udp[3]), Be16(udp[0], udp[1]);
      if destPort == 2152 || srcPort == 2152 {
        HandleGtpu(udp[8..]);
      }
    }

    method HandleIpv4(ip: seq<byte>)
      modifies this
      ensures View() == UplinkIf(old(View()), SeenIpv4(ip))
    {
      if 20 > |ip| {
        return;
      }
      if ip[9] == UDP {
        assert |ip| >= 28 ==> ip[20..][8..] == ip[28..];
        HandleUdp(ip[20..]);
      }
    }

    method AnlfXdpMain(frame: seq<byte>)
      modifies this
      ensures View() == UplinkIf(old(View()), SeenIngress(frame))
    {
      if 14 <= |frame| {
        if Be16(frame[12], frame[13]) == 0x0800 {
          if 34 > |frame| {
            return;
          }
          HandleIpv4(frame[14..]);
          return;
        }
      }
      if 20 <= |frame| && frame[0] / 16 == 4 {
        ProcessInnerIp(frame);
      }
    }

    method TcProcessInnerIp(pkt: seq<byte>)
      modifies this
      ensures View() == DownlinkIf(old(View()), SentInner(pkt))
    {
      if 20 > |pkt| {
        return;
      }
      if pkt[0] / 16 != 4 {
        return;
      }
      var dst, proto := IpAt(pkt, 16), pkt[9];
      if !InUeSubnet(dst) {
        return;
      }
      var flags: byte := 0;
      if proto == TCP {
        if 40 <= |pkt| {
          flags := pkt[20..][13];
        }
      }
      UpdateUeDlMetrics(dst, |pkt|, proto, flags);
    }

    method TcHandleGtpu(g: seq<byte>)
      modifies this
      ensures View() == DownlinkIf(old(View()), SentGtpu(g))
    {
      var inner, _ := GtpuLocateInnerL3(g);
      if inner < 0 {
        return;
      }
      InnerBounds(g);
      if inner + 20 > |g| {
        return;
      }
      TcProcessInnerIp(g[inner..]);
    }

    method TcHandleUdp(udp: seq<byte>)
      modifies this
      ensures View() == DownlinkIf(old(View()), SentUdp(udp))
    {
      if 8 > |udp| {
        return;
      }
      var destPort, srcPort := Be16(udp[2], udp[3]), Be16(udp[0], udp[1]);
      if destPort == 2152 || srcPort == 2152 {
        TcHandleGtpu(udp[8..]);
      }
    }

    method AnlfTcEgress(frame: seq<byte>)
      modifies this
      ensures View() == DownlinkIf(old(View()), SentEgress(frame))
    {
      if 14 <= |frame| {
        if Be16(frame[12], frame[13]) == 0x0800 {
          if 34 > |frame| {
            return;
          }
          if frame[14..][9] == UDP {
            assert frame[14..][20..] == frame[34..];
            TcHandleUdp(frame[14..][20..]);
            return;
          }
        }
      }
      if 20 <= |frame| && frame[0] / 16 == 4 {
        if frame[9] == UDP {
          TcHandleUdp(frame[20..]);
          return;
        }
        TcProcessInnerIp(frame);
      }
    }
  }
}
