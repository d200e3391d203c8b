/** The byte statistics for the 10.201/16 laboratory network (bpf/anlf.c:317-356): three hash maps
    (bpf/include/maps.h:56-79) updated together, over any run of the data path. */
module TopN {
  import opened Gtpu
  import opened MapTotals
  import opened PacketPath
  import opened PacketRuns
  import opened Wrappers

  // ---------------------------------------------------------------- no insert is ever refused

  lemma {:induction false} Pigeonhole<T(!new)>(s: set<T>, f: T -> int, n: nat)
    requires forall x | x in s :: 0 <= f(x) < n
    requires forall x, y | x in s && y in s && f(x) == f(y) :: x == y
    ensures |s| <= n
    decreases n
  {
    if x :| x in s && f(x) == n - 1 {
      Pigeonhole(s - {x}, f, n - 1);
    } else if n > 0 {
      Pigeonhole(s, f, n - 1);
    } else {
      assert forall x | x in s :: false;
      assert s == {};
    }
  }

  ghost predicate IpsConfined(ips: map<Ip, nat>) {
    forall ip | ip in ips :: InLab(ip)
  }

  ghost predicate SubnetsConfined(subnets: map<Ip, nat>) {
    forall s | s in subnets :: InLab(s) && s.d == 0
  }

  ghost predicate PortsConfined(ports: map<nat, nat>) {
    forall p | p in ports :: 0 < p < 0x1_0000
  }

  lemma IpNeverRefused(ips: map<Ip, nat>, ip: Ip, n: nat)
    requires IpsConfined(ips) && InLab(ip)
    ensures Added(ips, IP_CAP, ip, n) == Plus(ips, ip, n) && IpsConfined(Plus(ips, ip, n))
  {
    if ip !in ips {
      LabRoom(ips.Keys + {ip});
    }
  }

  lemma LabRoom(s: set<Ip>)
    requires forall x | x in s :: InLab(x)
    ensures |s| <= IP_CAP
  {
    forall x, y | x in s && y in s && Be16(x.c, x.d) == Be16(y.c, y.d) ensures x == y {
      LastBytesTell(x, y);
    }
    hide InLab, Be16;
    Pigeonhole(s, (x: Ip) => Be16(x.c, x.d), IP_CAP);
  }

  lemma LastBytesTell(x: Ip, y: Ip)
    requires InLab(x) && InLab(y) && Be16(x.c, x.d) == Be16(y.c, y.d)
    ensures x == y
  {
  }

  lemma SubnetNeverRefused(subnets: map<Ip, nat>, s: Ip, n: nat)
    requires SubnetsConfined(subnets) && InLab(s) && s.d == 0
    ensures Added(subnets, SUBNET_CAP, s, n) == Plus(subnets, s, n) && SubnetsConfined(Plus(subnets, s, n))
  {
    if s !in subnets {
      Pigeonhole(subnets.Keys + {s}, (x: Ip) => x.c, SUBNET_CAP);
    }
  }

  lemma PortNeverRefused(ports: map<nat, nat>, p: nat, n: nat)
    requires PortsConfined(ports) && 0 < p < 0x1_0000
    ensures Added(ports, PORT_CAP, p, n) == Plus(ports, p, n) && PortsConfined(Plus(ports, p, n))
  {
    if p !in ports {
      Pigeonhole(ports.Keys + {p}, (x: nat) => x, PORT_CAP);
    }
  }

  // ---------------------------------------------------------------- what is counted

  datatype Which = Lab | LabPort | ToIp(ip: Ip) | ToSubnet(s: Ip) | ToPort(p: nat)

  predicate Selects(w: Which, u: Seen) {
    InLab(u.dst) &&
    match w
    case Lab => true
    case LabPort => HasPort(u)
    case ToIp(ip) => u.dst == ip
    case ToSubnet(s) => Subnet(u.dst) == s
    case ToPort(p) => HasPort(u) && u.dstPort == p
  }

  /** The uplink packet an operation delivers. */
  function Delivered(op: Op): Option<Seen> {
    if op.Ingress? then SeenIngress(op.frame) else None
  }

  function Size(w: Which, op: Op): nat {
    if Delivered(op).Some? && Selects(w, Delivered(op).value) then Delivered(op).value.len else 0
  }

  /** The bytes of the selected uplink packets of a run. */
  function Bytes(w: Which, ops: seq<Op>): nat {
    if ops == [] then 0 else Bytes(w, ops[..|ops| - 1]) + Size(w, ops[|ops| - 1])
  }

  /** The IP entries of a /24 whose last byte is below n. */
  ghost function Block(ips: map<Ip, nat>, s: Ip, n: nat): nat
    requires n <= 256
  {
    if n == 0 then 0 else Block(ips, s, n - 1) + Got(ips, s.(d := n - 1))
  }

  lemma {:induction false} BlockOfUpdate(ips: map<Ip, nat>, s: Ip, n: nat, ip: Ip, len: nat)
    requires n <= 256 && s.d == 0
    ensures Block(Plus(ips, ip, len), s, n)
         == Block(ips, s, n) + if Subnet(ip) == s && ip.d < n then len else 0
  {
    if n > 0 {
      BlockOfUpdate(ips, s, n - 1, ip, len);
      assert s.(d := n - 1) == ip <==> Subnet(ip) == s && ip.d == n - 1;
    }
  }

  lemma {:induction false} EmptyBlock(s: Ip, n: nat)
    requires n <= 256
    ensures Block(map[], s, n) == 0
  {
    if n > 0 {
      EmptyBlock(s, n - 1);
    }
  }

  // ---------------------------------------------------------------- every run

  ghost predicate IpsExact(ips: map<Ip, nat>, ops: seq<Op>) {
    && IpsConfined(ips) && Total(ips) == Bytes(Lab, ops)
    && forall ip: Ip :: Got(ips, ip) == Bytes(ToIp(ip), ops)
  }

  ghost predicate SubnetsExact(subnets: map<Ip, nat>, ops: seq<Op>) {
    && SubnetsConfined(subnets) && Total(subnets) == Bytes(Lab, ops)
    && forall s: Ip | s.d == 0 :: Got(subnets, s) == Bytes(ToSubnet(s), ops)
  }

  ghost predicate PortsExact(ports: map<nat, nat>, ops: seq<Op>) {
    && PortsConfined(ports) && Total(ports) == Bytes(LabPort, ops)
    && forall p: nat :: Got(ports, p) == Bytes(ToPort(p), ops)
  }

  /** Every /24 entry is the sum of the 256 possible IP entries in it. */
  ghost predicate SubnetsAreSums(ips: map<Ip, nat>, subnets: map<Ip, nat>) {
    forall s: Ip | s.d == 0 :: Got(subnets, s) == Block(ips, s, 256)
  }

  predicate DeliveredTo(o: Option<Seen>) { o.Some? && InLab(o.value.dst) }

  predicate DeliveredToPort(o: Option<Seen>) { DeliveredTo(o) && HasPort(o.value) }

  lemma StepStats(m: Maps, op: Op)
    ensures var t, o := Do(m, op), Delivered(op);
            && t.ips == (if DeliveredTo(o) then Added(m.ips, IP_CAP, o.value.dst, o.value.len) else m.ips)
            && t.subnets == (if DeliveredTo(o) then Added(m.subnets, SUBNET_CAP, Subnet(o.value.dst), o.value.len) else m.subnets)
            && t.ports == if DeliveredToPort(o) then Added(m.ports, PORT_CAP, o.value.dstPort, o.value.len) else m.ports
  {
    hide SeenIngress, SentEgress, Added, Put, Count, CountSent, TlsAfter, EventsAfter, FlowsAfter, HasPort, InLab;
  }

  lemma DeliveredIsSane(op: Op)
    requires Delivered(op).Some?
    ensures Sane(Delivered(op).value) && Delivered(op).value.dstPort < 0x1_0000
  {
    SeenIsSane(op.frame);
  }

  lemma BytesUnfold(w: Which, ops: seq<Op>)
    requires ops != []
    ensures Bytes(w, ops) == Bytes(w, ops[..|ops| - 1]) + Size(w, ops[|ops| - 1])
  {
  }

  lemma StepIps(ips: map<Ip, nat>, t: map<Ip, nat>, o: Option<Seen>, ops: seq<Op>)
    requires ops != [] && o == Delivered(ops[|ops| - 1]) && IpsExact(ips, ops[..|ops| - 1])
    requires t == if DeliveredTo(o) then Added(ips, IP_CAP, o.value.dst, o.value.len) else ips
    ensures IpsExact(t, ops) && (DeliveredTo(o) ==> t == Plus(ips, o.value.dst, o.value.len))
  {
    hide Delivered, Bytes, Plus, Total, IpsConfined, Added, Got, HasPort, InLab;
    BytesUnfold(Lab, ops);
    if DeliveredTo(o) {
      IpNeverRefused(ips, o.value.dst, o.value.len);
      TotalOfUpdate(ips, o.value.dst, o.value.len);
    }
    forall ip: Ip ensures Got(t, ip) == Bytes(ToIp(ip), ops) {
      BytesUnfold(ToIp(ip), ops);
      if DeliveredTo(o) {
        GotPlus(ips, o.value.dst, o.value.len, ip);
      }
    }
  }

  lemma StepSubnets(subnets: map<Ip, nat>, t: map<Ip, nat>, o: Option<Seen>, ops: seq<Op>)
    requires ops != [] && o == Delivered(ops[|ops| - 1]) && SubnetsExact(subnets, ops[..|ops| - 1])
    requires t == if DeliveredTo(o) then Added(subnets, SUBNET_CAP, Subnet(o.value.dst), o.value.len) else subnets
    ensures SubnetsExact(t, ops) && (DeliveredTo(o) ==> t == Plus(subnets, Subnet(o.value.dst), o.value.len))
  {
    hide Delivered, Bytes, Plus, Total, SubnetsConfined, Added, Got, HasPort;
    BytesUnfold(Lab, ops);
    if DeliveredTo(o) {
      SubnetNeverRefused(subnets, Subnet(o.value.dst), o.value.len);
      TotalOfUpdate(subnets, Subnet(o.value.dst), o.value.len);
    }
    forall s: Ip | s.d == 0 ensures Got(t, s) == Bytes(ToSubnet(s), ops) {
      BytesUnfold(ToSubnet(s), ops);
      if DeliveredTo(o) {
        GotPlus(subnets, Subnet(o.value.dst), o.value.len, s);
      }
    }
  }

  lemma StepPorts(ports: map<nat, nat>, t: map<nat, nat>, o: Option<Seen>, ops: seq<Op>)
    requires ops != [] && o == Delivered(ops[|ops| - 1]) && PortsExact(ports, ops[..|ops| - 1])
    requires t == if DeliveredToPort(o) then Added(ports, PORT_CAP, o.value.dstPort, o.value.len) else ports
    ensures PortsExact(t, ops)
  {
    hide Delivered, Bytes, Plus, Total, PortsConfined, Added, Got, InLab;
    BytesUnfold(LabPort, ops);
    if DeliveredToPort(o) {
      DeliveredIsSane(ops[|ops| - 1]);
      PortNeverRefused(ports, o.value.dstPort, o.value.len);
      TotalOfUpdate(ports, o.value.dstPort, o.value.len);
    }
    forall p: nat ensures Got(t, p) == Bytes(ToPort(p), ops) {
      BytesUnfold(ToPort(p), ops);
      if DeliveredToPort(o) {
        GotPlus(ports, o.value.dstPort, o.value.len, p);
      }
    }
  }

  lemma PlusKeepsSums(ips: map<Ip, nat>, subnets: map<Ip, nat>, ip: Ip, len: nat)
    requires SubnetsAreSums(ips, subnets)
    ensures SubnetsAreSums(Plus(ips, ip, len), Plus(subnets, Subnet(ip), len))
  {
    hide Plus, Block, Got;
    forall s: Ip | s.d == 0 ensures Got(Plus(subnets, Subnet(ip), len), s) == Block(Plus(ips, ip, len), s, 256) {
      BlockOfUpdate(ips, s, 256, ip, len);
      GotPlus(subnets, Subnet(ip), len, s);
      assert ip.d < 256;
    }
  }

  ghost predicate Conserved(m: Maps, ops: seq<Op>) {
    IpsExact(m.ips, ops) && SubnetsExact(m.subnets, ops) && PortsExact(m.ports, ops) && SubnetsAreSums(m.ips, m.subnets)
  }

  lemma EmptyConserved()
    ensures Conserved(EMPTY, [])
  {
    forall s: Ip | s.d == 0 ensures Got(EMPTY.subnets, s) == Block(EMPTY.ips, s, 256) {
      EmptyBlock(s, 256);
    }
  }

  lemma StepConserved(m: Maps, ops: seq<Op>)
    requires ops != [] && Conserved(m, ops[..|ops| - 1])
    ensures Conserved(Do(m, ops[|ops| - 1]), ops)
  {
    var op := ops[|ops| - 1];
    var t, o := Do(m, op), Delivered(op);
    hide IpsExact, SubnetsExact, PortsExact, SubnetsAreSums, Do, Delivered, Added, Plus, HasPort, InLab;
    StepStats(m, op);
    StepIps(m.ips, t.ips, o, ops);
    StepSubnets(m.subnets, t.subnets, o, ops);
    StepPorts(m.ports, t.ports, o, ops);
    if DeliveredTo(o) {
      PlusKeepsSums(m.ips, m.subnets, o.value.dst, o.value.len);
    }
  }

  /** Top-N conservation, over every run: no insert is refused, every entry is exactly the bytes sent
      to its address, /24 or port, each /24 is the sum of its addresses, and each map's total is the
      laboratory traffic, or the part of it that has a port. */
  lemma {:induction false} TopNConserved(ops: seq<Op>)
    ensures Conserved(After(ops), ops)
  {
    if ops == [] {
      EmptyConserved();
    } else {
      hide Conserved, Do;
      TopNConserved(ops[..|ops| - 1]);
      StepConserved(After(ops[..|ops| - 1]), ops);
    }
  }

  /** The three maps never hold more keys than they have room for, and the bytes attributed to ports
      never exceed those attributed to addresses. */
  lemma PortsWithinAddresses(ops: seq<Op>)
    ensures Total(After(ops).ports) <= Total(After(ops).ips) == Total(After(ops).subnets)
    ensures |After(ops).ips| <= 65536 && |After(ops).subnets| <= 256 && |After(ops).ports| <= 65535
  {
    TopNConserved(ops);
    FewerPortBytes(ops);
    hide SubnetsAreSums, Total, Bytes;
    var m := After(ops);
    LabRoom(m.ips.Keys);
    Pigeonhole(m.subnets.Keys, (x: Ip) => x.c, SUBNET_CAP);
    Pigeonhole(m.ports.Keys, (x: nat) => x - 1, PORT_CAP - 1);
  }

  lemma {:induction false} FewerPortBytes(ops: seq<Op>)
    ensures Bytes(LabPort, ops) <= Bytes(Lab, ops)
  {
    if ops != [] {
      hide Delivered, HasPort, InLab;
      FewerPortBytes(ops[..|ops| - 1]);
    }
  }
}
