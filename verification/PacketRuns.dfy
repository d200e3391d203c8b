/** Runs of the data path: packets in both directions in any order, evictions by the kernel's LRU
    maps at any time, and the poller deleting UE entries. What every run keeps in the UE counters,
    and what the counters are (bpf/anlf.c:28-141). */
module PacketRuns {
  import opened Gtpu
  import opened PacketPath
  import opened Wrappers
  import Bitmap

  datatype Op =
    | Ingress(frame: seq<byte>)
    | Egress(frame: seq<byte>)
    | EvictFlow(k: FlowKey)
    | EvictTls(k: FlowKey)
    | DeleteUe(ip: Ip)

  function Do(m: Maps, op: Op): Maps {
    match op
    case Ingress(frame) => UplinkIf(m, SeenIngress(frame))
    case Egress(frame) => DownlinkIf(m, SentEgress(frame))
    case EvictFlow(k) => m.(flows := m.flows - {k})
    case EvictTls(k) => m.(tls := m.tls - {k})
    case DeleteUe(ip) => m.(ue := m.ue - {ip})
  }

  /** The maps after a run that starts with empty maps. */
  function After(ops: seq<Op>): Maps {
    if ops == [] then EMPTY else Do(After(ops[..|ops| - 1]), ops[|ops| - 1])
  }

  /** What holds of every packet the programs let through. */
  ghost predicate Sane(u: Seen) {
    && InUeSubnet(u.src) && u.len >= 20 && u.dstPort < 0x1_0000 && u.srcPort < 0x1_0000
    && (u.l4 ==> u.proto == TCP || u.proto == UDP)
  }

  lemma SeenIsSane(frame: seq<byte>)
    requires SeenIngress(frame).Some?
    ensures Sane(SeenIngress(frame).value)
  {
  }

  lemma SentIsSane(frame: seq<byte>)
    requires SentEgress(frame).Some?
    ensures InUeSubnet(SentEgress(frame).value.ue) && SentEgress(frame).value.len >= 20
  {
  }

  // ---------------------------------------------------------------- the invariant of the counters

  ghost predicate Consistent(v: Metrics) {
    && v.tcp + v.udp + v.icmp <= v.packets && v.syn <= v.tcp && v.rst <= v.tcp
    && v.newFlows <= v.tcp + v.udp
    && v.dlAck <= v.dlTcp <= v.dlPackets
    && v.bytes >= 20 * v.packets && v.dlBytes >= 20 * v.dlPackets
    && (v.bitmap == 0 <==> v.packets == 0)
    && Bitmap.Pop(v.bitmap) <= v.packets
  }

  ghost predicate UesConsistent(ue: map<Ip, Metrics>) {
    && |ue| <= UE_CAP
    && forall ip | ip in ue :: InUeSubnet(ip) && Consistent(ue[ip]) && ue[ip].packets + ue[ip].dlPackets > 0
  }

  lemma CountKeepsConsistent(v: Metrics, u: Seen, isNew: bool)
    requires Consistent(v) && Sane(u) && (isNew ==> Opens(u))
    ensures Consistent(Count(v, u, isNew))
  {
    hide Bitmap.With, Bitmap.Pop, Bucket;
    Bitmap.PopOfSet(v.bitmap, Bucket(u.dst));
    Bitmap.SetIsNonzero(v.bitmap, Bucket(u.dst));
  }

  lemma CountSentKeepsConsistent(v: Metrics, s: Sent)
    requires Consistent(v) && s.len >= 20
    ensures Consistent(CountSent(v, s))
  {
  }

  lemma ZeroIsConsistent()
    ensures Consistent(ZERO)
  {
  }

  lemma PutKeeps(ue: map<Ip, Metrics>, ip: Ip, v: Metrics)
    requires UesConsistent(ue) && InUeSubnet(ip) && Consistent(v) && v.packets + v.dlPackets > 0
    ensures UesConsistent(Put(ue, UE_CAP, ip, v))
  {
    hide Consistent;
    if ip in ue {
      assert ue[ip := v].Keys == ue.Keys;
    } else {
      assert ue[ip := v].Keys == ue.Keys + {ip};
    }
  }

  lemma DeleteKeeps(ue: map<Ip, Metrics>, ip: Ip)
    requires UesConsistent(ue)
    ensures UesConsistent(ue - {ip})
  {
    hide Consistent;
    assert (ue - {ip}).Keys == ue.Keys - {ip};
  }

  lemma UplinkKeepsConsistent(m: Maps, u: Seen)
    requires UesConsistent(m.ue) && Sane(u)
    ensures UesConsistent(Uplink(m, u).ue)
  {
    var v, isNew := Entry(m.ue, u.src), IsNewFlow(m.flows, u);
    EntryConsistent(m.ue, u.src);
    hide UesConsistent, Consistent, Put;
    CountKeepsConsistent(v, u, isNew);
    PutKeeps(m.ue, u.src, Count(v, u, isNew));
  }

  lemma DownlinkKeepsConsistent(m: Maps, s: Sent)
    requires UesConsistent(m.ue) && InUeSubnet(s.ue) && s.len >= 20
    ensures UesConsistent(Downlink(m, s).ue)
  {
    var v := Entry(m.ue, s.ue);
    EntryConsistent(m.ue, s.ue);
    hide UesConsistent, Consistent, Put;
    CountSentKeepsConsistent(v, s);
    PutKeeps(m.ue, s.ue, CountSent(v, s));
  }

  lemma StepKeepsConsistent(m: Maps, op: Op)
    requires UesConsistent(m.ue)
    ensures UesConsistent(Do(m, op).ue)
  {
    hide UesConsistent, Uplink, Downlink, SeenIngress, SentEgress;
    match op
    case Ingress(frame) =>
      if SeenIngress(frame).Some? {
        SeenIsSane(frame);
        UplinkKeepsConsistent(m, SeenIngress(frame).value);
      }
    case Egress(frame) =>
      if SentEgress(frame).Some? {
        SentIsSane(frame);
        DownlinkKeepsConsistent(m, SentEgress(frame).value);
      }
    case DeleteUe(ip) => DeleteKeeps(m.ue, ip);
    case EvictFlow(_) =>
    case EvictTls(_) =>
  }

  /** After every run: no counter exceeds the one it is part of, every packet had at least an IP
      header, and no destination was marked without a packet. */
  lemma {:induction false} CountersAlwaysConsistent(ops: seq<Op>)
    ensures UesConsistent(After(ops).ue)
  {
    if ops != [] {
      CountersAlwaysConsistent(ops[..|ops| - 1]);
      hide Do, UesConsistent;
      StepKeepsConsistent(After(ops[..|ops| - 1]), ops[|ops| - 1]);
    }
  }

  lemma EntryConsistent(ue: map<Ip, Metrics>, ip: Ip)
    requires UesConsistent(ue)
    ensures Consistent(Entry(ue, ip))
  {
    ZeroIsConsistent();
  }

  // ---------------------------------------------------------------- what the counters are

  /** A packet counted for a UE; whether an uplink packet was the first of its flow depends on the
      flow map at the time. */
  datatype Sight = Up(u: Seen, isNew: bool) | Down(s: Sent)

  /** The UE a frame belongs to. */
  ghost function UeOf(op: Op): set<Ip> {
    match op
    case Ingress(frame) => if SeenIngress(frame).Some? then {SeenIngress(frame).value.src} else {}
    case Egress(frame) => if SentEgress(frame).Some? then {SentEgress(frame).value.ue} else {}
    case _ => {}
  }

  /** The packet finds no entry and no room for one: it leaves no trace in the counters. */
  ghost predicate Refused(ue: map<Ip, Metrics>, op: Op, ip: Ip) {
    ip in UeOf(op) && ip !in ue && |ue| >= UE_CAP
  }

  /** The packets of a UE since its entry was last deleted, without those a full map refused. */
  ghost function Sights(ops: seq<Op>, ip: Ip): seq<Sight> {
    if ops == [] then [] else
      var front := ops[..|ops| - 1];
      Sighted(After(front), Sights(front, ip), ops[|ops| - 1], ip)
  }

  ghost function Sighted(m: Maps, s: seq<Sight>, op: Op, ip: Ip): seq<Sight> {
    if Refused(m.ue, op, ip) then s
    else
      match op
      case Ingress(frame) =>
        var o := SeenIngress(frame);
        if o.Some? && o.value.src == ip then s + [Up(o.value, IsNewFlow(m.flows, o.value))] else s
      case Egress(frame) =>
        var o := SentEgress(frame);
        if o.Some? && o.value.ue == ip then s + [Down(o.value)] else s
      case DeleteUe(k) => if k == ip then [] else s
      case _ => s
  }

  datatype What = Packets | Bytes | Tcp | Udp | Icmp | SynFlag | RstFlag | NewFlows | DlPackets | DlBytes | DlTcp | DlAck

  /** What one packet contributes to a counter. */
  function Weight(w: What, x: Sight): nat {
    match x
    case Up(u, isNew) => (
      match w
      case Packets => 1
      case Bytes => u.len
      case Tcp => If(u.proto == TCP)
      case Udp => If(u.proto == UDP)
      case Icmp => If(u.proto == ICMP)
      case SynFlag => If(u.proto == TCP && Syn(u.flags))
      case RstFlag => If(u.proto == TCP && Rst(u.flags))
      case NewFlows => If(isNew)
      case _ => 0)
    case Down(s) => (
      match w
      case DlPackets => 1
      case DlBytes => s.len
      case DlTcp => If(s.proto == TCP)
      case DlAck => If(s.proto == TCP && Ack(s.flags))
      case _ => 0)
  }

  function Sum(w: What, xs: seq<Sight>): nat {
    if xs == [] then 0 else Sum(w, xs[..|xs| - 1]) + Weight(w, xs[|xs| - 1])
  }

  /** The destinations of the uplink packets. */
  function Destinations(xs: seq<Sight>): seq<bv32> {
    if xs == [] then []
    else Destinations(xs[..|xs| - 1]) + if xs[|xs| - 1].Up? then [Word(xs[|xs| - 1].u.dst)] else []
  }

  function Summary(xs: seq<Sight>): Metrics {
    Metrics(Sum(Packets, xs), Sum(Bytes, xs), Sum(Tcp, xs), Sum(Udp, xs), Sum(Icmp, xs), Sum(SynFlag, xs),
            Sum(RstFlag, xs), Sum(NewFlows, xs), Bitmap.Marked(Bitmap.Buckets(Destinations(xs))),
            Sum(DlPackets, xs), Sum(DlBytes, xs), Sum(DlTcp, xs), Sum(DlAck, xs))
  }

  lemma SumOfSnoc(w: What, xs: seq<Sight>, x: Sight)
    ensures Sum(w, xs + [x]) == Sum(w, xs) + Weight(w, x)
  {
    assert (xs + [x])[..|xs|] == xs;
  }

  lemma AllSumsOfSnoc(xs: seq<Sight>, x: Sight)
    ensures forall w :: Sum(w, xs + [x]) == Sum(w, xs) + Weight(w, x)
  {
    forall w ensures Sum(w, xs + [x]) == Sum(w, xs) + Weight(w, x) {
      SumOfSnoc(w, xs, x);
    }
  }

  lemma MarkedOfSnoc(xs: seq<Sight>, x: Sight)
    ensures Bitmap.Marked(Bitmap.Buckets(Destinations(xs + [x])))
         == if x.Up? then Bitmap.With(Bitmap.Marked(Bitmap.Buckets(Destinations(xs))), Bucket(x.u.dst))
            else Bitmap.Marked(Bitmap.Buckets(Destinations(xs)))
  {
    hide Bitmap.With, Bitmap.BucketOf, Word;
    assert (xs + [x])[..|xs|] == xs;
    if !x.Up? {
      assert Destinations(xs + [x]) == Destinations(xs) + [] == Destinations(xs);
    } else {
      Bitmap.BucketsOfSnoc(Destinations(xs), Word(x.u.dst));
      var bs := Bitmap.Buckets(Destinations(xs));
      assert (bs + [Bucket(x.u.dst)])[..|bs|] == bs;
    }
  }

  lemma SummaryOfUp(xs: seq<Sight>, u: Seen, isNew: bool)
    ensures Summary(xs + [Up(u, isNew)]) == Count(Summary(xs), u, isNew)
  {
    hide Sum, Destinations, Bitmap.With, Bitmap.Marked, Bitmap.Buckets, Bucket;
    AllSumsOfSnoc(xs, Up(u, isNew));
    MarkedOfSnoc(xs, Up(u, isNew));
  }

  lemma SummaryOfDown(xs: seq<Sight>, s: Sent)
    ensures Summary(xs + [Down(s)]) == CountSent(Summary(xs), s)
  {
    hide Sum, Destinations, Bitmap.With, Bitmap.Marked, Bitmap.Buckets, Bucket;
    AllSumsOfSnoc(xs, Down(s));
    MarkedOfSnoc(xs, Down(s));
  }

  ghost predicate Told(ue: map<Ip, Metrics>, ip: Ip, s: seq<Sight>) {
    (ip in ue <==> s != []) && Entry(ue, ip) == Summary(s)
  }

  lemma UplinkTold(m: Maps, u: Seen, ip: Ip, s: seq<Sight>)
    requires Told(m.ue, ip, s)
    ensures Told(Uplink(m, u).ue, ip,
                 if u.src == ip && (ip in m.ue || |m.ue| < UE_CAP) then s + [Up(u, IsNewFlow(m.flows, u))] else s)
  {
    hide Summary, Count, IsNewFlow, TlsAfter, EventsAfter, FlowsAfter, Added;
    SummaryOfUp(s, u, IsNewFlow(m.flows, u));
  }

  lemma DownlinkTold(m: Maps, d: Sent, ip: Ip, s: seq<Sight>)
    requires Told(m.ue, ip, s)
    ensures Told(Downlink(m, d).ue, ip, if d.ue == ip && (ip in m.ue || |m.ue| < UE_CAP) then s + [Down(d)] else s)
  {
    hide Summary, CountSent;
    SummaryOfDown(s, d);
  }

  lemma StepTold(m: Maps, op: Op, ip: Ip, s: seq<Sight>)
    requires Told(m.ue, ip, s)
    ensures Told(Do(m, op).ue, ip, Sighted(m, s, op, ip))
  {
    hide Uplink, Downlink, SeenIngress, SentEgress, Summary, IsNewFlow;
    match op
    case Ingress(frame) =>
      if SeenIngress(frame).Some? {
        UplinkTold(m, SeenIngress(frame).value, ip, s);
      }
    case Egress(frame) =>
      if SentEgress(frame).Some? {
        DownlinkTold(m, SentEgress(frame).value, ip, s);
      }
    case DeleteUe(_) => ZeroIsEmptySummary();
    case EvictFlow(_) =>
    case EvictTls(_) =>
  }

  /** The entry of a UE is the history of that UE, after every run: an entry exists exactly for the
      UEs with packets that found room since their entry was last deleted, and it is the sum of those
      packets, untouched by anybody else's. */
  lemma {:induction false} EntryIsHistory(ops: seq<Op>, ip: Ip)
    ensures Told(After(ops).ue, ip, Sights(ops, ip))
  {
    if ops == [] {
      ZeroIsEmptySummary();
    } else {
      hide Told, Sighted, Do;
      EntryIsHistory(ops[..|ops| - 1], ip);
      SightsUnfold(ops, ip);
      StepTold(After(ops[..|ops| - 1]), ops[|ops| - 1], ip, Sights(ops[..|ops| - 1], ip));
    }
  }

  lemma SightsUnfold(ops: seq<Op>, ip: Ip)
    requires ops != []
    ensures var front := ops[..|ops| - 1];
            Sights(ops, ip) == Sighted(After(front), Sights(front, ip), ops[|ops| - 1], ip)
  {
  }

  lemma ZeroIsEmptySummary()
    ensures Summary([]) == ZERO
  {
  }

  /** Fan-out after any run: the ones of the bitmap are the distinct buckets of the destinations, so
      no more than 64, than the distinct destinations, or than the packets. */
  lemma FanOutExact(ops: seq<Op>, ip: Ip)
    ensures var v, dsts := Entry(After(ops).ue, ip), Destinations(Sights(ops, ip));
            && Bitmap.Pop(v.bitmap) == |Bitmap.Distinct(Bitmap.Buckets(dsts))|
            && Bitmap.Pop(v.bitmap) <= 64 && Bitmap.Pop(v.bitmap) <= |Bitmap.Distinct(dsts)| <= v.packets
  {
    hide Bitmap.Pop, Bitmap.BucketOf;
    EntryIsHistory(ops, ip);
    Bitmap.FanOutIsBounded(Destinations(Sights(ops, ip)));
    OneDestinationPerPacket(Sights(ops, ip));
  }

  lemma {:induction false} OneDestinationPerPacket(xs: seq<Sight>)
    ensures |Destinations(xs)| == Sum(Packets, xs)
  {
    if xs != [] {
      OneDestinationPerPacket(xs[..|xs| - 1]);
    }
  }

  // ---------------------------------------------------------------- room for every UE

  /** The packets of a UE that were refused. */
  ghost function Refusals(ops: seq<Op>, ip: Ip): nat {
    if ops == [] then 0
    else Refusals(ops[..|ops| - 1], ip) + If(Refused(After(ops[..|ops| - 1]).ue, ops[|ops| - 1], ip))
  }

  /** The UEs with any packet in a run. */
  ghost function Ues(ops: seq<Op>): set<Ip> {
    if ops == [] then {} else Ues(ops[..|ops| - 1]) + UeOf(ops[|ops| - 1])
  }

  lemma StepKeys(m: Maps, op: Op)
    ensures Do(m, op).ue.Keys <= m.ue.Keys + UeOf(op)
  {
    hide SeenIngress, SentEgress, Count, CountSent, TlsAfter, EventsAfter, FlowsAfter, Added, InLab, HasPort;
  }

  lemma {:induction false} KeysAreUes(ops: seq<Op>)
    ensures After(ops).ue.Keys <= Ues(ops)
  {
    if ops != [] {
      hide Do, UeOf;
      KeysAreUes(ops[..|ops| - 1]);
      StepKeys(After(ops[..|ops| - 1]), ops[|ops| - 1]);
    }
  }

  lemma Smaller<T>(a: set<T>, b: set<T>)
    requires a <= b
    ensures |a| <= |b|
    decreases |a|
  {
    if x :| x in a {
      Smaller(a - {x}, b - {x});
    }
  }

  lemma NotFull(ue: map<Ip, Metrics>, all: set<Ip>, ip: Ip)
    requires ue.Keys <= all && |all| <= UE_CAP && ip in all && ip !in ue
    ensures |ue| < UE_CAP
  {
    assert ue.Keys <= all - {ip};
    Smaller(ue.Keys, all - {ip});
  }

  /** A run that involves no more UEs than the map holds refuses nobody. */
  lemma {:induction false} FewUesNoRefusal(ops: seq<Op>, ip: Ip)
    requires |Ues(ops)| <= 10240
    ensures Refusals(ops, ip) == 0
  {
    if ops != [] {
      hide Do, UeOf;
      var front := ops[..|ops| - 1];
      Smaller(Ues(front), Ues(ops));
      FewUesNoRefusal(front, ip);
      KeysAreUes(front);
      if ip in Ues(ops) && ip !in After(front).ue {
        NotFull(After(front).ue, Ues(ops), ip);
      }
    }
  }
}
