/** Counters turned into the feature vector (pkg/ebpf/features.go:10-110), over exact reals and with
    log10 left as any function, and the two tests for a record without traffic
    (internal/analyzer/detector/anomaly_detector.go:28-40; internal/analyzer/analyzer.go:103-108). */
module Features {
  import opened PacketPath
  import opened PacketRuns
  import opened Wrappers
  import Bitmap

  datatype Vector = Vector(
    ulLogPPS: real, avgLen: real, icmpRatio: real, tcpRatio: real, udpRatio: real, synRatio: real, rstRatio: real,
    newFlowRate: real, fanOut: real,
    dlLogPPS: real, dlAvgLen: real, ppsRatio: real, byteRatio: real, ackRatio: real)

  const NO_TRAFFIC := Vector(0.0, 0.0, 0.0, 0.0, 0.0, 0.0, 0.0, 0.0, 0.0, 0.0, 0.0, 0.0, 0.0, 0.0)

  /** `math.Round`: half away from zero. */
  function Round(x: real): int {
    if x >= 0.0 then (x + 0.5).Floor else -((0.5 - x).Floor)
  }

  function Hundredths(x: real): real {
    Round(x * 100.0) as real / 100.0
  }

  function Ratio(a: nat, b: nat): real {
    if b == 0 then 0.0 else a as real / b as real
  }

  /** The features before rounding. */
  function Exact(v: Metrics, log10: real -> real): Vector {
    var ul, dl := v.packets > 0, v.dlPackets > 0;
    Vector(
      if ul then log10(v.packets as real) else 0.0,
      if v.bytes > 0 && ul then Ratio(v.bytes, v.packets) else 0.0,
      Ratio(v.icmp, v.packets), Ratio(v.tcp, v.packets), Ratio(v.udp, v.packets),
      Ratio(v.syn, v.packets), Ratio(v.rst, v.packets),
      AtMostOne(Ratio(v.newFlows, v.packets)),
      Bitmap.Pop(v.bitmap) as real / 64.0,
      if dl then log10(v.dlPackets as real) else 0.0,
      if dl && v.dlBytes > 0 then Ratio(v.dlBytes, v.dlPackets) else 0.0,
      if dl && ul then Ratio(v.dlPackets, v.packets) else 0.0,
      if dl && v.bytes > 0 then Ratio(v.dlBytes, v.bytes) else 0.0,
      if dl && v.dlTcp > 0 then Ratio(v.dlAck, v.dlTcp) else 0.0)
  }

  function AtMostOne(x: real): real {
    if x > 1.0 then 1.0 else x
  }

  function Rounded(f: Vector): Vector {
    Vector(Hundredths(f.ulLogPPS), Hundredths(f.avgLen), Hundredths(f.icmpRatio), Hundredths(f.tcpRatio),
           Hundredths(f.udpRatio), Hundredths(f.synRatio), Hundredths(f.rstRatio), Hundredths(f.newFlowRate),
           Hundredths(f.fanOut), Hundredths(f.dlLogPPS), Hundredths(f.dlAvgLen), Hundredths(f.ppsRatio),
           Hundredths(f.byteRatio), Hundredths(f.ackRatio))
  }

  function ConvertToFeatures(m: Option<Metrics>, log10: real -> real): Vector {
    match m
    case None => NO_TRAFFIC
    case Some(v) => if v.packets == 0 && v.dlPackets == 0 then NO_TRAFFIC else Rounded(Exact(v, log10))
  }

  /** The detector's test: no request is sent for such a record. */
  predicate IsEmptyRecord(f: Vector) {
    && f.ulLogPPS == 0.0 && f.avgLen == 0.0 && f.icmpRatio == 0.0 && f.tcpRatio == 0.0 && f.udpRatio == 0.0
    && f.synRatio == 0.0 && f.rstRatio == 0.0 && f.newFlowRate == 0.0 && f.fanOut == 0.0
  }

  /** The analyzer's test: such a record is left out of the averages. */
  predicate IsInactive(f: Vector) {
    f.ulLogPPS == 0.0 && f.avgLen == 0.0 && f.newFlowRate == 0.0
  }

  // ---------------------------------------------------------------- rounding

  lemma RoundNearest(x: real)
    ensures -0.5 <= Round(x) as real - x <= 0.5
    ensures Round(-x) == -Round(x)
  {
  }

  lemma RoundMonotone(x: real, y: real)
    requires x <= y
    ensures Round(x) <= Round(y)
  {
  }

  lemma RoundOfInt(n: int)
    ensures Round(n as real) == n
  {
  }

  lemma HundredthsNearest(x: real)
    ensures -0.005 <= Hundredths(x) - x <= 0.005
  {
    RoundNearest(x * 100.0);
  }

  lemma HundredthsMonotone(x: real, y: real)
    requires x <= y
    ensures Hundredths(x) <= Hundredths(y)
  {
    RoundMonotone(x * 100.0, y * 100.0);
  }

  /** A rounded value stays as it is when it is rounded again. */
  lemma HundredthsIdempotent(x: real)
    ensures Hundredths(Hundredths(x)) == Hundredths(x)
  {
    RoundOfInt(Round(x * 100.0));
  }

  lemma HundredthsOfConstants()
    ensures Hundredths(0.0) == 0.0 && Hundredths(1.0) == 1.0 && Hundredths(20.0) == 20.0
  {
    RoundOfInt(0);
    RoundOfInt(100);
    RoundOfInt(2000);
  }

  lemma HundredthsInUnit(x: real)
    requires 0.0 <= x <= 1.0
    ensures 0.0 <= Hundredths(x) <= 1.0
  {
    HundredthsOfConstants();
    HundredthsMonotone(0.0, x);
    HundredthsMonotone(x, 1.0);
  }

  lemma RatioInUnit(a: nat, b: nat)
    requires a <= b
    ensures 0.0 <= Ratio(a, b) <= 1.0
  {
  }

  lemma RatioAtLeast(a: nat, b: nat, n: nat)
    requires b > 0 && a >= n * b
    ensures Ratio(a, b) >= n as real
  {
    assert a as real >= n as real * b as real;
  }

  // ---------------------------------------------------------------- records of reachable counters

  predicate InUnit(x: real) { 0.0 <= x <= 1.0 }

  ghost predicate InRange(f: Vector) {
    && InUnit(f.icmpRatio) && InUnit(f.tcpRatio) && InUnit(f.udpRatio) && InUnit(f.synRatio) && InUnit(f.rstRatio)
    && InUnit(f.newFlowRate) && InUnit(f.fanOut) && InUnit(f.ackRatio)
  }

  lemma ExactInRange(v: Metrics, log10: real -> real)
    requires Consistent(v)
    ensures InRange(Exact(v, log10))
    ensures Ratio(v.newFlows, v.packets) <= 1.0
    ensures v.packets > 0 ==> Exact(v, log10).avgLen >= 20.0
  {
    hide Ratio, Bitmap.Pop;
    RatioInUnit(v.icmp, v.packets);
    RatioInUnit(v.tcp, v.packets);
    RatioInUnit(v.udp, v.packets);
    RatioInUnit(v.syn, v.packets);
    RatioInUnit(v.rst, v.packets);
    RatioInUnit(v.newFlows, v.packets);
    RatioInUnit(v.dlAck, v.dlTcp);
    Bitmap.PopAtMost64(v.bitmap);
    if v.packets > 0 {
      RatioAtLeast(v.bytes, v.packets, 20);
    }
  }

  lemma RoundedInRange(f: Vector)
    requires InRange(f)
    ensures InRange(Rounded(f))
  {
    hide Hundredths;
    HundredthsInUnit(f.icmpRatio);
    HundredthsInUnit(f.tcpRatio);
    HundredthsInUnit(f.udpRatio);
    HundredthsInUnit(f.synRatio);
    HundredthsInUnit(f.rstRatio);
    HundredthsInUnit(f.newFlowRate);
    HundredthsInUnit(f.fanOut);
    HundredthsInUnit(f.ackRatio);
  }

  /** Whatever log10 is: the ratios of reachable counters lie between 0 and 1, the clamp on the flow
      rate never acts, and an uplink packet makes the average length at least 20. */
  lemma RatiosInRange(v: Metrics, log10: real -> real)
    requires Consistent(v)
    ensures InRange(ConvertToFeatures(Some(v), log10))
    ensures Ratio(v.newFlows, v.packets) <= 1.0
    ensures v.packets > 0 ==> ConvertToFeatures(Some(v), log10).avgLen >= 20.0
  {
    hide Hundredths, Ratio, Bitmap.Pop, Exact, Consistent;
    ExactInRange(v, log10);
    RoundedInRange(Exact(v, log10));
    hide InRange;
    if v.packets > 0 {
      LongEnoughRounded(v, log10);
    }
  }

  lemma LongEnoughRounded(v: Metrics, log10: real -> real)
    requires v.packets > 0 && Exact(v, log10).avgLen >= 20.0
    ensures ConvertToFeatures(Some(v), log10).avgLen >= 20.0
  {
    hide Hundredths, Exact;
    HundredthsOfConstants();
    HundredthsMonotone(20.0, Exact(v, log10).avgLen);
  }

  /** The three notions of a record without traffic are one for reachable or missing counters: the
      detector's nine fields, the analyzer's three, and no uplink packet in the window. */
  lemma EmptinessAgrees(m: Option<Metrics>, log10: real -> real)
    requires m.Some? ==> Consistent(m.value)
    ensures IsEmptyRecord(ConvertToFeatures(m, log10)) <==> m.None? || m.value.packets == 0
    ensures IsInactive(ConvertToFeatures(m, log10)) <==> m.None? || m.value.packets == 0
  {
    if m.Some? {
      if m.value.packets > 0 {
        RatiosInRange(m.value, log10);
      } else {
        NoUplinkIsEmpty(m.value, log10);
      }
    }
    hide Exact, Rounded, Consistent;
  }

  lemma NoUplinkIsEmpty(v: Metrics, log10: real -> real)
    requires Consistent(v) && v.packets == 0
    ensures IsEmptyRecord(ConvertToFeatures(Some(v), log10)) && IsInactive(ConvertToFeatures(Some(v), log10))
  {
    hide Exact, Rounded, Consistent;
    ExactWithoutUplink(v, log10);
    RoundedEmpty(Exact(v, log10));
  }

  lemma ExactWithoutUplink(v: Metrics, log10: real -> real)
    requires Consistent(v) && v.packets == 0
    ensures IsEmptyRecord(Exact(v, log10))
  {
    NoBits(v);
    NoShare();
    hide Ratio, Bitmap.Pop;
  }

  lemma NoBits(v: Metrics)
    requires Consistent(v) && v.packets == 0
    ensures Bitmap.Pop(v.bitmap) == 0 && v.bytes >= 0
  {
  }

  lemma RoundedEmpty(f: Vector)
    requires IsEmptyRecord(f)
    ensures IsEmptyRecord(Rounded(f))
  {
    HundredthsOfConstants();
    hide Hundredths;
  }

  lemma NoShare()
    ensures Ratio(0, 0) == 0.0
  {
  }

  /** The same for every entry of the map after any run. */
  lemma ReachableRecordsAgree(ops: seq<Op>, ip: Ip, log10: real -> real)
    requires ip in After(ops).ue
    ensures var v := After(ops).ue[ip];
            var f := ConvertToFeatures(Some(v), log10);
            (IsEmptyRecord(f) <==> v.packets == 0) && (IsInactive(f) <==> v.packets == 0)
  {
    CountersAlwaysConsistent(ops);
    EmptinessAgrees(Some(After(ops).ue[ip]), log10);
  }

  /** A UE with downlink traffic only counts as empty, however much it receives. */
  lemma DownlinkOnlyIsEmpty(v: Metrics, log10: real -> real)
    requires Consistent(v) && v.packets == 0 && v.dlPackets > 0
    ensures IsEmptyRecord(ConvertToFeatures(Some(v), log10)) && IsInactive(ConvertToFeatures(Some(v), log10))
  {
    EmptinessAgrees(Some(v), log10);
  }

  /** The first packet of a UE without an entry is stored whole, and never looks idle. */
  lemma FirstPacketIsStoredWhole(u: Seen, isNew: bool, log10: real -> real)
    requires Sane(u) && (isNew ==> Opens(u))
    ensures var f := ConvertToFeatures(Some(Count(ZERO, u, isNew)), log10);
            !IsEmptyRecord(f) && !IsInactive(f)
  {
    ZeroIsConsistent();
    CountKeepsConsistent(ZERO, u, isNew);
    EmptinessAgrees(Some(Count(ZERO, u, isNew)), log10);
  }

  // ---------------------------------------------------------------- field by field

  /** x is a/b up to half a hundredth. */
  predicate Near(x: real, a: nat, b: nat) {
    -0.005 * b as real <= x * b as real - a as real <= 0.005 * b as real
  }

  predicate Close(x: real, y: real) { -0.005 <= x - y <= 0.005 }

  lemma NearRatio(a: nat, b: nat)
    requires b > 0
    ensures Near(Hundredths(Ratio(a, b)), a, b)
  {
    var r := Ratio(a, b);
    assert r * b as real == a as real;
    HundredthsNearest(r);
    NearProduct(Hundredths(r), r, b as real);
  }

  lemma NearProduct(x: real, r: real, b: real)
    requires b > 0.0 && Close(x, r)
    ensures -0.005 * b <= x * b - r * b <= 0.005 * b
  {
    assert x * b - r * b == (x - r) * b;
    Scaled(-0.005, x - r, b);
    Scaled(x - r, 0.005, b);
  }

  lemma Scaled(x: real, y: real, b: real)
    requires b > 0.0 && x <= y
    ensures x * b <= y * b
  {
  }

  /** Of any entry with uplink packets, each uplink feature is its own counter over the packets. */
  lemma UplinkFeatures(v: Metrics, log10: real -> real)
    requires v.packets > 0
    ensures var f := ConvertToFeatures(Some(v), log10);
            && Close(f.ulLogPPS, log10(v.packets as real)) && Near(f.avgLen, v.bytes, v.packets)
            && Near(f.icmpRatio, v.icmp, v.packets) && Near(f.tcpRatio, v.tcp, v.packets) && Near(f.udpRatio, v.udp, v.packets)
            && Near(f.synRatio, v.syn, v.packets) && Near(f.rstRatio, v.rst, v.packets)
            && (v.newFlows <= v.packets ==> Near(f.newFlowRate, v.newFlows, v.packets))
            && (v.newFlows > v.packets ==> f.newFlowRate == 1.0)
  {
    NearRatio(v.bytes, v.packets);
    NearRatio(v.icmp, v.packets);
    NearRatio(v.tcp, v.packets);
    NearRatio(v.udp, v.packets);
    NearRatio(v.syn, v.packets);
    NearRatio(v.rst, v.packets);
    NearRatio(v.newFlows, v.packets);
    HundredthsNearest(log10(v.packets as real));
    FlowRate(v.newFlows, v.packets);
    NoBytes(v.packets);
    hide Near, Ratio, Hundredths, Bitmap.Pop, AtMostOne;
  }

  lemma FlowRate(a: nat, b: nat)
    requires b > 0
    ensures a <= b ==> AtMostOne(Ratio(a, b)) == Ratio(a, b)
    ensures a > b ==> Hundredths(AtMostOne(Ratio(a, b))) == 1.0
  {
    HundredthsOfConstants();
    if a <= b {
      RatioInUnit(a, b);
    } else {
      AboveOne(a, b);
    }
    hide Hundredths, Ratio;
  }

  lemma AboveOne(a: nat, b: nat)
    requires 0 < b < a
    ensures Ratio(a, b) > 1.0
  {
    assert Ratio(a, b) * b as real == a as real;
  }

  lemma NoBytes(b: nat)
    requires b > 0
    ensures Ratio(0, b) == 0.0
  {
  }

  /** Of any entry with downlink packets, each downlink feature is its own pair of counters. */
  lemma DownlinkFeatures(v: Metrics, log10: real -> real)
    requires v.dlPackets > 0
    ensures var f := ConvertToFeatures(Some(v), log10);
            && Close(f.dlLogPPS, log10(v.dlPackets as real)) && Near(f.dlAvgLen, v.dlBytes, v.dlPackets)
            && (if v.packets > 0 then Near(f.ppsRatio, v.dlPackets, v.packets) else f.ppsRatio == 0.0)
            && (if v.bytes > 0 then Near(f.byteRatio, v.dlBytes, v.bytes) else f.byteRatio == 0.0)
            && (if v.dlTcp > 0 then Near(f.ackRatio, v.dlAck, v.dlTcp) else f.ackRatio == 0.0)
  {
    HundredthsNearest(log10(v.dlPackets as real));
    NoBytes(v.dlPackets);
    RatioOrZero(v.dlBytes, v.dlPackets);
    RatioOrZero(v.dlPackets, v.packets);
    RatioOrZero(v.dlBytes, v.bytes);
    RatioOrZero(v.dlAck, v.dlTcp);
    hide Near, Ratio, Hundredths, Bitmap.Pop, AtMostOne;
    assert ConvertToFeatures(Some(v), log10) == Rounded(Exact(v, log10));
  }

  lemma RatioOrZero(a: nat, b: nat)
    ensures b > 0 ==> Near(Hundredths(Ratio(a, b)), a, b)
    ensures Hundredths(0.0) == 0.0
  {
    HundredthsOfConstants();
    if b > 0 {
      NearRatio(a, b);
    }
  }

  /** The fan-out is the number of ones over 64. */
  lemma FanOutFeature(v: Metrics, log10: real -> real)
    requires v.packets + v.dlPackets > 0
    ensures Near(ConvertToFeatures(Some(v), log10).fanOut, Bitmap.Pop(v.bitmap), 64)
  {
    NearRatio(Bitmap.Pop(v.bitmap), 64);
    OfSixtyFour(Bitmap.Pop(v.bitmap));
    hide Near, Ratio, Hundredths, Bitmap.Pop;
  }

  /** A side without packets has zeros. */
  lemma ZeroFeatures(v: Metrics, log10: real -> real)
    ensures var f := ConvertToFeatures(Some(v), log10);
            && (v.packets == 0 ==> f.ulLogPPS == 0.0 && f.avgLen == 0.0 && f.icmpRatio == 0.0 && f.tcpRatio == 0.0
                                   && f.udpRatio == 0.0 && f.synRatio == 0.0 && f.rstRatio == 0.0 && f.newFlowRate == 0.0)
            && (v.dlPackets == 0 ==> f.dlLogPPS == 0.0 && f.dlAvgLen == 0.0 && f.ppsRatio == 0.0 && f.byteRatio == 0.0
                                     && f.ackRatio == 0.0)
  {
    HundredthsOfConstants();
    NoPackets(v.icmp);
    NoPackets(v.tcp);
    NoPackets(v.udp);
    NoPackets(v.syn);
    NoPackets(v.rst);
    NoPackets(v.newFlows);
    hide Ratio, Hundredths, Bitmap.Pop;
  }

  lemma NoPackets(a: nat)
    ensures Ratio(a, 0) == 0.0
  {
  }

  lemma OfSixtyFour(n: nat)
    ensures Ratio(n, 64) == n as real / 64.0
  {
  }

  /** A missing entry has zeros everywhere. */
  lemma MissingFeatures(log10: real -> real)
    ensures ConvertToFeatures(None, log10)
         == Vector(0.0, 0.0, 0.0, 0.0, 0.0, 0.0, 0.0, 0.0, 0.0, 0.0, 0.0, 0.0, 0.0, 0.0)
  {
  }

  /** The features of a UE after any run are those of its own packets since its entry was last deleted. */
  lemma FeaturesOfRun(ops: seq<Op>, ip: Ip, log10: real -> real)
    requires ip in After(ops).ue
    ensures var f, s := ConvertToFeatures(Some(After(ops).ue[ip]), log10), Sights(ops, ip);
            && (Sum(Packets, s) > 0 ==>
                  && Near(f.avgLen, Sum(Bytes, s), Sum(Packets, s)) && Near(f.icmpRatio, Sum(Icmp, s), Sum(Packets, s))
                  && Near(f.tcpRatio, Sum(Tcp, s), Sum(Packets, s)) && Near(f.udpRatio, Sum(Udp, s), Sum(Packets, s))
                  && Near(f.synRatio, Sum(SynFlag, s), Sum(Packets, s)) && Near(f.rstRatio, Sum(RstFlag, s), Sum(Packets, s))
                  && Near(f.newFlowRate, Sum(NewFlows, s), Sum(Packets, s)))
            && (Sum(DlPackets, s) > 0 ==> Near(f.dlAvgLen, Sum(DlBytes, s), Sum(DlPackets, s)))
            && Near(f.fanOut, |Bitmap.Distinct(Bitmap.Buckets(Destinations(s)))|, 64)
  {
    var v := After(ops).ue[ip];
    EntryIsHistory(ops, ip);
    FanOutExact(ops, ip);
    CountersAlwaysConsistent(ops);
    if v.packets > 0 { UplinkFeatures(v, log10); }
    if v.dlPackets > 0 { DownlinkFeatures(v, log10); }
    FanOutFeature(v, log10);
    hide Near, ConvertToFeatures, Sum, Bitmap.Pop, Sights, Destinations, After;
  }

  /** Halves are rounded away from zero. */
  lemma RoundHalves(n: nat)
    ensures Round(n as real + 0.5) == n + 1 && Round(-(n as real + 0.5)) == -(n + 1)
  {
  }

  /** The detector's test is on the uplink side as a whole: empty is the vector of no traffic with any
      downlink fields. */
  lemma EmptyExactly(f: Vector)
    ensures IsEmptyRecord(f) <==>
            f == Vector(0.0, 0.0, 0.0, 0.0, 0.0, 0.0, 0.0, 0.0, 0.0, f.dlLogPPS, f.dlAvgLen, f.ppsRatio, f.byteRatio, f.ackRatio)
  {
  }
}
