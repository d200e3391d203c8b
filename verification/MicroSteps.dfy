/** Several CPUs updating one existing UE entry at once (bpf/anlf.c:41-69, 116-126). Each packet is a
    short program of atomic additions, and the CPUs interleave them freely; a reader may look at any
    moment. Packets may keep arriving, on any number of CPUs. */
module MicroSteps {
  import opened PacketPath
  import opened PacketRuns
  import Bitmap

  datatype Atom = Add(w: What, n: nat) | Or(b: Bitmap.bucket)

  /** The atomic operations for one packet, in program order. */
  function Program(x: Sight): seq<Atom> {
    match x
    case Up(u, isNew) =>
      [Add(Packets, 1), Add(Bytes, u.len)] + ProtocolPart(u) + (if isNew then [Add(NewFlows, 1)] else []) + [Or(Bucket(u.dst))]
    case Down(s) =>
      [Add(DlPackets, 1), Add(DlBytes, s.len)]
      + if s.proto == TCP then [Add(DlTcp, 1)] + if Ack(s.flags) then [Add(DlAck, 1)] else [] else []
  }

  function ProtocolPart(u: Seen): seq<Atom> {
    if u.proto == TCP then
      [Add(Tcp, 1)] + (if Syn(u.flags) then [Add(SynFlag, 1)] else []) + if Rst(u.flags) then [Add(RstFlag, 1)] else []
    else if u.proto == UDP then [Add(Udp, 1)]
    else if u.proto == ICMP then [Add(Icmp, 1)]
    else []
  }

  function Field(w: What, v: Metrics): nat {
    match w
    case Packets => v.packets
    case Bytes => v.bytes
    case Tcp => v.tcp
    case Udp => v.udp
    case Icmp => v.icmp
    case SynFlag => v.syn
    case RstFlag => v.rst
    case NewFlows => v.newFlows
    case DlPackets => v.dlPackets
    case DlBytes => v.dlBytes
    case DlTcp => v.dlTcp
    case DlAck => v.dlAck
  }

  function Execute(v: Metrics, a: Atom): Metrics {
    match a
    case Or(b) => v.(bitmap := Bitmap.With(v.bitmap, b))
    case Add(w, n) =>
      match w
      case Packets => v.(packets := v.packets + n)
      case Bytes => v.(bytes := v.bytes + n)
      case Tcp => v.(tcp := v.tcp + n)
      case Udp => v.(udp := v.udp + n)
      case Icmp => v.(icmp := v.icmp + n)
      case SynFlag => v.(syn := v.syn + n)
      case RstFlag => v.(rst := v.rst + n)
      case NewFlows => v.(newFlows := v.newFlows + n)
      case DlPackets => v.(dlPackets := v.dlPackets + n)
      case DlBytes => v.(dlBytes := v.dlBytes + n)
      case DlTcp => v.(dlTcp := v.dlTcp + n)
      case DlAck => v.(dlAck := v.dlAck + n)
  }

  // ---------------------------------------------------------------- interleavings

  /** A packet being counted, and how many of its operations are done. */
  datatype Job = Job(x: Sight, done: nat)

  datatype Step = Arrive(x: Sight) | Run(i: nat)

  datatype State = State(v: Metrics, jobs: seq<Job>)

  /** New-flow packets are TCP or UDP packets; nothing else is known of a packet. */
  ghost predicate Fair(x: Sight) {
    x.Up? && x.isNew ==> x.u.proto == TCP || x.u.proto == UDP
  }

  ghost predicate Can(s: State, e: Step) {
    match e
    case Arrive(x) => Fair(x)
    case Run(i) => i < |s.jobs| && s.jobs[i].done < |Program(s.jobs[i].x)|
  }

  function Next(s: State, e: Step): State
    requires Can(s, e)
  {
    match e
    case Arrive(x) => s.(jobs := s.jobs + [Job(x, 0)])
    case Run(i) =>
      var j := s.jobs[i];
      State(Execute(s.v, Program(j.x)[j.done]), s.jobs[i := j.(done := j.done + 1)])
  }

  ghost predicate Legal(s: State, es: seq<Step>)
    decreases |es|
  {
    es == [] || (Can(s, es[0]) && Legal(Next(s, es[0]), es[1..]))
  }

  ghost function RunAll(s: State, es: seq<Step>): State
    requires Legal(s, es)
    decreases |es|
  {
    if es == [] then s else RunAll(Next(s, es[0]), es[1..])
  }

  // ---------------------------------------------------------------- what is done so far

  function Amount(a: Atom, w: What): nat {
    if a.Add? && a.w == w then a.n else 0
  }

  /** What the first `d` operations add to a counter. */
  function Part(w: What, p: seq<Atom>, d: nat): nat
    requires d <= |p|
  {
    if d == 0 then 0 else Part(w, p, d - 1) + Amount(p[d - 1], w)
  }

  function DonePart(w: What, j: Job): nat {
    if j.done <= |Program(j.x)| then Part(w, Program(j.x), j.done) else 0
  }

  function Parts(w: What, jobs: seq<Job>): nat {
    if jobs == [] then 0 else DonePart(w, jobs[0]) + Parts(w, jobs[1..])
  }

  /** Where in its program a packet updates a counter. */
  function Position(w: What, x: Sight): int {
    match w
    case Packets => 0
    case Bytes => 1
    case Tcp => 2
    case Udp => 2
    case Icmp => 2
    case SynFlag => 3
    case RstFlag => if x.Up? && Syn(x.u.flags) then 4 else 3
    case NewFlows => |Program(x)| - 2
    case DlPackets => 0
    case DlBytes => 1
    case DlTcp => 2
    case DlAck => 3
  }

  lemma {:induction false} OnlyAt(w: What, p: seq<Atom>, d: nat, k: int, n: nat)
    requires d <= |p| && forall i | 0 <= i < |p| :: Amount(p[i], w) == if i == k then n else 0
    ensures Part(w, p, d) == if 0 <= k < d then n else 0
  {
    if d > 0 {
      OnlyAt(w, p, d - 1, k, n);
    }
  }

  lemma AmountsInProgram(w: What, x: Sight, i: nat)
    requires Fair(x) && i < |Program(x)|
    ensures Amount(Program(x)[i], w) == if i == Position(w, x) then Weight(w, x) else 0
  {
    hide Bucket;
  }

  /** A packet has contributed its whole share to a counter once it is past the counter's place. */
  lemma ShareByPosition(w: What, j: Job)
    requires Fair(j.x) && j.done <= |Program(j.x)|
    ensures DonePart(w, j) == if 0 <= Position(w, j.x) < j.done then Weight(w, j.x) else 0
  {
    hide Program, Position, Weight, Amount;
    forall i | 0 <= i < |Program(j.x)|
      ensures Amount(Program(j.x)[i], w) == if i == Position(w, j.x) then Weight(w, j.x) else 0
    {
      AmountsInProgram(w, j.x, i);
    }
    OnlyAt(w, Program(j.x), j.done, Position(w, j.x), Weight(w, j.x));
  }

  lemma WeightHasPosition(w: What, x: Sight)
    requires Weight(w, x) > 0 && Fair(x)
    ensures 0 <= Position(w, x) < |Program(x)|
  {
    hide Bucket;
  }

  /** A counter that is never larger and is updated later stays behind. */
  lemma Behind(small: What, big: What, j: Job)
    requires Fair(j.x) && j.done <= |Program(j.x)|
    requires Weight(small, j.x) > 0 ==> Weight(small, j.x) <= Weight(big, j.x) && 0 <= Position(big, j.x) < Position(small, j.x)
    ensures DonePart(small, j) <= DonePart(big, j)
  {
    ShareByPosition(small, j);
    ShareByPosition(big, j);
    hide DonePart, Position, Weight, Program;
  }

  lemma FlagsBehind(j: Job)
    requires Fair(j.x) && j.done <= |Program(j.x)|
    ensures DonePart(SynFlag, j) <= DonePart(Tcp, j) && DonePart(RstFlag, j) <= DonePart(Tcp, j)
    ensures DonePart(DlAck, j) <= DonePart(DlTcp, j) <= DonePart(DlPackets, j)
  {
    hide Program, DonePart;
    Behind(SynFlag, Tcp, j);
    Behind(RstFlag, Tcp, j);
    Behind(DlAck, DlTcp, j);
    Behind(DlTcp, DlPackets, j);
  }

  lemma NoWeightNoPart(w: What, j: Job)
    requires Fair(j.x) && j.done <= |Program(j.x)| && Weight(w, j.x) == 0
    ensures DonePart(w, j) == 0
  {
    ShareByPosition(w, j);
  }

  predicate IsProtocol(w: What) { w == Tcp || w == Udp || w == Icmp }

  lemma OneProtocol(w: What, x: Sight)
    requires IsProtocol(w) && Weight(w, x) > 0
    ensures forall o | IsProtocol(o) && o != w :: Weight(o, x) == 0
  {
  }

  lemma ProtocolsBehind(j: Job)
    requires Fair(j.x) && j.done <= |Program(j.x)|
    ensures DonePart(Tcp, j) + DonePart(Udp, j) + DonePart(Icmp, j) <= DonePart(Packets, j)
  {
    var w := if Weight(Udp, j.x) > 0 then Udp else if Weight(Icmp, j.x) > 0 then Icmp else Tcp;
    Behind(w, Packets, j);
    if Weight(w, j.x) > 0 {
      OneProtocol(w, j.x);
    }
    hide DonePart, Weight;
    forall o | IsProtocol(o) && o != w ensures DonePart(o, j) == 0 {
      NoWeightNoPart(o, j);
    }
  }

  lemma NewFlowsBehind(j: Job)
    requires Fair(j.x) && j.done <= |Program(j.x)|
    ensures DonePart(NewFlows, j) <= DonePart(Tcp, j) + DonePart(Udp, j)
  {
    hide DonePart;
    if Weight(NewFlows, j.x) > 0 {
      LateNewFlow(j.x);
      Behind(NewFlows, if j.x.u.proto == TCP then Tcp else Udp, j);
    } else {
      NoWeightNoPart(NewFlows, j);
    }
  }

  lemma LateNewFlow(x: Sight)
    requires Fair(x) && Weight(NewFlows, x) > 0
    ensures x.Up? && (x.u.proto == TCP || x.u.proto == UDP) && Position(NewFlows, x) > 2
  {
    hide Bucket;
  }

  // ---------------------------------------------------------------- every intermediate state

  ghost predicate AllFair(jobs: seq<Job>) {
    forall j | j in jobs :: Fair(j.x) && j.done <= |Program(j.x)|
  }

  lemma {:induction false} PartsInOrder(jobs: seq<Job>)
    requires AllFair(jobs)
    ensures Parts(Tcp, jobs) + Parts(Udp, jobs) + Parts(Icmp, jobs) <= Parts(Packets, jobs)
    ensures Parts(SynFlag, jobs) <= Parts(Tcp, jobs) && Parts(RstFlag, jobs) <= Parts(Tcp, jobs)
    ensures Parts(NewFlows, jobs) <= Parts(Tcp, jobs) + Parts(Udp, jobs)
    ensures Parts(DlAck, jobs) <= Parts(DlTcp, jobs) <= Parts(DlPackets, jobs)
  {
    if jobs != [] {
      hide Fair, Program, DonePart;
      PartsInOrder(jobs[1..]);
      FlagsBehind(jobs[0]);
      ProtocolsBehind(jobs[0]);
      NewFlowsBehind(jobs[0]);
    }
  }

  lemma {:induction false} PartsOfUpdate(w: What, jobs: seq<Job>, i: nat, j: Job)
    requires i < |jobs|
    ensures Parts(w, jobs[i := j]) + DonePart(w, jobs[i]) == Parts(w, jobs) + DonePart(w, j)
  {
    hide DonePart;
    if i > 0 {
      PartsOfUpdate(w, jobs[1..], i - 1, j);
      assert jobs[i := j][1..] == jobs[1..][i - 1 := j];
    } else {
      assert jobs[i := j][1..] == jobs[1..];
    }
  }

  lemma {:induction false} PartsOfSnoc(w: What, jobs: seq<Job>, j: Job)
    ensures Parts(w, jobs + [j]) == Parts(w, jobs) + DonePart(w, j)
  {
    hide DonePart;
    if jobs != [] {
      PartsOfSnoc(w, jobs[1..], j);
      assert (jobs + [j])[1..] == jobs[1..] + [j];
    } else {
      assert ([] + [j])[1..] == [];
    }
  }

  /** The entry is its initial value plus what each packet has contributed so far. */
  ghost predicate Accounted(v0: Metrics, s: State) {
    AllFair(s.jobs) && forall w :: Field(w, s.v) == Field(w, v0) + Parts(w, s.jobs)
  }

  lemma ExecuteAddsAmount(v: Metrics, a: Atom, w: What)
    ensures Field(w, Execute(v, a)) == Field(w, v) + Amount(a, w)
  {
    hide Bitmap.With;
  }

  lemma StepKeepsFair(s: State, e: Step)
    requires AllFair(s.jobs) && Can(s, e)
    ensures AllFair(Next(s, e).jobs)
  {
    hide Program, Fair, Execute;
    if e.Run? {
      assert s.jobs[e.i] in s.jobs;
    }
  }

  lemma StepKeepsAccounted(v0: Metrics, s: State, e: Step)
    requires Accounted(v0, s) && Can(s, e)
    ensures Accounted(v0, Next(s, e))
  {
    StepKeepsFair(s, e);
    hide AllFair, Can;
    forall w ensures Field(w, Next(s, e).v) == Field(w, v0) + Parts(w, Next(s, e).jobs) {
      if e.Arrive? {
        ArriveAddsNothing(s, e.x, w);
      } else {
        RunAddsAmount(s, e.i, w);
      }
    }
    hide Next;
  }

  lemma ArriveAddsNothing(s: State, x: Sight, w: What)
    ensures Parts(w, s.jobs + [Job(x, 0)]) == Parts(w, s.jobs)
  {
    hide Parts;
    PartsOfSnoc(w, s.jobs, Job(x, 0));
  }

  lemma RunAddsAmount(s: State, i: nat, w: What)
    requires Can(s, Run(i))
    ensures var t := Next(s, Run(i)); Field(w, t.v) - Field(w, s.v) == Parts(w, t.jobs) - Parts(w, s.jobs)
  {
    hide Program, Parts, Execute, Field, Amount;
    var j := s.jobs[i];
    PartsOfUpdate(w, s.jobs, i, j.(done := j.done + 1));
    ExecuteAddsAmount(s.v, Program(j.x)[j.done], w);
  }

  lemma {:induction false} RunAccounted(v0: Metrics, s: State, es: seq<Step>)
    requires Accounted(v0, s) && Legal(s, es)
    ensures Accounted(v0, RunAll(s, es))
    decreases |es|
  {
    if es != [] {
      hide Accounted, Can, Next;
      StepKeepsAccounted(v0, s, es[0]);
      RunAccounted(v0, Next(s, es[0]), es[1..]);
    }
  }

  /** The inequalities between the counters of one entry. */
  ghost predicate InOrder(v: Metrics) {
    && v.tcp + v.udp + v.icmp <= v.packets && v.syn <= v.tcp && v.rst <= v.tcp
    && v.newFlows <= v.tcp + v.udp
    && v.dlAck <= v.dlTcp <= v.dlPackets
  }

  /** A reader who looks at the entry at any moment, in the middle of any number of packets, finds the
      counters in order. */
  lemma EveryMomentInOrder(v0: Metrics, es: seq<Step>)
    requires InOrder(v0) && Legal(State(v0, []), es)
    ensures InOrder(RunAll(State(v0, []), es).v)
  {
    RunAccounted(v0, State(v0, []), es);
    var s := RunAll(State(v0, []), es);
    hide AllFair, Parts;
    PartsInOrder(s.jobs);
    assert forall w :: Field(w, s.v) == Field(w, v0) + Parts(w, s.jobs);
    SumsInOrder(v0, s.v, s.jobs);
  }

  lemma SumsInOrder(v0: Metrics, v: Metrics, jobs: seq<Job>)
    requires InOrder(v0) && forall w :: Field(w, v) == Field(w, v0) + Parts(w, jobs)
    requires Parts(Tcp, jobs) + Parts(Udp, jobs) + Parts(Icmp, jobs) <= Parts(Packets, jobs)
    requires Parts(SynFlag, jobs) <= Parts(Tcp, jobs) && Parts(RstFlag, jobs) <= Parts(Tcp, jobs)
    requires Parts(NewFlows, jobs) <= Parts(Tcp, jobs) + Parts(Udp, jobs)
    requires Parts(DlAck, jobs) <= Parts(DlTcp, jobs) <= Parts(DlPackets, jobs)
    ensures InOrder(v)
  {
    hide Parts;
    var f := w => Field(w, v);
    assert f(Tcp) == v.tcp && f(Udp) == v.udp && f(Icmp) == v.icmp && f(Packets) == v.packets;
    assert f(SynFlag) == v.syn && f(RstFlag) == v.rst && f(NewFlows) == v.newFlows;
    assert f(DlAck) == v.dlAck && f(DlTcp) == v.dlTcp && f(DlPackets) == v.dlPackets;
  }

  ghost function SightsOf(jobs: seq<Job>): seq<Sight> {
    if jobs == [] then [] else SightsOf(jobs[..|jobs| - 1]) + [jobs[|jobs| - 1].x]
  }

  ghost predicate AllDone(jobs: seq<Job>) {
    forall j | j in jobs :: j.done == |Program(j.x)|
  }

  lemma {:induction false} WhenDone(w: What, jobs: seq<Job>)
    requires AllFair(jobs) && AllDone(jobs)
    ensures Parts(w, jobs) == Sum(w, SightsOf(jobs))
  {
    if jobs != [] {
      var front, j := jobs[..|jobs| - 1], jobs[|jobs| - 1];
      assert jobs == front + [j];
      WhenDone(w, front);
      hide DonePart, Weight, Program, Fair;
      PartsOfSnoc(w, front, j);
      SumOfSnoc(w, SightsOf(front), j.x);
      WholeShare(w, j);
    }
  }

  lemma WholeShare(w: What, j: Job)
    requires Fair(j.x) && j.done == |Program(j.x)|
    ensures DonePart(w, j) == Weight(w, j.x)
  {
    ShareByPosition(w, j);
    if Weight(w, j.x) > 0 {
      WeightHasPosition(w, j.x);
    }
  }

  function Arrivals(es: seq<Step>): seq<Sight> {
    if es == [] then [] else (if es[0].Arrive? then [es[0].x] else []) + Arrivals(es[1..])
  }

  lemma {:induction false} SightsOfUpdate(jobs: seq<Job>, i: nat, j: Job)
    requires i < |jobs| && j.x == jobs[i].x
    ensures SightsOf(jobs[i := j]) == SightsOf(jobs)
  {
    if i < |jobs| - 1 {
      assert jobs[i := j][..|jobs| - 1] == jobs[..|jobs| - 1][i := j];
      SightsOfUpdate(jobs[..|jobs| - 1], i, j);
    } else {
      assert jobs[i := j][..|jobs| - 1] == jobs[..|jobs| - 1];
    }
  }

  lemma {:induction false} SightsAreArrivals(s: State, es: seq<Step>)
    requires Legal(s, es)
    ensures SightsOf(RunAll(s, es).jobs) == SightsOf(s.jobs) + Arrivals(es)
    decreases |es|
  {
    if es != [] {
      hide Can, Next, SightsOf;
      StepSights(s, es[0]);
      SightsAreArrivals(Next(s, es[0]), es[1..]);
    }
  }

  lemma StepSights(s: State, e: Step)
    requires Can(s, e)
    ensures SightsOf(Next(s, e).jobs) == SightsOf(s.jobs) + if e.Arrive? then [e.x] else []
  {
    hide Program, Execute, Fair;
    match e
    case Arrive(x) => assert (s.jobs + [Job(x, 0)])[..|s.jobs|] == s.jobs;
    case Run(i) => SightsOfUpdate(s.jobs, i, s.jobs[i].(done := s.jobs[i].done + 1));
  }

  /** Once every CPU has finished, each counter has grown by exactly the packets of its kind, whatever
      the interleaving. */
  lemma CompletionExact(v0: Metrics, es: seq<Step>, w: What)
    requires Legal(State(v0, []), es) && AllDone(RunAll(State(v0, []), es).jobs)
    ensures Field(w, RunAll(State(v0, []), es).v) == Field(w, v0) + Sum(w, Arrivals(es))
  {
    hide *;
    var s0 := State(v0, []);
    var s := RunAll(s0, es);
    StartAccounted(v0);
    RunAccounted(v0, s0, es);
    AccountedFor(v0, s, w);
    WhenDone(w, s.jobs);
    SightsAreArrivals(s0, es);
    assert SightsOf(s.jobs) == [] + Arrivals(es) == Arrivals(es);
  }

  lemma StartAccounted(v0: Metrics)
    ensures Accounted(v0, State(v0, [])) && SightsOf([]) == []
  {
  }

  lemma AccountedFor(v0: Metrics, s: State, w: What)
    requires Accounted(v0, s)
    ensures AllFair(s.jobs) && Field(w, s.v) == Field(w, v0) + Parts(w, s.jobs)
  {
  }

  // ---------------------------------------------------------------- the bitmap

  /** The packet has executed its last operation, which sets bit b. */
  ghost predicate HasSet(j: Job, b: Bitmap.bucket) {
    j.x.Up? && Bucket(j.x.u.dst) == b && j.done == |Program(j.x)|
  }

  ghost predicate BitsAccounted(v0: Metrics, s: State) {
    forall b: Bitmap.bucket ::
      Bitmap.Bit(s.v.bitmap, b) <==> Bitmap.Bit(v0.bitmap, b) || exists j :: j in s.jobs && HasSet(j, b)
  }

  lemma OrIsLast(x: Sight, i: nat)
    requires i < |Program(x)|
    ensures Program(x)[i].Or? <==> x.Up? && i == |Program(x)| - 1
    ensures Program(x)[i].Or? ==> Program(x)[i].b == Bucket(x.u.dst)
  {
  }

  lemma ExecuteOnBit(v: Metrics, a: Atom, b: Bitmap.bucket)
    ensures Bitmap.Bit(Execute(v, a).bitmap, b) <==> Bitmap.Bit(v.bitmap, b) || a == Or(b)
  {
    hide Bitmap.Bit, Bitmap.With;
    if a.Or? {
      if a.b == b {
        Bitmap.SetIsFresh(v.bitmap, b);
      } else {
        Bitmap.SetKeepsOthers(v.bitmap, a.b, b);
      }
    }
  }

  lemma InUpdate(jobs: seq<Job>, i: nat, j: Job, b: Bitmap.bucket)
    requires i < |jobs| && !HasSet(jobs[i], b)
    ensures (exists k :: k in jobs[i := j] && HasSet(k, b)) <==> HasSet(j, b) || exists k :: k in jobs && HasSet(k, b)
  {
    hide HasSet;
    var t := jobs[i := j];
    assert t[i] in t;
    if k :| k in jobs && HasSet(k, b) {
      var n :| 0 <= n < |jobs| && jobs[n] == k;
      assert t[n] in t;
    }
  }

  lemma StepKeepsBits(v0: Metrics, s: State, e: Step)
    requires AllFair(s.jobs) && BitsAccounted(v0, s) && Can(s, e)
    ensures BitsAccounted(v0, Next(s, e))
  {
    if e.Arrive? {
      ArriveKeepsBits(v0, s, e.x);
    } else {
      ExecuteKeepsBits(v0, s, e.i);
    }
  }

  lemma ArriveKeepsBits(v0: Metrics, s: State, x: Sight)
    requires BitsAccounted(v0, s)
    ensures BitsAccounted(v0, State(s.v, s.jobs + [Job(x, 0)]))
  {
    hide HasSet, Bitmap.Bit;
    forall b: Bitmap.bucket
      ensures Bitmap.Bit(s.v.bitmap, b) <==> Bitmap.Bit(v0.bitmap, b) || exists j :: j in s.jobs + [Job(x, 0)] && HasSet(j, b)
    {
      ArrivalHasNotSet(s.jobs, x, b);
    }
  }

  lemma ExecuteKeepsBits(v0: Metrics, s: State, i: nat)
    requires BitsAccounted(v0, s) && Can(s, Run(i))
    ensures BitsAccounted(v0, Next(s, Run(i)))
  {
    hide HasSet, Bitmap.Bit, Execute, Program;
    var t := Next(s, Run(i));
    forall b: Bitmap.bucket
      ensures Bitmap.Bit(t.v.bitmap, b) <==> Bitmap.Bit(v0.bitmap, b) || exists j :: j in t.jobs && HasSet(j, b)
    {
      RunOnBit(s, i, b);
    }
  }

  lemma ArrivalHasNotSet(jobs: seq<Job>, x: Sight, b: Bitmap.bucket)
    ensures (exists j :: j in jobs + [Job(x, 0)] && HasSet(j, b)) <==> exists j :: j in jobs && HasSet(j, b)
  {
    hide Bucket;
  }

  lemma RunOnBit(s: State, i: nat, b: Bitmap.bucket)
    requires Can(s, Run(i))
    ensures var t := Next(s, Run(i));
            (Bitmap.Bit(t.v.bitmap, b) <==> Bitmap.Bit(s.v.bitmap, b) || (HasSet(t.jobs[i], b)))
            && ((exists j :: j in t.jobs && HasSet(j, b)) <==> HasSet(t.jobs[i], b) || exists j :: j in s.jobs && HasSet(j, b))
  {
    var j := s.jobs[i];
    var next := j.(done := j.done + 1);
    InUpdate(s.jobs, i, next, b);
    OrIsLast(j.x, j.done);
    ExecuteOnBit(s.v, Program(j.x)[j.done], b);
    hide Program, Bucket, Bitmap.Bit, Execute;
  }

  lemma {:induction false} RunKeepsBits(v0: Metrics, s: State, es: seq<Step>)
    requires AllFair(s.jobs) && BitsAccounted(v0, s) && Legal(s, es)
    ensures BitsAccounted(v0, RunAll(s, es))
    decreases |es|
  {
    if es != [] {
      StepKeepsFair(s, es[0]);
      hide BitsAccounted, Can, Next, AllFair;
      StepKeepsBits(v0, s, es[0]);
      RunKeepsBits(v0, Next(s, es[0]), es[1..]);
    }
  }

  /** At every moment the bitmap has the initial bits and those of the uplink packets already
      finished, no others. */
  lemma BitmapAtEveryMoment(v0: Metrics, es: seq<Step>, b: Bitmap.bucket)
    requires Legal(State(v0, []), es)
    ensures var s := RunAll(State(v0, []), es);
            Bitmap.Bit(s.v.bitmap, b) <==> Bitmap.Bit(v0.bitmap, b) || exists j :: j in s.jobs && HasSet(j, b)
  {
    hide HasSet, Bitmap.Bit;
    RunKeepsBits(v0, State(v0, []), es);
  }

  /** The byte counter is not among the inequalities: between its first two operations any uplink
      packet, on any entry, is counted and its bytes are not. A reader finds fewer than 20 bytes per
      packet there when the entry had no more than 20 for each, as one with downlink traffic only. */
  lemma BytesMayLag(v0: Metrics, x: Sight)
    requires Fair(x) && x.Up?
    ensures var es := [Arrive(x), Run(0)];
            && Legal(State(v0, []), es)
            && RunAll(State(v0, []), es).v == v0.(packets := v0.packets + 1)
    ensures v0.bytes < 20 * (v0.packets + 1) ==>
              var v := RunAll(State(v0, []), [Arrive(x), Run(0)]).v; v.bytes < 20 * v.packets
  {
    hide Bucket;
    var s0 := State(v0, []);
    var s1 := Next(s0, Arrive(x));
    assert s1.jobs == [Job(x, 0)];
    var s2 := Next(s1, Run(0));
    assert Program(x)[0] == Add(Packets, 1);
    assert [Arrive(x), Run(0)][1..] == [Run(0)] && [Run(0)][1..] == [];
    assert RunAll(s1, [Run(0)]) == RunAll(s2, []) == s2;
  }

  /** The order matters: were a TCP packet's protocol counted before the packet, a reader in between
      would find more TCP packets than packets. */
  lemma SwappedOrderBreaks(v: Metrics)
    requires InOrder(v) && v.tcp + v.udp + v.icmp == v.packets
    ensures !InOrder(Execute(v, Add(Tcp, 1)))
    ensures InOrder(Execute(Execute(v, Add(Packets, 1)), Add(Tcp, 1)))
  {
  }
}
