/** Records read while packets are being counted: the features of an entry at any moment of any
    interleaving of the CPUs (bpf/anlf.c:41-69), and the two tests for a record without traffic. */
module Moments {
  import opened Gtpu
  import opened Wrappers
  import opened PacketPath
  import opened PacketRuns
  import opened MicroSteps
  import opened Features
  import Bitmap

  /** Every uplink packet has at least an IP header (PacketRuns.SeenIsSane). */
  ghost predicate AllLong(es: seq<Step>) {
    forall e | e in es :: e.Arrive? && e.x.Up? ==> e.x.u.len >= 20
  }

  ghost predicate LongJobs(jobs: seq<Job>) {
    forall j | j in jobs :: j.x.Up? ==> j.x.u.len >= 20
  }

  lemma StepKeepsLong(s: State, e: Step)
    requires LongJobs(s.jobs) && Can(s, e) && (e.Arrive? && e.x.Up? ==> e.x.u.len >= 20)
    ensures LongJobs(Next(s, e).jobs)
  {
    hide Program, Execute, Fair;
    if e.Run? {
      assert s.jobs[e.i] in s.jobs;
    }
  }

  lemma {:induction false} RunKeepsLong(s: State, es: seq<Step>)
    requires LongJobs(s.jobs) && Legal(s, es) && AllLong(es)
    ensures LongJobs(RunAll(s, es).jobs)
    decreases |es|
  {
    if es != [] {
      hide LongJobs, Can, Next;
      assert es[0] in es && forall e | e in es[1..] :: e in es;
      StepKeepsLong(s, es[0]);
      RunKeepsLong(Next(s, es[0]), es[1..]);
    }
  }

  // ---------------------------------------------------------------- packets that have barely started

  /** No uplink packet is past its first addition. */
  ghost predicate AllEarly(jobs: seq<Job>) {
    forall j | j in jobs :: j.x.Up? ==> j.done <= 1
  }

  /** The uplink counters updated after the first two additions. */
  predicate IsLate(w: What) {
    w == Tcp || w == Udp || w == Icmp || w == SynFlag || w == RstFlag || w == NewFlows
  }

  lemma LatePosition(w: What, x: Sight)
    requires IsLate(w) && Weight(w, x) > 0 && Fair(x)
    ensures x.Up? && Position(w, x) >= 2
  {
    hide Bucket;
  }

  lemma EarlyHasNone(w: What, j: Job)
    requires IsLate(w) && Fair(j.x) && j.done <= |Program(j.x)| && (j.x.Up? ==> j.done <= 1)
    ensures DonePart(w, j) == 0
  {
    ShareByPosition(w, j);
    hide DonePart, Position, Weight, Program;
    if Weight(w, j.x) > 0 {
      LatePosition(w, j.x);
    }
  }

  lemma {:induction false} EarlyParts(w: What, jobs: seq<Job>)
    requires IsLate(w) && AllFair(jobs) && AllEarly(jobs)
    ensures Parts(w, jobs) == 0
  {
    if jobs != [] {
      hide Fair, Program, DonePart;
      assert jobs[0] in jobs;
      EarlyHasNone(w, jobs[0]);
      EarlyParts(w, jobs[1..]);
    }
  }

  lemma {:induction false} NoPartInSum(w: What, jobs: seq<Job>, j: Job)
    requires Parts(w, jobs) == 0 && j in jobs
    ensures DonePart(w, j) == 0
  {
    hide DonePart;
    if j != jobs[0] {
      NoPartInSum(w, jobs[1..], j);
    }
  }

  /** A packet that has added nothing to one of its first two counters is early. */
  lemma NothingAddedIsEarly(w: What, j: Job)
    requires (w == Packets || w == Bytes) && Fair(j.x) && j.done <= |Program(j.x)| && (j.x.Up? ==> j.x.u.len >= 20)
    requires DonePart(w, j) == 0
    ensures j.x.Up? ==> j.done <= 1
  {
    ShareByPosition(w, j);
    hide DonePart, Program;
  }

  lemma AllEarlyWhenNone(w: What, jobs: seq<Job>)
    requires (w == Packets || w == Bytes) && AllFair(jobs) && LongJobs(jobs) && Parts(w, jobs) == 0
    ensures AllEarly(jobs)
  {
    forall j | j in jobs ensures j.x.Up? ==> j.done <= 1 {
      NoPartInSum(w, jobs, j);
      NothingAddedIsEarly(w, j);
    }
  }

  // ---------------------------------------------------------------- the entry at a moment

  /** Nothing but packets, bytes and downlink. */
  ghost predicate BarelyStarted(v: Metrics) {
    v.tcp == 0 && v.udp == 0 && v.icmp == 0 && v.syn == 0 && v.rst == 0 && v.newFlows == 0 && v.bitmap == 0
  }

  ghost predicate NoneFinished(jobs: seq<Job>) {
    forall j | j in jobs :: j.x.Up? ==> j.done < |Program(j.x)|
  }

  /** Until an uplink packet is finished the bitmap is as it was. */
  ghost predicate Untouched(v0: Metrics, s: State) {
    NoneFinished(s.jobs) ==> s.v.bitmap == v0.bitmap
  }

  lemma StepUntouched(v0: Metrics, s: State, e: Step)
    requires Untouched(v0, s) && Can(s, e)
    ensures Untouched(v0, Next(s, e))
  {
    hide Program, Execute, Fair;
    if NoneFinished(Next(s, e).jobs) {
      match e
      case Arrive(x) => assert forall j | j in s.jobs :: j in s.jobs + [Job(x, 0)];
      case Run(i) =>
        StillUnfinished(s.jobs, i);
        OrIsLast(s.jobs[i].x, s.jobs[i].done);
        OnlyOrMarks(s.v, Program(s.jobs[i].x)[s.jobs[i].done]);
    }
  }

  lemma OnlyOrMarks(v: Metrics, a: Atom)
    requires a.Add?
    ensures Execute(v, a).bitmap == v.bitmap
  {
  }

  lemma StillUnfinished(jobs: seq<Job>, i: nat)
    requires i < |jobs| && NoneFinished(jobs[i := jobs[i].(done := jobs[i].done + 1)])
    ensures NoneFinished(jobs) && (jobs[i].x.Up? ==> jobs[i].done + 1 < |Program(jobs[i].x)|)
  {
    hide Program;
    var t := jobs[i := jobs[i].(done := jobs[i].done + 1)];
    assert t[i] in t;
    forall j | j in jobs ensures j.x.Up? ==> j.done < |Program(j.x)| {
      var k :| 0 <= k < |jobs| && jobs[k] == j;
      assert t[k] in t;
    }
  }

  lemma {:induction false} RunUntouched(v0: Metrics, s: State, es: seq<Step>)
    requires Untouched(v0, s) && Legal(s, es)
    ensures Untouched(v0, RunAll(s, es))
    decreases |es|
  {
    if es != [] {
      hide Untouched, Can, Next;
      StepUntouched(v0, s, es[0]);
      RunUntouched(v0, Next(s, es[0]), es[1..]);
    }
  }

  lemma EarlyBitmap(v0: Metrics, s: State)
    requires Untouched(v0, s) && AllEarly(s.jobs)
    ensures s.v.bitmap == v0.bitmap
  {
    hide Bucket;
    assert forall x: Sight | x.Up? :: |Program(x)| >= 3;
  }

  lemma EarlyFields(v0: Metrics, s: State)
    requires Accounted(v0, s) && AllEarly(s.jobs) && BarelyStarted(v0)
    ensures s.v.tcp == 0 && s.v.udp == 0 && s.v.icmp == 0 && s.v.syn == 0 && s.v.rst == 0 && s.v.newFlows == 0
  {
    hide Parts, AllEarly, AllFair;
    forall w | IsLate(w) ensures Field(w, s.v) == Field(w, v0) {
      EarlyParts(w, s.jobs);
    }
    var f := w => Field(w, s.v);
    assert f(Tcp) == 0 && f(Udp) == 0 && f(Icmp) == 0 && f(SynFlag) == 0 && f(RstFlag) == 0 && f(NewFlows) == 0;
  }

  lemma NothingYet(v0: Metrics, w: What)
    requires Consistent(v0) && (w == Packets || w == Bytes) && Field(w, v0) == 0
    ensures BarelyStarted(v0)
  {
    hide Bitmap.Pop;
  }

  /** At a moment without counted packets, or without counted bytes, no later counter has moved. */
  lemma BarelyStartedAt(v0: Metrics, es: seq<Step>, w: What)
    requires Consistent(v0) && Legal(State(v0, []), es) && AllLong(es)
    requires (w == Packets || w == Bytes) && Field(w, RunAll(State(v0, []), es).v) == 0
    ensures BarelyStarted(RunAll(State(v0, []), es).v)
  {
    var s0 := State(v0, []);
    var s := RunAll(s0, es);
    StartAccounted(v0);
    RunAccounted(v0, s0, es);
    AccountedFor(v0, s, w);
    RunKeepsLong(s0, es);
    RunUntouched(v0, s0, es);
    hide Legal, RunAll, Accounted, AllFair, LongJobs, AllEarly, Untouched, Consistent, Parts;
    NothingYet(v0, w);
    AllEarlyWhenNone(w, s.jobs);
    EarlyFields(v0, s);
    EarlyBitmap(v0, s);
  }

  // ---------------------------------------------------------------- the two tests

  /** log10 as far as it matters here. */
  ghost predicate LikeLog10(log10: real -> real) {
    log10(1.0) == 0.0 && forall x: real | x >= 2.0 :: log10(x) >= 0.005
  }

  lemma HalfHundredthRoundsUp()
    ensures Hundredths(0.005) == 0.01
  {
    assert Round(0.5) == 1;
  }

  lemma SeveralPacketsShow(v: Metrics, log10: real -> real)
    requires v.packets >= 2 && LikeLog10(log10)
    ensures ConvertToFeatures(Some(v), log10).ulLogPPS > 0.0
  {
    HalfHundredthRoundsUp();
    HundredthsMonotone(0.005, log10(v.packets as real));
    hide Hundredths, Ratio, Bitmap.Pop;
  }

  lemma BytesShow(v: Metrics, log10: real -> real)
    requires v.packets == 1 && v.bytes > 0
    ensures ConvertToFeatures(Some(v), log10).avgLen > 0.0
  {
    RatioAtLeast(v.bytes, 1, 1);
    HundredthsOfConstants();
    HundredthsMonotone(1.0, Ratio(v.bytes, 1));
    assert Exact(v, log10).avgLen == Ratio(v.bytes, 1) by {
      hide Ratio, Bitmap.Pop;
    }
    hide Hundredths, Ratio, Exact;
  }

  lemma BarelyStartedIsEmpty(v: Metrics, log10: real -> real)
    requires BarelyStarted(v) && LikeLog10(log10) && (v.packets == 0 || (v.packets == 1 && v.bytes == 0))
    ensures IsEmptyRecord(ConvertToFeatures(Some(v), log10))
  {
    ExactBarelyStarted(v, log10);
    RoundedEmpty(Exact(v, log10));
    hide Exact, Rounded;
  }

  lemma ExactBarelyStarted(v: Metrics, log10: real -> real)
    requires BarelyStarted(v) && LikeLog10(log10) && (v.packets == 0 || (v.packets == 1 && v.bytes == 0))
    ensures IsEmptyRecord(Exact(v, log10))
  {
    assert Ratio(0, v.packets) == 0.0;
    assert Bitmap.Pop(v.bitmap) == 0;
    assert v.packets == 1 ==> v.packets as real == 1.0;
    hide Ratio, Bitmap.Pop;
  }

  /** A record read at any moment, in the middle of any number of packets on any number of CPUs: the
      detector's and the analyzer's tests agree, and they say "no traffic" exactly when no packet is
      counted, or a single one whose bytes are not. */
  lemma TestsAgreeAtEveryMoment(v0: Metrics, es: seq<Step>, log10: real -> real)
    requires Consistent(v0) && Legal(State(v0, []), es) && AllLong(es) && LikeLog10(log10)
    ensures var v := RunAll(State(v0, []), es).v;
            var f := ConvertToFeatures(Some(v), log10);
            && (IsEmptyRecord(f) <==> v.packets == 0 || (v.packets == 1 && v.bytes == 0))
            && (IsInactive(f) <==> v.packets == 0 || (v.packets == 1 && v.bytes == 0))
  {
    var v := RunAll(State(v0, []), es).v;
    hide RunAll, Legal, Consistent, AllLong, ConvertToFeatures, LikeLog10, BarelyStarted;
    if v.packets == 0 || (v.packets == 1 && v.bytes == 0) {
      BarelyStartedAt(v0, es, if v.packets == 0 then Packets else Bytes);
      BarelyStartedIsEmpty(v, log10);
    } else if v.packets == 1 {
      BytesShow(v, log10);
    } else {
      SeveralPacketsShow(v, log10);
    }
  }

  // ---------------------------------------------------------------- when the exception arises

  /** What a run of one downlink packet leaves: an entry without an uplink packet. */
  lemma DownlinkEntry(frame: seq<byte>)
    requires SentEgress(frame).Some?
    ensures var d := SentEgress(frame).value;
            && d.ue in After([Egress(frame)]).ue && After([Egress(frame)]).ue[d.ue] == CountSent(ZERO, d)
            && Consistent(CountSent(ZERO, d))
  {
    var ops := [Egress(frame)];
    assert ops[..0] == [];
    assert After([]) == EMPTY;
    assert After(ops) == Do(EMPTY, ops[0]);
    ZeroIsConsistent();
    SentIsSane(frame);
    CountSentKeepsConsistent(ZERO, SentEgress(frame).value);
    hide SentEgress, Consistent;
  }

  /** The exception is real: right after the first addition of the first uplink packet that follows a
      downlink one, the record counts as empty although an uplink packet is counted. */
  lemma UplinkAfterDownlinkMayLookIdle(frame: seq<byte>, u: Seen, isNew: bool, log10: real -> real)
    requires SentEgress(frame).Some? && u.src == SentEgress(frame).value.ue
    requires Sane(u) && (isNew ==> Opens(u)) && LikeLog10(log10)
    ensures u.src in After([Egress(frame)]).ue
    ensures var s0 := State(After([Egress(frame)]).ue[u.src], []);
            var es := [Arrive(Up(u, isNew)), Run(0)];
            && Legal(s0, es) && RunAll(s0, es).v.packets == 1
            && IsEmptyRecord(ConvertToFeatures(Some(RunAll(s0, es).v), log10))
  {
    DownlinkEntry(frame);
    var v0 := CountSent(ZERO, SentEgress(frame).value);
    hide SentEgress, After, LikeLog10, Consistent;
    IdleMoment(v0, Up(u, isNew), log10);
  }

  lemma IdleMoment(v0: Metrics, x: Sight, log10: real -> real)
    requires Consistent(v0) && v0.packets == 0 && v0.bytes == 0 && LikeLog10(log10)
    requires Fair(x) && x.Up? && x.u.len >= 20
    ensures var es := [Arrive(x), Run(0)];
            && Legal(State(v0, []), es) && AllLong(es) && RunAll(State(v0, []), es).v.packets == 1
            && IsEmptyRecord(ConvertToFeatures(Some(RunAll(State(v0, []), es).v), log10))
  {
    var es := [Arrive(x), Run(0)];
    BytesMayLag(v0, x);
    assert AllLong(es);
    hide Legal, RunAll, LikeLog10, ConvertToFeatures, Consistent, AllLong;
    TestsAgreeAtEveryMoment(v0, es, log10);
  }

  /** Counters only grow. */
  lemma NeverFewer(v0: Metrics, es: seq<Step>, w: What)
    requires Legal(State(v0, []), es)
    ensures Field(w, RunAll(State(v0, []), es).v) >= Field(w, v0)
  {
    hide *;
    StartAccounted(v0);
    RunAccounted(v0, State(v0, []), es);
    AccountedFor(v0, RunAll(State(v0, []), es), w);
  }

  /** An entry that has an uplink packet never looks idle, at no moment. */
  lemma NeverIdleAfterUplink(v0: Metrics, es: seq<Step>, log10: real -> real)
    requires Consistent(v0) && v0.packets > 0 && Legal(State(v0, []), es) && AllLong(es) && LikeLog10(log10)
    ensures var f := ConvertToFeatures(Some(RunAll(State(v0, []), es).v), log10);
            !IsEmptyRecord(f) && !IsInactive(f)
  {
    CountedStaysCounted(v0, es);
    hide Legal, RunAll, LikeLog10, ConvertToFeatures, Consistent, AllLong;
    TestsAgreeAtEveryMoment(v0, es, log10);
  }

  lemma CountedStaysCounted(v0: Metrics, es: seq<Step>)
    requires Consistent(v0) && Legal(State(v0, []), es)
    ensures var v := RunAll(State(v0, []), es).v; v.packets >= v0.packets && v.bytes >= v0.bytes >= 20 * v0.packets
  {
    NeverFewer(v0, es, Packets);
    NeverFewer(v0, es, Bytes);
    hide Legal, RunAll, Bitmap.Pop;
    var v := RunAll(State(v0, []), es).v;
    assert Field(Packets, v) == v.packets && Field(Bytes, v) == v.bytes;
  }

  /** Some moment of some interleaving on this entry counts an uplink packet and looks idle. */
  ghost predicate MayLookIdle(v0: Metrics, log10: real -> real) {
    exists es :: LooksIdle(v0, es, log10)
  }

  ghost predicate LooksIdle(v0: Metrics, es: seq<Step>, log10: real -> real) {
    && Legal(State(v0, []), es) && AllLong(es)
    && RunAll(State(v0, []), es).v.packets > 0
    && IsEmptyRecord(ConvertToFeatures(Some(RunAll(State(v0, []), es).v), log10))
  }

  /** That happens exactly to the entries without any uplink traffic. */
  lemma LooksIdleExactly(v0: Metrics, log10: real -> real)
    requires Consistent(v0) && LikeLog10(log10)
    ensures MayLookIdle(v0, log10) <==> v0.packets == 0 && v0.bytes == 0
  {
    hide LooksIdle;
    if es :| LooksIdle(v0, es, log10) {
      IdleHasNoUplink(v0, es, log10);
    }
    if v0.packets == 0 && v0.bytes == 0 {
      var ip := Ip(10, 60, 0, 1);
      var u := Seen(ip, ip, ICMP, 20, false, 0, 0, 0, []);
      IdleWitness(v0, Up(u, false), log10);
    }
  }

  lemma IdleHasNoUplink(v0: Metrics, es: seq<Step>, log10: real -> real)
    requires Consistent(v0) && LikeLog10(log10) && LooksIdle(v0, es, log10)
    ensures v0.packets == 0 && v0.bytes == 0
  {
    CountedStaysCounted(v0, es);
    hide Legal, RunAll, LikeLog10, ConvertToFeatures, Consistent, AllLong;
    TestsAgreeAtEveryMoment(v0, es, log10);
  }

  lemma IdleWitness(v0: Metrics, x: Sight, log10: real -> real)
    requires Consistent(v0) && v0.packets == 0 && v0.bytes == 0 && LikeLog10(log10)
    requires Fair(x) && x.Up? && x.u.len >= 20
    ensures LooksIdle(v0, [Arrive(x), Run(0)], log10)
  {
    IdleMoment(v0, x, log10);
    hide Legal, RunAll, ConvertToFeatures, AllLong;
  }
}
