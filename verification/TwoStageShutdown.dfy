/** The two queues of the pipeline together: inference workers run `HandleBatch`, which enqueues one
    result per record to the export queue, and the lifecycle manager stops the detector before the
    export queue because it was registered later (pkg/service/init.go:340-377;
    internal/analyzer/detector/anomaly_detector.go:219-290, 347-366; pkg/app/lifecycle.go:66-100). */
module TwoStageShutdown {
  import opened WorkQueue
  import opened Lifecycle

  datatype Batch = Batch(id: nat, supis: seq<string>)

  /** What the export queue carries: results of the detector, and messages of other producers. */
  datatype Export = ResultOf(batch: nat, supi: string) | Other(id: nat)

  function Results(b: Batch): seq<Export> {
    seq(|b.supis|, i requires 0 <= i < |b.supis| => ResultOf(b.id, b.supis[i]))
  }

  datatype Outcome = Ok | Full | Stopping

  datatype Stage = Running | DetectorStopping | DetectorStopped | ExportStopping | Stopped

  /** `pending[w]` are the results inference worker w has still to enqueue. The last three fields
      are histories: results accepted by the export queue, rejected as "queue full", rejected as
      "queue is shutting down". */
  datatype Sys = Sys(
    inf: State<Batch>, exp: State<Export>, pending: seq<seq<Export>>, stage: Stage,
    emitted: multiset<Export>, full: multiset<Export>, refused: multiset<Export>)

  datatype Step =
    | Inf(e: Event<Batch>)     // a step inside the inference queue
    | Exp(x: Event<Export>)    // a step inside the export queue, other producers included
    | Emit(w: nat, o: Outcome) // HandleBatch on worker w enqueues its next result
    | StopDetector | DetectorReturns | StopExport | ExportReturns

  function EmitEvent(m: Export, o: Outcome): Event<Export> {
    match o
    case Ok => Accept(m)
    case Full => RejectFull(m)
    case Stopping => RejectStopping(m)
  }

  predicate CanStep(s: Sys, a: Step) {
    match a
    case Inf(e) => Internal(e) && Enabled(s.inf, e) && (e.Finish? && e.w < |s.pending| ==> s.pending[e.w] == [])
    case Exp(e) => Internal(e) && Enabled(s.exp, e)
    case Emit(w, o) => w < |s.pending| && s.pending[w] != [] && Enabled(s.exp, EmitEvent(s.pending[w][0], o))
    case StopDetector => s.stage == Running && Enabled(s.inf, CloseStop)
    case DetectorReturns => s.stage == DetectorStopping && Enabled(s.inf, StopReturns)
    case StopExport => s.stage == DetectorStopped && Enabled(s.exp, CloseStop)
    case ExportReturns => s.stage == ExportStopping && Enabled(s.exp, StopReturns)
  }

  function Do(s: Sys, a: Step): Sys
    requires CanStep(s, a)
  {
    match a
    case Inf(e) =>
      s.(inf := Next(s.inf, e),
         pending := if (e.Take? || e.DrainTake?) && e.w < |s.pending|
                    then s.pending[e.w := Results(s.inf.buf[0])] else s.pending)
    case Exp(e) => s.(exp := Next(s.exp, e))
    case Emit(w, o) =>
      var m := s.pending[w][0];
      s.(exp := Next(s.exp, EmitEvent(m, o)),
         pending := s.pending[w := s.pending[w][1..]],
         emitted := if o == Ok then s.emitted + multiset{m} else s.emitted,
         full := if o == Full then s.full + multiset{m} else s.full,
         refused := if o == Stopping then s.refused + multiset{m} else s.refused)
    case StopDetector => s.(inf := Next(s.inf, CloseStop), stage := DetectorStopping)
    case DetectorReturns => s.(inf := Next(s.inf, StopReturns), stage := DetectorStopped)
    case StopExport => s.(exp := Next(s.exp, CloseStop), stage := ExportStopping)
    case ExportReturns => s.(exp := Next(s.exp, StopReturns), stage := Stopped)
  }

  predicate Legals(s: Sys, tr: seq<Step>)
    decreases |tr|
  {
    tr == [] || (CanStep(s, tr[0]) && Legals(Do(s, tr[0]), tr[1..]))
  }

  function RunAll(s: Sys, tr: seq<Step>): Sys
    requires Legals(s, tr)
    decreases |tr|
  {
    if tr == [] then s else RunAll(Do(s, tr[0]), tr[1..])
  }

  function Start(infCap: nat, infWorkers: nat, expCap: nat, expWorkers: nat): Sys {
    Sys(Init(infCap, infWorkers), Init(expCap, expWorkers), seq(infWorkers, _ => []), Running,
        multiset{}, multiset{}, multiset{})
  }

  // ---------------------------------------------------------------- the invariant

  function Produced(bs: seq<Batch>): multiset<Export> {
    if bs == [] then multiset{} else Produced(bs[..|bs| - 1]) + multiset(Results(bs[|bs| - 1]))
  }

  function Pending(pending: seq<seq<Export>>): multiset<Export> {
    if pending == [] then multiset{} else multiset(pending[0]) + Pending(pending[1..])
  }

  predicate Queues(s: Sys) {
    && Inv(s.inf) && Inv(s.exp) && !s.inf.ctxDone && !s.exp.ctxDone
    && s.inf.workers != [] && s.exp.workers != []
  }

  /** Only a worker inside the handler has results to enqueue. */
  predicate PendingInHandler(s: Sys) {
    && |s.pending| == |s.inf.workers|
    && forall w | 0 <= w < |s.pending| :: s.pending[w] != [] ==> Busy(s.inf.workers[w])
  }

  /** Every result of a dequeued batch is waiting, accepted, or rejected. */
  predicate Ledger(s: Sys) {
    Produced(s.inf.dequeued) == Pending(s.pending) + s.emitted + s.full + s.refused
  }

  /** The export queue is closed only after the detector has returned; nothing is refused. */
  predicate Staged(s: Sys) {
    && (s.inf.stopClosed <==> s.stage != Running)
    && (s.inf.doneClosed <==> s.stage != Running && s.stage != DetectorStopping)
    && (s.exp.stopClosed <==> s.stage == ExportStopping || s.stage == Stopped)
    && (s.exp.doneClosed <==> s.stage == Stopped)
    && s.refused == multiset{}
  }

  /** What the detector got accepted was accepted before the export queue closed. */
  predicate EmittedInTime(s: Sys) {
    && s.emitted <= multiset(s.exp.accepted)
    && (s.exp.stopClosed ==>
          s.exp.stopMark <= |s.exp.accepted| && s.emitted <= multiset(s.exp.accepted[..s.exp.stopMark]))
  }

  predicate Good(s: Sys) {
    Queues(s) && PendingInHandler(s) && Ledger(s) && Staged(s) && EmittedInTime(s)
  }

  lemma {:induction false} PendingUpdate(pending: seq<seq<Export>>, w: nat, p: seq<Export>)
    requires w < |pending|
    ensures Pending(pending[w := p]) + multiset(pending[w]) == Pending(pending) + multiset(p)
  {
    var head, rest := multiset(pending[0]), Pending(pending[1..]);
    if w > 0 {
      var rest' := Pending(pending[1..][w - 1 := p]);
      PendingUpdate(pending[1..], w - 1, p);
      assert pending[w := p][1..] == pending[1..][w - 1 := p];
      assert (head + rest') + multiset(pending[w]) == head + (rest' + multiset(pending[w])) == head + (rest + multiset(p));
    } else {
      assert pending[w := p][1..] == pending[1..];
    }
  }

  lemma {:induction false} NothingPending(pending: seq<seq<Export>>)
    requires forall w | 0 <= w < |pending| :: pending[w] == []
    ensures Pending(pending) == multiset{}
  {
    if pending != [] {
      NothingPending(pending[1..]);
    }
  }

  lemma StepQueues(s: Sys, a: Step)
    requires Queues(s) && CanStep(s, a)
    ensures Queues(Do(s, a))
  {
    hide Inv;
    match a
    case Inf(e) => StepInv(s.inf, e);
    case Exp(e) => StepInv(s.exp, e);
    case Emit(w, o) => StepInv(s.exp, EmitEvent(s.pending[w][0], o));
    case StopDetector => StepInv(s.inf, CloseStop);
    case DetectorReturns => StepInv(s.inf, StopReturns);
    case StopExport => StepInv(s.exp, CloseStop);
    case ExportReturns => StepInv(s.exp, StopReturns);
  }

  lemma StepPending(s: Sys, a: Step)
    requires PendingInHandler(s) && CanStep(s, a)
    ensures PendingInHandler(Do(s, a))
  {
    match a
    case Inf(e) =>
      BusyFrame(s.inf, e);
      hide Next, Enabled, Busy;
    case Exp(_) =>
    case Emit(_, _) =>
    case StopDetector => ControlFrame(s.inf, CloseStop);
    case DetectorReturns => ControlFrame(s.inf, StopReturns);
    case _ =>
  }

  lemma CancelCommon<T>(a: multiset<T>, b: multiset<T>, x: multiset<T>, y: multiset<T>)
    requires a + (x + y) == b + y
    ensures a + x == b
  {
    assert a + x == (a + (x + y)) - y;
    assert b == (b + y) - y;
  }

  lemma PendingGains(pending: seq<seq<Export>>, w: nat, p: seq<Export>)
    requires w < |pending| && pending[w] == []
    ensures Pending(pending[w := p]) == Pending(pending) + multiset(p)
  {
    hide Pending;
    PendingUpdate(pending, w, p);
  }

  lemma PendingLosesHead(pending: seq<seq<Export>>, w: nat)
    requires w < |pending| && pending[w] != []
    ensures Pending(pending[w := pending[w][1..]]) + multiset{pending[w][0]} == Pending(pending)
  {
    hide Pending;
    var ms := pending[w];
    PendingUpdate(pending, w, ms[1..]);
    assert multiset(ms) == multiset{ms[0]} + multiset(ms[1..]) by { assert ms == [ms[0]] + ms[1..]; }
    CancelCommon(Pending(pending[w := ms[1..]]), Pending(pending), multiset{ms[0]}, multiset(ms[1..]));
  }

  lemma ReceiveLedger(s: Sys, a: Step)
    requires Ledger(s) && PendingInHandler(s) && CanStep(s, a) && a.Inf? && (a.e.Take? || a.e.DrainTake?)
    ensures Ledger(Do(s, a))
  {
    BusyFrame(s.inf, a.e);
    InternalFrame(s.inf, a.e);
    hide Next, Enabled, Results;
    var b, w := s.inf.buf[0], a.e.w;
    assert s.pending[w] == [];
    PendingGains(s.pending, w, Results(b));
    assert (s.inf.dequeued + [b])[..|s.inf.dequeued|] == s.inf.dequeued;
    hide Pending, Results;
    var x, r := Pending(s.pending), multiset(Results(b));
    assert x + s.emitted + s.full + s.refused + r == x + r + s.emitted + s.full + s.refused;
  }

  lemma EmitLedger(s: Sys, w: nat, o: Outcome)
    requires Ledger(s) && CanStep(s, Emit(w, o))
    ensures Ledger(Do(s, Emit(w, o)))
  {
    PendingLosesHead(s.pending, w);
    hide Pending, Produced, Enabled, Next;
    var x, m := Pending(s.pending[w := s.pending[w][1..]]), multiset{s.pending[w][0]};
    var e, f, r := s.emitted, s.full, s.refused;
    MovesAnywhere(x, m, e, f, r);
  }

  lemma MovesAnywhere(x: multiset<Export>, m: multiset<Export>, e: multiset<Export>, f: multiset<Export>, r: multiset<Export>)
    ensures x + m + e + f + r == x + (e + m) + f + r == x + e + (f + m) + r == x + e + f + (r + m)
  {
  }

  lemma StepLedger(s: Sys, a: Step)
    requires Ledger(s) && PendingInHandler(s) && CanStep(s, a)
    ensures Ledger(Do(s, a))
  {
    hide Pending, Produced, PendingInHandler;
    if a.Inf? && (a.e.Take? || a.e.DrainTake?) {
      ReceiveLedger(s, a);
    } else if a.Emit? {
      EmitLedger(s, a.w, a.o);
    } else {
      assert Do(s, a).inf.dequeued == s.inf.dequeued;
    }
  }

  /** Once the export queue is closed no inference worker has a result left to enqueue. */
  lemma NothingPendingAfterClose(s: Sys)
    requires Staged(s) && PendingInHandler(s) && Queues(s) && s.inf.doneClosed
    ensures forall w | 0 <= w < |s.pending| :: s.pending[w] == []
  {
    hide Conserved, LeftDry;
    assert AllExited(s.inf.workers);
  }

  /** What a step does to the flags and the accepted messages of the two queues. */
  lemma StepFrame(s: Sys, a: Step)
    requires CanStep(s, a)
    ensures var t := Do(s, a);
            && t.inf.stopClosed == (s.inf.stopClosed || a.StopDetector?)
            && t.inf.doneClosed == (s.inf.doneClosed || a.DetectorReturns?)
            && t.exp.stopClosed == (s.exp.stopClosed || a.StopExport?)
            && t.exp.doneClosed == (s.exp.doneClosed || a.ExportReturns?)
            && t.exp.stopMark == (if a.StopExport? then |s.exp.accepted| else s.exp.stopMark)
            && t.exp.accepted == s.exp.accepted + (if a.Exp? && a.x.Accept? then [a.x.m]
                                                   else if a.Emit? && a.o == Ok then [s.pending[a.w][0]] else [])
  {
    match a
    case Inf(e) => InternalFrame(s.inf, e);
    case Exp(x) => InternalFrame(s.exp, x);
    case Emit(w, o) => InternalFrame(s.exp, EmitEvent(s.pending[w][0], o));
    case StopDetector => ControlFrame(s.inf, CloseStop);
    case DetectorReturns => ControlFrame(s.inf, StopReturns);
    case StopExport => ControlFrame(s.exp, CloseStop);
    case ExportReturns => ControlFrame(s.exp, StopReturns);
  }

  lemma StepStaged(s: Sys, a: Step)
    requires Staged(s) && PendingInHandler(s) && Queues(s) && CanStep(s, a)
    ensures Staged(Do(s, a))
  {
    if s.inf.doneClosed {
      NothingPendingAfterClose(s);
    }
    StepFrame(s, a);
    RefusedFrame(s, a);
    hide Next, PendingInHandler, Queues;
  }

  lemma RefusedFrame(s: Sys, a: Step)
    requires CanStep(s, a)
    ensures !(a.Emit? && a.o == Stopping) ==> Do(s, a).refused == s.refused
    ensures a.Emit? && a.o == Stopping ==> s.exp.stopClosed
    ensures !(a.Emit? && a.o == Ok) ==> Do(s, a).emitted == s.emitted
  {
  }

  lemma AcceptInTime(s: Sys, t: Sys, m: Export, fromDetector: bool)
    requires EmittedInTime(s)
    requires t.exp.accepted == s.exp.accepted + [m] && t.exp.stopClosed == s.exp.stopClosed && t.exp.stopMark == s.exp.stopMark
    requires t.emitted == s.emitted + (if fromDetector then multiset{m} else multiset{})
    requires fromDetector ==> !s.exp.stopClosed
    ensures EmittedInTime(t)
  {
    assert multiset(t.exp.accepted) == multiset(s.exp.accepted) + multiset{m};
    if s.exp.stopClosed {
      assert t.exp.accepted[..s.exp.stopMark] == s.exp.accepted[..s.exp.stopMark];
    }
  }

  lemma StepEmitted(s: Sys, a: Step)
    requires EmittedInTime(s) && Staged(s) && PendingInHandler(s) && Queues(s) && CanStep(s, a)
    ensures EmittedInTime(Do(s, a))
  {
    var t := Do(s, a);
    if s.inf.doneClosed {
      NothingPendingAfterClose(s);
    }
    StepFrame(s, a);
    RefusedFrame(s, a);
    hide Next, Enabled, PendingInHandler, Queues;
    if a.Emit? && a.o == Ok {
      AcceptInTime(s, t, s.pending[a.w][0], true);
    } else if a.Exp? && a.x.Accept? {
      AcceptInTime(s, t, a.x.m, false);
    } else {
      assert t.exp.accepted == s.exp.accepted;
      assert s.exp.accepted[..|s.exp.accepted|] == s.exp.accepted;
    }
  }

  lemma StepGood(s: Sys, a: Step)
    requires Good(s) && CanStep(s, a)
    ensures Good(Do(s, a))
  {
    hide Queues, PendingInHandler, Ledger, Staged, EmittedInTime;
    StepQueues(s, a);
    StepPending(s, a);
    StepLedger(s, a);
    StepStaged(s, a);
    StepEmitted(s, a);
  }

  lemma {:induction false} RunGood(s: Sys, tr: seq<Step>)
    requires Good(s) && Legals(s, tr)
    ensures Good(RunAll(s, tr))
    decreases |tr|
  {
    if tr != [] {
      hide Good;
      StepGood(s, tr[0]);
      RunGood(Do(s, tr[0]), tr[1..]);
    }
  }

  lemma StartGood(infCap: nat, infWorkers: nat, expCap: nat, expWorkers: nat)
    requires infWorkers > 0 && expWorkers > 0
    ensures Good(Start(infCap, infWorkers, expCap, expWorkers))
  {
    InitInv<Batch>(infCap, infWorkers);
    InitInv<Export>(expCap, expWorkers);
    NothingPending(Start(infCap, infWorkers, expCap, expWorkers).pending);
  }

  // ---------------------------------------------------------------- the theorem

  lemma {:induction false} ProducedPrefix(bs: seq<Batch>, n: nat)
    requires n <= |bs|
    ensures Produced(bs[..n]) <= Produced(bs)
  {
    if n < |bs| {
      ProducedPrefix(bs[..|bs| - 1], n);
      assert bs[..|bs| - 1][..n] == bs[..n];
    } else {
      assert bs[..n] == bs;
    }
  }

  lemma StoppedAccountsForAll(s: Sys)
    requires Good(s) && s.stage == Stopped
    ensures s.inf.stopMark <= |s.inf.accepted|
    ensures Produced(s.inf.accepted[..s.inf.stopMark]) <= s.exp.handled + s.full
    ensures s.refused == multiset{}
  {
    DrainedParts(s.inf);
    DrainedParts(s.exp);
    var mark := s.inf.stopMark;
    assert s.inf.accepted[..mark] == s.inf.dequeued[..mark];
    ProducedPrefix(s.inf.dequeued, mark);
    forall w | 0 <= w < |s.pending| ensures s.pending[w] == [] {
      assert s.inf.workers[w].Exited?;
    }
    NothingPending(s.pending);
    EarlyAcceptedAreHandled(s.exp);
  }

  lemma EarlyAcceptedAreHandled(e: State<Export>)
    requires e.stopMark <= e.emptyMark <= |e.accepted| && e.handled == multiset(e.accepted[..e.emptyMark])
    ensures multiset(e.accepted[..e.stopMark]) <= e.handled
  {
    assert e.accepted[..e.emptyMark] == e.accepted[..e.stopMark] + e.accepted[e.stopMark..e.emptyMark];
  }

  /** In every run of the pipeline with live contexts and no timeout, by the time both Stop calls have
      returned nil every result of every batch accepted before the detector was told to stop has been
      handled by the exporter or rejected as "queue full"; none was refused for shutting down. */
  lemma NoResultIsLost(infCap: nat, infWorkers: nat, expCap: nat, expWorkers: nat, tr: seq<Step>)
    requires infWorkers > 0 && expWorkers > 0
    requires Legals(Start(infCap, infWorkers, expCap, expWorkers), tr)
    requires RunAll(Start(infCap, infWorkers, expCap, expWorkers), tr).stage == Stopped
    ensures var s := RunAll(Start(infCap, infWorkers, expCap, expWorkers), tr);
            && s.inf.stopMark <= |s.inf.accepted|
            && Produced(s.inf.accepted[..s.inf.stopMark]) <= s.exp.handled + s.full
            && s.refused == multiset{}
  {
    StartGood(infCap, infWorkers, expCap, expWorkers);
    RunGood(Start(infCap, infWorkers, expCap, expWorkers), tr);
    StoppedAccountsForAll(RunAll(Start(infCap, infWorkers, expCap, expWorkers), tr));
  }

  lemma {:induction false} ProducedHolds(bs: seq<Batch>, i: nat, j: nat)
    requires i < |bs| && j < |bs[i].supis|
    ensures ResultOf(bs[i].id, bs[i].supis[j]) in Produced(bs)
  {
    if i == |bs| - 1 {
      var rs := Results(bs[i]);
      assert rs[j] == ResultOf(bs[i].id, bs[i].supis[j]) && rs[j] in multiset(rs);
    } else {
      ProducedHolds(bs[..|bs| - 1], i, j);
    }
  }

  /** Record by record: each UE of each batch accepted in time has its result handled by an exporter or
      refused as "queue full". */
  lemma EveryRecordIsAccountedFor(infCap: nat, infWorkers: nat, expCap: nat, expWorkers: nat, tr: seq<Step>, i: nat, j: nat)
    requires infWorkers > 0 && expWorkers > 0
    requires Legals(Start(infCap, infWorkers, expCap, expWorkers), tr)
    requires RunAll(Start(infCap, infWorkers, expCap, expWorkers), tr).stage == Stopped
    requires var s := RunAll(Start(infCap, infWorkers, expCap, expWorkers), tr);
             i < s.inf.stopMark <= |s.inf.accepted| && j < |s.inf.accepted[i].supis|
    ensures var s := RunAll(Start(infCap, infWorkers, expCap, expWorkers), tr);
            ResultOf(s.inf.accepted[i].id, s.inf.accepted[i].supis[j]) in s.exp.handled + s.full
  {
    NoResultIsLost(infCap, infWorkers, expCap, expWorkers, tr);
    var s := RunAll(Start(infCap, infWorkers, expCap, expWorkers), tr);
    hide Legals, RunAll, Produced;
    ProducedHolds(s.inf.accepted[..s.inf.stopMark], i, j);
  }

  // ---------------------------------------------------------------- the order of the stops

  /** What is registered with the lifecycle manager; the eBPF loader, the SMF client, the analyzer and the
      monitor have no part in these two queues. */
  datatype Component = ExportQueue | AnomalyDetector | OtherComponent(id: nat)

  /** The call of a component's Stop and its return, as steps of the two queues. */
  function StopSteps(c: Component): seq<Step> {
    match c
    case ExportQueue => [StopExport, ExportReturns]
    case AnomalyDetector => [StopDetector, DetectorReturns]
    case OtherComponent(_) => []
  }

  function StepsOfCalls(calls: seq<Call<Component>>): seq<Step> {
    if calls == [] then []
    else (if calls[0].StopCall? then StopSteps(calls[0].c) else []) + StepsOfCalls(calls[1..])
  }

  lemma {:induction false} StepsOfAppend(a: seq<Call<Component>>, b: seq<Call<Component>>)
    ensures StepsOfCalls(a + b) == StepsOfCalls(a) + StepsOfCalls(b)
  {
    if a == [] {
      assert a + b == b;
    } else {
      StepsOfAppend(a[1..], b);
      assert (a + b)[1..] == a[1..] + b;
    }
  }

  predicate OnlyOthers(cs: seq<Component>) {
    forall c | c in cs :: c.OtherComponent?
  }

  lemma {:induction false} OthersHaveNoSteps(cs: seq<Component>)
    requires OnlyOthers(cs)
    ensures StepsOfCalls(StopsReversed(cs)) == []
  {
    if cs != [] {
      var front, last := cs[..|cs| - 1], cs[|cs| - 1];
      OthersHaveNoSteps(front);
      StepsOfOne(last);
      StepsOfGroups(front, [last]);
      assert cs == front + [last] && last in cs;
    }
  }

  lemma StepsOfGroups(a: seq<Component>, b: seq<Component>)
    ensures StepsOfCalls(StopsReversed(a + b)) == StepsOfCalls(StopsReversed(b)) + StepsOfCalls(StopsReversed(a))
  {
    StopsOfGroups(a, b);
    StepsOfAppend(StopsReversed(b), StopsReversed(a));
  }

  lemma StepsOfOne(c: Component)
    ensures StepsOfCalls(StopsReversed([c])) == StopSteps(c)
  {
    assert StopsReversed([c]) == [StopCall(c)];
  }

  /** The stop steps of a trace, the others left out. */
  function StopsIn(tr: seq<Step>): seq<Step> {
    if tr == [] then [] else StopOf(tr[0]) + StopsIn(tr[1..])
  }

  function StopOf(a: Step): seq<Step> {
    if a.StopDetector? || a.DetectorReturns? || a.StopExport? || a.ExportReturns? then [a] else []
  }

  /** The stop steps still to come at a stage. */
  function StopsLeft(g: Stage): seq<Step> {
    match g
    case Running => [StopDetector, DetectorReturns, StopExport, ExportReturns]
    case DetectorStopping => [DetectorReturns, StopExport, ExportReturns]
    case DetectorStopped => [StopExport, ExportReturns]
    case ExportStopping => [ExportReturns]
    case Stopped => []
  }

  lemma StopMovesOn(s: Sys, a: Step)
    requires CanStep(s, a)
    ensures StopsLeft(s.stage) == StopOf(a) + StopsLeft(Do(s, a).stage)
  {
    hide Enabled, Next, EmitEvent;
  }

  lemma {:induction false} StopsByStage(s: Sys, tr: seq<Step>)
    requires Legals(s, tr)
    ensures StopsIn(tr) + StopsLeft(RunAll(s, tr).stage) == StopsLeft(s.stage)
    decreases |tr|
  {
    if tr != [] {
      hide CanStep, Do, StopOf, StopsLeft;
      var t := Do(s, tr[0]);
      StopMovesOn(s, tr[0]);
      StopsByStage(t, tr[1..]);
      Regroup(StopOf(tr[0]), StopsIn(tr[1..]), StopsLeft(RunAll(t, tr[1..]).stage));
    }
  }

  lemma Regroup(a: seq<Step>, b: seq<Step>, c: seq<Step>)
    ensures a + b + c == a + (b + c)
  {
  }

  /** The stages follow the registration: when the export queue is registered in a group before that of
      the detector, among anything else, the lifecycle manager's reverse order makes exactly the stop
      steps, in the order, of every run that reaches the end. */
  lemma StagesFollowRegistration(a: seq<Component>, b: seq<Component>, c: seq<Component>, d: seq<Component>,
                                 s: Sys, tr: seq<Step>)
    requires OnlyOthers(a) && OnlyOthers(b) && OnlyOthers(c) && OnlyOthers(d)
    requires Legals(s, tr) && s.stage == Running && RunAll(s, tr).stage == Stopped
    ensures StopsIn(tr) == StepsOfCalls(StopsReversed((a + ([ExportQueue] + b)) + (c + ([AnomalyDetector] + d))))
  {
    StopsByStage(s, tr);
    assert StopsIn(tr) == StopsIn(tr) + StopsLeft(Stopped);
    hide *;
    ReversedRegistration(a, b, c, d);
  }

  lemma ReversedRegistration(a: seq<Component>, b: seq<Component>, c: seq<Component>, d: seq<Component>)
    requires OnlyOthers(a) && OnlyOthers(b) && OnlyOthers(c) && OnlyOthers(d)
    ensures StepsOfCalls(StopsReversed((a + ([ExportQueue] + b)) + (c + ([AnomalyDetector] + d)))) == StopsLeft(Running)
  {
    hide StepsOfCalls, StopsReversed, OnlyOthers;
    OneAmongOthers(a, ExportQueue, b);
    OneAmongOthers(c, AnomalyDetector, d);
    StepsOfGroups(a + ([ExportQueue] + b), c + ([AnomalyDetector] + d));
  }

  lemma OneAmongOthers(a: seq<Component>, x: Component, b: seq<Component>)
    requires OnlyOthers(a) && OnlyOthers(b)
    ensures StepsOfCalls(StopsReversed(a + ([x] + b))) == StopSteps(x)
  {
    hide StepsOfCalls, StopsReversed, OnlyOthers, StopSteps;
    OthersHaveNoSteps(a);
    OthersHaveNoSteps(b);
    StepsOfOne(x);
    StepsOfGroups([x], b);
    StepsOfGroups(a, [x] + b);
  }

  // ---------------------------------------------------------------- the shutdown completes

  function StagesLeft(g: Stage): nat {
    match g
    case Running => 4
    case DetectorStopping => 3
    case DetectorStopped => 2
    case ExportStopping => 1
    case Stopped => 0
  }

  /** A later stage, or less work for the detector's workers, fewer results to enqueue, or less work
      for the exporter's workers, the first that changes deciding. */
  predicate Closer(s: Sys, t: Sys) {
    || StagesLeft(t.stage) < StagesLeft(s.stage)
    || (t.stage == s.stage && Measure(t.inf) < Measure(s.inf))
    || (t.stage == s.stage && t.inf == s.inf && |Pending(t.pending)| < |Pending(s.pending)|)
    || (t.stage == s.stage && t.inf == s.inf && t.pending == s.pending && Measure(t.exp) < Measure(s.exp))
  }

  lemma EmitIsCloser(s: Sys, w: nat, o: Outcome)
    requires CanStep(s, Emit(w, o))
    ensures Closer(s, Do(s, Emit(w, o)))
  {
    hide Measure, Enabled, Next, EmitEvent, Pending;
    PendingLosesHead(s.pending, w);
    assert Pending(s.pending) == Pending(s.pending[w := s.pending[w][1..]]) + multiset{s.pending[w][0]};
  }

  /** While the detector is stopping, a worker that has not left can enqueue a result or move on. */
  lemma DetectorMoves(s: Sys) returns (a: Step)
    requires Good(s) && s.stage == DetectorStopping && !AllExited(s.inf.workers)
    ensures CanStep(s, a) && Closer(s, Do(s, a))
  {
    hide Queues, Ledger, EmittedInTime, Measure, Pending, Closer, Do;
    var e := SomeWorkerMoves(s.inf);
    if e.Finish? && s.pending[e.w] != [] {
      a := Emit(e.w, if |s.exp.buf| < s.exp.cap then Ok else Full);
      EmitIsCloser(s, e.w, a.o);
    } else {
      a := Inf(e);
      WorkIsCloser(s, e);
    }
  }

  lemma WorkIsCloser(s: Sys, e: Event<Batch>)
    requires CanStep(s, Inf(e)) && WorkerEvent(e)
    ensures Closer(s, Do(s, Inf(e)))
  {
    WorkerStepDecreases(s.inf, e);
    hide Measure, Enabled, Next, Pending;
  }

  lemma SomethingHelps(s: Sys) returns (a: Step)
    requires Good(s) && s.stage != Stopped
    ensures CanStep(s, a) && Closer(s, Do(s, a))
  {
    hide Measure, Pending, Queues, PendingInHandler, Ledger, EmittedInTime;
    match s.stage
    case Running => a := StopDetector;
    case DetectorStopping =>
      if AllExited(s.inf.workers) {
        a := DetectorReturns;
      } else {
        a := DetectorMoves(s);
      }
    case DetectorStopped => a := StopExport;
    case ExportStopping =>
      if AllExited(s.exp.workers) {
        a := ExportReturns;
      } else {
        var e := SomeWorkerMoves(s.exp);
        WorkerStepDecreases(s.exp, e);
        a := Exp(e);
      }
  }

  /** No deadlock between the two queues: from every reachable state, whatever is buffered or in hand,
      the shutdown can be carried through to the end. */
  lemma {:induction false} ShutdownCanComplete(s: Sys) returns (tr: seq<Step>)
    requires Good(s)
    ensures Legals(s, tr) && RunAll(s, tr).stage == Stopped
    decreases StagesLeft(s.stage), Measure(s.inf), |Pending(s.pending)|, Measure(s.exp)
  {
    tr := [];
    if s.stage != Stopped {
      var a := SomethingHelps(s);
      StepGood(s, a);
      hide Good, CanStep, Do, Measure, Pending;
      var rest := ShutdownCanComplete(Do(s, a));
      tr := [a] + rest;
      assert tr[1..] == rest;
    }
  }
}
