/** The work queue (internal/analyzer/queue/base_queue.go) as a step system: producers, W worker
    goroutines, one Stop, and the context handed to Start, interleaved in any way. Every event below
    is one atomic step of the program; a select with several ready cases may take any of them. */
module WorkQueue {

  /** Where a worker goroutine is: in the select of `worker`, in `processMessage` called from it,
      in the select of `drainQueue`, in `processMessage` called from there, or gone. */
  datatype Phase<M> = Selecting | Handling(msg: M) | Draining | DrainHandling(msg: M) | Exited

  /** `accepted`, `dequeued` and `handled` are histories: messages for which Enqueue returned nil,
      messages received by workers, and messages whose handler returned. `stopMark` is the number of
      messages accepted when stopChan was closed, `emptyMark` the number accepted when a worker last
      saw an empty queue while draining. */
  datatype State<M> = State(
    cap: nat, buf: seq<M>, workers: seq<Phase<M>>,
    stopClosed: bool, ctxDone: bool, doneClosed: bool,
    accepted: seq<M>, dequeued: seq<M>, handled: multiset<M>, stopMark: nat, emptyMark: nat)

  datatype Event<M> =
    | Accept(m: M)          // Enqueue returns nil
    | RejectStopping(m: M)  // Enqueue returns "queue is shutting down"
    | RejectFull(m: M)      // Enqueue returns "queue full"
    | Take(w: nat)          // worker: a message is received
    | SeeStop(w: nat)       // worker: stopChan is seen closed, draining begins
    | SeeCancel(w: nat)     // worker: the context is seen cancelled, the worker returns
    | Finish(w: nat)        // the handler returns, with or without an error
    | DrainTake(w: nat)     // drainQueue: a message is received
    | DrainEmpty(w: nat)    // drainQueue: nothing to receive, the worker returns
    | Cancel                // the context is cancelled
    | CloseStop             // Stop closes stopChan
    | StopReturns           // all workers are gone: Stop closes doneChan and returns nil

  function Init<M>(cap: nat, workerCount: nat): State<M> {
    State(cap, [], seq(workerCount, _ => Selecting), false, false, false, [], [], multiset{}, 0, 0)
  }

  predicate AllExited<M>(workers: seq<Phase<M>>) {
    forall w | 0 <= w < |workers| :: workers[w].Exited?
  }

  predicate WorkerAt<M(==)>(s: State<M>, w: nat, p: Phase<M>) {
    w < |s.workers| && s.workers[w] == p
  }

  predicate Enabled<M(==)>(s: State<M>, e: Event<M>) {
    match e
    case Accept(_) => |s.buf| < s.cap
    case RejectStopping(_) => s.stopClosed
    case RejectFull(_) => |s.buf| >= s.cap && !s.stopClosed
    case Take(w) => WorkerAt(s, w, Selecting) && s.buf != []
    case SeeStop(w) => WorkerAt(s, w, Selecting) && s.stopClosed
    case SeeCancel(w) => WorkerAt(s, w, Selecting) && s.ctxDone
    case Finish(w) => w < |s.workers| && (s.workers[w].Handling? || s.workers[w].DrainHandling?)
    case DrainTake(w) => WorkerAt(s, w, Draining) && s.buf != []
    case DrainEmpty(w) => WorkerAt(s, w, Draining) && s.buf == []
    case Cancel => true
    case CloseStop => !s.stopClosed
    case StopReturns => s.stopClosed && !s.doneClosed && AllExited(s.workers)
  }

  function Dequeue<M>(s: State<M>, w: nat, p: Phase<M>): State<M>
    requires s.buf != [] && w < |s.workers|
  {
    s.(buf := s.buf[1..], dequeued := s.dequeued + [s.buf[0]], workers := s.workers[w := p])
  }

  function Next<M(==)>(s: State<M>, e: Event<M>): State<M>
    requires Enabled(s, e)
  {
    match e
    case Accept(m) => s.(buf := s.buf + [m], accepted := s.accepted + [m])
    case RejectStopping(_) => s
    case RejectFull(_) => s
    case Take(w) => Dequeue(s, w, Handling(s.buf[0]))
    case SeeStop(w) => s.(workers := s.workers[w := Draining])
    case SeeCancel(w) => s.(workers := s.workers[w := Exited])
    case Finish(w) =>
      s.(handled := s.handled + multiset{s.workers[w].msg},
         workers := s.workers[w := if s.workers[w].Handling? then Selecting else Draining])
    case DrainTake(w) => Dequeue(s, w, DrainHandling(s.buf[0]))
    case DrainEmpty(w) => s.(workers := s.workers[w := Exited], emptyMark := |s.accepted|)
    case Cancel => s.(ctxDone := true)
    case CloseStop => s.(stopClosed := true, stopMark := |s.accepted|)
    case StopReturns => s.(doneClosed := true)
  }

  predicate Legal<M(==)>(s: State<M>, es: seq<Event<M>>)
    decreases |es|
  {
    es == [] || (Enabled(s, es[0]) && Legal(Next(s, es[0]), es[1..]))
  }

  function Run<M(==)>(s: State<M>, es: seq<Event<M>>): State<M>
    requires Legal(s, es)
    decreases |es|
  {
    if es == [] then s else Run(Next(s, es[0]), es[1..])
  }

  // ---------------------------------------------------------------- the invariant

  function Hand<M>(p: Phase<M>): multiset<M> {
    if p.Handling? || p.DrainHandling? then multiset{p.msg} else multiset{}
  }

  function InHand<M>(workers: seq<Phase<M>>): multiset<M> {
    if workers == [] then multiset{} else Hand(workers[0]) + InHand(workers[1..])
  }

  lemma {:induction false} InHandUpdate<M>(workers: seq<Phase<M>>, w: nat, p: Phase<M>)
    requires w < |workers|
    ensures InHand(workers[w := p]) + Hand(workers[w]) == InHand(workers) + Hand(p)
  {
    var rest := InHand(workers[1..]);
    if w > 0 {
      InHandUpdate(workers[1..], w - 1, p);
      assert workers[w := p][1..] == workers[1..][w - 1 := p];
      hide Hand;
      AddToBoth(Hand(workers[0]), InHand(workers[1..][w - 1 := p]), Hand(workers[w]), rest, Hand(p));
    } else {
      assert workers[w := p][1..] == workers[1..];
      hide Hand;
      Exchange(Hand(p), rest, Hand(workers[0]));
    }
  }

  lemma AddToBoth<M>(x: multiset<M>, a: multiset<M>, b: multiset<M>, c: multiset<M>, d: multiset<M>)
    requires a + b == c + d
    ensures x + a + b == x + c + d
  {
    assert x + a + b == x + (a + b) && x + c + d == x + (c + d);
  }

  lemma Exchange<M>(a: multiset<M>, b: multiset<M>, c: multiset<M>)
    ensures a + b + c == c + b + a
  {
  }

  lemma {:induction false} InHandPicksUp<M>(workers: seq<Phase<M>>, w: nat, p: Phase<M>)
    requires w < |workers| && Hand(workers[w]) == multiset{}
    ensures InHand(workers[w := p]) == InHand(workers) + Hand(p)
  {
    hide Hand;
    InHandUpdate(workers, w, p);
  }

  lemma {:induction false} InHandPutsDown<M>(workers: seq<Phase<M>>, w: nat, p: Phase<M>)
    requires w < |workers| && Hand(p) == multiset{}
    ensures InHand(workers[w := p]) + Hand(workers[w]) == InHand(workers)
  {
    hide Hand;
    InHandUpdate(workers, w, p);
  }

  lemma {:induction false} NothingInHand<M>(workers: seq<Phase<M>>)
    requires forall w | 0 <= w < |workers| :: Hand(workers[w]) == multiset{}
    ensures InHand(workers) == multiset{}
  {
    if workers != [] {
      NothingInHand(workers[1..]);
    }
  }

  /** Nothing is lost or duplicated, and messages leave in the order they came. */
  predicate Conserved<M(==)>(s: State<M>) {
    && s.accepted == s.dequeued + s.buf
    && multiset(s.dequeued) == s.handled + InHand(s.workers)
    && |s.buf| <= s.cap
  }

  /** Draining starts after stopChan is closed; workers leave after the close or a cancellation. */
  predicate Phased<M(==)>(s: State<M>) {
    && (forall w | 0 <= w < |s.workers| ::
          && (s.workers[w].Draining? || s.workers[w].DrainHandling? ==> s.stopClosed)
          && (s.workers[w].Exited? ==> s.stopClosed || s.ctxDone))
    && (s.stopClosed ==> s.stopMark <= |s.accepted|)
    && (s.doneClosed ==> s.stopClosed && AllExited(s.workers))
  }

  /** Without a cancelled context the last worker to leave saw an empty queue after the close. */
  predicate LeftDry<M(==)>(s: State<M>) {
    !s.ctxDone && s.workers != [] && AllExited(s.workers) ==>
      s.stopMark <= s.emptyMark && |s.dequeued| == s.emptyMark
  }

  predicate Inv<M(==)>(s: State<M>) {
    Conserved(s) && Phased(s) && LeftDry(s)
  }

  lemma InitInv<M>(cap: nat, workerCount: nat)
    ensures Inv(Init<M>(cap, workerCount))
  {
    NothingInHand(Init<M>(cap, workerCount).workers);
  }

  lemma DequeueConserves<M>(s: State<M>, w: nat, p: Phase<M>)
    requires Conserved(s) && s.buf != [] && w < |s.workers|
    requires Hand(s.workers[w]) == multiset{} && Hand(p) == multiset{s.buf[0]}
    ensures Conserved(Dequeue(s, w, p))
  {
    hide InHand, Hand;
    InHandPicksUp(s.workers, w, p);
    assert s.buf == [s.buf[0]] + s.buf[1..];
    assert multiset(s.dequeued + [s.buf[0]]) == multiset(s.dequeued) + multiset{s.buf[0]};
  }

  lemma FinishConserves<M>(s: State<M>, t: State<M>, w: nat, p: Phase<M>)
    requires Conserved(s) && w < |s.workers| && Hand(p) == multiset{}
    requires t == s.(handled := s.handled + Hand(s.workers[w]), workers := s.workers[w := p])
    ensures Conserved(t)
  {
    hide InHand, Hand;
    InHandPutsDown(s.workers, w, p);
  }

  lemma MoveConserves<M>(s: State<M>, t: State<M>, w: nat, p: Phase<M>)
    requires Conserved(s) && w < |s.workers|
    requires Hand(s.workers[w]) == multiset{} && Hand(p) == multiset{}
    requires t == s.(workers := s.workers[w := p], emptyMark := t.emptyMark)
    ensures Conserved(t)
  {
    hide InHand, Hand;
    InHandPicksUp(s.workers, w, p);
  }

  lemma AcceptConserves<M>(s: State<M>, m: M)
    requires Conserved(s) && Enabled(s, Accept(m))
    ensures Conserved(Next(s, Accept(m)))
  {
    assert s.dequeued + (s.buf + [m]) == s.dequeued + s.buf + [m];
  }

  lemma FlagsConserve<M>(s: State<M>, t: State<M>)
    requires Conserved(s)
    requires t == s.(ctxDone := t.ctxDone, stopClosed := t.stopClosed, doneClosed := t.doneClosed, stopMark := t.stopMark)
    ensures Conserved(t)
  {
  }

  lemma LeaveOrDrainConserves<M>(s: State<M>, e: Event<M>)
    requires Conserved(s) && Enabled(s, e) && (e.SeeStop? || e.SeeCancel? || e.DrainEmpty?)
    ensures Conserved(Next(s, e))
  {
    hide InHand, Conserved;
    MoveConserves(s, Next(s, e), e.w, if e.SeeStop? then Draining else Exited);
  }

  lemma StepConserves<M>(s: State<M>, e: Event<M>)
    requires Conserved(s) && Enabled(s, e)
    ensures Conserved(Next(s, e))
  {
    hide InHand, Conserved;
    var t := Next(s, e);
    if e.SeeStop? || e.SeeCancel? || e.DrainEmpty? {
      LeaveOrDrainConserves(s, e);
    } else if e.Accept? {
      AcceptConserves(s, e.m);
    } else if e.Take? {
      DequeueConserves(s, e.w, Handling(s.buf[0]));
    } else if e.DrainTake? {
      DequeueConserves(s, e.w, DrainHandling(s.buf[0]));
    } else if e.Finish? {
      FinishConserves(s, t, e.w, t.workers[e.w]);
    } else {
      FlagsConserve(s, t);
    }
  }

  lemma StepPhased<M>(s: State<M>, e: Event<M>)
    requires Phased(s) && Enabled(s, e)
    ensures Phased(Next(s, e))
  {
  }

  lemma StepLeftDry<M>(s: State<M>, e: Event<M>)
    requires Inv(s) && Enabled(s, e)
    ensures LeftDry(Next(s, e))
  {
    hide InHand;
    var t := Next(s, e);
    if !t.ctxDone && t.workers != [] && AllExited(t.workers) {
      if AllExited(s.workers) {
        NoDequeueAfterExit(s, e);
      } else {
        LastToLeave(s, e);
      }
    }
  }

  lemma StepInv<M>(s: State<M>, e: Event<M>)
    requires Inv(s) && Enabled(s, e)
    ensures Inv(Next(s, e))
  {
    hide Conserved, Phased, LeftDry;
    StepConserves(s, e);
    StepPhased(s, e);
    StepLeftDry(s, e);
  }

  lemma NoDequeueAfterExit<M>(s: State<M>, e: Event<M>)
    requires Inv(s) && Enabled(s, e) && AllExited(s.workers) && s.workers != []
    ensures var t := Next(s, e);
            && t.dequeued == s.dequeued && t.workers == s.workers && t.emptyMark == s.emptyMark
            && (s.ctxDone ==> t.ctxDone) && (!s.ctxDone ==> s.stopClosed && t.stopMark == s.stopMark)
  {
    hide InHand;
    assert s.workers[0].Exited?;
  }

  /** Without a cancelled context only a worker that sees the empty queue completes the exit. */
  lemma LastToLeave<M>(s: State<M>, e: Event<M>)
    requires Inv(s) && Enabled(s, e) && !Next(s, e).ctxDone
    requires AllExited(Next(s, e).workers) && !AllExited(s.workers)
    ensures e.DrainEmpty? && s.buf == [] && s.stopClosed
  {
    var w :| 0 <= w < |s.workers| && !s.workers[w].Exited?;
    assert Next(s, e).workers[w].Exited?;
  }

  /** The invariant holds in every reachable state, cancelled context or not. */
  lemma {:induction false} RunInv<M>(s: State<M>, es: seq<Event<M>>)
    requires Inv(s) && Legal(s, es)
    ensures Inv(Run(s, es))
    decreases |es|
  {
    if es != [] {
      StepInv(s, es[0]);
      RunInv(Next(s, es[0]), es[1..]);
    }
  }

  // ---------------------------------------------------------------- what Stop promises

  predicate NoCancel<M(==)>(es: seq<Event<M>>) {
    forall i | 0 <= i < |es| :: es[i] != Cancel
  }

  lemma {:induction false} ContextStaysLive<M>(s: State<M>, es: seq<Event<M>>)
    requires Legal(s, es) && NoCancel(es)
    ensures Run(s, es).ctxDone == s.ctxDone
    decreases |es|
  {
    if es != [] {
      assert es[0] != Cancel;
      assert NoCancel(es[1..]) by { assert forall i | 0 <= i < |es[1..]| :: es[1..][i] == es[i + 1]; }
      ContextStaysLive(Next(s, es[0]), es[1..]);
    }
  }

  lemma {:induction false} SameWorkers<M>(s: State<M>, es: seq<Event<M>>)
    requires Legal(s, es)
    ensures |Run(s, es).workers| == |s.workers|
    decreases |es|
  {
    if es != [] {
      SameWorkers(Next(s, es[0]), es[1..]);
    }
  }

  /** The messages for which Enqueue returned nil, read off the trace. */
  function Accepted<M>(es: seq<Event<M>>): seq<M> {
    if es == [] then [] else (if es[0].Accept? then [es[0].m] else []) + Accepted(es[1..])
  }

  lemma {:induction false} AcceptedHistory<M>(s: State<M>, es: seq<Event<M>>)
    requires Legal(s, es)
    ensures Run(s, es).accepted == s.accepted + Accepted(es)
    decreases |es|
  {
    if es != [] {
      var head := if es[0].Accept? then [es[0].m] else [];
      assert Next(s, es[0]).accepted == s.accepted + head;
      AcceptedHistory(Next(s, es[0]), es[1..]);
      assert s.accepted + head + Accepted(es[1..]) == s.accepted + (head + Accepted(es[1..]));
    }
  }

  /** Once stopChan is closed, the number of messages accepted before stays on record. */
  lemma {:induction false} StopMarkStays<M>(s: State<M>, es: seq<Event<M>>)
    requires Legal(s, es) && s.stopClosed
    ensures Run(s, es).stopClosed && Run(s, es).stopMark == s.stopMark
    decreases |es|
  {
    if es != [] {
      StopMarkStays(Next(s, es[0]), es[1..]);
    }
  }

  lemma {:induction false} LegalSplit<M>(s: State<M>, es: seq<Event<M>>, i: nat)
    requires Legal(s, es) && i <= |es|
    ensures Legal(s, es[..i]) && Legal(Run(s, es[..i]), es[i..])
    ensures Run(s, es) == Run(Run(s, es[..i]), es[i..])
    decreases |es|
  {
    if i > 0 {
      LegalSplit(Next(s, es[0]), es[1..], i - 1);
      assert es[..i][1..] == es[1..][..i - 1] && es[i..] == es[1..][i - 1..];
    } else {
      assert es[0..] == es;
    }
  }

  /** When all workers are gone, everything dequeued has been handled. */
  lemma AllHandled<M>(s: State<M>)
    requires Inv(s) && AllExited(s.workers)
    ensures s.handled == multiset(s.dequeued)
  {
    NothingInHand(s.workers);
  }

  /** Stop with a live context: when it returns nil, the workers have handled exactly the messages
      accepted before the last of them saw an empty queue, each once and taken in order. All
      messages accepted before stopChan closed are among them; what is left over came later. */
  lemma StopDrains<M>(cap: nat, workerCount: nat, es: seq<Event<M>>, i: nat)
    requires workerCount > 0 && Legal(Init<M>(cap, workerCount), es) && NoCancel(es)
    requires i < |es| && es[i] == CloseStop
    requires Run(Init(cap, workerCount), es).doneClosed
    ensures var s := Run(Init(cap, workerCount), es);
            && s.accepted == Accepted(es)
            && |Accepted(es[..i])| <= s.emptyMark <= |Accepted(es)|
            && s.dequeued == Accepted(es)[..s.emptyMark]
            && s.handled == multiset(Accepted(es)[..s.emptyMark])
            && s.buf == Accepted(es)[s.emptyMark..]
            && Accepted(es[..i]) <= s.dequeued
  {
    var s0 := Init<M>(cap, workerCount);
    var s := Run(s0, es);
    hide Inv, Conserved, Phased, LeftDry;
    InitInv<M>(cap, workerCount);
    RunInv(s0, es);
    ContextStaysLive(s0, es);
    SameWorkers(s0, es);
    AcceptedHistory(s0, es);
    MarkIsPrefix(s0, es, i);
    DrainedParts(s);
  }

  lemma DrainedParts<M>(s: State<M>)
    requires Inv(s) && s.doneClosed && !s.ctxDone && s.workers != []
    ensures s.stopMark <= s.emptyMark <= |s.accepted|
    ensures s.dequeued == s.accepted[..s.emptyMark] && s.buf == s.accepted[s.emptyMark..]
    ensures s.handled == multiset(s.accepted[..s.emptyMark])
  {
    AllHandled(s);
  }

  lemma MarkIsPrefix<M>(s0: State<M>, es: seq<Event<M>>, i: nat)
    requires Legal(s0, es) && i < |es| && es[i] == CloseStop && s0.accepted == []
    ensures Run(s0, es).stopMark == |Accepted(es[..i])|
    ensures Accepted(es[..i]) <= Accepted(es)
  {
    LegalSplit(s0, es, i);
    var at := Run(s0, es[..i]);
    AcceptedHistory(s0, es[..i]);
    assert es[i..][1..] == es[i + 1..];
    StopMarkStays(Next(at, CloseStop), es[i + 1..]);
    AcceptedHistory(at, es[i..]);
    AcceptedHistory(s0, es);
    assert forall x: seq<M> :: s0.accepted + x == x;
  }

  // ---------------------------------------------------------------- the selects

  /** Enqueue never blocks: its default is taken exactly when neither of its cases is ready, that is when
      the buffer is full and the queue not stopping; with both ready, either may be taken. */
  lemma EnqueueOutcomes<M>(s: State<M>, m: M)
    ensures Enabled(s, RejectFull(m)) <==> !Enabled(s, Accept(m)) && !Enabled(s, RejectStopping(m))
    ensures Enabled(s, Accept(m)) <==> |s.buf| < s.cap
    ensures Enabled(s, RejectStopping(m)) <==> s.stopClosed
  {
  }

  /** A worker at its select can take each case that is ready, and waits only when none is; a draining one
      leaves exactly when nothing is buffered. */
  lemma WorkerOutcomes<M>(s: State<M>, w: nat)
    requires w < |s.workers|
    ensures s.workers[w].Selecting? ==>
              && (Enabled(s, Take(w)) <==> s.buf != []) && (Enabled(s, SeeStop(w)) <==> s.stopClosed)
              && (Enabled(s, SeeCancel(w)) <==> s.ctxDone)
    ensures s.workers[w].Draining? ==> (Enabled(s, DrainEmpty(w)) <==> !Enabled(s, DrainTake(w)))
    ensures s.workers[w].Exited? ==> forall e: Event<M> | WorkerEvent(e) && e.w == w :: !Enabled(s, e)
  {
  }

  // ---------------------------------------------------------------- progress

  predicate WorkerEvent<M(==)>(e: Event<M>) {
    e.Take? || e.SeeStop? || e.SeeCancel? || e.Finish? || e.DrainTake? || e.DrainEmpty?
  }

  function Weight<M>(p: Phase<M>): nat {
    match p
    case Handling(_) => 3
    case Selecting => 2
    case DrainHandling(_) => 2
    case Draining => 1
    case Exited => 0
  }

  function Weights<M>(workers: seq<Phase<M>>): nat {
    if workers == [] then 0 else Weight(workers[0]) + Weights(workers[1..])
  }

  lemma {:induction false} WeightsUpdate<M>(workers: seq<Phase<M>>, w: nat, p: Phase<M>)
    requires w < |workers|
    ensures Weights(workers[w := p]) + Weight(workers[w]) == Weights(workers) + Weight(p)
  {
    if w > 0 {
      WeightsUpdate(workers[1..], w - 1, p);
      assert workers[w := p][1..] == workers[1..][w - 1 := p];
    } else {
      assert workers[w := p][1..] == workers[1..];
    }
  }

  /** An upper bound on the steps the workers can still take without a new message. */
  function Measure<M>(s: State<M>): nat {
    2 * |s.buf| + Weights(s.workers)
  }

  lemma WorkerStepDecreases<M>(s: State<M>, e: Event<M>)
    requires Enabled(s, e) && WorkerEvent(e)
    ensures Measure(Next(s, e)) < Measure(s)
  {
    hide Weights;
    WeightsUpdate(s.workers, e.w, Next(s, e).workers[e.w]);
  }

  function WorkerSteps<M(==)>(es: seq<Event<M>>): nat {
    if es == [] then 0 else (if WorkerEvent(es[0]) then 1 else 0) + WorkerSteps(es[1..])
  }

  predicate NoAccept<M(==)>(es: seq<Event<M>>) {
    forall i | 0 <= i < |es| :: !es[i].Accept?
  }

  /** Without new messages the workers take boundedly many steps, stopped or not. */
  lemma {:induction false} WorkersRunDown<M>(s: State<M>, es: seq<Event<M>>)
    requires Legal(s, es) && NoAccept(es)
    ensures WorkerSteps(es) <= Measure(s)
    decreases |es|
  {
    if es != [] {
      var t := Next(s, es[0]);
      assert !es[0].Accept?;
      assert NoAccept(es[1..]) by { assert forall i | 0 <= i < |es[1..]| :: es[1..][i] == es[i + 1]; }
      WorkersRunDown(t, es[1..]);
      if WorkerEvent(es[0]) {
        WorkerStepDecreases(s, es[0]);
      }
    }
  }

  /** After the close a worker that has not left can always move. */
  lemma SomeWorkerMoves<M>(s: State<M>) returns (e: Event<M>)
    requires s.stopClosed && !AllExited(s.workers)
    ensures WorkerEvent(e) && Enabled(s, e)
  {
    var w :| 0 <= w < |s.workers| && !s.workers[w].Exited?;
    match s.workers[w]
    case Handling(_) => e := Finish(w);
    case DrainHandling(_) => e := Finish(w);
    case Selecting => e := SeeStop(w);
    case Draining => e := if s.buf == [] then DrainEmpty(w) else DrainTake(w);
  }

  /** No deadlock: from every stopped state the workers alone can bring Stop to return, and do so
      within the measure. */
  lemma {:induction false} StopCanReturn<M>(s: State<M>) returns (es: seq<Event<M>>)
    requires s.stopClosed && !s.doneClosed
    ensures Legal(s, es) && Run(s, es).doneClosed && |es| <= Measure(s) + 1
    decreases Measure(s)
  {
    if AllExited(s.workers) {
      es := [StopReturns];
      assert es[1..] == [];
    } else {
      var e := SomeWorkerMoves(s);
      WorkerStepDecreases(s, e);
      var rest := StopCanReturn(Next(s, e));
      es := [e] + rest;
      assert es[1..] == rest;
    }
  }

  // ---------------------------------------------------------------- a cancelled context

  /** From here, Stop hands every message accepted so far to the handler on every schedule. */
  ghost predicate DrainsOnEverySchedule<M(!new)>(s: State<M>)
    requires Enabled(s, CloseStop)
  {
    forall es | Legal(Next(s, CloseStop), es) && Run(Next(s, CloseStop), es).doneClosed ::
      s.accepted <= Run(Next(s, CloseStop), es).dequeued
  }

  /** The same on every schedule without a cancellation after the close. */
  ghost predicate DrainsUnlessCancelledLater<M(!new)>(s: State<M>)
    requires Enabled(s, CloseStop)
  {
    forall es | Legal(Next(s, CloseStop), es) && NoCancel(es) && Run(Next(s, CloseStop), es).doneClosed ::
      s.accepted <= Run(Next(s, CloseStop), es).dequeued
  }

  /** With the context cancelled each worker may leave at its next select. */
  lemma {:induction false} WorkersMayLeave<M>(s: State<M>, w: nat) returns (es: seq<Event<M>>)
    requires s.stopClosed && s.ctxDone && w <= |s.workers|
    requires forall v | 0 <= v < w :: s.workers[v].Exited?
    requires forall v | 0 <= v < |s.workers| :: !s.workers[v].Draining? && !s.workers[v].DrainHandling?
    ensures Legal(s, es) && NoCancel(es) && AllExited(Run(s, es).workers)
    ensures Run(s, es).dequeued == s.dequeued && Run(s, es).stopClosed && Run(s, es).doneClosed == s.doneClosed
    decreases |s.workers| - w, if w < |s.workers| then Weight(s.workers[w]) else 0
  {
    if w == |s.workers| {
      es := [];
    } else if s.workers[w].Exited? {
      es := WorkersMayLeave(s, w + 1);
    } else {
      var e: Event<M> := if s.workers[w].Handling? then Finish(w) else SeeCancel(w);
      var rest := WorkersMayLeave(Next(s, e), w);
      es := [e] + rest;
      assert es[1..] == rest;
    }
  }

  lemma {:induction false} RunAppend<M>(s: State<M>, a: seq<Event<M>>, b: seq<Event<M>>)
    requires Legal(s, a) && Legal(Run(s, a), b)
    ensures Legal(s, a + b) && Run(s, a + b) == Run(Run(s, a), b)
    decreases |a|
  {
    if a == [] {
      assert a + b == b;
    } else {
      assert (a + b)[0] == a[0] && (a + b)[1..] == a[1..] + b;
      RunAppend(Next(s, a[0]), a[1..], b);
    }
  }

  /** Stop after a cancellation, as in the program's own shutdown: some schedule leaves every
      buffered message unhandled. */
  lemma CancelledStopMayDropAll<M>(s: State<M>) returns (es: seq<Event<M>>)
    requires Inv(s) && s.ctxDone && !s.stopClosed && !s.doneClosed
    ensures Legal(Next(s, CloseStop), es) && NoCancel(es)
    ensures Run(Next(s, CloseStop), es).doneClosed && Run(Next(s, CloseStop), es).dequeued == s.dequeued
  {
    var t := Next(s, CloseStop);
    var leave := WorkersMayLeave(t, 0);
    var last: seq<Event<M>> := [StopReturns];
    assert last[1..] == [];
    RunAppend(t, leave, last);
    es := leave + last;
  }

  lemma LiveOrEmptyDrains<M>(s: State<M>, es: seq<Event<M>>)
    requires Inv(s) && !s.stopClosed && s.workers != [] && (!s.ctxDone || s.buf == [])
    requires Legal(Next(s, CloseStop), es) && NoCancel(es) && Run(Next(s, CloseStop), es).doneClosed
    ensures s.accepted <= Run(Next(s, CloseStop), es).dequeued
  {
    var t := Next(s, CloseStop);
    StepInv(s, CloseStop);
    RunInv(t, es);
    AcceptedHistory(t, es);
    SameWorkers(t, es);
    ContextStaysLive(t, es);
    StopMarkStays(t, es);
    if s.buf == [] {
      DequeuedGrows(t, es);
      assert s.accepted == s.dequeued;
    } else {
      DrainedParts(Run(t, es));
    }
  }

  lemma {:induction false} DequeuedGrows<M>(s: State<M>, es: seq<Event<M>>)
    requires Legal(s, es)
    ensures s.dequeued <= Run(s, es).dequeued
    decreases |es|
  {
    if es != [] {
      DequeuedGrows(Next(s, es[0]), es[1..]);
    }
  }

  /** Stop drains the queue on every schedule in which no cancellation follows exactly when the context
      is live or nothing is buffered at the time of the call. */
  lemma StopDrainsUnlessCancelledLater<M(!new)>(s: State<M>)
    requires Inv(s) && !s.stopClosed && !s.doneClosed && s.workers != []
    ensures DrainsUnlessCancelledLater(s) <==> !s.ctxDone || s.buf == []
  {
    if !s.ctxDone || s.buf == [] {
      forall es | Legal(Next(s, CloseStop), es) && NoCancel(es) && Run(Next(s, CloseStop), es).doneClosed
        ensures s.accepted <= Run(Next(s, CloseStop), es).dequeued
      {
        LiveOrEmptyDrains(s, es);
      }
    } else {
      var es := CancelledStopMayDropAll(s);
      assert |s.accepted| > |s.dequeued|;
    }
  }

  /** On every schedule at all, cancellations included: exactly when nothing is buffered. A live context
      at the time of the call is no help when it is cancelled before the workers have drained. */
  lemma StopDrainsExactly<M(!new)>(s: State<M>)
    requires Inv(s) && !s.stopClosed && !s.doneClosed && s.workers != []
    ensures DrainsOnEverySchedule(s) <==> s.buf == []
  {
    if s.buf == [] {
      forall es | Legal(Next(s, CloseStop), es) && Run(Next(s, CloseStop), es).doneClosed
        ensures s.accepted <= Run(Next(s, CloseStop), es).dequeued
      {
        DequeuedGrows(Next(s, CloseStop), es);
        assert s.accepted == s.dequeued;
      }
    } else {
      var t := Next(s, Cancel);
      StepInv(s, Cancel);
      var es := CancelledStopMayDropAll(t);
      assert Next(t, CloseStop) == Next(Next(s, CloseStop), Cancel);
      var all := [Cancel] + es;
      assert all[1..] == es;
      assert Legal(Next(s, CloseStop), all) && Run(Next(s, CloseStop), all) == Run(Next(t, CloseStop), es);
      assert |s.accepted| > |s.dequeued|;
    }
  }

  // ---------------------------------------------------------------- draining alone

  /** One message received and handled by a draining worker. */
  function DrainRound<M>(s: State<M>): State<M>
    requires s.buf != []
  {
    s.(buf := s.buf[1..], dequeued := s.dequeued + [s.buf[0]], handled := s.handled + multiset{s.buf[0]})
  }

  /** `drainQueue` of worker w with nobody else moving. */
  function DrainAlone<M(==)>(s: State<M>, w: nat): State<M>
    requires WorkerAt(s, w, Draining)
    decreases |s.buf|
  {
    if s.buf == [] then Next(s, DrainEmpty(w)) else DrainAlone(DrainRound(s), w)
  }

  lemma {:induction false} DrainAloneHandlesAll<M>(s: State<M>, w: nat)
    requires WorkerAt(s, w, Draining)
    ensures DrainAlone(s, w) == s.(buf := [], dequeued := s.dequeued + s.buf, workers := s.workers[w := Exited],
                                   handled := s.handled + multiset(s.buf), emptyMark := |s.accepted|)
    decreases |s.buf|
  {
    if s.buf == [] {
      assert s.dequeued + s.buf == s.dequeued;
    } else {
      DrainAloneHandlesAll(DrainRound(s), w);
      OneThenRest(s.dequeued, s.handled, s.buf);
    }
  }

  lemma OneThenRest<M>(d: seq<M>, h: multiset<M>, q: seq<M>)
    requires q != []
    ensures d + [q[0]] + q[1..] == d + q
    ensures h + multiset{q[0]} + multiset(q[1..]) == h + multiset(q)
  {
    assert q == [q[0]] + q[1..];
    assert multiset(q) == multiset{q[0]} + multiset(q[1..]);
  }

  // ---------------------------------------------------------------- frames of the steps

  /** A step of the queue itself: neither of Stop nor of the context. */
  predicate Internal<M>(e: Event<M>) {
    !e.Cancel? && !e.CloseStop? && !e.StopReturns?
  }

  predicate Busy<M>(p: Phase<M>) {
    p.Handling? || p.DrainHandling?
  }

  lemma InternalFrame<M>(s: State<M>, e: Event<M>)
    requires Internal(e) && Enabled(s, e)
    ensures var t := Next(s, e);
            && t.stopClosed == s.stopClosed && t.doneClosed == s.doneClosed && t.stopMark == s.stopMark
            && t.accepted == s.accepted + (if e.Accept? then [e.m] else [])
            && t.dequeued == s.dequeued + (if e.Take? || e.DrainTake? then [s.buf[0]] else [])
  {
  }

  lemma ControlFrame<M>(s: State<M>, e: Event<M>)
    requires !Internal(e) && Enabled(s, e)
    ensures var t := Next(s, e);
            && t.workers == s.workers && t.accepted == s.accepted && t.dequeued == s.dequeued
            && t.stopClosed == (s.stopClosed || e.CloseStop?) && t.doneClosed == (s.doneClosed || e.StopReturns?)
            && t.stopMark == (if e.CloseStop? then |s.accepted| else s.stopMark)
  {
  }

  /** A worker enters the handler by receiving and leaves it by finishing. */
  lemma BusyFrame<M>(s: State<M>, e: Event<M>)
    requires Internal(e) && Enabled(s, e)
    ensures |Next(s, e).workers| == |s.workers|
    ensures forall v | 0 <= v < |s.workers| && Busy(s.workers[v]) :: Busy(Next(s, e).workers[v]) || e == Finish(v)
    ensures e.Take? || e.DrainTake? ==> e.w < |s.workers| && s.buf != [] && !Busy(s.workers[e.w]) && Busy(Next(s, e).workers[e.w])
  {
  }
}
