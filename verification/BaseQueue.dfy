/** The queue object (internal/analyzer/queue/base_queue.go:27-175). Each method is one atomic step
    of one goroutine and is tied to the step system of WorkQueue; a select is an if-case statement,
    which may take any ready case. */
module BaseQueue {
  import opened WorkQueue

  datatype EnqueueResult = Ok | ShuttingDown | QueueFull

  const DEFAULT_BUFFER_SIZE := 10000
  const DEFAULT_WORKER_COUNT := 4

  class BaseQueue<M(==)> {
    const bufferSize: nat
    const workerCount: nat
    var queue: seq<M>
    var stopClosed: bool
    var doneClosed: bool
    var ctxDone: bool
    var workers: seq<Phase<M>>
    ghost var accepted: seq<M>
    ghost var dequeued: seq<M>
    ghost var handled: multiset<M>
    ghost var stopMark: nat
    ghost var emptyMark: nat

    ghost function S(): State<M>
      reads this
    {
      State(bufferSize, queue, workers, stopClosed, ctxDone, doneClosed,
            accepted, dequeued, handled, stopMark, emptyMark)
    }

    ghost predicate Valid()
      reads this
    {
      Inv(S())
    }

    /** `NewBaseQueue`: non-positive sizes are replaced by the defaults. */
    constructor (bufferSize: int, workerCount: int)
      ensures this.bufferSize == (if bufferSize <= 0 then 10000 else bufferSize)
      ensures this.workerCount == (if workerCount <= 0 then 4 else workerCount)
      ensures S() == Init(this.bufferSize, 0) && Valid()
      ensures this.bufferSize > 0 && this.workerCount > 0
    {
      this.bufferSize := if bufferSize <= 0 then DEFAULT_BUFFER_SIZE else bufferSize;
      this.workerCount := if workerCount <= 0 then DEFAULT_WORKER_COUNT else workerCount;
      queue, stopClosed, doneClosed, ctxDone, workers := [], false, false, false, [];
      accepted, dequeued, handled, stopMark, emptyMark := [], [], multiset{}, 0, 0;
    }

    /** Launches the workers; messages enqueued before are kept. */
    method Start()
      requires Valid() && workers == [] && !doneClosed
      modifies `workers
      ensures Valid() && S() == old(S()).(workers := seq(workerCount, _ => Selecting))
    {
      workers := seq(workerCount, _ => Selecting);
      NothingInHand(workers);
    }

    /** Non-blocking; after the close a message may still be accepted while there is room. */
    method Enqueue(msg: M) returns (r: EnqueueResult)
      requires Valid()
      modifies this
      ensures Valid()
      ensures var e := match r
                       case Ok => Accept(msg)
                       case ShuttingDown => RejectStopping(msg)
                       case QueueFull => RejectFull(msg);
              Enabled(old(S()), e) && S() == Next(old(S()), e)
    {
      if
      case |queue| < bufferSize =>
        StepInv(S(), Accept(msg));
        queue := queue + [msg];
        accepted := accepted + [msg];
        r := Ok;
      case stopClosed =>
        r := ShuttingDown;
      case |queue| >= bufferSize && !stopClosed =>
        r := QueueFull;
    }

    /** The select of `worker`; it blocks while no case is ready. */
    method WorkerSelect(w: nat) returns (e: Event<M>)
      requires Valid() && WorkerAt(S(), w, Selecting)
      requires ctxDone || stopClosed || queue != []
      modifies this
      ensures Valid() && WorkerEvent(e) && e.w == w && Enabled(old(S()), e) && S() == Next(old(S()), e)
    {
      if
      case ctxDone =>
        e := SeeCancel(w);
        StepInv(S(), e);
        workers := workers[w := Exited];
      case stopClosed =>
        e := SeeStop(w);
        StepInv(S(), e);
        workers := workers[w := Draining];
      case queue != [] =>
        e := Take(w);
        StepInv(S(), e);
        Receive(w, Handling(queue[0]));
    }

    method Receive(w: nat, p: Phase<M>)
      requires queue != [] && w < |workers|
      modifies `queue, `dequeued, `workers
      ensures S() == Dequeue(old(S()), w, p)
    {
      workers := workers[w := p];
      dequeued := dequeued + [queue[0]];
      queue := queue[1..];
    }

    /** The handler returns; its error, if any, is only logged. */
    method FinishMessage(w: nat)
      requires Valid() && Enabled(S(), Finish(w))
      modifies this
      ensures Valid() && S() == Next(old(S()), Finish(w))
    {
      StepInv(S(), Finish(w));
      handled := handled + multiset{workers[w].msg};
      workers := workers[w := if workers[w].Handling? then Selecting else Draining];
    }

    /** The select of `drainQueue`, which never blocks. */
    method DrainSelect(w: nat) returns (e: Event<M>)
      requires Valid() && WorkerAt(S(), w, Draining)
      modifies this
      ensures Valid() && e == (if old(queue) != [] then DrainTake(w) else DrainEmpty(w))
      ensures Enabled(old(S()), e) && S() == Next(old(S()), e)
    {
      if queue != [] {
        e := DrainTake(w);
        StepInv(S(), e);
        Receive(w, DrainHandling(queue[0]));
      } else {
        e := DrainEmpty(w);
        StepInv(S(), e);
        emptyMark := |accepted|;
        workers := workers[w := Exited];
      }
    }

    /** One round of the loop of `drainQueue` on a non-empty buffer. */
    method DrainOne(w: nat)
      requires Valid() && WorkerAt(S(), w, Draining) && queue != []
      modifies this
      ensures Valid() && WorkerAt(S(), w, Draining)
      ensures S() == DrainRound(old(S()))
    {
      var e := DrainSelect(w);
      FinishMessage(w);
      assert workers == old(workers);
    }

    /** `drainQueue` run without interference handles the whole buffer, in order, and leaves. */
    method DrainQueue(w: nat)
      requires Valid() && WorkerAt(S(), w, Draining)
      modifies this
      ensures Valid()
      ensures S() == old(S()).(buf := [], dequeued := old(dequeued + queue), workers := old(workers)[w := Exited],
                               handled := old(handled) + multiset(old(queue)), emptyMark := |old(accepted)|)
    {
      hide Inv;
      DrainAloneHandlesAll(S(), w);
      while queue != []
        invariant Valid() && WorkerAt(S(), w, Draining)
        invariant DrainAlone(S(), w) == DrainAlone(old(S()), w)
        decreases |queue|
      {
        DrainOne(w);
      }
      var e := DrainSelect(w);
    }

    /** First half of Stop; closing a closed channel would panic. */
    method CloseStopChan()
      requires Valid() && !stopClosed
      modifies this
      ensures Valid() && S() == Next(old(S()), CloseStop)
    {
      StepInv(S(), CloseStop);
      stopClosed := true;
      stopMark := |accepted|;
    }

    /** Second half of Stop: waits for the workers or the timeout, whichever is first. */
    method AwaitWorkers(timedOut: bool) returns (ok: bool)
      requires Valid() && stopClosed && !doneClosed && (timedOut || AllExited(workers))
      modifies this
      ensures Valid() && (ok ==> Enabled(old(S()), StopReturns) && S() == Next(old(S()), StopReturns))
      ensures !ok ==> timedOut && S() == old(S())
    {
      if
      case AllExited(workers) =>
        StepInv(S(), StopReturns);
        doneClosed := true;
        ok := true;
      case timedOut =>
        ok := false;
    }
  }
}
