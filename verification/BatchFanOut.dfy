/** `HandleBatch` (internal/analyzer/detector/anomaly_detector.go:100-197) under any goroutine
    schedule: the dispatching loop, a semaphore of `maxConcurrent` slots, one goroutine per record,
    a WaitGroup, and counters behind a mutex. What the LLM would answer for each record is part of
    the input; nothing is assumed about it. */
module BatchFanOut {
  import opened ExchangeSort

  /** The LLM's reply for a record: a score, or any error or timeout. */
  datatype Reply = Answer(score: real) | Failure

  datatype Job = Job(supi: string, empty: bool, reply: Reply)

  /** A goroutine: not launched, running, error counted but result not yet collected, result
      collected, semaphore slot released, WaitGroup done. */
  datatype Phase = Idle | Running | ErrorCounted | Collected | SlotReleased | Finished

  datatype State = State(
    next: nat, added: bool, phases: seq<Phase>, sem: nat, wg: nat,
    results: seq<Scored>, skipped: nat, asked: nat, errors: nat, returned: bool)

  datatype Event =
    | Add              // wg.Add(1) for the next record
    | Launch           // a slot is acquired and the goroutine started
    | Skip(i: nat)     // empty record: risk 0.0 collected without a request
    | Collect(i: nat)  // the LLM answered: its score collected
    | Fail(i: nat)     // the request failed: errorCount is incremented
    | Default(i: nat)  // and the default score collected
    | Release(i: nat)  // deferred: the slot is released
    | Done(i: nat)     // deferred: wg.Done()
    | Return           // wg.Wait() returns

  const DEFAULT_SCORE := 0.1

  /** What the batch must report for a record, whatever the schedule. */
  function Expected(j: Job): Scored {
    if j.empty then Scored(j.supi, 0.0)
    else match j.reply
         case Answer(score) => Scored(j.supi, score)
         case Failure => Scored(j.supi, DEFAULT_SCORE)
  }

  function Begin(jobs: seq<Job>): State {
    State(0, false, seq(|jobs|, _ => Idle), 0, 0, [], 0, 0, 0, false)
  }

  predicate At(s: State, i: nat, p: Phase) {
    i < |s.phases| && s.phases[i] == p
  }

  predicate Enabled(jobs: seq<Job>, cap: nat, s: State, e: Event) {
    match e
    case Add => s.next < |jobs| && !s.added
    case Launch => s.next < |jobs| && s.next < |s.phases| && s.added && s.sem < cap
    case Skip(i) => i < |jobs| && At(s, i, Running) && jobs[i].empty
    case Collect(i) => i < |jobs| && At(s, i, Running) && !jobs[i].empty && jobs[i].reply.Answer?
    case Fail(i) => i < |jobs| && At(s, i, Running) && !jobs[i].empty && jobs[i].reply.Failure?
    case Default(i) => i < |jobs| && At(s, i, ErrorCounted)
    case Release(i) => At(s, i, Collected) && s.sem > 0
    case Done(i) => At(s, i, SlotReleased) && s.wg > 0
    case Return => s.next == |jobs| && !s.added && s.wg == 0 && !s.returned
  }

  function Next(jobs: seq<Job>, cap: nat, s: State, e: Event): State
    requires Enabled(jobs, cap, s, e)
  {
    match e
    case Add => s.(added := true, wg := s.wg + 1)
    case Launch => s.(added := false, sem := s.sem + 1, phases := s.phases[s.next := Running], next := s.next + 1)
    case Skip(i) =>
      s.(phases := s.phases[i := Collected], results := s.results + [Scored(jobs[i].supi, 0.0)], skipped := s.skipped + 1)
    case Collect(i) =>
      s.(phases := s.phases[i := Collected],
         results := s.results + [Scored(jobs[i].supi, jobs[i].reply.score)], asked := s.asked + 1)
    case Fail(i) => s.(phases := s.phases[i := ErrorCounted], errors := s.errors + 1)
    case Default(i) =>
      s.(phases := s.phases[i := Collected],
         results := s.results + [Scored(jobs[i].supi, DEFAULT_SCORE)], asked := s.asked + 1)
    case Release(i) => s.(phases := s.phases[i := SlotReleased], sem := s.sem - 1)
    case Done(i) => s.(phases := s.phases[i := Finished], wg := s.wg - 1)
    case Return => s.(returned := true)
  }

  predicate Legal(jobs: seq<Job>, cap: nat, s: State, es: seq<Event>)
    decreases |es|
  {
    es == [] || (Enabled(jobs, cap, s, es[0]) && Legal(jobs, cap, Next(jobs, cap, s, es[0]), es[1..]))
  }

  function Run(jobs: seq<Job>, cap: nat, s: State, es: seq<Event>): State
    requires Legal(jobs, cap, s, es)
    decreases |es|
  {
    if es == [] then s else Run(jobs, cap, Next(jobs, cap, s, es[0]), es[1..])
  }

  // ---------------------------------------------------------------- tallies over the goroutines

  predicate IsCollected(p: Phase) {
    p == Collected || p == SlotReleased || p == Finished
  }

  /** What the counters count, as a property of one job and its goroutine. */
  datatype Tally = HoldsSlot | InGroup | WasSkipped | WasAsked | HasFailed

  predicate Counts(t: Tally, j: Job, p: Phase) {
    match t
    case HoldsSlot => p == Running || p == ErrorCounted || p == Collected
    case InGroup => p != Idle && p != Finished
    case WasSkipped => IsCollected(p) && j.empty
    case WasAsked => IsCollected(p) && !j.empty
    case HasFailed => (p == ErrorCounted || IsCollected(p)) && !j.empty && j.reply.Failure?
  }

  function Count(t: Tally, jobs: seq<Job>, phases: seq<Phase>): nat
    requires |jobs| == |phases|
  {
    if jobs == [] then 0
    else One(t, jobs[0], phases[0]) + Count(t, jobs[1..], phases[1..])
  }

  function Gathered(jobs: seq<Job>, phases: seq<Phase>): multiset<Scored>
    requires |jobs| == |phases|
  {
    if jobs == [] then multiset{}
    else (if IsCollected(phases[0]) then multiset{Expected(jobs[0])} else multiset{}) + Gathered(jobs[1..], phases[1..])
  }

  lemma {:induction false} CountUpdate(t: Tally, jobs: seq<Job>, phases: seq<Phase>, i: nat, p: Phase)
    requires i < |jobs| == |phases|
    ensures Count(t, jobs, phases[i := p]) + One(t, jobs[i], phases[i]) == Count(t, jobs, phases) + One(t, jobs[i], p)
  {
    hide Counts;
    if i > 0 {
      CountUpdate(t, jobs[1..], phases[1..], i - 1, p);
      assert phases[i := p][1..] == phases[1..][i - 1 := p];
    } else {
      assert phases[i := p][1..] == phases[1..];
    }
  }

  lemma {:induction false} GatheredUpdate(jobs: seq<Job>, phases: seq<Phase>, i: nat, p: Phase)
    requires i < |jobs| == |phases| && !IsCollected(phases[i])
    ensures Gathered(jobs, phases[i := p])
         == Gathered(jobs, phases) + (if IsCollected(p) then multiset{Expected(jobs[i])} else multiset{})
  {
    if i > 0 {
      GatheredUpdate(jobs[1..], phases[1..], i - 1, p);
      assert phases[i := p][1..] == phases[1..][i - 1 := p];
    } else {
      assert phases[i := p][1..] == phases[1..];
    }
  }

  lemma {:induction false} GatheredSame(jobs: seq<Job>, phases: seq<Phase>, i: nat, p: Phase)
    requires i < |jobs| == |phases| && IsCollected(phases[i]) && IsCollected(p)
    ensures Gathered(jobs, phases[i := p]) == Gathered(jobs, phases)
  {
    if i > 0 {
      GatheredSame(jobs[1..], phases[1..], i - 1, p);
      assert phases[i := p][1..] == phases[1..][i - 1 := p];
    } else {
      assert phases[i := p][1..] == phases[1..];
    }
  }

  // ---------------------------------------------------------------- the invariant

  predicate Shape(jobs: seq<Job>, s: State) {
    && |s.phases| == |jobs| && s.next <= |jobs|
    && (forall i | 0 <= i < |jobs| :: s.phases[i] == Idle <==> i >= s.next)
    && (forall i | 0 <= i < |jobs| :: s.phases[i] == ErrorCounted ==> !jobs[i].empty && jobs[i].reply.Failure?)
    && (s.added ==> s.next < |jobs|)
    && (s.returned ==> s.next == |jobs| && !s.added && s.wg == 0)
  }

  predicate Counted(jobs: seq<Job>, s: State)
    requires |s.phases| == |jobs|
  {
    && s.sem == Count(HoldsSlot, jobs, s.phases)
    && s.wg == Count(InGroup, jobs, s.phases) + (if s.added then 1 else 0)
    && s.skipped == Count(WasSkipped, jobs, s.phases)
    && s.asked == Count(WasAsked, jobs, s.phases)
    && s.errors == Count(HasFailed, jobs, s.phases)
  }

  predicate Inv(jobs: seq<Job>, cap: nat, s: State) {
    && Shape(jobs, s) && Counted(jobs, s) && s.sem <= cap
    && multiset(s.results) == Gathered(jobs, s.phases)
  }

  lemma {:induction false} NoneCounted(t: Tally, jobs: seq<Job>, phases: seq<Phase>)
    requires |jobs| == |phases| && forall i | 0 <= i < |jobs| :: !Counts(t, jobs[i], phases[i])
    ensures Count(t, jobs, phases) == 0
  {
    if jobs != [] {
      NoneCounted(t, jobs[1..], phases[1..]);
    }
  }

  lemma {:induction false} NoneGathered(jobs: seq<Job>, phases: seq<Phase>)
    requires |jobs| == |phases| && forall i | 0 <= i < |jobs| :: phases[i] == Idle
    ensures Gathered(jobs, phases) == multiset{}
  {
    if jobs != [] {
      NoneGathered(jobs[1..], phases[1..]);
    }
  }

  lemma BeginInv(jobs: seq<Job>, cap: nat)
    ensures Inv(jobs, cap, Begin(jobs))
  {
    var ps := Begin(jobs).phases;
    NoneCounted(HoldsSlot, jobs, ps);
    NoneCounted(InGroup, jobs, ps);
    NoneCounted(WasSkipped, jobs, ps);
    NoneCounted(WasAsked, jobs, ps);
    NoneCounted(HasFailed, jobs, ps);
    NoneGathered(jobs, ps);
  }

  /** The goroutine an event moves. */
  function Mover(s: State, e: Event): nat {
    match e
    case Add => 0
    case Return => 0
    case Launch => s.next
    case Skip(i) => i
    case Collect(i) => i
    case Fail(i) => i
    case Default(i) => i
    case Release(i) => i
    case Done(i) => i
  }

  function One(t: Tally, j: Job, p: Phase): nat {
    if Counts(t, j, p) then 1 else 0
  }

  lemma Tallied(jobs: seq<Job>, phases: seq<Phase>, i: nat, p: Phase)
    requires i < |jobs| == |phases|
    ensures Count(HoldsSlot, jobs, phases[i := p]) + One(HoldsSlot, jobs[i], phases[i]) == Count(HoldsSlot, jobs, phases) + One(HoldsSlot, jobs[i], p)
    ensures Count(InGroup, jobs, phases[i := p]) + One(InGroup, jobs[i], phases[i]) == Count(InGroup, jobs, phases) + One(InGroup, jobs[i], p)
    ensures Count(WasSkipped, jobs, phases[i := p]) + One(WasSkipped, jobs[i], phases[i]) == Count(WasSkipped, jobs, phases) + One(WasSkipped, jobs[i], p)
    ensures Count(WasAsked, jobs, phases[i := p]) + One(WasAsked, jobs[i], phases[i]) == Count(WasAsked, jobs, phases) + One(WasAsked, jobs[i], p)
    ensures Count(HasFailed, jobs, phases[i := p]) + One(HasFailed, jobs[i], phases[i]) == Count(HasFailed, jobs, phases) + One(HasFailed, jobs[i], p)
  {
    CountUpdate(HoldsSlot, jobs, phases, i, p);
    CountUpdate(InGroup, jobs, phases, i, p);
    CountUpdate(WasSkipped, jobs, phases, i, p);
    CountUpdate(WasAsked, jobs, phases, i, p);
    CountUpdate(HasFailed, jobs, phases, i, p);
  }

  lemma StepShape(jobs: seq<Job>, cap: nat, s: State, e: Event)
    requires Shape(jobs, s) && Enabled(jobs, cap, s, e)
    ensures Shape(jobs, Next(jobs, cap, s, e))
  {
  }

  lemma StepCounted(jobs: seq<Job>, cap: nat, s: State, e: Event)
    requires Shape(jobs, s) && Counted(jobs, s) && s.sem <= cap && Enabled(jobs, cap, s, e)
    ensures Counted(jobs, Next(jobs, cap, s, e)) && Next(jobs, cap, s, e).sem <= cap
  {
    hide Count;
    var t := Next(jobs, cap, s, e);
    var i := Mover(s, e);
    if e != Add && e != Return {
      Tallied(jobs, s.phases, i, t.phases[i]);
    }
  }

  lemma StepGathered(jobs: seq<Job>, cap: nat, s: State, e: Event)
    requires Shape(jobs, s) && multiset(s.results) == Gathered(jobs, s.phases) && Enabled(jobs, cap, s, e)
    ensures var t := Next(jobs, cap, s, e); multiset(t.results) == Gathered(jobs, t.phases)
  {
    hide Gathered;
    var t := Next(jobs, cap, s, e);
    match e
    case Add =>
    case Return =>
    case Launch => GatheredUpdate(jobs, s.phases, s.next, Running);
    case Release(i) => GatheredSame(jobs, s.phases, i, SlotReleased);
    case Done(i) => GatheredSame(jobs, s.phases, i, Finished);
    case _ => GatheredUpdate(jobs, s.phases, e.i, t.phases[e.i]);
  }

  lemma {:induction false} RunInv(jobs: seq<Job>, cap: nat, s: State, es: seq<Event>)
    requires Inv(jobs, cap, s) && Legal(jobs, cap, s, es)
    ensures Inv(jobs, cap, Run(jobs, cap, s, es))
    decreases |es|
  {
    if es != [] {
      hide Shape, Counted;
      StepShape(jobs, cap, s, es[0]);
      StepCounted(jobs, cap, s, es[0]);
      StepGathered(jobs, cap, s, es[0]);
      RunInv(jobs, cap, Next(jobs, cap, s, es[0]), es[1..]);
    }
  }

  /** At most `cap` goroutines hold a slot, after any number of steps of any schedule. */
  lemma InFlightBounded(jobs: seq<Job>, cap: nat, es: seq<Event>)
    requires Legal(jobs, cap, Begin(jobs), es)
    ensures var s := Run(jobs, cap, Begin(jobs), es);
            |s.phases| == |jobs| && Count(HoldsSlot, jobs, s.phases) == s.sem <= cap
  {
    BeginInv(jobs, cap);
    RunInv(jobs, cap, Begin(jobs), es);
  }

  // ---------------------------------------------------------------- what wg.Wait() guarantees

  function ExpectedAll(jobs: seq<Job>): seq<Scored> {
    if jobs == [] then [] else [Expected(jobs[0])] + ExpectedAll(jobs[1..])
  }

  function Empties(jobs: seq<Job>): nat {
    if jobs == [] then 0 else (if jobs[0].empty then 1 else 0) + Empties(jobs[1..])
  }

  function Failures(jobs: seq<Job>): nat {
    if jobs == [] then 0
    else (if !jobs[0].empty && jobs[0].reply.Failure? then 1 else 0) + Failures(jobs[1..])
  }

  lemma {:induction false} NobodyLeft(t: Tally, jobs: seq<Job>, phases: seq<Phase>, i: nat)
    requires |jobs| == |phases| && Count(t, jobs, phases) == 0 && i < |jobs|
    ensures !Counts(t, jobs[i], phases[i])
  {
    if i > 0 {
      NobodyLeft(t, jobs[1..], phases[1..], i - 1);
    }
  }

  lemma {:induction false} WhenAllFinished(jobs: seq<Job>, phases: seq<Phase>)
    requires |jobs| == |phases| && forall i | 0 <= i < |jobs| :: phases[i] == Finished
    ensures Gathered(jobs, phases) == multiset(ExpectedAll(jobs))
    ensures Count(WasSkipped, jobs, phases) == Empties(jobs)
    ensures Count(WasAsked, jobs, phases) == |jobs| - Empties(jobs)
    ensures Count(HasFailed, jobs, phases) == Failures(jobs) <= |jobs| - Empties(jobs)
  {
    if jobs != [] {
      hide Expected;
      WhenAllFinished(jobs[1..], phases[1..]);
    }
  }

  /** When `HandleBatch` returns, every record has exactly one result, the expected one; every
      record was either skipped as empty or asked about, and the errors are the failed requests. */
  lemma BatchOutcome(jobs: seq<Job>, cap: nat, es: seq<Event>)
    requires Legal(jobs, cap, Begin(jobs), es) && Run(jobs, cap, Begin(jobs), es).returned
    ensures var s := Run(jobs, cap, Begin(jobs), es);
            && multiset(s.results) == multiset(ExpectedAll(jobs))
            && s.skipped == Empties(jobs) && s.skipped + s.asked == |jobs|
            && s.errors == Failures(jobs) <= s.asked
  {
    BeginInv(jobs, cap);
    RunInv(jobs, cap, Begin(jobs), es);
    var s := Run(jobs, cap, Begin(jobs), es);
    forall i | 0 <= i < |jobs| ensures s.phases[i] == Finished {
      NobodyLeft(InGroup, jobs, s.phases, i);
    }
    WhenAllFinished(jobs, s.phases);
  }

  /** Record by record: an empty one gets 0.0, an answered one its answer, a failed one 0.1; and there are
      no other results. */
  lemma ResultOfEach(jobs: seq<Job>, cap: nat, es: seq<Event>)
    requires Legal(jobs, cap, Begin(jobs), es) && Run(jobs, cap, Begin(jobs), es).returned
    ensures var s := Run(jobs, cap, Begin(jobs), es);
            && |s.results| == |jobs|
            && (forall j | j in jobs && j.empty :: Scored(j.supi, 0.0) in s.results)
            && (forall j | j in jobs && !j.empty && j.reply.Answer? :: Scored(j.supi, j.reply.score) in s.results)
            && (forall j | j in jobs && !j.empty && j.reply.Failure? :: Scored(j.supi, 0.1) in s.results)
            && (forall r | r in s.results :: exists j :: j in jobs && j.supi == r.supi)
  {
    BatchOutcome(jobs, cap, es);
    EachExpected(jobs, Run(jobs, cap, Begin(jobs), es).results);
    hide Run, Legal, Begin, ExpectedAll;
  }

  lemma {:induction false} EachExpected(jobs: seq<Job>, rs: seq<Scored>)
    requires multiset(rs) == multiset(ExpectedAll(jobs))
    ensures |rs| == |jobs| && (forall j | j in jobs :: Expected(j) in rs)
    ensures forall r | r in rs :: exists j :: j in jobs && j.supi == r.supi
  {
    var all := ExpectedAll(jobs);
    ExpectedAt(jobs);
    SameSize(rs, all);
    SameMembers(rs, all);
    hide ExpectedAll;
    forall j | j in jobs ensures Expected(j) in rs {
      ExpectedIsThere(jobs, all, j);
    }
    forall r | r in rs ensures exists j :: j in jobs && j.supi == r.supi {
      ExpectedOfSome(jobs, all, r);
    }
  }

  lemma SameMembers<T>(s: seq<T>, t: seq<T>)
    requires multiset(s) == multiset(t)
    ensures forall x :: x in s <==> x in t
  {
    forall x ensures x in s <==> x in t {
      assert (x in s <==> x in multiset(s)) && (x in t <==> x in multiset(t));
    }
  }

  lemma {:induction false} ExpectedIsThere(jobs: seq<Job>, all: seq<Scored>, j: Job)
    requires |all| == |jobs| && (forall i | 0 <= i < |jobs| :: all[i] == Expected(jobs[i])) && j in jobs
    ensures Expected(j) in all
  {
    var i :| 0 <= i < |jobs| && jobs[i] == j;
    assert all[i] in all;
  }

  lemma {:induction false} ExpectedOfSome(jobs: seq<Job>, all: seq<Scored>, r: Scored)
    requires |all| == |jobs| && (forall i | 0 <= i < |jobs| :: all[i] == Expected(jobs[i])) && r in all
    ensures exists j :: j in jobs && j.supi == r.supi
  {
    var i :| 0 <= i < |all| && all[i] == r;
    assert jobs[i] in jobs;
  }

  // ---------------------------------------------------------------- no schedule gets stuck

  function Rank(p: Phase): nat {
    match p
    case Idle => 5
    case Running => 4
    case ErrorCounted => 3
    case Collected => 2
    case SlotReleased => 1
    case Finished => 0
  }

  function Work(phases: seq<Phase>): nat {
    if phases == [] then 0 else Rank(phases[0]) + Work(phases[1..])
  }

  function Remaining(jobs: seq<Job>, s: State): int {
    Work(s.phases) + |jobs| - s.next + (if s.added then 0 else 1) + (if s.returned then 0 else 1)
  }

  lemma {:induction false} WorkUpdate(phases: seq<Phase>, i: nat, p: Phase)
    requires i < |phases|
    ensures Work(phases[i := p]) == Work(phases) - Rank(phases[i]) + Rank(p)
  {
    if i > 0 {
      WorkUpdate(phases[1..], i - 1, p);
      assert phases[i := p][1..] == phases[1..][i - 1 := p];
    } else {
      assert phases[i := p][1..] == phases[1..];
    }
  }

  lemma StepLessRemaining(jobs: seq<Job>, cap: nat, s: State, e: Event)
    requires Shape(jobs, s) && Enabled(jobs, cap, s, e)
    ensures 0 <= Remaining(jobs, Next(jobs, cap, s, e)) < Remaining(jobs, s)
  {
    hide Work;
    var t := Next(jobs, cap, s, e);
    if e != Add && e != Return {
      var i := Mover(s, e);
      WorkUpdate(s.phases, i, t.phases[i]);
    }
  }

  lemma {:induction false} RunLessRemaining(jobs: seq<Job>, cap: nat, s: State, es: seq<Event>)
    requires Shape(jobs, s) && Legal(jobs, cap, s, es)
    ensures |es| <= Remaining(jobs, s)
    decreases |es|
  {
    if es != [] {
      var t := Next(jobs, cap, s, es[0]);
      StepShape(jobs, cap, s, es[0]);
      StepLessRemaining(jobs, cap, s, es[0]);
      hide Remaining, Shape;
      RunLessRemaining(jobs, cap, t, es[1..]);
    }
  }

  lemma {:induction false} AllIdleWork(phases: seq<Phase>)
    requires forall i | 0 <= i < |phases| :: phases[i] == Idle
    ensures Work(phases) == 5 * |phases|
  {
    if phases != [] {
      AllIdleWork(phases[1..]);
    }
  }

  lemma {:induction false} SomebodyCounted(t: Tally, jobs: seq<Job>, phases: seq<Phase>, i: nat)
    requires i < |jobs| == |phases| && Counts(t, jobs[i], phases[i])
    ensures Count(t, jobs, phases) > 0
  {
    if i > 0 {
      SomebodyCounted(t, jobs[1..], phases[1..], i - 1);
    }
  }

  /** The next step of a goroutine that has started and not finished. */
  function StepOf(j: Job, p: Phase, i: nat): Event {
    match p
    case Running => if j.empty then Skip(i) else if j.reply.Answer? then Collect(i) else Fail(i)
    case ErrorCounted => Default(i)
    case Collected => Release(i)
    case SlotReleased => Done(i)
    case Idle => Launch
    case Finished => Return
  }

  lemma SomethingEnabled(jobs: seq<Job>, cap: nat, s: State)
    requires Inv(jobs, cap, s) && !s.returned && (cap > 0 || jobs == [])
    ensures exists e :: Enabled(jobs, cap, s, e)
  {
    if i :| 0 <= i < |jobs| && s.phases[i] != Idle && s.phases[i] != Finished {
      if Counts(HoldsSlot, jobs[i], s.phases[i]) {
        SomebodyCounted(HoldsSlot, jobs, s.phases, i);
      }
      SomebodyCounted(InGroup, jobs, s.phases, i);
      assert Enabled(jobs, cap, s, StepOf(jobs[i], s.phases[i], i));
    } else {
      NoneCounted(HoldsSlot, jobs, s.phases);
      NoneCounted(InGroup, jobs, s.phases);
      assert Enabled(jobs, cap, s, if s.added then Launch else if s.next < |jobs| then Add else Return);
    }
  }

  /** Every schedule is finite, and one that can go no further has returned: unless the semaphore
      has no slots at all, when a non-empty batch never returns. */
  lemma EveryScheduleFinishes(jobs: seq<Job>, cap: nat, es: seq<Event>)
    requires Legal(jobs, cap, Begin(jobs), es)
    ensures |es| <= 6 * |jobs| + 2
    ensures var s := Run(jobs, cap, Begin(jobs), es);
            && (cap > 0 || jobs == [] ==> s.returned || exists e :: Enabled(jobs, cap, s, e))
            && (cap == 0 && jobs != [] ==> !s.returned)
  {
    BeginInv(jobs, cap);
    RunInv(jobs, cap, Begin(jobs), es);
    AllIdleWork(Begin(jobs).phases);
    RunLessRemaining(jobs, cap, Begin(jobs), es);
    var s := Run(jobs, cap, Begin(jobs), es);
    if cap > 0 || jobs == [] {
      if !s.returned {
        SomethingEnabled(jobs, cap, s);
      }
    } else {
      NoSlotNoProgress(jobs, Begin(jobs), es);
    }
  }

  lemma {:induction false} NoSlotNoProgress(jobs: seq<Job>, s: State, es: seq<Event>)
    requires Shape(jobs, s) && s.next == 0 && jobs != [] && Legal(jobs, 0, s, es)
    ensures !Run(jobs, 0, s, es).returned
    decreases |es|
  {
    if es != [] {
      StepShape(jobs, 0, s, es[0]);
      NoSlotNoProgress(jobs, Next(jobs, 0, s, es[0]), es[1..]);
    }
  }

  // ---------------------------------------------------------------- the schedule does not matter

  ghost predicate DistinctJobs(jobs: seq<Job>) {
    forall i, j | 0 <= i < j < |jobs| :: jobs[i].supi != jobs[j].supi
  }

  lemma {:induction false} ExpectedAt(jobs: seq<Job>)
    ensures |ExpectedAll(jobs)| == |jobs|
    ensures forall i | 0 <= i < |jobs| :: ExpectedAll(jobs)[i] == Expected(jobs[i])
  {
    if jobs != [] {
      ExpectedAt(jobs[1..]);
    }
  }

  /** Equal multisets of sequences: distinctness of one is distinctness of the other. */
  lemma {:induction false} DistinctCarries(s: seq<Scored>, t: seq<Scored>)
    requires multiset(s) == multiset(t) && DistinctSupis(t)
    ensures DistinctSupis(s)
  {
    forall i, j | 0 <= i < j < |s| ensures s[i].supi != s[j].supi {
      if s[i].supi == s[j].supi {
        assert s[i] in multiset(t) && s[j] in multiset(t);
        var k :| 0 <= k < |t| && t[k] == s[i];
        var l :| 0 <= l < |t| && t[l] == s[j];
        assert k == l;
        TwoCopies(s, i, j);
        OneCopy(t, k);
        assert false;
      }
    }
  }

  lemma TwoCopies(s: seq<Scored>, i: nat, j: nat)
    requires i < j < |s| && s[i] == s[j]
    ensures multiset(s)[s[i]] >= 2
  {
    assert s == s[..j] + s[j..];
    assert s[i] in s[..j] && s[j] in s[j..];
  }

  lemma OneCopy(t: seq<Scored>, k: nat)
    requires k < |t| && DistinctSupis(t)
    ensures multiset(t)[t[k]] == 1
  {
    assert t == t[..k] + [t[k]] + t[k + 1..];
    assert t[k] !in t[..k] && t[k] !in t[k + 1..];
  }

  /** Two runs over the same records, with different schedules and even different limits, hand the
      risk scorer the same list once the results are sorted. */
  lemma ScheduleIrrelevant(jobs: seq<Job>, cap: nat, es: seq<Event>, cap': nat, es': seq<Event>,
                           sorted: seq<Scored>, sorted': seq<Scored>)
    requires DistinctJobs(jobs)
    requires Legal(jobs, cap, Begin(jobs), es) && Run(jobs, cap, Begin(jobs), es).returned
    requires Legal(jobs, cap', Begin(jobs), es') && Run(jobs, cap', Begin(jobs), es').returned
    requires BySupi(sorted) && multiset(sorted) == multiset(Run(jobs, cap, Begin(jobs), es).results)
    requires BySupi(sorted') && multiset(sorted') == multiset(Run(jobs, cap', Begin(jobs), es').results)
    ensures sorted == sorted'
  {
    BatchOutcome(jobs, cap, es);
    BatchOutcome(jobs, cap', es');
    ExpectedAt(jobs);
    assert DistinctSupis(ExpectedAll(jobs));
    DistinctCarries(sorted, ExpectedAll(jobs));
    SortedOrderIsUnique(sorted, sorted');
  }
}
