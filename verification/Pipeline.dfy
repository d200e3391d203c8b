/** The parts put together: a poll's records through `HandleBatch` into the risk scorer
    (internal/analyzer/detector/anomaly_detector.go:100-304). */
module Pipeline {
  import opened RiskScoring
  import opened RiskLaws
  import opened Wrappers
  import BatchFanOut
  import ExchangeSort
  import PacketPath
  import PacketRuns
  import Features

  /** The record of a UE as a job: empty or not by its features, with whatever the LLM would say. */
  function JobOf(supi: string, m: Option<PacketPath.Metrics>, log10: real -> real, reply: BatchFanOut.Reply): BatchFanOut.Job {
    BatchFanOut.Job(supi, Features.IsEmptyRecord(Features.ConvertToFeatures(m, log10)), reply)
  }

  /** A UE without an uplink packet in the window is never charged, whatever the LLM would have said
      and however the scorer is configured. */
  lemma NoUplinkNoCharge(c: Config, supi: string, m: Option<PacketPath.Metrics>, log10: real -> real,
                         reply: BatchFanOut.Reply, now: int)
    requires m.Some? ==> PacketRuns.Consistent(m.value) && m.value.packets == 0
    ensures !IsAttack(ParamsOf(Normalised(c)), Obs(now, BatchFanOut.Expected(JobOf(supi, m, log10, reply)).score))
  {
    Features.EmptinessAgrees(m, log10);
    StepsArePositive(c);
  }

  /** The fail-open default of 0.1 counts as normal except under a configured cutoff of at most 0.1. */
  lemma FailOpenExactly(c: Config, j: BatchFanOut.Job, now: int)
    requires !j.empty && j.reply.Failure?
    ensures IsAttack(ParamsOf(Normalised(c)), Obs(now, BatchFanOut.Expected(j).score)) <==> 0.0 < c.cutoff <= 0.1
  {
    StepsArePositive(c);
  }

  /** Observations that are no attacks never block a UE and never raise its score. */
  lemma {:induction false} QuietNeverBlocks(p: Params, st: UeState, h: seq<Obs>, n: nat)
    requires Positive(p) && n <= |h| && forall i | 0 <= i < n :: !IsAttack(p, h[i])
    requires st.score < p.block && st.status == NORMAL && 0.0 <= st.score
    ensures At(p, st, h, n).status == NORMAL && 0.0 <= At(p, st, h, n).score <= st.score
  {
    if n > 0 {
      QuietNeverBlocks(p, st, h, n - 1);
      hide At;
      QuietStep(p, At(p, st, h, n - 1), h[n - 1]);
      AtStep(p, st, h, n);
    }
  }

  lemma AtStep(p: Params, st: UeState, h: seq<Obs>, n: nat)
    requires 0 < n <= |h|
    ensures At(p, st, h, n) == Updated(p, At(p, st, h, n - 1), h[n - 1])
  {
  }

  lemma QuietStep(p: Params, st: UeState, o: Obs)
    requires Positive(p) && !IsAttack(p, o) && 0.0 <= st.score < p.block && st.status == NORMAL
    ensures Updated(p, st, o).status == NORMAL && 0.0 <= Updated(p, st, o).score <= st.score
  {
    UncappedUpdate(p, st, o, p.decayStep * Later(o.time - st.lastUpdateTs));
  }

  // ---------------------------------------------------------------- one batch

  function ReportsOf(rs: seq<ExchangeSort.Scored>, now: int): seq<Report> {
    seq(|rs|, i requires 0 <= i < |rs| => Report(rs[i].supi, Obs(now, rs[i].score)))
  }

  /** Results that are the expected ones of distinct jobs, in whatever order. */
  lemma ResultsAreExpected(jobs: seq<BatchFanOut.Job>, rs: seq<ExchangeSort.Scored>, j: BatchFanOut.Job)
    requires BatchFanOut.DistinctJobs(jobs) && multiset(rs) == multiset(BatchFanOut.ExpectedAll(jobs))
    ensures ExchangeSort.DistinctSupis(rs)
    ensures j in jobs ==> BatchFanOut.Expected(j) in rs
    ensures forall r | r in rs :: exists k :: k in jobs && r == BatchFanOut.Expected(k)
  {
    var es := BatchFanOut.ExpectedAll(jobs);
    BatchFanOut.ExpectedAt(jobs);
    BatchFanOut.DistinctCarries(rs, es);
    if j in jobs {
      var i :| 0 <= i < |jobs| && jobs[i] == j;
      assert es[i] in multiset(rs);
    }
    forall r | r in rs ensures exists k :: k in jobs && r == BatchFanOut.Expected(k) {
      assert r in multiset(es);
      var i :| 0 <= i < |es| && es[i] == r;
      assert jobs[i] in jobs;
    }
  }

  /** Whatever the schedule, the limit and the order of the results: a batch updates the state of each
      of its UEs exactly once, with the expected score, and touches no other UE. */
  lemma BatchEffect(p: Params, m: map<Supi, UeState>, jobs: seq<BatchFanOut.Job>, cap: nat, es: seq<BatchFanOut.Event>,
                    rs: seq<ExchangeSort.Scored>, now: int, k: Supi)
    requires BatchFanOut.DistinctJobs(jobs) && BatchFanOut.Legal(jobs, cap, BatchFanOut.Begin(jobs), es)
    requires BatchFanOut.Run(jobs, cap, BatchFanOut.Begin(jobs), es).returned
    requires multiset(rs) == multiset(BatchFanOut.Run(jobs, cap, BatchFanOut.Begin(jobs), es).results)
    ensures var t := AfterAll(p, m, ReportsOf(rs, now));
            && (forall j | j in jobs && j.supi == k ::
                  k in t && t[k] == Updated(p, if k in m then m[k] else Fresh(now), Obs(now, BatchFanOut.Expected(j).score)))
            && ((forall j | j in jobs :: j.supi != k) ==> (k in t <==> k in m) && (k in m ==> t[k] == m[k]))
  {
    BatchFanOut.BatchOutcome(jobs, cap, es);
    var reports := ReportsOf(rs, now);
    forall j | j in jobs && j.supi == k
      ensures var t := AfterAll(p, m, reports);
              k in t && t[k] == Updated(p, if k in m then m[k] else Fresh(now), Obs(now, BatchFanOut.Expected(j).score))
    {
      ResultsAreExpected(jobs, rs, j);
      OneReport(p, m, rs, now, BatchFanOut.Expected(j));
    }
    if forall j | j in jobs :: j.supi != k {
      ResultsAreExpected(jobs, rs, BatchFanOut.Job(k, true, BatchFanOut.Failure));
      NoReport(p, m, rs, now, k);
    }
  }

  lemma OneReport(p: Params, m: map<Supi, UeState>, rs: seq<ExchangeSort.Scored>, now: int, r: ExchangeSort.Scored)
    requires ExchangeSort.DistinctSupis(rs) && r in rs
    ensures var t := AfterAll(p, m, ReportsOf(rs, now));
            r.supi in t && t[r.supi] == Updated(p, if r.supi in m then m[r.supi] else Fresh(now), Obs(now, r.score))
  {
    var reports := ReportsOf(rs, now);
    var i :| 0 <= i < |rs| && rs[i] == r;
    assert reports[i] == Report(r.supi, Obs(now, r.score)) && reports[i] in reports;
    MineOfDistinct(reports, r.supi);
    hide Updated;
    EachUeRunsAlone(p, m, reports, r.supi);
    OneObservation(p, Start(m, r.supi, [Obs(now, r.score)]), Obs(now, r.score));
  }

  lemma OneObservation(p: Params, st: UeState, o: Obs)
    ensures At(p, st, [o], 1) == Updated(p, st, o)
  {
    assert At(p, st, [o], 0) == st;
  }

  lemma NoReport(p: Params, m: map<Supi, UeState>, rs: seq<ExchangeSort.Scored>, now: int, k: Supi)
    requires ExchangeSort.DistinctSupis(rs) && forall r | r in rs :: r.supi != k
    ensures var t := AfterAll(p, m, ReportsOf(rs, now)); (k in t <==> k in m) && (k in m ==> t[k] == m[k])
  {
    var reports := ReportsOf(rs, now);
    forall r | r in reports ensures r.supi != k {
      var i :| 0 <= i < |reports| && reports[i] == r;
      assert rs[i] in rs;
    }
    MineOfDistinct(reports, k);
    EachUeRunsAlone(p, m, reports, k);
  }
}
