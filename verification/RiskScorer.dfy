/** The risk scorer as the program holds it (internal/analyzer/scorer/risk_scorer.go): a table from
    SUPI to a state object that is updated in place. `time.Now()` is a parameter; the locks are
    left out, a call is one atomic step. */
module RiskScorer {
  import opened RiskScoring
  import opened RiskLaws

  class RiskScorerConfig {
    var maxScore: real
    var blockThreshold: real
    var unblockThreshold: real
    var llmConfidenceCutoff: real
    var hitsToBan: int
    var secondsToForgive: int
    var timeWindowSec: int

    constructor (c: Config)
      ensures Value() == c
    {
      maxScore, blockThreshold, unblockThreshold := c.maxScore, c.block, c.unblock;
      llmConfidenceCutoff, hitsToBan := c.cutoff, c.hitsToBan;
      secondsToForgive, timeWindowSec := c.secondsToForgive, c.timeWindowSec;
    }

    function Value(): Config
      reads this
    {
      Config(maxScore, blockThreshold, unblockThreshold, llmConfidenceCutoff,
             hitsToBan, secondsToForgive, timeWindowSec)
    }

    /** The validation at the head of `NewRiskScorer`, default by default. */
    method Validate()
      modifies this
      ensures Value() == Normalised(old(Value()))
    {
      ValidateThresholds();
      if llmConfidenceCutoff <= 0.0 || llmConfidenceCutoff > 1.0 { llmConfidenceCutoff := 0.7; }
      if hitsToBan <= 0 { hitsToBan := 2; }
      if secondsToForgive <= 0 { secondsToForgive := 20; }
      if timeWindowSec <= 0 { timeWindowSec := 1; }
    }

    method ValidateThresholds()
      modifies `maxScore, `blockThreshold, `unblockThreshold
      ensures var n := Normalised(old(Value()));
              maxScore == n.maxScore && blockThreshold == n.block && unblockThreshold == n.unblock
    {
      if maxScore <= 0.0 { maxScore := 100.0; }
      if blockThreshold <= 0.0 || blockThreshold > maxScore { blockThreshold := 80.0; }
      if unblockThreshold <= 0.0 || unblockThreshold >= blockThreshold { unblockThreshold := 50.0; }
    }
  }

  class UeRiskState {
    const supi: Supi
    var score: real
    var status: Status
    var lastUpdateTs: int
    var attackCount: int
    var blockedSince: int

    constructor (supi: Supi, now: int)
      ensures this.supi == supi && Value() == Fresh(now)
    {
      this.supi := supi;
      score, status, lastUpdateTs, attackCount, blockedSince := 0.0, NORMAL, now, 0, 0;
    }

    function Value(): UeState
      reads this
    {
      UeState(score, status, lastUpdateTs, attackCount, blockedSince)
    }
  }

  datatype Result = Result(supi: Supi, anomalyScore: real)

  datatype Enhanced = Enhanced(result: Result, riskScore: real, status: Status, isBlocked: bool, attackDetected: bool)

  class RiskScorer {
    const config: RiskScorerConfig
    var ueStates: map<Supi, UeRiskState>
    var attackStep: real
    var decayStep: real

    /** No two UEs share a state object, and each object knows its UE. */
    ghost predicate Valid()
      reads this, ueStates.Values
    {
      && (forall k | k in ueStates :: ueStates[k].supi == k)
      && (forall k, l | k in ueStates && l in ueStates && k != l :: ueStates[k] != ueStates[l])
    }

    function P(): Params
      reads `attackStep, `decayStep, config
    {
      Params(config.maxScore, config.blockThreshold, config.unblockThreshold,
             config.llmConfidenceCutoff, attackStep, decayStep)
    }

    /** The table as a value. */
    ghost function View(): map<Supi, UeState>
      reads this, ueStates.Values
    {
      map k | k in ueStates :: ueStates[k].Value()
    }

    /** Validates the configuration in place, as the program does, and derives the two steps. */
    constructor (config: RiskScorerConfig)
      modifies config
      ensures this.config == config && config.Value() == Normalised(old(config.Value()))
      ensures Valid() && View() == map[] && P() == ParamsOf(config.Value()) && Positive(P())
    {
      this.config := config;
      ueStates := map[];
      new;
      StepsArePositive(config.Value());
      config.Validate();
      attackStep := config.maxScore / config.hitsToBan as real;
      decayStep := config.maxScore / config.secondsToForgive as real;
    }

    /** Looks the UE up, or enters it with a fresh state. */
    method StateOf(supi: Supi, now: int) returns (state: UeRiskState)
      requires Valid()
      modifies this`ueStates
      ensures Valid() && supi in ueStates && state == ueStates[supi]
      ensures View() == old(View())[supi := if supi in old(View()) then old(View())[supi] else Fresh(now)]
      ensures fresh(ueStates.Values - old(ueStates.Values))
    {
      if supi in ueStates {
        state := ueStates[supi];
      } else {
        state := new UeRiskState(supi, now);
        ghost var before := ueStates;
        ueStates := ueStates[supi := state];
        assert ueStates.Values <= before.Values + {state};
        assert forall k | k in before :: ueStates[k] == before[k] && before[k] in before.Values;
      }
    }

    /** The update of one state object. */
    method UpdateState(state: UeRiskState, anomaly: real, now: int) returns (isAttack: bool)
      modifies state
      ensures state.Value() == Updated(P(), old(state.Value()), Obs(now, anomaly))
      ensures isAttack == IsAttack(P(), Obs(now, anomaly))
    {
      var timeDelta := now - state.lastUpdateTs;
      if timeDelta > 0 {
        var decayAmount := decayStep * timeDelta as real;
        state.score := state.score - decayAmount;
        if state.score < 0.0 {
          state.score := 0.0;
        }
      }
      assert state.score == Decayed(P(), old(state.score), timeDelta);
      isAttack := anomaly >= config.llmConfidenceCutoff;
      if isAttack {
        state.score := state.score + attackStep;
        state.attackCount := state.attackCount + 1;
        if state.score > config.maxScore {
          state.score := config.maxScore;
        }
      }
      if state.status == NORMAL && state.score >= config.blockThreshold {
        state.status := BLOCKED;
        state.blockedSince := now;
      } else if state.status == BLOCKED && state.score < config.unblockThreshold {
        state.status := NORMAL;
        state.blockedSince := 0;
      }
      state.lastUpdateTs := now;
    }

    /** The update of one state object, seen in the table. */
    method UpdateEntry(supi: Supi, anomaly: real, now: int) returns (isAttack: bool)
      requires Valid() && supi in ueStates
      modifies ueStates[supi]
      ensures Valid() && View() == old(View())[supi := Updated(P(), old(View())[supi], Obs(now, anomaly))]
      ensures isAttack == IsAttack(P(), Obs(now, anomaly))
    {
      hide Updated, IsAttack;
      isAttack := UpdateState(ueStates[supi], anomaly, now);
      assert forall k | k in ueStates && k != supi :: ueStates[k] != ueStates[supi];
    }

    method ProcessOneUE(result: Result, now: int) returns (e: Enhanced)
      requires Valid()
      modifies this`ueStates, ueStates.Values
      ensures Valid() && fresh(ueStates.Values - old(ueStates.Values))
      ensures View() == Observed(P(), old(View()), Report(result.supi, Obs(now, result.anomalyScore)))
      ensures result.supi in View() && e == EnhancedOf(P(), View(), result, now)
      ensures e.result == result && e.riskScore == View()[result.supi].score && e.status == View()[result.supi].status
      ensures e.isBlocked <==> View()[result.supi].status == BLOCKED
      ensures e.attackDetected <==> result.anomalyScore >= config.llmConfidenceCutoff
    {
      hide Updated, Fresh;
      var state := StateOf(result.supi, now);
      assert state in ueStates.Values;
      var isAttack := UpdateEntry(result.supi, result.anomalyScore, now);
      e := Enhanced(result, state.score, state.status, state.status == BLOCKED, isAttack);
    }

    /** The output of one call, read off the table it leaves. */
    static function EnhancedOf(p: Params, m: map<Supi, UeState>, r: Result, now: int): Enhanced
      requires r.supi in m
    {
      Enhanced(r, m[r.supi].score, m[r.supi].status, m[r.supi].status == BLOCKED, IsAttack(p, Obs(now, r.anomalyScore)))
    }

    static function Reports(rs: seq<Result>, now: int): seq<Report> {
      if rs == [] then []
      else Reports(rs[..|rs| - 1], now) + [Report(rs[|rs| - 1].supi, Obs(now, rs[|rs| - 1].anomalyScore))]
    }

    static lemma LastReportIsEntered(p: Params, m: map<Supi, UeState>, rs: seq<Result>, now: int)
      requires rs != []
      ensures var last := rs[|rs| - 1];
              && AfterAll(p, m, Reports(rs, now))
                 == Observed(p, AfterAll(p, m, Reports(rs[..|rs| - 1], now)), Report(last.supi, Obs(now, last.anomalyScore)))
              && last.supi in AfterAll(p, m, Reports(rs, now))
    {
      var reports := Reports(rs, now);
      assert reports[..|reports| - 1] == Reports(rs[..|rs| - 1], now);
    }

    /** The outputs of a batch: each shows its UE as the table stood right after it. */
    static ghost function Outputs(p: Params, m: map<Supi, UeState>, rs: seq<Result>, now: int): seq<Enhanced> {
      if rs == [] then []
      else
        LastReportIsEntered(p, m, rs, now);
        Outputs(p, m, rs[..|rs| - 1], now)
        + [EnhancedOf(p, AfterAll(p, m, Reports(rs, now)), rs[|rs| - 1], now)]
    }

    /** One batch, all results at one time, in order. */
    method ProcessInferenceResults(results: seq<Result>, now: int) returns (enhanced: seq<Enhanced>)
      requires Valid()
      modifies this`ueStates, ueStates.Values
      ensures Valid() && fresh(ueStates.Values - old(ueStates.Values))
      ensures View() == AfterAll(P(), old(View()), Reports(results, now))
      ensures enhanced == Outputs(P(), old(View()), results, now)
      ensures |enhanced| == |results|
      ensures forall i | 0 <= i < |results| ::
                && enhanced[i].result == results[i]
                && (enhanced[i].attackDetected <==> results[i].anomalyScore >= config.llmConfidenceCutoff)
      ensures Distinct(results) ==> forall i | 0 <= i < |results| :: ShowsFinal(enhanced[i], View(), results[i].supi)
    {
      hide EnhancedOf, Observed, AfterAll, Reports;
      enhanced := [];
      EmptyBatch(P(), View(), now);
      if |results| == 0 {
        return;
      }
      for i := 0 to |results|
        invariant Valid() && fresh(ueStates.Values - old(ueStates.Values))
        invariant View() == AfterAll(P(), old(View()), Reports(results[..i], now))
        invariant enhanced == Outputs(P(), old(View()), results[..i], now)
      {
        var e := ProcessOneUE(results[i], now);
        ghost var done := results[..i + 1];
        assert done[..i] == results[..i] && done[i] == results[i];
        LastReportIsEntered(P(), old(View()), done, now);
        enhanced := enhanced + [e];
      }
      assert results[..|results|] == results;
      OutputsMatch(P(), old(View()), results, now);
    }

    static predicate Distinct(rs: seq<Result>) {
      forall i, j | 0 <= i < j < |rs| :: rs[i].supi != rs[j].supi
    }

    /** An output shows the UE as the table has it. */
    static predicate ShowsFinal(e: Enhanced, m: map<Supi, UeState>, k: Supi) {
      && k in m && e.riskScore == m[k].score && e.status == m[k].status
      && (e.isBlocked <==> m[k].status == BLOCKED)
    }

    /** One output per result, in order; with distinct UEs all show the table the batch leaves. */
    static lemma {:induction false} OutputsMatch(p: Params, m: map<Supi, UeState>, rs: seq<Result>, now: int)
      ensures |Outputs(p, m, rs, now)| == |rs|
      ensures forall i | 0 <= i < |rs| ::
                && Outputs(p, m, rs, now)[i].result == rs[i]
                && (Outputs(p, m, rs, now)[i].attackDetected <==> rs[i].anomalyScore >= p.cutoff)
      ensures Distinct(rs) ==>
                forall i | 0 <= i < |rs| :: ShowsFinal(Outputs(p, m, rs, now)[i], AfterAll(p, m, Reports(rs, now)), rs[i].supi)
    {
      if rs != [] {
        OutputsMatch(p, m, rs[..|rs| - 1], now);
        LastReportIsEntered(p, m, rs, now);
        hide AfterAll, Reports, Updated;
      }
    }

    static lemma EmptyBatch(p: Params, m: map<Supi, UeState>, now: int)
      ensures AfterAll(p, m, Reports([], now)) == m
    {
    }

    /** The state of one UE, as a copy. */
    method GetUEState(supi: Supi) returns (found: bool, copy: UeState)
      requires Valid()
      ensures found <==> supi in View()
      ensures found ==> copy == View()[supi]
    {
      if supi !in ueStates {
        return false, Fresh(0);
      }
      return true, ueStates[supi].Value();
    }

    method ResetUE(supi: Supi, now: int) returns (found: bool)
      requires Valid()
      modifies ueStates.Values
      ensures Valid() && ueStates == old(ueStates)
      ensures found <==> supi in old(View())
      ensures View() == if found then old(View())[supi := UeState(0.0, NORMAL, now, 0, 0)] else old(View())
    {
      if supi !in ueStates {
        return false;
      }
      var state := ueStates[supi];
      assert state in ueStates.Values;
      state.score := 0.0;
      state.status := NORMAL;
      state.attackCount := 0;
      state.blockedSince := 0;
      state.lastUpdateTs := now;
      assert forall k | k in ueStates && k != supi :: ueStates[k] != state;
      return true;
    }
  }
}
