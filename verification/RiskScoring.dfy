/** The arithmetic of the risk scorer (internal/analyzer/scorer/risk_scorer.go) as functions on
    values, and its laws: a leaky bucket per UE with a two-threshold hysteresis. Scores are reals. */
module RiskScoring {
  import opened Reals

  datatype Config = Config(
    maxScore: real, block: real, unblock: real, cutoff: real,
    hitsToBan: int, secondsToForgive: int, timeWindowSec: int)

  /** The validation of `NewRiskScorer`, default by default, in its order. */
  function Normalised(c: Config): Config {
    var maxScore := if c.maxScore <= 0.0 then 100.0 else c.maxScore;
    var block := if c.block <= 0.0 || c.block > maxScore then 80.0 else c.block;
    Config(
      maxScore, block,
      if c.unblock <= 0.0 || c.unblock >= block then 50.0 else c.unblock,
      if c.cutoff <= 0.0 || c.cutoff > 1.0 then 0.7 else c.cutoff,
      if c.hitsToBan <= 0 then 2 else c.hitsToBan,
      if c.secondsToForgive <= 0 then 20 else c.secondsToForgive,
      if c.timeWindowSec <= 0 then 1 else c.timeWindowSec)
  }

  datatype Params = Params(
    maxScore: real, block: real, unblock: real, cutoff: real, attackStep: real, decayStep: real)

  function ParamsOf(c: Config): Params
    requires c.hitsToBan > 0 && c.secondsToForgive > 0
  {
    Params(c.maxScore, c.block, c.unblock, c.cutoff,
           c.maxScore / c.hitsToBan as real, c.maxScore / c.secondsToForgive as real)
  }

  /** What the constructor always establishes. */
  predicate Positive(p: Params) {
    0.0 < p.maxScore && 0.0 < p.block && 0.0 < p.unblock && 0.0 < p.attackStep && 0.0 < p.decayStep
  }

  lemma StepsArePositive(c: Config)
    ensures Positive(ParamsOf(Normalised(c)))
  {
    var n := Normalised(c);
    QuotientPositive(n.maxScore, n.hitsToBan as real);
    QuotientPositive(n.maxScore, n.secondsToForgive as real);
  }

  lemma QuotientPositive(a: real, b: real)
    requires 0.0 < a && 0.0 < b
    ensures 0.0 < a / b && a / b * b == a
  {
  }

  /** The defaults establish the threshold order exactly when a configured or default block
      threshold fits under the maximum and a configured or default unblock threshold fits under it. */
  lemma DefaultsOrderThresholdsExactly(c: Config)
    ensures var m := if c.maxScore <= 0.0 then 100.0 else c.maxScore;
            var b := if 0.0 < c.block <= m then c.block else 80.0;
            var n := Normalised(c);
            (0.0 < n.unblock < n.block <= n.maxScore)
              <==> (0.0 < c.block <= m || 80.0 <= m) && (0.0 < c.unblock < b || 50.0 < b)
  {
  }

  /** An input on which they do not: block 30 and unblock 40 become block 30 and unblock 50. */
  lemma DefaultsMayCrossThresholds()
    ensures var n := Normalised(Config(100.0, 30.0, 40.0, 0.7, 2, 20, 1)); n.block == 30.0 && n.unblock == 50.0
  {
  }

  /** A valid configuration is kept as it is. */
  lemma ValidConfigIsKept(c: Config)
    requires 0.0 < c.maxScore && 0.0 < c.block <= c.maxScore && 0.0 < c.unblock < c.block && 0.0 < c.cutoff <= 1.0
    requires c.hitsToBan > 0 && c.secondsToForgive > 0 && c.timeWindowSec > 0
    ensures Normalised(c) == c
  {
  }

  /** One with nothing set gets all the defaults. */
  lemma EmptyConfigGetsDefaults(c: Config)
    requires c.maxScore <= 0.0 && c.block <= 0.0 && c.unblock <= 0.0 && c.cutoff <= 0.0
    requires c.hitsToBan <= 0 && c.secondsToForgive <= 0 && c.timeWindowSec <= 0
    ensures Normalised(c) == Config(100.0, 80.0, 50.0, 0.7, 2, 20, 1)
  {
  }

  /** The two steps: HitsToBan charges fill the bucket, SecondsToForgive seconds empty it. */
  lemma StepsFillAndEmpty(c: Config)
    ensures var n := Normalised(c);
            && n.hitsToBan > 0 && n.secondsToForgive > 0
            && ParamsOf(n).attackStep * n.hitsToBan as real == n.maxScore
            && ParamsOf(n).decayStep * n.secondsToForgive as real == n.maxScore
  {
    var n := Normalised(c);
    QuotientPositive(n.maxScore, n.hitsToBan as real);
    QuotientPositive(n.maxScore, n.secondsToForgive as real);
  }

  // ---------------------------------------------------------------- one observation

  datatype Status = NORMAL | BLOCKED

  datatype UeState = UeState(
    score: real, status: Status, lastUpdateTs: int, attackCount: int, blockedSince: int)

  datatype Obs = Obs(time: int, anomaly: real)

  function Fresh(now: int): UeState {
    UeState(0.0, NORMAL, now, 0, 0)
  }

  predicate IsAttack(p: Params, o: Obs) {
    o.anomaly >= p.cutoff
  }

  function Later(delta: int): real {
    if delta > 0 then delta as real else 0.0
  }

  function Decayed(p: Params, score: real, delta: int): real {
    if delta > 0 then
      var s := score - p.decayStep * delta as real;
      if s < 0.0 then 0.0 else s
    else score
  }

  function Charged(p: Params, score: real, attack: bool): real {
    if attack then (if score + p.attackStep > p.maxScore then p.maxScore else score + p.attackStep)
    else score
  }

  function Updated(p: Params, st: UeState, o: Obs): UeState {
    var attack := IsAttack(p, o);
    var score := Charged(p, Decayed(p, st.score, o.time - st.lastUpdateTs), attack);
    var blocks := st.status == NORMAL && score >= p.block;
    var releases := st.status == BLOCKED && score < p.unblock;
    UeState(
      score,
      if blocks then BLOCKED else if releases then NORMAL else st.status,
      o.time,
      if attack then st.attackCount + 1 else st.attackCount,
      if blocks then o.time else if releases then 0 else st.blockedSince)
  }

  // ---------------------------------------------------------------- runs of one UE

  /** The state after the first n observations of h. */
  function At(p: Params, st: UeState, h: seq<Obs>, n: nat): UeState
    requires n <= |h|
  {
    if n == 0 then st else Updated(p, At(p, st, h, n - 1), h[n - 1])
  }

  /** The time that passes before observation i, as the scorer counts it. */
  function Tick(t0: int, h: seq<Obs>, i: nat): real
    requires i < |h|
  {
    Later(h[i].time - if i == 0 then t0 else h[i - 1].time)
  }

  /** The time that passes before observations j to n-1. */
  function Elapsed(t0: int, h: seq<Obs>, j: nat, n: nat): real
    requires n <= |h|
    decreases n
  {
    if n <= j then 0.0 else Elapsed(t0, h, j, n - 1) + Tick(t0, h, n - 1)
  }

  /** The number of attacks among observations j to n-1. */
  function Attacks(p: Params, h: seq<Obs>, j: nat, n: nat): nat
    requires n <= |h|
    decreases n
  {
    if n <= j then 0 else Attacks(p, h, j, n - 1) + if IsAttack(p, h[n - 1]) then 1 else 0
  }

  lemma {:induction false} LastUpdateAt(p: Params, st: UeState, h: seq<Obs>, n: nat)
    requires n <= |h|
    ensures At(p, st, h, n).lastUpdateTs == if n == 0 then st.lastUpdateTs else h[n - 1].time
  {
  }

  /** The attack counter counts the attacks. */
  lemma {:induction false} AttackCountExact(p: Params, st: UeState, h: seq<Obs>, n: nat)
    requires n <= |h|
    ensures At(p, st, h, n).attackCount == st.attackCount + |AttackTimes(p, h[..n])|
  {
    if n > 0 {
      AttackCountExact(p, st, h, n - 1);
      assert h[..n][..n - 1] == h[..n - 1];
    }
  }

  /** The times of the observations whose anomaly score reaches the cutoff. */
  function AttackTimes(p: Params, h: seq<Obs>): seq<int> {
    if h == [] then []
    else AttackTimes(p, h[..|h| - 1]) + if h[|h| - 1].anomaly >= p.cutoff then [h[|h| - 1].time] else []
  }

  /** `blockedSince` is 0 while normal, and else the time of the observation that blocked the UE and
      since which it has been blocked. */
  lemma {:induction false} BlockedSinceExact(p: Params, st: UeState, h: seq<Obs>, n: nat)
    requires n <= |h| && st.status == NORMAL && st.blockedSince == 0
    ensures At(p, st, h, n).status == NORMAL ==> At(p, st, h, n).blockedSince == 0
    ensures At(p, st, h, n).status == BLOCKED ==>
              exists m :: 0 < m <= n && BlockedFrom(p, st, h, m, n) && At(p, st, h, n).blockedSince == h[m - 1].time
  {
    if n > 0 {
      BlockedSinceExact(p, st, h, n - 1);
      if At(p, st, h, n).status == BLOCKED {
        if At(p, st, h, n - 1).status == BLOCKED {
          var m :| 0 < m <= n - 1 && BlockedFrom(p, st, h, m, n - 1) && At(p, st, h, n - 1).blockedSince == h[m - 1].time;
          assert BlockedFrom(p, st, h, m, n);
        } else {
          assert BlockedFrom(p, st, h, n, n);
        }
      }
    }
  }

  /** Blocked by observation m-1, and ever since. */
  predicate BlockedFrom(p: Params, st: UeState, h: seq<Obs>, m: nat, n: nat)
    requires 0 < m <= n <= |h|
  {
    At(p, st, h, m - 1).status == NORMAL && forall i | m <= i <= n :: At(p, st, h, i).status == BLOCKED
  }

  /** What leaks out before observation i. */
  function Leak(p: Params, t0: int, h: seq<Obs>, i: nat): real
    requires i < |h|
  {
    p.decayStep * Tick(t0, h, i)
  }

  function Charge(p: Params, o: Obs): real {
    if IsAttack(p, o) then p.attackStep else 0.0
  }

  function Floored(x: real): real {
    if x < 0.0 then 0.0 else x
  }

  function Capped(p: Params, x: real): real {
    if x > p.maxScore then p.maxScore else x
  }

  lemma DecayedFloors(p: Params, score: real, delta: int)
    requires 0.0 <= score
    ensures Decayed(p, score, delta) == Floored(score - p.decayStep * Later(delta))
  {
    if delta <= 0 {
      assert p.decayStep * Later(delta) == 0.0;
    }
  }

  lemma LeakIsNotNegative(p: Params, t0: int, h: seq<Obs>, i: nat)
    requires Positive(p) && i < |h|
    ensures 0.0 <= Leak(p, t0, h, i)
  {
    ProductNotNegative(p.decayStep, Tick(t0, h, i));
  }

  lemma ProductNotNegative(a: real, b: real)
    requires 0.0 <= a && 0.0 <= b
    ensures 0.0 <= a * b
  {
  }

  /** The new score before the cap. */
  lemma UncappedUpdate(p: Params, st: UeState, o: Obs, leak: real)
    requires Positive(p) && 0.0 <= st.score
    requires leak == p.decayStep * Later(o.time - st.lastUpdateTs)
    ensures 0.0 <= leak
    ensures Decayed(p, st.score, o.time - st.lastUpdateTs) == Floored(st.score - leak)
  {
    ProductNotNegative(p.decayStep, Later(o.time - st.lastUpdateTs));
    DecayedFloors(p, st.score, o.time - st.lastUpdateTs);
  }

  /** One step in closed form: leak and floor, then charge and cap. */
  lemma UpdateStep(p: Params, st: UeState, o: Obs, leak: real)
    requires Positive(p) && 0.0 <= st.score <= p.maxScore
    requires leak == p.decayStep * Later(o.time - st.lastUpdateTs)
    ensures Updated(p, st, o).score == Capped(p, Floored(st.score - leak) + Charge(p, o))
    ensures 0.0 <= Updated(p, st, o).score <= p.maxScore
  {
    UncappedUpdate(p, st, o, leak);
  }

  lemma ScoreStep(p: Params, st: UeState, h: seq<Obs>, n: nat)
    requires Positive(p) && n < |h| && 0.0 <= At(p, st, h, n).score <= p.maxScore
    ensures At(p, st, h, n + 1).score
         == Capped(p, Floored(At(p, st, h, n).score - Leak(p, st.lastUpdateTs, h, n)) + Charge(p, h[n]))
    ensures 0.0 <= At(p, st, h, n + 1).score <= p.maxScore
    ensures 0.0 <= Leak(p, st.lastUpdateTs, h, n)
  {
    LastUpdateAt(p, st, h, n);
    LeakIsNotNegative(p, st.lastUpdateTs, h, n);
    UpdateStep(p, At(p, st, h, n), h[n], Leak(p, st.lastUpdateTs, h, n));
  }

  lemma {:induction false} ScoreInRange(p: Params, st: UeState, h: seq<Obs>, n: nat)
    requires Positive(p) && n <= |h| && 0.0 <= st.score <= p.maxScore
    ensures 0.0 <= At(p, st, h, n).score <= p.maxScore
  {
    if n > 0 {
      ScoreInRange(p, st, h, n - 1);
      ScoreStep(p, st, h, n - 1);
    }
  }

  // ---------------------------------------------------------------- the CUSUM closed form

  /** What leaks out before observations j to n-1. */
  function Leaked(p: Params, t0: int, h: seq<Obs>, j: nat, n: nat): real
    requires n <= |h|
    decreases n
  {
    if n <= j then 0.0 else Leaked(p, t0, h, j, n - 1) + Leak(p, t0, h, n - 1)
  }

  /** What observations j to n-1 charge. */
  function Charges(p: Params, h: seq<Obs>, j: nat, n: nat): real
    requires n <= |h|
    decreases n
  {
    if n <= j then 0.0 else Charges(p, h, j, n - 1) + Charge(p, h[n - 1])
  }

  lemma Distribute(a: real, b: real, c: real)
    ensures a * (b + c) == a * b + a * c
  {
  }

  lemma {:induction false} LeakedIsRateTimesTime(p: Params, t0: int, h: seq<Obs>, j: nat, n: nat)
    requires n <= |h|
    ensures Leaked(p, t0, h, j, n) == p.decayStep * Elapsed(t0, h, j, n)
  {
    if n > j {
      LeakedIsRateTimesTime(p, t0, h, j, n - 1);
      Distribute(p.decayStep, Elapsed(t0, h, j, n - 1), Tick(t0, h, n - 1));
    }
  }

  lemma {:induction false} ChargesAreStepTimesAttacks(p: Params, h: seq<Obs>, j: nat, n: nat)
    requires n <= |h|
    ensures Charges(p, h, j, n) == p.attackStep * Attacks(p, h, j, n) as real
  {
    if n > j {
      ChargesAreStepTimesAttacks(p, h, j, n - 1);
      OneMoreTime(p.attackStep, Attacks(p, h, j, n - 1));
    }
  }

  /** What the bucket would hold had it been empty before observation j and uncapped since. */
  function Gain(p: Params, t0: int, h: seq<Obs>, j: nat, n: nat): real
    requires n <= |h|
  {
    Charges(p, h, j, n) - Leaked(p, t0, h, j + 1, n)
  }

  /** What the bucket would hold had it been full after observation k and uncapped since. */
  function Ceiling(p: Params, t0: int, h: seq<Obs>, k: nat, n: nat): real
    requires n <= |h|
  {
    p.maxScore + Charges(p, h, k + 1, n) - Leaked(p, t0, h, k + 1, n)
  }

  lemma GainStep(p: Params, t0: int, h: seq<Obs>, j: nat, n: nat)
    requires j < n < |h|
    ensures Gain(p, t0, h, j, n + 1) == Gain(p, t0, h, j, n) - Leak(p, t0, h, n) + Charge(p, h[n])
    ensures Ceiling(p, t0, h, j, n + 1) == Ceiling(p, t0, h, j, n) - Leak(p, t0, h, n) + Charge(p, h[n])
  {
  }

  /** Gains in the units of the configuration: attackStep per attack, decayStep per second. */
  lemma GainInUnits(p: Params, t0: int, h: seq<Obs>, j: nat, n: nat)
    requires n <= |h|
    ensures Gain(p, t0, h, j, n)
         == p.attackStep * Attacks(p, h, j, n) as real - p.decayStep * Elapsed(t0, h, j + 1, n)
    ensures Ceiling(p, t0, h, j, n)
         == p.maxScore + p.attackStep * Attacks(p, h, j + 1, n) as real - p.decayStep * Elapsed(t0, h, j + 1, n)
  {
    LeakedIsRateTimesTime(p, t0, h, j + 1, n);
    ChargesAreStepTimesAttacks(p, h, j, n);
    ChargesAreStepTimesAttacks(p, h, j + 1, n);
  }

  lemma GainHere(p: Params, t0: int, h: seq<Obs>, n: nat)
    requires n < |h|
    ensures Gain(p, t0, h, n, n + 1) == Charge(p, h[n])
    ensures Ceiling(p, t0, h, n, n + 1) == p.maxScore
  {
    assert Charges(p, h, n, n) == 0.0;
  }

  /** j explains the score x: neither the gain since j nor any ceiling since j is below it. */
  ghost predicate Explains(p: Params, t0: int, h: seq<Obs>, n: nat, j: nat, x: real)
    requires n <= |h|
  {
    && j < n
    && x <= Gain(p, t0, h, j, n)
    && forall k | j <= k < n :: x <= Ceiling(p, t0, h, k, n)
  }

  lemma ExplainsStep(p: Params, t0: int, h: seq<Obs>, n: nat, j: nat, x: real)
    requires n < |h| && Explains(p, t0, h, n, j, x)
    ensures Explains(p, t0, h, n + 1, j, Capped(p, x - Leak(p, t0, h, n) + Charge(p, h[n])))
  {
    GainStep(p, t0, h, j, n);
    GainHere(p, t0, h, n);
    var x' := Capped(p, x - Leak(p, t0, h, n) + Charge(p, h[n]));
    var m := n + 1;
    forall k | j <= k < m ensures x' <= Ceiling(p, t0, h, k, m) {
      if k < n { GainStep(p, t0, h, k, n); }
    }
  }

  /** Some start j explains the score. */
  lemma {:induction false} ScoreUpper(p: Params, st: UeState, h: seq<Obs>, n: nat) returns (j: nat)
    requires Positive(p) && st.score == 0.0 && 0 < n <= |h|
    ensures Explains(p, st.lastUpdateTs, h, n, j, At(p, st, h, n).score)
  {
    var t0, x := st.lastUpdateTs, At(p, st, h, n - 1).score;
    ScoreInRange(p, st, h, n - 1);
    ScoreStep(p, st, h, n - 1);
    if n > 1 && x - Leak(p, t0, h, n - 1) >= 0.0 {
      j := ScoreUpper(p, st, h, n - 1);
      ExplainsStep(p, t0, h, n - 1, j, x);
    } else {
      j := n - 1;
      GainHere(p, t0, h, n - 1);
    }
  }

  /** j does not exceed the score x, or the cap has cut it off since. */
  ghost predicate Bounded(p: Params, t0: int, h: seq<Obs>, n: nat, j: nat, x: real)
    requires n <= |h|
  {
    Gain(p, t0, h, j, n) <= x || exists k :: j <= k < n && Ceiling(p, t0, h, k, n) <= x
  }

  lemma BoundedStep(p: Params, t0: int, h: seq<Obs>, n: nat, j: nat, x: real, x': real)
    requires j < n < |h| && Bounded(p, t0, h, n, j, x)
    requires x' >= Capped(p, x - Leak(p, t0, h, n) + Charge(p, h[n]))
    ensures Bounded(p, t0, h, n + 1, j, x')
  {
    GainStep(p, t0, h, j, n);
    GainHere(p, t0, h, n);
    if x' >= p.maxScore {
      assert Ceiling(p, t0, h, n, n + 1) <= x';
    } else if Gain(p, t0, h, j, n) > x {
      var k :| j <= k < n && Ceiling(p, t0, h, k, n) <= x;
      GainStep(p, t0, h, k, n);
      assert Ceiling(p, t0, h, k, n + 1) <= x';
    }
  }

  /** No start j is above the score, unless the cap has cut it off since. */
  lemma {:induction false} ScoreLower(p: Params, st: UeState, h: seq<Obs>, n: nat, j: nat)
    requires Positive(p) && st.score == 0.0 && j < n <= |h|
    ensures Bounded(p, st.lastUpdateTs, h, n, j, At(p, st, h, n).score)
  {
    ScoreInRange(p, st, h, n - 1);
    ScoreStep(p, st, h, n - 1);
    if j < n - 1 {
      ScoreLower(p, st, h, n - 1, j);
      BoundedStep(p, st.lastUpdateTs, h, n - 1, j, At(p, st, h, n - 1).score, At(p, st, h, n).score);
    } else {
      GainHere(p, st.lastUpdateTs, h, j);
      assert At(p, st, h, n).score >= p.maxScore ==> Ceiling(p, st.lastUpdateTs, h, j, n) <= At(p, st, h, n).score;
    }
  }

  /** The score is the largest, over the starts j, of the smallest of the gain since j and the
      ceilings since j: for any timestamps, cap included. */
  ghost predicate IsCusum(p: Params, t0: int, h: seq<Obs>, n: nat, score: real)
    requires n <= |h|
  {
    && (exists j :: 0 <= j < n && Explains(p, t0, h, n, j, score))
    && forall j | 0 <= j < n :: Bounded(p, t0, h, n, j, score)
  }

  lemma ScoreIsCusum(p: Params, st: UeState, h: seq<Obs>)
    requires Positive(p) && st.score == 0.0 && h != []
    ensures IsCusum(p, st.lastUpdateTs, h, |h|, At(p, st, h, |h|).score)
  {
    var j := ScoreUpper(p, st, h, |h|);
    forall j | 0 <= j < |h| ensures Bounded(p, st.lastUpdateTs, h, |h|, j, At(p, st, h, |h|).score) {
      ScoreLower(p, st, h, |h|, j);
    }
  }

  /** The closed form determines the score. */
  lemma CusumIsUnique(p: Params, t0: int, h: seq<Obs>, n: nat, a: real, b: real)
    requires n <= |h| && IsCusum(p, t0, h, n, a) && IsCusum(p, t0, h, n, b)
    ensures a == b
  {
    CusumAtMost(p, t0, h, n, a, b);
    CusumAtMost(p, t0, h, n, b, a);
  }

  lemma CusumAtMost(p: Params, t0: int, h: seq<Obs>, n: nat, a: real, b: real)
    requires n <= |h| && IsCusum(p, t0, h, n, a) && IsCusum(p, t0, h, n, b)
    ensures a <= b
  {
    var j :| 0 <= j < n && Explains(p, t0, h, n, j, a);
    assert Bounded(p, t0, h, n, j, b);
    if Gain(p, t0, h, j, n) > b {
      var k :| j <= k < n && Ceiling(p, t0, h, k, n) <= b;
    }
  }

  /** The charge of observation i, if any, does not go over the maximum. */
  predicate FitsUnderCap(p: Params, st: UeState, o: Obs) {
    IsAttack(p, o) ==> Decayed(p, st.score, o.time - st.lastUpdateTs) + p.attackStep <= p.maxScore
  }

  predicate CapNeverFired(p: Params, st: UeState, h: seq<Obs>, n: nat)
    requires n <= |h|
  {
    n == 0 || (CapNeverFired(p, st, h, n - 1) && FitsUnderCap(p, At(p, st, h, n - 1), h[n - 1]))
  }

  lemma UncappedStep(p: Params, st: UeState, h: seq<Obs>, n: nat)
    requires Positive(p) && n < |h| && 0.0 <= st.score <= p.maxScore
    requires FitsUnderCap(p, At(p, st, h, n), h[n])
    ensures At(p, st, h, n + 1).score
         == Floored(At(p, st, h, n).score - Leak(p, st.lastUpdateTs, h, n)) + Charge(p, h[n])
  {
    ScoreInRange(p, st, h, n);
    LastUpdateAt(p, st, h, n);
    UncappedUpdate(p, At(p, st, h, n), h[n], Leak(p, st.lastUpdateTs, h, n));
  }

  /** Without a cap the score is the best gain over all starts. */
  lemma {:induction false} UncappedScore(p: Params, st: UeState, h: seq<Obs>, n: nat)
    requires Positive(p) && st.score == 0.0 && 0 < n <= |h| && CapNeverFired(p, st, h, n)
    ensures exists j :: 0 <= j < n && At(p, st, h, n).score == Gain(p, st.lastUpdateTs, h, j, n)
    ensures forall j | 0 <= j < n :: Gain(p, st.lastUpdateTs, h, j, n) <= At(p, st, h, n).score
  {
    forall j | 0 <= j < n ensures Gain(p, st.lastUpdateTs, h, j, n) <= At(p, st, h, n).score {
      UncappedLower(p, st, h, n, j);
    }
    var j := ScoreUpper(p, st, h, n);
  }

  lemma GainBoundStep(p: Params, t0: int, h: seq<Obs>, n: nat, j: nat, x: real, x': real)
    requires j < n < |h| && Gain(p, t0, h, j, n) <= x
    requires x - Leak(p, t0, h, n) + Charge(p, h[n]) <= x'
    ensures Gain(p, t0, h, j, n + 1) <= x'
  {
    GainStep(p, t0, h, j, n);
  }

  lemma {:induction false} UncappedLower(p: Params, st: UeState, h: seq<Obs>, n: nat, j: nat)
    requires Positive(p) && st.score == 0.0 && j < n <= |h| && CapNeverFired(p, st, h, n)
    ensures Gain(p, st.lastUpdateTs, h, j, n) <= At(p, st, h, n).score
  {
    var x, x' := At(p, st, h, n - 1).score, At(p, st, h, n).score;
    UncappedStep(p, st, h, n - 1);
    if j < n - 1 {
      UncappedLower(p, st, h, n - 1, j);
      GainBoundStep(p, st.lastUpdateTs, h, n - 1, j, x, x');
    } else {
      GainHere(p, st.lastUpdateTs, h, j);
    }
  }

  /** A UE can be blocked only when, at some moment, the attacks since some earlier moment had
      outrun the leak by the block threshold. */
  lemma {:induction false} BlockedNeedsBurst(p: Params, st: UeState, h: seq<Obs>, n: nat)
    requires Positive(p) && st.score == 0.0 && st.status == NORMAL && n <= |h|
    requires At(p, st, h, n).status == BLOCKED
    ensures exists m, j :: 0 <= j < m <= n && Gain(p, st.lastUpdateTs, h, j, m) >= p.block
  {
    if At(p, st, h, n - 1).status == BLOCKED {
      BlockedNeedsBurst(p, st, h, n - 1);
    } else {
      var j := ScoreUpper(p, st, h, n);
    }
  }

  lemma ScoreBlocks(p: Params, st: UeState, h: seq<Obs>, n: nat)
    requires 0 < n <= |h| && At(p, st, h, n).score >= p.block
    ensures exists m :: 0 <= m <= n && At(p, st, h, m).status == BLOCKED
  {
    assert At(p, st, h, n - 1).status == BLOCKED || At(p, st, h, n).status == BLOCKED;
  }

  /** Hitting the cap blocks, so until then the score is uncapped. */
  lemma {:induction false} UncappedUntilBlocked(p: Params, st: UeState, h: seq<Obs>, n: nat)
    requires Positive(p) && p.block <= p.maxScore && 0.0 <= st.score <= p.maxScore && n <= |h|
    ensures CapNeverFired(p, st, h, n) || exists m :: 0 <= m <= n && At(p, st, h, m).status == BLOCKED
  {
    if n > 0 {
      UncappedUntilBlocked(p, st, h, n - 1);
      if !FitsUnderCap(p, At(p, st, h, n - 1), h[n - 1]) {
        assert At(p, st, h, n).score == p.maxScore;
        ScoreBlocks(p, st, h, n);
      }
    }
  }

  /** From a clean start, with a block threshold within the maximum: a UE is blocked at some moment if
      and only if, at some moment, the attacks since some earlier one had outrun the leak by the block
      threshold. */
  lemma BlockedExactlyAfterBurst(p: Params, st: UeState, h: seq<Obs>, n: nat)
    requires Positive(p) && p.block <= p.maxScore && st.score == 0.0 && st.status == NORMAL && n <= |h|
    ensures (exists m :: 0 <= m <= n && At(p, st, h, m).status == BLOCKED)
       <==> exists m, j :: 0 <= j < m <= n && Gain(p, st.lastUpdateTs, h, j, m) >= p.block
  {
    hide At, Gain, CapNeverFired;
    if m :| 0 <= m <= n && At(p, st, h, m).status == BLOCKED {
      BlockedNeedsBurst(p, st, h, m);
    }
    if m, j :| 0 <= j < m <= n && Gain(p, st.lastUpdateTs, h, j, m) >= p.block {
      BurstBlocks(p, st, h, m, j);
    }
  }

  lemma BurstBlocks(p: Params, st: UeState, h: seq<Obs>, n: nat, j: nat)
    requires Positive(p) && p.block <= p.maxScore && st.score == 0.0
    requires j < n <= |h| && Gain(p, st.lastUpdateTs, h, j, n) >= p.block
    ensures exists m :: 0 <= m <= n && At(p, st, h, m).status == BLOCKED
  {
    hide At, Gain;
    UncappedUntilBlocked(p, st, h, n);
    if CapNeverFired(p, st, h, n) {
      UncappedLower(p, st, h, n, j);
      ScoreBlocks(p, st, h, n);
    }
  }

  /** A UE that starts normal is blocked now exactly if its score once reached the block threshold and
      has not been below the unblock threshold since. */
  lemma {:induction false} BlockedNowExactly(p: Params, st: UeState, h: seq<Obs>, n: nat)
    requires p.unblock <= p.block && st.status == NORMAL && n <= |h|
    ensures At(p, st, h, n).status == BLOCKED <==> BlockedSince(p, st, h, n)
  {
    if n > 0 {
      BlockedNowExactly(p, st, h, n - 1);
      var b := At(p, st, h, n - 1).status == BLOCKED;
      if At(p, st, h, n).status == BLOCKED {
        var m := n;
        if b {
          m :| 0 < m <= n - 1 && At(p, st, h, m).score >= p.block
               && forall i | m <= i <= n - 1 :: At(p, st, h, i).score >= p.unblock;
        }
        assert forall i | m <= i <= n :: At(p, st, h, i).score >= p.unblock;
      }
    }
  }

  ghost predicate BlockedSince(p: Params, st: UeState, h: seq<Obs>, n: nat)
    requires n <= |h|
  {
    exists m :: && 0 < m <= n && At(p, st, h, m).score >= p.block
                && forall i | m <= i <= n :: At(p, st, h, i).score >= p.unblock
  }

  predicate NonDecreasing(h: seq<Obs>) {
    forall i, j | 0 <= i < j < |h| :: h[i].time <= h[j].time
  }

  /** With a clock that does not step back, elapsed time is a difference of timestamps. */
  lemma {:induction false} ElapsedIsDifference(t0: int, h: seq<Obs>, j: nat, n: nat)
    requires j < n <= |h| && NonDecreasing(h)
    ensures Elapsed(t0, h, j + 1, n) == (h[n - 1].time - h[j].time) as real
  {
    if j + 1 < n {
      ElapsedIsDifference(t0, h, j, n - 1);
    }
  }
}
