/** What the risk scorer promises over whole runs: hysteresis, no flapping, forgiveness, banning,
    dominance, and independence of the UEs (internal/analyzer/scorer/risk_scorer.go;
    the promises are in docs/RISK_SCORING.md). */
module RiskLaws {
  import opened Reals
  import opened RiskScoring

  // ---------------------------------------------------------------- hysteresis

  /** A blocked UE is not below the unblock threshold, a normal one is below the block threshold. */
  predicate Hysteresis(p: Params, st: UeState) {
    && (st.status == BLOCKED ==> p.unblock <= st.score)
    && (st.status == NORMAL ==> st.score < p.block)
  }

  /** An update establishes the hysteresis, whatever the state before, exactly when the new score is not
      at the block threshold or above and yet below the unblock threshold. */
  lemma HysteresisExactly(p: Params, st: UeState, o: Obs)
    ensures Hysteresis(p, Updated(p, st, o)) <==> !(p.block <= Updated(p, st, o).score < p.unblock)
  {
  }

  /** With ordered thresholds it therefore holds after every observation of every run. */
  lemma OrderedThresholdsKeepHysteresis(p: Params, st: UeState, h: seq<Obs>, n: nat)
    requires p.unblock <= p.block && 0 < n <= |h|
    ensures Hysteresis(p, At(p, st, h, n))
  {
    HysteresisExactly(p, At(p, st, h, n - 1), h[n - 1]);
  }

  /** With thresholds crossed by the defaults it can fail: an attack and a quiet second leave a new UE
      unblocked at a score above the block threshold. */
  lemma CrossedThresholdsLoseHysteresis()
    ensures var p := ParamsOf(Normalised(Config(100.0, 30.0, 40.0, 0.7, 2, 20, 1)));
            var h := [Obs(0, 1.0), Obs(1, 0.0)];
            var end := At(p, Fresh(0), h, 2);
            end.status == NORMAL && end.score == 45.0 >= p.block && !Hysteresis(p, end)
  {
    var p := ParamsOf(Normalised(Config(100.0, 30.0, 40.0, 0.7, 2, 20, 1)));
    assert p == Params(100.0, 30.0, 50.0, 0.7, 50.0, 5.0);
    var h := [Obs(0, 1.0), Obs(1, 0.0)];
    var one := At(p, Fresh(0), h, 1);
    assert one == Updated(p, At(p, Fresh(0), h, 0), h[0]) == UeState(50.0, BLOCKED, 0, 1, 0);
    assert At(p, Fresh(0), h, 2) == Updated(p, one, h[1]);
  }

  /** And it need not fail: with one hit and one second the score is always 0 or the maximum. */
  lemma {:induction false} CrossedThresholdsMayKeepHysteresis(h: seq<Obs>, now: int, n: nat)
    requires n <= |h|
    ensures var p := ParamsOf(Normalised(Config(100.0, 30.0, 40.0, 0.7, 1, 1, 1)));
            var st := At(p, Fresh(now), h, n);
            p.unblock > p.block && (st.score == 0.0 || st.score == 100.0) && Hysteresis(p, st)
  {
    var p := ParamsOf(Normalised(Config(100.0, 30.0, 40.0, 0.7, 1, 1, 1)));
    assert p == Params(100.0, 30.0, 50.0, 0.7, 100.0, 100.0);
    if n > 0 {
      CrossedThresholdsMayKeepHysteresis(h, now, n - 1);
    }
  }

  /** A block threshold above the maximum, which the defaults can produce, never blocks anyone. */
  lemma {:induction false} UnreachableThresholdNeverBlocks(p: Params, st: UeState, h: seq<Obs>, n: nat)
    requires Positive(p) && p.maxScore < p.block && n <= |h|
    requires 0.0 <= st.score <= p.maxScore && st.status == NORMAL
    ensures At(p, st, h, n).status == NORMAL
  {
    if n > 0 {
      UnreachableThresholdNeverBlocks(p, st, h, n - 1);
      ScoreInRange(p, st, h, n);
    }
  }

  // ---------------------------------------------------------------- flapping

  predicate ReleasedBy(p: Params, st: UeState, h: seq<Obs>, i: nat)
    requires i < |h|
  {
    At(p, st, h, i).status == BLOCKED && At(p, st, h, i + 1).status == NORMAL
  }

  predicate BlockedBy(p: Params, st: UeState, h: seq<Obs>, i: nat)
    requires i < |h|
  {
    At(p, st, h, i).status == NORMAL && At(p, st, h, i + 1).status == BLOCKED
  }

  function Releases(p: Params, st: UeState, h: seq<Obs>, n: nat): nat
    requires n <= |h|
  {
    if n == 0 then 0 else Releases(p, st, h, n - 1) + (if ReleasedBy(p, st, h, n - 1) then 1 else 0)
  }

  /** Leakage so far, less one threshold gap for every release. */
  function Credit(p: Params, st: UeState, h: seq<Obs>, n: nat): real
    requires n <= |h|
  {
    if n == 0 then 0.0
    else (Credit(p, st, h, n - 1) + Leak(p, st.lastUpdateTs, h, n - 1)
          - (if ReleasedBy(p, st, h, n - 1) then p.block - p.unblock else 0.0))
  }

  lemma CreditUnfolds(p: Params, st: UeState, h: seq<Obs>, n: nat)
    requires n <= |h|
    ensures n == 0 ==> Credit(p, st, h, n) == 0.0 && Releases(p, st, h, n) == 0 && Leaked(p, st.lastUpdateTs, h, 0, n) == 0.0
    ensures n > 0 ==>
      var released := ReleasedBy(p, st, h, n - 1);
      var leak := Leak(p, st.lastUpdateTs, h, n - 1);
      && Credit(p, st, h, n) == Credit(p, st, h, n - 1) + leak - (if released then p.block - p.unblock else 0.0)
      && Releases(p, st, h, n) == Releases(p, st, h, n - 1) + (if released then 1 else 0)
      && Leaked(p, st.lastUpdateTs, h, 0, n) == Leaked(p, st.lastUpdateTs, h, 0, n - 1) + leak
  {
  }

  lemma {:induction false} CreditInUnits(p: Params, st: UeState, h: seq<Obs>, n: nat)
    requires n <= |h|
    ensures Credit(p, st, h, n)
         == Leaked(p, st.lastUpdateTs, h, 0, n) - Times(p.block - p.unblock, Releases(p, st, h, n))
  {
    hide *;
    CreditUnfolds(p, st, h, n);
    var gap := p.block - p.unblock;
    if n > 0 {
      CreditInUnits(p, st, h, n - 1);
      OneMoreTime(gap, Releases(p, st, h, n - 1));
    } else {
      NoTimes(gap);
    }
  }

  /** The score falls no faster than the leak and rises no faster than the charge. */
  lemma StepBounds(p: Params, st: UeState, h: seq<Obs>, n: nat)
    requires Positive(p) && n < |h| && 0.0 <= st.score <= p.maxScore
    ensures var x, x' := At(p, st, h, n).score, At(p, st, h, n + 1).score;
            x - Leak(p, st.lastUpdateTs, h, n) <= x' <= x + Charge(p, h[n])
    ensures 0.0 <= Leak(p, st.lastUpdateTs, h, n)
  {
    ScoreInRange(p, st, h, n);
    ScoreStep(p, st, h, n);
  }

  /** While blocked, the credit covers what the score has lost since the block threshold. */
  lemma {:induction false} CreditCovers(p: Params, st: UeState, h: seq<Obs>, n: nat)
    requires Positive(p) && p.unblock < p.block && n <= |h| && 0.0 <= st.score <= p.maxScore
    requires st.status == BLOCKED ==> st.score >= p.block
    ensures Credit(p, st, h, n) >= 0.0
    ensures Releases(p, st, h, n) > 0 ==> Credit(p, st, h, n) > 0.0
    ensures At(p, st, h, n).status == BLOCKED ==> Credit(p, st, h, n) >= p.block - At(p, st, h, n).score
  {
    if n > 0 {
      CreditCovers(p, st, h, n - 1);
      StepBounds(p, st, h, n - 1);
    }
  }

  /** In any run the releases are at most the elapsed leakage over the threshold gap. */
  lemma FlappingBound(p: Params, st: UeState, h: seq<Obs>)
    requires Positive(p) && p.unblock < p.block && 0.0 <= st.score <= p.maxScore
    requires st.status == BLOCKED ==> st.score >= p.block
    ensures Releases(p, st, h, |h|) as real
         <= p.decayStep * Elapsed(st.lastUpdateTs, h, 0, |h|) / (p.block - p.unblock)
  {
    hide *;
    CreditCovers(p, st, h, |h|);
    CreditInUnits(p, st, h, |h|);
    LeakedIsRateTimesTime(p, st.lastUpdateTs, h, 0, |h|);
    QuotientAtLeast(Releases(p, st, h, |h|), p.block - p.unblock, Leaked(p, st.lastUpdateTs, h, 0, |h|));
  }

  lemma QuotientAtLeast(r: nat, g: real, x: real)
    requires 0.0 < g && Times(g, r) <= x
    ensures r as real <= x / g
  {
    assert x / g - r as real == (x - g * r as real) / g;
  }

  lemma {:induction false} ScoreSince(p: Params, st: UeState, h: seq<Obs>, i: nat, n: nat)
    requires Positive(p) && i <= n <= |h| && 0.0 <= st.score <= p.maxScore
    ensures var x, y := At(p, st, h, i).score, At(p, st, h, n).score;
            x - Leaked(p, st.lastUpdateTs, h, i, n) <= y <= x + Charges(p, h, i, n)
  {
    if i < n {
      ScoreSince(p, st, h, i, n - 1);
      StepBounds(p, st, h, n - 1);
    }
  }

  /** The observation that blocks or releases a UE leaves the score beyond the threshold. */
  lemma StatusChangesAtThresholds(p: Params, st: UeState, h: seq<Obs>, i: nat)
    requires i < |h|
    ensures BlockedBy(p, st, h, i) ==> At(p, st, h, i + 1).score >= p.block
    ensures ReleasedBy(p, st, h, i) ==> At(p, st, h, i + 1).score < p.unblock
  {
  }

  /** A UE blocked by observation i and released by observation n-1 stays blocked for longer than
      the threshold gap takes to leak out. */
  lemma BlockedPeriodLasts(p: Params, st: UeState, h: seq<Obs>, i: nat, n: nat)
    requires Positive(p) && 0.0 <= st.score <= p.maxScore && i + 1 < n <= |h|
    requires BlockedBy(p, st, h, i) && ReleasedBy(p, st, h, n - 1)
    ensures p.decayStep * Elapsed(st.lastUpdateTs, h, i + 1, n) > p.block - p.unblock
  {
    hide *;
    StatusChangesAtThresholds(p, st, h, i);
    StatusChangesAtThresholds(p, st, h, n - 1);
    ScoreSince(p, st, h, i + 1, n);
    LeakedIsRateTimesTime(p, st.lastUpdateTs, h, i + 1, n);
    var up, down := At(p, st, h, i + 1).score, At(p, st, h, n).score;
    assert n - 1 + 1 == n;
    assert up >= p.block && down < p.unblock;
    assert up - Leaked(p, st.lastUpdateTs, h, i + 1, n) <= down;
  }

  /** A UE released by observation i and blocked by observation n-1 has shown attacks worth more
      than the threshold gap in between. */
  lemma ReblockNeedsAttacks(p: Params, st: UeState, h: seq<Obs>, i: nat, n: nat)
    requires Positive(p) && 0.0 <= st.score <= p.maxScore && i + 1 < n <= |h|
    requires ReleasedBy(p, st, h, i) && BlockedBy(p, st, h, n - 1)
    ensures p.attackStep * Attacks(p, h, i + 1, n) as real > p.block - p.unblock
  {
    hide *;
    StatusChangesAtThresholds(p, st, h, i);
    StatusChangesAtThresholds(p, st, h, n - 1);
    ScoreSince(p, st, h, i + 1, n);
    ChargesAreStepTimesAttacks(p, h, i + 1, n);
    var down, up := At(p, st, h, i + 1).score, At(p, st, h, n).score;
    assert n - 1 + 1 == n;
    assert up >= p.block && down < p.unblock;
    assert up <= down + Charges(p, h, i + 1, n);
  }

  // ---------------------------------------------------------------- forgiveness and banning

  /** Quiet observations compose: the score is what one wait of the whole time would leave. */
  lemma {:induction false} QuietComposes(p: Params, st: UeState, h: seq<Obs>, n: nat)
    requires Positive(p) && n <= |h| && 0.0 <= st.score <= p.maxScore && Attacks(p, h, 0, n) == 0
    ensures At(p, st, h, n).score == Floored(st.score - Leaked(p, st.lastUpdateTs, h, 0, n))
    ensures 0.0 <= Leaked(p, st.lastUpdateTs, h, 0, n)
  {
    if n > 0 {
      QuietComposes(p, st, h, n - 1);
      ScoreInRange(p, st, h, n - 1);
      ScoreStep(p, st, h, n - 1);
    }
  }

  lemma ScaledAtLeast(a: real, b: real, c: real)
    requires 0.0 <= a && b <= c
    ensures a * b <= a * c
  {
  }

  lemma QuietTimeEmptiesBucket(p: Params, st: UeState, h: seq<Obs>, seconds: real)
    requires Positive(p) && h != [] && 0.0 <= st.score <= p.maxScore && Attacks(p, h, 0, |h|) == 0
    requires p.decayStep * seconds == p.maxScore && seconds <= Elapsed(st.lastUpdateTs, h, 0, |h|)
    ensures At(p, st, h, |h|).score == 0.0 && At(p, st, h, |h|).status == NORMAL
  {
    assert Leaked(p, st.lastUpdateTs, h, 0, |h|) >= st.score by {
      hide *;
      LeakedIsRateTimesTime(p, st.lastUpdateTs, h, 0, |h|);
      ScaledAtLeast(p.decayStep, seconds, Elapsed(st.lastUpdateTs, h, 0, |h|));
    }
    EmptyBucketIsNormal(p, st, h);
  }

  lemma EmptyBucketIsNormal(p: Params, st: UeState, h: seq<Obs>)
    requires Positive(p) && h != [] && 0.0 <= st.score <= p.maxScore && Attacks(p, h, 0, |h|) == 0
    requires Leaked(p, st.lastUpdateTs, h, 0, |h|) >= st.score
    ensures At(p, st, h, |h|).score == 0.0 && At(p, st, h, |h|).status == NORMAL
  {
    QuietComposes(p, st, h, |h|);
  }

  /** `SecondsToForgive` quiet seconds wipe any score and end any block. */
  lemma ForgivenInTime(c: Config, st: UeState, h: seq<Obs>)
    requires h != [] && 0.0 <= st.score <= Normalised(c).maxScore
    requires Attacks(ParamsOf(Normalised(c)), h, 0, |h|) == 0
    requires Elapsed(st.lastUpdateTs, h, 0, |h|) >= Normalised(c).secondsToForgive as real
    ensures var end := At(ParamsOf(Normalised(c)), st, h, |h|);
            end.score == 0.0 && end.status == NORMAL
  {
    var n := Normalised(c);
    StepsArePositive(c);
    QuotientPositive(n.maxScore, n.secondsToForgive as real);
    QuietTimeEmptiesBucket(ParamsOf(n), st, h, n.secondsToForgive as real);
  }

  /** Attack after attack, none further apart than one charge leaks out. */
  predicate Sustained(p: Params, t0: int, h: seq<Obs>) {
    forall i | 0 <= i < |h| :: IsAttack(p, h[i]) && (i > 0 ==> Leak(p, t0, h, i) <= p.attackStep)
  }

  lemma {:induction false} SustainedCharges(p: Params, t0: int, h: seq<Obs>, n: nat)
    requires Positive(p) && n <= |h| && Sustained(p, t0, h)
    ensures Attacks(p, h, 0, n) == n && 0.0 <= Charges(p, h, 0, n) <= Charges(p, h, 0, |h|)
    decreases |h| - n
  {
    SustainedAttacks(p, t0, h, n);
    if n < |h| {
      SustainedCharges(p, t0, h, n + 1);
    }
  }

  lemma {:induction false} SustainedAttacks(p: Params, t0: int, h: seq<Obs>, n: nat)
    requires Positive(p) && n <= |h| && Sustained(p, t0, h)
    ensures Attacks(p, h, 0, n) == n && 0.0 <= Charges(p, h, 0, n)
  {
    if n > 0 { SustainedAttacks(p, t0, h, n - 1); }
  }

  /** A sustained attack whose charges fit under the maximum meets neither floor nor cap. */
  lemma {:induction false} SustainedScore(p: Params, st: UeState, h: seq<Obs>, n: nat)
    requires Positive(p) && st.score == 0.0 && st.status == NORMAL && 0 < n <= |h|
    requires p.unblock <= p.block && Sustained(p, st.lastUpdateTs, h)
    requires Charges(p, h, 0, |h|) <= p.maxScore
    ensures At(p, st, h, n).score == Gain(p, st.lastUpdateTs, h, 0, n)
    ensures p.attackStep <= At(p, st, h, n).score <= Charges(p, h, 0, n)
    ensures At(p, st, h, n).status == BLOCKED <==> At(p, st, h, n).score >= p.block
  {
    SustainedCharges(p, st.lastUpdateTs, h, n);
    ScoreInRange(p, st, h, n - 1);
    ScoreStep(p, st, h, n - 1);
    if n > 1 {
      SustainedScore(p, st, h, n - 1);
      GainStep(p, st.lastUpdateTs, h, 0, n - 1);
    } else {
      GainHere(p, st.lastUpdateTs, h, 0);
    }
  }

  predicate AllAttacks(p: Params, h: seq<Obs>) {
    forall i | 0 <= i < |h| :: IsAttack(p, h[i])
  }

  lemma {:induction false} AttacksOfAll(p: Params, h: seq<Obs>, j: nat, n: nat)
    requires AllAttacks(p, h) && j <= n <= |h|
    ensures Attacks(p, h, j, n) == n - j
  {
    if j < n {
      AttacksOfAll(p, h, j, n - 1);
    }
  }

  lemma {:induction false} GainAtMostCharges(p: Params, t0: int, h: seq<Obs>, j: nat, n: nat)
    requires Positive(p) && AllAttacks(p, h) && j < n <= |h|
    ensures Gain(p, t0, h, j, n) <= Times(p.attackStep, |h|)
  {
    hide *;
    AttacksOfAll(p, h, j, n);
    GainCharges(p, t0, h, j, n);
    ChargesAreStepTimesAttacks(p, h, j, n);
    LeakedNotNegative(p, t0, h, j + 1, n);
    MoreTimes(p, Attacks(p, h, j, n), |h|);
    assert Charges(p, h, j, n) <= Times(p.attackStep, |h|);
    assert Leaked(p, t0, h, j + 1, n) >= 0.0;
  }

  lemma GainCharges(p: Params, t0: int, h: seq<Obs>, j: nat, n: nat)
    requires n <= |h|
    ensures Gain(p, t0, h, j, n) == Charges(p, h, j, n) - Leaked(p, t0, h, j + 1, n)
  {
  }

  lemma {:induction false} LeakedNotNegative(p: Params, t0: int, h: seq<Obs>, j: nat, n: nat)
    requires Positive(p) && n <= |h|
    ensures Leaked(p, t0, h, j, n) >= 0.0
  {
    if n > j {
      LeakedNotNegative(p, t0, h, j, n - 1);
      LeakIsNotNegative(p, t0, h, n - 1);
    }
  }

  lemma MoreTimes(p: Params, m: nat, n: nat)
    requires Positive(p) && m <= n
    ensures p.attackStep * m as real <= Times(p.attackStep, n)
  {
    ScaledAtLeast(p.attackStep, m as real, n as real);
  }

  /** What hits j to m-1 are worth at hit m-1, one charge each less what leaked out in between. */
  function Worth(p: Params, t0: int, h: seq<Obs>, j: nat, m: nat): real
    requires j <= m <= |h|
  {
    p.attackStep * (m - j) as real - p.decayStep * Elapsed(t0, h, j + 1, m)
  }

  lemma WorthIsGain(p: Params, t0: int, h: seq<Obs>, j: nat, m: nat)
    requires AllAttacks(p, h) && j < m <= |h|
    ensures Worth(p, t0, h, j, m) == Gain(p, t0, h, j, m)
  {
    AttacksOfAll(p, h, j, m);
    GainInUnits(p, t0, h, j, m);
    hide AllAttacks, Gain, Elapsed, Attacks;
  }

  /** `HitsToBan` hits in a row, with whatever pauses: some hit blocks a clean UE if and only if some
      run of consecutive hits is worth the block threshold. */
  lemma HitsToBanExactly(c: Config, st: UeState, h: seq<Obs>)
    requires st.score == 0.0 && st.status == NORMAL
    requires |h| == Normalised(c).hitsToBan && AllAttacks(ParamsOf(Normalised(c)), h)
    ensures var p := ParamsOf(Normalised(c));
            && ((exists m :: 0 <= m <= |h| && At(p, st, h, m).status == BLOCKED)
                <==> exists m, j :: 0 <= j < m <= |h| && Worth(p, st.lastUpdateTs, h, j, m) >= p.block)
  {
    var p := ParamsOf(Normalised(c));
    AttackStepInUnits(c);
    StepsArePositive(c);
    AttackStepTimes(p, |h|);
    hide *;
    forall j, m | 0 <= j < m <= |h| ensures Worth(p, st.lastUpdateTs, h, j, m) == Gain(p, st.lastUpdateTs, h, j, m) <= p.maxScore {
      WorthIsGain(p, st.lastUpdateTs, h, j, m);
      GainAtMostCharges(p, st.lastUpdateTs, h, j, m);
    }
    if p.block <= p.maxScore {
      BlockedExactlyAfterBurst(p, st, h, |h|);
    } else {
      NeverBlocked(p, st, h);
    }
  }

  lemma AttackStepTimes(p: Params, n: nat)
    ensures Times(p.attackStep, n) == p.attackStep * n as real
  {
  }

  lemma NeverBlocked(p: Params, st: UeState, h: seq<Obs>)
    requires Positive(p) && p.maxScore < p.block && st.score == 0.0 && st.status == NORMAL
    ensures forall m | 0 <= m <= |h| :: At(p, st, h, m).status == NORMAL
  {
    forall m | 0 <= m <= |h| ensures At(p, st, h, m).status == NORMAL {
      UnreachableThresholdNeverBlocks(p, st, h, m);
    }
  }

  /** When no pause leaks more than one charge and the thresholds are ordered, the UE ends up blocked
      exactly when what leaks out during all the hits fits between the block threshold and the
      maximum. */
  lemma SustainedHitsToBanExactly(c: Config, st: UeState, h: seq<Obs>)
    requires Normalised(c).unblock <= Normalised(c).block && st.score == 0.0 && st.status == NORMAL
    requires |h| == Normalised(c).hitsToBan && Sustained(ParamsOf(Normalised(c)), st.lastUpdateTs, h)
    ensures At(ParamsOf(Normalised(c)), st, h, |h|).status == BLOCKED
       <==> ParamsOf(Normalised(c)).decayStep * Elapsed(st.lastUpdateTs, h, 1, |h|)
              <= Normalised(c).maxScore - Normalised(c).block
  {
    hide *;
    AttackStepInUnits(c);
    StepsArePositive(c);
    SustainedBan(ParamsOf(Normalised(c)), st, h);
  }

  lemma AttackStepInUnits(c: Config)
    ensures Normalised(c).hitsToBan > 0 && Normalised(c).secondsToForgive > 0
    ensures var p := ParamsOf(Normalised(c));
            && p.attackStep * Normalised(c).hitsToBan as real == p.maxScore == Normalised(c).maxScore
            && p.block == Normalised(c).block && p.unblock == Normalised(c).unblock
  {
    QuotientPositive(Normalised(c).maxScore, Normalised(c).hitsToBan as real);
  }

  lemma SustainedBan(p: Params, st: UeState, h: seq<Obs>)
    requires Positive(p) && st.score == 0.0 && st.status == NORMAL && h != []
    requires p.unblock <= p.block && Sustained(p, st.lastUpdateTs, h)
    requires p.attackStep * |h| as real == p.maxScore
    ensures At(p, st, h, |h|).status == BLOCKED
       <==> p.decayStep * Elapsed(st.lastUpdateTs, h, 1, |h|) <= p.maxScore - p.block
  {
    var n, t0 := |h|, st.lastUpdateTs;
    hide *;
    SustainedAttacks(p, t0, h, n);
    ChargesAreStepTimesAttacks(p, h, 0, n);
    SustainedScore(p, st, h, n);
    LeakedIsRateTimesTime(p, t0, h, 1, n);
    assert Gain(p, t0, h, 0, n) == Charges(p, h, 0, n) - Leaked(p, t0, h, 1, n) by {
      GainParts(p, t0, h, n);
    }
  }

  lemma GainParts(p: Params, t0: int, h: seq<Obs>, n: nat)
    requires n <= |h|
    ensures Gain(p, t0, h, 0, n) == Charges(p, h, 0, n) - Leaked(p, t0, h, 1, n)
  {
  }

  // ---------------------------------------------------------------- dominance

  predicate SameButCutoff(p: Params, q: Params) {
    p.(cutoff := q.cutoff) == q
  }

  predicate Dominated(a: UeState, b: UeState) {
    a.score <= b.score && (a.status == BLOCKED ==> b.status == BLOCKED) && a.lastUpdateTs == b.lastUpdateTs
  }

  lemma UpdateIsMonotone(p: Params, q: Params, a: UeState, b: UeState, o: Obs, o': Obs)
    requires Positive(p) && SameButCutoff(p, q) && p.unblock <= p.block
    requires Dominated(a, b) && 0.0 <= a.score && b.score <= p.maxScore
    requires o.time == o'.time && (IsAttack(p, o) ==> IsAttack(q, o'))
    ensures Dominated(Updated(p, a, o), Updated(q, b, o'))
  {
    var leak := p.decayStep * Later(o.time - a.lastUpdateTs);
    UpdateStep(p, a, o, leak);
    UpdateStep(q, b, o', leak);
  }

  /** More attacks (at the same times), or a lower cutoff, never lead to a lower score or a milder
      status. */
  lemma {:induction false} MoreAttacksDominate(p: Params, q: Params, a: UeState, b: UeState, h: seq<Obs>, g: seq<Obs>, n: nat)
    requires Positive(p) && SameButCutoff(p, q) && p.unblock <= p.block
    requires Dominated(a, b) && 0.0 <= a.score && b.score <= p.maxScore
    requires n <= |h| == |g| && forall i | 0 <= i < |h| :: h[i].time == g[i].time
    requires forall i | 0 <= i < |h| :: IsAttack(p, h[i]) ==> IsAttack(q, g[i])
    ensures Dominated(At(p, a, h, n), At(q, b, g, n))
  {
    if n > 0 {
      MoreAttacksDominate(p, q, a, b, h, g, n - 1);
      ScoreInRange(p, a, h, n - 1);
      ScoreInRange(q, b, g, n - 1);
      UpdateIsMonotone(p, q, At(p, a, h, n - 1), At(q, b, g, n - 1), h[n - 1], g[n - 1]);
    }
  }

  /** With crossed thresholds dominance can fail: the higher score is released, the lower one blocked. */
  lemma CrossedThresholdsLoseDominance()
    ensures var p := Params(100.0, 30.0, 50.0, 0.7, 10.0, 5.0);
            var a, b, o := UeState(25.0, NORMAL, 0, 0, 0), UeState(36.0, BLOCKED, 0, 0, 0), Obs(0, 1.0);
            Dominated(a, b) && !Dominated(Updated(p, a, o), Updated(p, b, o))
  {
  }

  // ---------------------------------------------------------------- many UEs

  type Supi = string

  datatype Report = Report(supi: Supi, obs: Obs)

  /** One inference result applied to the table of states. */
  function Observed(p: Params, m: map<Supi, UeState>, r: Report): map<Supi, UeState> {
    m[r.supi := Updated(p, if r.supi in m then m[r.supi] else Fresh(r.obs.time), r.obs)]
  }

  function AfterAll(p: Params, m: map<Supi, UeState>, rs: seq<Report>): map<Supi, UeState> {
    if rs == [] then m else Observed(p, AfterAll(p, m, rs[..|rs| - 1]), rs[|rs| - 1])
  }

  /** The observations of one UE. */
  function Mine(rs: seq<Report>, k: Supi): seq<Obs> {
    if rs == [] then []
    else Mine(rs[..|rs| - 1], k) + if rs[|rs| - 1].supi == k then [rs[|rs| - 1].obs] else []
  }

  lemma {:induction false} AtDependsOnPrefix(p: Params, st: UeState, h: seq<Obs>, g: seq<Obs>, n: nat)
    requires n <= |h| && n <= |g| && h[..n] == g[..n]
    ensures At(p, st, h, n) == At(p, st, g, n)
  {
    if n > 0 {
      assert h[..n][..n - 1] == h[..n - 1] && g[..n][..n - 1] == g[..n - 1];
      assert h[..n][n - 1] == g[..n][n - 1];
      AtDependsOnPrefix(p, st, h, g, n - 1);
    }
  }

  /** The state a UE starts a run from. */
  function Start(m: map<Supi, UeState>, k: Supi, mine: seq<Obs>): UeState {
    if k in m then m[k] else if mine != [] then Fresh(mine[0].time) else Fresh(0)
  }

  /** One more observation of a run. */
  lemma AtAppend(p: Params, st: UeState, h: seq<Obs>, o: Obs)
    ensures At(p, st, h + [o], |h| + 1) == Updated(p, At(p, st, h, |h|), o)
  {
    assert (h + [o])[..|h|] == h == h[..|h|];
    AtDependsOnPrefix(p, st, h + [o], h, |h|);
  }

  /** Each UE evolves by its own observations alone, whatever is reported about the others. */
  lemma {:induction false} EachUeRunsAlone(p: Params, m: map<Supi, UeState>, rs: seq<Report>, k: Supi)
    ensures k in AfterAll(p, m, rs) <==> k in m || Mine(rs, k) != []
    ensures k in AfterAll(p, m, rs) ==>
              AfterAll(p, m, rs)[k] == At(p, Start(m, k, Mine(rs, k)), Mine(rs, k), |Mine(rs, k)|)
  {
    if rs != [] {
      var front, last := rs[..|rs| - 1], rs[|rs| - 1];
      var before := Mine(front, k);
      EachUeRunsAlone(p, m, front, k);
      if last.supi == k {
        assert Mine(rs, k) == before + [last.obs];
        AtAppend(p, Start(m, k, Mine(rs, k)), before, last.obs);
      } else {
        assert Mine(rs, k) == before;
      }
    }
  }

  /** Reports may be reordered freely as long as each UE's own reports keep their order. */
  lemma OrderAcrossUesIsIrrelevant(p: Params, m: map<Supi, UeState>, rs: seq<Report>, qs: seq<Report>)
    requires forall k :: Mine(rs, k) == Mine(qs, k)
    ensures AfterAll(p, m, rs) == AfterAll(p, m, qs)
  {
    forall k ensures k in AfterAll(p, m, rs) <==> k in AfterAll(p, m, qs)
             ensures k in AfterAll(p, m, rs) ==> AfterAll(p, m, rs)[k] == AfterAll(p, m, qs)[k]
    {
      EachUeRunsAlone(p, m, rs, k);
      EachUeRunsAlone(p, m, qs, k);
    }
  }

  predicate DistinctSupis(rs: seq<Report>) {
    forall i, j | 0 <= i < j < |rs| :: rs[i].supi != rs[j].supi
  }

  lemma {:induction false} MineOfDistinct(rs: seq<Report>, k: Supi)
    requires DistinctSupis(rs)
    ensures forall r | r in rs && r.supi == k :: Mine(rs, k) == [r.obs]
    ensures (forall r | r in rs :: r.supi != k) ==> Mine(rs, k) == []
  {
    if rs != [] {
      var front, last := rs[..|rs| - 1], rs[|rs| - 1];
      LastIsDistinct(rs);
      MineOfDistinct(front, k);
      hide DistinctSupis;
      assert rs == front + [last];
      assert forall r | r in rs :: r in front || r == last;
    }
  }

  lemma LastIsDistinct(rs: seq<Report>)
    requires DistinctSupis(rs) && rs != []
    ensures DistinctSupis(rs[..|rs| - 1]) && forall r | r in rs[..|rs| - 1] :: r.supi != rs[|rs| - 1].supi
  {
    var front := rs[..|rs| - 1];
    forall r | r in front ensures r.supi != rs[|rs| - 1].supi {
      var i :| 0 <= i < |front| && front[i] == r;
      assert rs[i] == r;
    }
  }

  /** A batch of distinct UEs may be processed in any order. */
  lemma BatchOrderIsIrrelevant(p: Params, m: map<Supi, UeState>, rs: seq<Report>, qs: seq<Report>)
    requires DistinctSupis(rs) && DistinctSupis(qs) && forall r :: r in rs <==> r in qs
    ensures AfterAll(p, m, rs) == AfterAll(p, m, qs)
  {
    forall k ensures Mine(rs, k) == Mine(qs, k) {
      MineOfDistinct(rs, k);
      MineOfDistinct(qs, k);
      if r :| r in rs && r.supi == k {
        assert r in qs;
      }
    }
    OrderAcrossUesIsIrrelevant(p, m, rs, qs);
  }
}
