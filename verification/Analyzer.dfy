/** `processBatch` (internal/analyzer/analyzer.go:90-180): numbering the polls, averaging the
    features of the active records, and filling both into the batch and its records. */
module Analyzer {
  import opened Features
  import opened Reals
  import opened Wrappers

  /** The averaged features; the last four are averaged over records with downlink traffic. */
  datatype Which = UlLogPPS | NewFlowRate | UlLen | FanOut | DlLogPPS | DlLen | PPSRatio | ByteRatio

  function Value(w: Which, f: Vector): real {
    match w
    case UlLogPPS => f.ulLogPPS
    case NewFlowRate => f.newFlowRate
    case UlLen => f.avgLen
    case FanOut => f.fanOut
    case DlLogPPS => f.dlLogPPS
    case DlLen => f.dlAvgLen
    case PPSRatio => f.ppsRatio
    case ByteRatio => f.byteRatio
  }

  predicate IsDownlink(w: Which) {
    w == DlLogPPS || w == DlLen || w == PPSRatio || w == ByteRatio
  }

  /** Whether a record takes part in an average. */
  predicate Active(down: bool, f: Vector) {
    !IsInactive(f) && (down ==> f.dlLogPPS > 0.0)
  }

  function Share(w: Which, f: Vector): real {
    if Active(IsDownlink(w), f) then Value(w, f) else 0.0
  }

  function Sum(w: Which, fs: seq<Vector>): real {
    if fs == [] then 0.0 else Sum(w, fs[..|fs| - 1]) + Share(w, fs[|fs| - 1])
  }

  function Number(down: bool, fs: seq<Vector>): nat {
    if fs == [] then 0 else Number(down, fs[..|fs| - 1]) + if Active(down, fs[|fs| - 1]) then 1 else 0
  }

  /** The rounded average of a feature, 0 when nobody takes part. */
  function Average(w: Which, fs: seq<Vector>): real {
    var n := Number(IsDownlink(w), fs);
    if n == 0 then 0.0 else Hundredths(Sum(w, fs) / n as real)
  }

  datatype GlobalStats = GlobalStats(
    ulLogPPS: real, newFlowRate: real, ulLen: real, fanOut: real, dlLogPPS: real, dlLen: real, ppsRatio: real, byteRatio: real)

  /** All eight sums, in the shape of the statistics. */
  function SumsOf(fs: seq<Vector>): GlobalStats {
    GlobalStats(Sum(UlLogPPS, fs), Sum(NewFlowRate, fs), Sum(UlLen, fs), Sum(FanOut, fs),
                Sum(DlLogPPS, fs), Sum(DlLen, fs), Sum(PPSRatio, fs), Sum(ByteRatio, fs))
  }

  /** No statistics at all when no record is active. */
  function StatsOf(fs: seq<Vector>): Option<GlobalStats> {
    if Number(false, fs) == 0 then None
    else Some(GlobalStats(Average(UlLogPPS, fs), Average(NewFlowRate, fs), Average(UlLen, fs), Average(FanOut, fs),
                          Average(DlLogPPS, fs), Average(DlLen, fs), Average(PPSRatio, fs), Average(ByteRatio, fs)))
  }

  class Record {
    const features: Vector
    var pollID: nat
    var global: GlobalStats
  }

  class Batch {
    const records: seq<Record>
    const batchSize: nat
    var pollID: nat
    var globalStats: Option<GlobalStats>

    function Vectors(): seq<Vector> {
      seq(|records|, i requires 0 <= i < |records| => records[i].features)
    }
  }

  class FlowAnalyzer {
    var pollCounter: nat

    constructor ()
      ensures pollCounter == 0
    {
      pollCounter := 0;
    }

    /** The two loops; handing the batch to the queues is not part of this class. */
    method ProcessBatch(batch: Batch)
      modifies this, batch, batch.records
      ensures pollCounter == old(pollCounter) + 1 && batch.pollID == pollCounter
      ensures batch.globalStats == if batch.batchSize > 0 && StatsOf(batch.Vectors()).Some?
                                   then StatsOf(batch.Vectors()) else old(batch.globalStats)
      ensures forall r | r in batch.records ::
                && r.pollID == pollCounter
                && (r.global == if batch.globalStats.Some? then batch.globalStats.value else old(r.global))
    {
      pollCounter := pollCounter + 1;
      batch.pollID := pollCounter;
      if batch.batchSize > 0 {
        var stats := ComputeStats(batch);
        if stats.Some? {
          batch.globalStats := stats;
        }
      }
      FillRecords(batch);
    }

    method ComputeStats(batch: Batch) returns (stats: Option<GlobalStats>)
      ensures stats == StatsOf(batch.Vectors())
    {
      var sums, activeCount, dlActiveCount := SumUp(batch);
      hide Sum, Number, Hundredths;
      if activeCount == 0 {
        return None;
      }
      var n := activeCount as real;
      var g := GlobalStats(Hundredths(sums.ulLogPPS / n), Hundredths(sums.newFlowRate / n), Hundredths(sums.ulLen / n),
                           Hundredths(sums.fanOut / n), 0.0, 0.0, 0.0, 0.0);
      if dlActiveCount > 0 {
        var d := dlActiveCount as real;
        g := g.(dlLogPPS := Hundredths(sums.dlLogPPS / d), dlLen := Hundredths(sums.dlLen / d),
                ppsRatio := Hundredths(sums.ppsRatio / d), byteRatio := Hundredths(sums.byteRatio / d));
      }
      return Some(g);
    }

    /** The accumulating loop: the eight sums, and how many records went into each group of them. */
    method SumUp(batch: Batch) returns (sums: GlobalStats, activeCount: nat, dlActiveCount: nat)
      ensures sums == SumsOf(batch.Vectors())
      ensures activeCount == Number(false, batch.Vectors()) && dlActiveCount == Number(true, batch.Vectors())
    {
      ghost var fs := batch.Vectors();
      sums, activeCount, dlActiveCount := GlobalStats(0.0, 0.0, 0.0, 0.0, 0.0, 0.0, 0.0, 0.0), 0, 0;
      var i := 0;
      while i < |batch.records|
        invariant 0 <= i <= |fs| && sums == SumsOf(fs[..i])
        invariant activeCount == Number(false, fs[..i]) && dlActiveCount == Number(true, fs[..i])
      {
        var f := batch.records[i].features;
        assert fs[..i + 1] == fs[..i] + [f];
        AllOfSnoc(fs[..i], f);
        hide SumsOf, Number;
        i := i + 1;
        if f.ulLogPPS == 0.0 && f.avgLen == 0.0 && f.newFlowRate == 0.0 {
          continue;
        }
        sums := sums.(ulLogPPS := sums.ulLogPPS + f.ulLogPPS, newFlowRate := sums.newFlowRate + f.newFlowRate,
                      ulLen := sums.ulLen + f.avgLen, fanOut := sums.fanOut + f.fanOut);
        activeCount := activeCount + 1;
        if f.dlLogPPS > 0.0 {
          sums := sums.(dlLogPPS := sums.dlLogPPS + f.dlLogPPS, dlLen := sums.dlLen + f.dlAvgLen,
                        ppsRatio := sums.ppsRatio + f.ppsRatio, byteRatio := sums.byteRatio + f.byteRatio);
          dlActiveCount := dlActiveCount + 1;
        }
      }
      assert fs[..i] == fs;
    }

    method FillRecords(batch: Batch)
      modifies batch.records
      ensures forall r | r in batch.records ::
                && r.pollID == batch.pollID
                && (r.global == if batch.globalStats.Some? then batch.globalStats.value else old(r.global))
    {
      var i := 0;
      while i < |batch.records|
        invariant 0 <= i <= |batch.records|
        invariant forall k | 0 <= k < i ::
                    && batch.records[k].pollID == batch.pollID
                    && (batch.globalStats.Some? ==> batch.records[k].global == batch.globalStats.value)
        invariant batch.globalStats.None? ==> forall r | r in batch.records :: r.global == old(r.global)
      {
        var r := batch.records[i];
        r.pollID := batch.pollID;
        if batch.globalStats.Some? {
          r.global := batch.globalStats.value;
        }
        i := i + 1;
      }
    }
  }

  // ---------------------------------------------------------------- what the averages are

  lemma SumOfSnoc(w: Which, fs: seq<Vector>, f: Vector)
    ensures Sum(w, fs + [f]) == Sum(w, fs) + Share(w, f)
  {
    assert (fs + [f])[..|fs|] == fs;
  }

  function If(c: bool, x: real): real {
    if c then x else 0.0
  }

  /** What one more record adds to each sum and count. */
  lemma AllOfSnoc(fs: seq<Vector>, f: Vector)
    ensures var up, down, a := !IsInactive(f), !IsInactive(f) && f.dlLogPPS > 0.0, SumsOf(fs);
            && Number(false, fs + [f]) == Number(false, fs) + (if up then 1 else 0)
            && Number(true, fs + [f]) == Number(true, fs) + (if down then 1 else 0)
            && SumsOf(fs + [f]) == GlobalStats(
                 a.ulLogPPS + If(up, f.ulLogPPS), a.newFlowRate + If(up, f.newFlowRate), a.ulLen + If(up, f.avgLen),
                 a.fanOut + If(up, f.fanOut), a.dlLogPPS + If(down, f.dlLogPPS), a.dlLen + If(down, f.dlAvgLen),
                 a.ppsRatio + If(down, f.ppsRatio), a.byteRatio + If(down, f.byteRatio))
  {
    hide Sum, Number;
    forall w ensures Sum(w, fs + [f]) == Sum(w, fs) + Share(w, f) {
      SumOfSnoc(w, fs, f);
    }
    NumberOfSnoc(false, fs, f);
    NumberOfSnoc(true, fs, f);
  }

  lemma NumberOfSnoc(down: bool, fs: seq<Vector>, f: Vector)
    ensures Number(down, fs + [f]) == Number(down, fs) + if Active(down, f) then 1 else 0
  {
    assert (fs + [f])[..|fs|] == fs;
  }

  /** Taking any one record out. */
  lemma {:induction false} Without(w: Which, down: bool, fs: seq<Vector>, i: nat)
    requires i < |fs|
    ensures Sum(w, fs) == Sum(w, fs[..i] + fs[i + 1..]) + Share(w, fs[i])
    ensures Number(down, fs) == Number(down, fs[..i] + fs[i + 1..]) + if Active(down, fs[i]) then 1 else 0
  {
    var n := |fs| - 1;
    if i == n {
      assert fs[..i] + fs[i + 1..] == fs[..n];
    } else {
      hide Active, Share;
      Without(w, down, fs[..n], i);
      var rest := fs[..n][..i] + fs[..n][i + 1..];
      assert fs[..i] + fs[i + 1..] == rest + [fs[n]];
      SumOfSnoc(w, rest, fs[n]);
      NumberOfSnoc(down, rest, fs[n]);
    }
  }

  lemma RestsAgree<T>(fs: seq<T>, gs: seq<T>, i: nat)
    requires fs != [] && i < |gs| && multiset(fs) == multiset(gs) && gs[i] == fs[|fs| - 1]
    ensures multiset(fs[..|fs| - 1]) == multiset(gs[..i] + gs[i + 1..])
  {
    var a, b, front := gs[..i], gs[i + 1..], fs[..|fs| - 1];
    assert gs == a + [gs[i]] + b && fs == front + [gs[i]];
    Around(a, gs[i], b);
    Around(front, gs[i], []);
    assert front + [] == front && front + [gs[i]] + [] == fs;
    Cancel(multiset(front), multiset(a + b), gs[i]);
  }

  lemma Around<T>(a: seq<T>, x: T, b: seq<T>)
    ensures multiset(a + [x] + b) == multiset(a + b) + multiset{x}
  {
  }

  lemma Cancel<T>(m: multiset<T>, n: multiset<T>, x: T)
    requires m + multiset{x} == n + multiset{x}
    ensures m == n
  {
    assert m == m + multiset{x} - multiset{x} && n == n + multiset{x} - multiset{x};
  }

  lemma {:induction false} SameRecordsSameSums(w: Which, down: bool, fs: seq<Vector>, gs: seq<Vector>)
    requires multiset(fs) == multiset(gs)
    ensures Sum(w, fs) == Sum(w, gs) && Number(down, fs) == Number(down, gs)
    decreases |fs|
  {
    if fs == [] {
      assert |multiset(gs)| == 0;
    } else {
      var n := |fs| - 1;
      assert fs[n] in multiset(gs);
      var i :| 0 <= i < |gs| && gs[i] == fs[n];
      var rest := gs[..i] + gs[i + 1..];
      RestsAgree(fs, gs, i);
      hide Active, Share;
      SameRecordsSameSums(w, down, fs[..n], rest);
      Without(w, down, gs, i);
    }
  }

  /** The statistics do not depend on the order of the records. */
  lemma OrderIsIrrelevant(fs: seq<Vector>, gs: seq<Vector>)
    requires multiset(fs) == multiset(gs)
    ensures StatsOf(fs) == StatsOf(gs)
  {
    hide Sum, Number, StatsOf;
    forall w ensures Sum(w, fs) == Sum(w, gs) {
      SameRecordsSameSums(w, false, fs, gs);
    }
    SameRecordsSameSums(UlLen, false, fs, gs);
    SameRecordsSameSums(DlLen, true, fs, gs);
    SameSumsSameStats(fs, gs);
  }

  /** Inactive records change nothing, wherever they stand. */
  lemma InactiveIsIgnored(fs: seq<Vector>, i: nat)
    requires i < |fs| && IsInactive(fs[i])
    ensures StatsOf(fs) == StatsOf(fs[..i] + fs[i + 1..])
  {
    var rest := fs[..i] + fs[i + 1..];
    forall w ensures Sum(w, fs) == Sum(w, rest) {
      Without(w, false, fs, i);
    }
    Without(UlLen, false, fs, i);
    Without(DlLen, true, fs, i);
    SameSumsSameStats(fs, rest);
  }

  lemma SameSumsSameStats(fs: seq<Vector>, gs: seq<Vector>)
    requires forall w :: Sum(w, fs) == Sum(w, gs)
    requires Number(false, fs) == Number(false, gs) && Number(true, fs) == Number(true, gs)
    ensures StatsOf(fs) == StatsOf(gs)
  {
    hide Sum, Number, Hundredths;
  }

  lemma {:induction false} SumWithin(w: Which, fs: seq<Vector>, lo: real, hi: real)
    requires forall f | f in fs && Active(IsDownlink(w), f) :: lo <= Value(w, f) <= hi
    ensures Times(lo, Number(IsDownlink(w), fs)) <= Sum(w, fs) <= Times(hi, Number(IsDownlink(w), fs))
  {
    hide Times, Active, Value;
    if fs == [] {
      NoTimes(lo);
      NoTimes(hi);
    } else {
      var front, f := fs[..|fs| - 1], fs[|fs| - 1];
      assert f in fs && forall g | g in front :: g in fs;
      SumWithin(w, front, lo, hi);
      OneMoreTime(lo, Number(IsDownlink(w), front));
      OneMoreTime(hi, Number(IsDownlink(w), front));
    }
  }

  lemma QuotientWithin(lo: real, hi: real, sum: real, n: nat)
    requires n > 0 && Times(lo, n) <= sum <= Times(hi, n)
    ensures lo <= sum / n as real <= hi
  {
  }

  /** An average lies between the values averaged: bounds in hundredths that hold for every active
      record hold for the reported average. */
  lemma AverageWithin(w: Which, fs: seq<Vector>, lo: real, hi: real)
    requires Number(IsDownlink(w), fs) > 0 && Hundredths(lo) == lo && Hundredths(hi) == hi
    requires forall f | f in fs && Active(IsDownlink(w), f) :: lo <= Value(w, f) <= hi
    ensures lo <= Average(w, fs) <= hi
  {
    var n := Number(IsDownlink(w), fs);
    var mean := Sum(w, fs) / n as real;
    assert Average(w, fs) == Hundredths(mean);
    hide *;
    SumWithin(w, fs, lo, hi);
    QuotientWithin(lo, hi, Sum(w, fs), n);
    HundredthsMonotone(lo, mean);
    HundredthsMonotone(mean, hi);
  }

  // ---------------------------------------------------------------- field by field

  /** The records that take part: some uplink traffic and, for the downlink averages, a positive downlink
      rate. */
  function WithUplink(fs: seq<Vector>): seq<Vector> {
    if fs == [] then []
    else
      var f, rest := fs[|fs| - 1], WithUplink(fs[..|fs| - 1]);
      if f.ulLogPPS != 0.0 || f.avgLen != 0.0 || f.newFlowRate != 0.0 then rest + [f] else rest
  }

  function WithDownlink(fs: seq<Vector>): seq<Vector> {
    if fs == [] then []
    else
      var f, rest := fs[|fs| - 1], WithDownlink(fs[..|fs| - 1]);
      if (f.ulLogPPS != 0.0 || f.avgLen != 0.0 || f.newFlowRate != 0.0) && f.dlLogPPS > 0.0 then rest + [f] else rest
  }

  function TotalOf(g: Vector -> real, fs: seq<Vector>): real {
    if fs == [] then 0.0 else TotalOf(g, fs[..|fs| - 1]) + g(fs[|fs| - 1])
  }

  lemma TotalOfSnoc(g: Vector -> real, fs: seq<Vector>, f: Vector)
    ensures TotalOf(g, fs + [f]) == TotalOf(g, fs) + g(f)
  {
    assert (fs + [f])[..|fs|] == fs;
  }

  lemma {:induction false} SumIsTotal(w: Which, g: Vector -> real, fs: seq<Vector>)
    requires forall f :: g(f) == Value(w, f)
    ensures Sum(w, fs) == TotalOf(g, if IsDownlink(w) then WithDownlink(fs) else WithUplink(fs))
  {
    if fs != [] {
      var front, f := fs[..|fs| - 1], fs[|fs| - 1];
      SumIsTotal(w, g, front);
      hide Value, TotalOf;
      if Active(IsDownlink(w), f) {
        TotalOfSnoc(g, if IsDownlink(w) then WithDownlink(front) else WithUplink(front), f);
      }
    }
  }

  lemma {:induction false} NumberIsLength(fs: seq<Vector>)
    ensures Number(false, fs) == |WithUplink(fs)| && Number(true, fs) == |WithDownlink(fs)|
  {
    if fs != [] {
      NumberIsLength(fs[..|fs| - 1]);
    }
  }

  /** The mean of one feature over some records, rounded; 0 over none. */
  function Mean(g: Vector -> real, fs: seq<Vector>): real {
    if fs == [] then 0.0 else Hundredths(TotalOf(g, fs) / |fs| as real)
  }

  lemma AverageIsMean(w: Which, g: Vector -> real, fs: seq<Vector>)
    requires forall f :: g(f) == Value(w, f)
    ensures Average(w, fs) == Mean(g, if IsDownlink(w) then WithDownlink(fs) else WithUplink(fs))
  {
    SumIsTotal(w, g, fs);
    NumberIsLength(fs);
    hide Hundredths, TotalOf, Sum, Number, Value, WithUplink, WithDownlink;
  }

  /** Each statistic is the mean of its own feature: the uplink ones over the records with uplink traffic,
      the downlink ones over those of them with a positive downlink rate. */
  lemma StatsAreMeans(fs: seq<Vector>)
    ensures StatsOf(fs).Some? <==> WithUplink(fs) != []
    ensures StatsOf(fs).Some? ==>
              var g, up, down := StatsOf(fs).value, WithUplink(fs), WithDownlink(fs);
              && g.ulLogPPS == Mean((f: Vector) => f.ulLogPPS, up) && g.newFlowRate == Mean((f: Vector) => f.newFlowRate, up)
              && g.ulLen == Mean((f: Vector) => f.avgLen, up) && g.fanOut == Mean((f: Vector) => f.fanOut, up)
              && g.dlLogPPS == Mean((f: Vector) => f.dlLogPPS, down) && g.dlLen == Mean((f: Vector) => f.dlAvgLen, down)
              && g.ppsRatio == Mean((f: Vector) => f.ppsRatio, down) && g.byteRatio == Mean((f: Vector) => f.byteRatio, down)
  {
    NumberIsLength(fs);
    AverageIsMean(UlLogPPS, (f: Vector) => f.ulLogPPS, fs);
    AverageIsMean(NewFlowRate, (f: Vector) => f.newFlowRate, fs);
    AverageIsMean(UlLen, (f: Vector) => f.avgLen, fs);
    AverageIsMean(FanOut, (f: Vector) => f.fanOut, fs);
    AverageIsMean(DlLogPPS, (f: Vector) => f.dlLogPPS, fs);
    AverageIsMean(DlLen, (f: Vector) => f.dlAvgLen, fs);
    AverageIsMean(PPSRatio, (f: Vector) => f.ppsRatio, fs);
    AverageIsMean(ByteRatio, (f: Vector) => f.byteRatio, fs);
    hide Average, Mean, Number, WithUplink, WithDownlink;
  }
}
