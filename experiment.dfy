/**
 * The experiment layer's bookkeeping: the per-run stability figures, the
 * `summarize` aggregate, the pairing of global and local runs, the paired
 * deltas and the grid-study summary.  The simulations themselves are inputs.
 */
module Experiment {
  import opened Wrappers
  import opened Numbers
  import opened Analytics
  import Stats
  import Disturbance

  /** `clampUnitInterval`: the value pulled into [0, 1]. */
  function ClampUnitInterval(value: real): (r: real)
    ensures 0.0 <= r <= 1.0
    ensures 0.0 <= value <= 1.0 ==> r == value
    ensures r == Clamp(value, 0.0, 1.0)
  {
    if value < 0.0 then 0.0 else if value > 1.0 then 1.0 else value
  }

  /**
   * `computeResilienceStabilityIndex`: the same index the engine reports for
   * the latest event, computed from the exported resilience record.
   */
  function ComputeResilienceStabilityIndex(resilience: Resilience): (index: real)
    ensures 0.0 <= index <= 1.0
    ensures index == Disturbance.StabilityIndex(resilience.recoveryProgress, resilience.sustainedRecoveryTicks,
                                                resilience.recoveryRelapses)
  {
    var progress := ClampUnitInterval(resilience.recoveryProgress);
    var sustained := MaxReal(0.0, resilience.sustainedRecoveryTicks);
    var relapses := MaxReal(0.0, resilience.recoveryRelapses);
    assert progress == Clamp(resilience.recoveryProgress, 0.0, 1.0);
    var index := (progress * (sustained + 1.0)) / (sustained + relapses + 1.0);
    assert index == Disturbance.StabilityIndex(resilience.recoveryProgress, resilience.sustainedRecoveryTicks,
                                               resilience.recoveryRelapses);
    index
  }

  /** The three records the stability index is documented with. */
  lemma StabilityIndexExamples(r: Resilience)
    ensures (r.recoveryProgress, r.sustainedRecoveryTicks, r.recoveryRelapses) == (2.0, -2.0, -5.0)
            ==> ComputeResilienceStabilityIndex(r) == 1.0
    ensures (r.recoveryProgress, r.sustainedRecoveryTicks, r.recoveryRelapses) == (-0.5, 4.0, 2.0)
            ==> ComputeResilienceStabilityIndex(r) == 0.0
    ensures (r.recoveryProgress, r.sustainedRecoveryTicks, r.recoveryRelapses) == (1.0, 2.0, 3.0)
            ==> ComputeResilienceStabilityIndex(r) == 0.5
  {
  }

  /** `NumericAggregate`. */
  datatype NumericAggregate = NumericAggregate(mean: real, min: real, max: real)

  /**
   * What `summarize` returns: all zeros for an empty list; otherwise the mean
   * and two elements of the list that bound every element, and the mean.
   */
  function Summary(values: seq<real>): (s: NumericAggregate)
    ensures |values| == 0 ==> s == NumericAggregate(0.0, 0.0, 0.0)
    ensures s.mean == Stats.Mean(values)
    ensures |values| > 0 ==> s.min in values && s.max in values
    ensures forall i :: 0 <= i < |values| ==> s.min <= values[i] <= s.max
    ensures s.min <= s.mean <= s.max
  {
    if |values| == 0 then NumericAggregate(0.0, 0.0, 0.0)
    else
      var lo := Stats.MinOf(values);
      var hi := Stats.MaxOf(values);
      Stats.MeanBounds(values, lo, hi);
      NumericAggregate(Stats.Mean(values), lo, hi)
  }

  /** `summarize`: one pass keeping the running minimum, maximum and total. */
  method Summarize(values: seq<real>) returns (s: NumericAggregate)
    ensures s == Summary(values)
  {
    if |values| == 0 {
      return NumericAggregate(0.0, 0.0, 0.0);
    }
    var lo, hi, total := values[0], values[0], 0.0;
    var i := 0;
    while i < |values|
      invariant 0 <= i <= |values|
      invariant total == Stats.Sum(values[..i])
      invariant i == 0 ==> lo == values[0] && hi == values[0]
      invariant i > 0 ==> lo == Stats.MinOf(values[..i]) && hi == Stats.MaxOf(values[..i])
    {
      var value := values[i];
      assert values[..i + 1][..i] == values[..i];
      if value < lo {
        lo := value;
      }
      if value > hi {
        hi := value;
      }
      total := total + value;
      i := i + 1;
    }
    assert values[..i] == values;
    s := NumericAggregate(total / |values| as real, lo, hi);
  }

  /** A list whose elements lie in [lo, hi] has its whole summary there. */
  lemma SummaryWithin(values: seq<real>, lo: real, hi: real)
    requires |values| > 0
    requires forall i :: 0 <= i < |values| ==> lo <= values[i] <= hi
    ensures lo <= Summary(values).min && Summary(values).max <= hi
    ensures lo <= Summary(values).mean <= hi
  {
    var s := Summary(values);
    var a :| 0 <= a < |values| && values[a] == s.min;
    var b :| 0 <= b < |values| && values[b] == s.max;
  }

  /** How many flags are set: a `reduce` adding 1 per set flag. */
  function CountTrue(flags: seq<bool>): (n: nat)
    ensures n <= |flags|
  {
    if |flags| == 0 then 0
    else CountTrue(flags[..|flags| - 1]) + (if flags[|flags| - 1] then 1 else 0)
  }

  lemma CountTrueSnoc(flags: seq<bool>, b: bool)
    ensures CountTrue(flags + [b]) == CountTrue(flags) + (if b then 1 else 0)
  {
    assert (flags + [b])[..|flags|] == flags;
  }

  /** The count is the number of positions holding a set flag. */
  lemma {:induction false} CountTrueCounts(flags: seq<bool>)
    ensures CountTrue(flags) == |set i | 0 <= i < |flags| && flags[i]|
  {
    if |flags| > 0 {
      var n := |flags| - 1;
      CountTrueCounts(flags[..n]);
      var before := set i | 0 <= i < n && flags[..n][i];
      var now := set i | 0 <= i < |flags| && flags[i];
      assert before == set i | 0 <= i < n && flags[i];
      if flags[n] {
        assert now == before + {n};
      } else {
        assert now == before;
      }
    }
  }

  /** `total === 0 ? 0 : count / total`. */
  function Fraction(count: nat, total: nat): (f: real)
    requires count <= total
    ensures 0.0 <= f <= 1.0
    ensures total == 0 ==> f == 0.0
    ensures total > 0 ==> f * total as real == count as real
  {
    if total == 0 then 0.0
    else
      Stats.DivideBounds(count as real, total as real, 0.0, 1.0);
      count as real / total as real
  }

  /** `ExperimentRunSummary`: one simulated run as the experiment keeps it. */
  datatype RunSummary = RunSummary(
    run: int,
    seed: int,
    stepsExecuted: int,
    extinct: bool,
    finalResilienceStabilityIndex: real,
    finalResilienceMemoryStabilityIndex: real,
    finalResilienceRelapseEventFraction: real,
    finalSummary: StepSummary,
    finalAnalytics: Snapshot)

  /** `config.seed + run * config.seedStep`: the seed of the zero-based run. */
  function RunSeed(seed: int, run: nat, seedStep: int): int
  {
    seed + run * seedStep
  }

  /** With a positive step, later runs get strictly larger seeds, so no two runs share one. */
  lemma RunSeedsIncrease(seed: int, seedStep: int, earlier: nat, later: nat)
    requires seedStep > 0 && earlier < later
    ensures RunSeed(seed, earlier, seedStep) < RunSeed(seed, later, seedStep)
  {
    var gap := later - earlier - 1;
    assert gap * seedStep >= 0;
    assert RunSeed(seed, later, seedStep) == RunSeed(seed, earlier, seedStep) + gap * seedStep + seedStep;
  }

  /**
   * The record `runExperiment` keeps for run `run` (zero-based): numbered from 1,
   * extinct when the last step left no population, the three stability figures
   * taken from the last analytics snapshot and held in [0, 1].
   */
  function RecordRun(run: nat, seed: int, stepsExecuted: nat, finalSummary: StepSummary,
                     finalAnalytics: Snapshot): (r: RunSummary)
    ensures r.run == run + 1 && r.seed == seed && r.stepsExecuted == stepsExecuted
    ensures r.extinct <==> finalSummary.population == 0
    ensures 0.0 <= r.finalResilienceStabilityIndex <= 1.0
    ensures 0.0 <= r.finalResilienceMemoryStabilityIndex <= 1.0
    ensures 0.0 <= r.finalResilienceRelapseEventFraction <= 1.0
    ensures 0.0 <= finalAnalytics.resilience.memoryStabilityIndexMean <= 1.0
            ==> r.finalResilienceMemoryStabilityIndex == finalAnalytics.resilience.memoryStabilityIndexMean
    ensures 0.0 <= finalAnalytics.resilience.memoryRelapseEventFraction <= 1.0
            ==> r.finalResilienceRelapseEventFraction == finalAnalytics.resilience.memoryRelapseEventFraction
    ensures r.finalSummary == finalSummary && r.finalAnalytics == finalAnalytics
  {
    RunSummary(run + 1, seed, stepsExecuted, finalSummary.population == 0,
               ComputeResilienceStabilityIndex(finalAnalytics.resilience),
               ClampUnitInterval(finalAnalytics.resilience.memoryStabilityIndexMean),
               ClampUnitInterval(finalAnalytics.resilience.memoryRelapseEventFraction),
               finalSummary, finalAnalytics)
  }

  /** Why two lists of runs cannot be compared pair by pair. */
  datatype PairingError =
    | MismatchedRuns(globalRuns: nat, localRuns: nat)
    | SeedMismatch(index: nat, globalSeed: int, localSeed: int)

  /** The two lists are paired: as many global runs as local ones, with the same seed at every index. */
  predicate Paired(globalRuns: seq<RunSummary>, localRuns: seq<RunSummary>)
  {
    |globalRuns| == |localRuns| && forall i :: 0 <= i < |globalRuns| ==> globalRuns[i].seed == localRuns[i].seed
  }

  /** The first index from `i` on whose seeds differ, as `ensurePairedRuns` reports it. */
  function FirstSeedMismatch(globalRuns: seq<RunSummary>, localRuns: seq<RunSummary>, i: nat): Outcome<PairingError>
    requires |globalRuns| == |localRuns| && i <= |globalRuns|
    decreases |globalRuns| - i
  {
    if i == |globalRuns| then Pass
    else if globalRuns[i].seed != localRuns[i].seed then Fail(SeedMismatch(i, globalRuns[i].seed, localRuns[i].seed))
    else FirstSeedMismatch(globalRuns, localRuns, i + 1)
  }

  /** What `ensurePairedRuns` does: the count check first, then the first seed that differs. */
  function PairingCheck(globalRuns: seq<RunSummary>, localRuns: seq<RunSummary>): Outcome<PairingError>
  {
    if |globalRuns| != |localRuns| then Fail(MismatchedRuns(|globalRuns|, |localRuns|))
    else FirstSeedMismatch(globalRuns, localRuns, 0)
  }

  /** A search from `i` passes iff the seeds agree from `i` on, and otherwise names the first index where they do not. */
  lemma {:induction false} FirstSeedMismatchSpec(globalRuns: seq<RunSummary>, localRuns: seq<RunSummary>, i: nat)
    requires |globalRuns| == |localRuns| && i <= |globalRuns|
    ensures FirstSeedMismatch(globalRuns, localRuns, i).Pass?
            <==> forall j :: i <= j < |globalRuns| ==> globalRuns[j].seed == localRuns[j].seed
    ensures var o := FirstSeedMismatch(globalRuns, localRuns, i);
            o.Fail? ==> && o.error.SeedMismatch?
                        && i <= o.error.index < |globalRuns|
                        && o.error.globalSeed == globalRuns[o.error.index].seed
                        && o.error.localSeed == localRuns[o.error.index].seed
                        && o.error.globalSeed != o.error.localSeed
                        && forall j :: i <= j < o.error.index ==> globalRuns[j].seed == localRuns[j].seed
    decreases |globalRuns| - i
  {
    if i < |globalRuns| && globalRuns[i].seed == localRuns[i].seed {
      FirstSeedMismatchSpec(globalRuns, localRuns, i + 1);
    }
  }

  /**
   * The pairing check passes exactly for paired lists; a count mismatch reports
   * both counts, and otherwise the error names the first index with different seeds.
   */
  lemma PairingCheckSpec(globalRuns: seq<RunSummary>, localRuns: seq<RunSummary>)
    ensures PairingCheck(globalRuns, localRuns).Pass? <==> Paired(globalRuns, localRuns)
    ensures |globalRuns| != |localRuns|
            ==> PairingCheck(globalRuns, localRuns) == Fail(MismatchedRuns(|globalRuns|, |localRuns|))
    ensures var o := PairingCheck(globalRuns, localRuns);
            o.Fail? && |globalRuns| == |localRuns|
            ==> && o.error.SeedMismatch?
                && o.error.index < |globalRuns|
                && o.error.globalSeed == globalRuns[o.error.index].seed
                && o.error.localSeed == localRuns[o.error.index].seed
                && o.error.globalSeed != o.error.localSeed
                && forall j :: 0 <= j < o.error.index ==> globalRuns[j].seed == localRuns[j].seed
  {
    if |globalRuns| == |localRuns| {
      FirstSeedMismatchSpec(globalRuns, localRuns, 0);
    }
  }

  /** `ensurePairedRuns`: the thrown error becomes a `Fail`. */
  method EnsurePairedRuns(globalRuns: seq<RunSummary>, localRuns: seq<RunSummary>) returns (o: Outcome<PairingError>)
    ensures o == PairingCheck(globalRuns, localRuns)
  {
    if |globalRuns| != |localRuns| {
      return Fail(MismatchedRuns(|globalRuns|, |localRuns|));
    }
    var i := 0;
    while i < |globalRuns|
      invariant 0 <= i <= |globalRuns|
      invariant FirstSeedMismatch(globalRuns, localRuns, 0) == FirstSeedMismatch(globalRuns, localRuns, i)
    {
      if globalRuns[i].seed != localRuns[i].seed {
        return Fail(SeedMismatch(i, globalRuns[i].seed, localRuns[i].seed));
      }
      i := i + 1;
    }
    return Pass;
  }

  /** `PairedDeltaAggregate`: the summary of the paired deltas and the share of them that is positive. */
  datatype PairedDeltaAggregate = PairedDeltaAggregate(mean: real, min: real, max: real, positiveFraction: real)

  /** The delta of every pair, in run order. */
  function Deltas(globalRuns: seq<RunSummary>, localRuns: seq<RunSummary>, delta: (RunSummary, RunSummary) -> real)
    : (d: seq<real>)
    requires |globalRuns| == |localRuns|
    ensures |d| == |globalRuns| && forall i :: 0 <= i < |d| ==> d[i] == delta(globalRuns[i], localRuns[i])
  {
    seq(|globalRuns|, i requires 0 <= i < |globalRuns| => delta(globalRuns[i], localRuns[i]))
  }

  function PositiveFlags(values: seq<real>): seq<bool>
  {
    seq(|values|, i requires 0 <= i < |values| => values[i] > 0.0)
  }

  /** The aggregate `summarizePairedRuns` builds from the deltas. */
  function PairedSummary(values: seq<real>): (p: PairedDeltaAggregate)
    ensures 0.0 <= p.positiveFraction <= 1.0
    ensures p.min <= p.mean <= p.max
    ensures |values| == 0 ==> p == PairedDeltaAggregate(0.0, 0.0, 0.0, 0.0)
  {
    var s := Summary(values);
    PairedDeltaAggregate(s.mean, s.min, s.max, Fraction(CountTrue(PositiveFlags(values)), |values|))
  }

  /** The positive fraction is the number of indices with a positive delta over the number of pairs. */
  lemma PositiveFractionCounts(values: seq<real>)
    requires |values| > 0
    ensures PairedSummary(values).positiveFraction
            == |set i | 0 <= i < |values| && values[i] > 0.0| as real / |values| as real
  {
    var flags := PositiveFlags(values);
    CountTrueCounts(flags);
    assert (set i | 0 <= i < |flags| && flags[i]) == set i | 0 <= i < |values| && values[i] > 0.0;
  }

  /**
   * `summarizePairedRuns`: an unpaired input fails with the pairing error;
   * otherwise the deltas are summarized and their positive share counted.
   */
  method SummarizePairedRuns(globalRuns: seq<RunSummary>, localRuns: seq<RunSummary>,
                             delta: (RunSummary, RunSummary) -> real)
    returns (r: Result<PairedDeltaAggregate, PairingError>)
    ensures r.Success? <==> Paired(globalRuns, localRuns)
    ensures r.Failure? ==> PairingCheck(globalRuns, localRuns) == Fail(r.error)
    ensures r.Success? ==> r.value == PairedSummary(Deltas(globalRuns, localRuns, delta))
  {
    var check := EnsurePairedRuns(globalRuns, localRuns);
    PairingCheckSpec(globalRuns, localRuns);
    if check.Fail? {
      return Failure(check.error);
    }
    var values, positive := CollectDeltas(globalRuns, localRuns, delta);
    var aggregate := Summarize(values);
    r := Success(PairedDeltaAggregate(aggregate.mean, aggregate.min, aggregate.max, Fraction(positive, |values|)));
  }

  /** The loop of `summarizePairedRuns`: every pair's delta in order, counting the positive ones. */
  method CollectDeltas(globalRuns: seq<RunSummary>, localRuns: seq<RunSummary>,
                       delta: (RunSummary, RunSummary) -> real)
    returns (values: seq<real>, positive: nat)
    requires |globalRuns| == |localRuns|
    ensures values == Deltas(globalRuns, localRuns, delta)
    ensures positive == CountTrue(PositiveFlags(values))
  {
    values, positive := [], 0;
    var i := 0;
    while i < |globalRuns|
      invariant 0 <= i <= |globalRuns|
      invariant |values| == i && forall j :: 0 <= j < i ==> values[j] == delta(globalRuns[j], localRuns[j])
      invariant positive == CountTrue(PositiveFlags(values))
    {
      var value := delta(globalRuns[i], localRuns[i]);
      assert PositiveFlags(values + [value]) == PositiveFlags(values) + [value > 0.0];
      CountTrueSnoc(PositiveFlags(values), value > 0.0);
      values := values + [value];
      if value > 0.0 {
        positive := positive + 1;
      }
      i := i + 1;
    }
    assert values == Deltas(globalRuns, localRuns, delta);
  }

  /** `lag < 0 ? stepsExecuted + 1 : lag`: a run that never recovered counts as recovering just after it ended. */
  function ComparableLatestRecoveryLag(run: RunSummary): (lag: real)
    ensures run.finalAnalytics.resilience.latestEventRecoveryLagTicks >= 0.0
            ==> lag == run.finalAnalytics.resilience.latestEventRecoveryLagTicks
    ensures run.finalAnalytics.resilience.latestEventRecoveryLagTicks < 0.0 ==> lag == run.stepsExecuted as real + 1.0
    ensures run.stepsExecuted >= 0 ==> lag >= 0.0
  {
    var lag := run.finalAnalytics.resilience.latestEventRecoveryLagTicks;
    if lag < 0.0 then run.stepsExecuted as real + 1.0 else lag
  }

  /**
   * The mean recovery lag (negative read as 0) plus the unrecovered share of
   * events charged the full run length plus one.
   */
  function ComparableMemoryRecoveryLag(run: RunSummary): (lag: real)
    ensures run.stepsExecuted >= 0
            ==> MaxReal(0.0, run.finalAnalytics.resilience.memoryRecoveryLagTicksMean) <= lag
                <= MaxReal(0.0, run.finalAnalytics.resilience.memoryRecoveryLagTicksMean) + run.stepsExecuted as real + 1.0
    ensures run.finalAnalytics.resilience.memoryRecoveredEventFraction >= 1.0
            ==> lag == MaxReal(0.0, run.finalAnalytics.resilience.memoryRecoveryLagTicksMean)
    ensures run.stepsExecuted >= 0 ==> lag >= 0.0
  {
    var lag := MaxReal(0.0, run.finalAnalytics.resilience.memoryRecoveryLagTicksMean);
    var recoveredFraction := ClampUnitInterval(run.finalAnalytics.resilience.memoryRecoveredEventFraction);
    lag + Penalty(1.0 - recoveredFraction, run.stepsExecuted as real + 1.0)
  }

  /** An unrecovered share in [0, 1] of a length: between 0 and the length when the length is non-negative. */
  function Penalty(share: real, length: real): (p: real)
    requires 0.0 <= share <= 1.0
    ensures length >= 0.0 ==> 0.0 <= p <= length
    ensures share == 0.0 ==> p == 0.0
  {
    PenaltyBounds(share, length);
    share * length
  }

  lemma PenaltyBounds(share: real, length: real)
    requires 0.0 <= share <= 1.0
    ensures length >= 0.0 ==> 0.0 <= share * length <= length
  {
    if length >= 0.0 {
      assert share * length >= 0.0;
      assert (1.0 - share) * length >= 0.0;
    }
  }

  function ResilienceStabilityDelta(g: RunSummary, l: RunSummary): real
  {
    l.finalResilienceStabilityIndex - g.finalResilienceStabilityIndex
  }

  function MemoryStabilityDelta(g: RunSummary, l: RunSummary): real
  {
    l.finalResilienceMemoryStabilityIndex - g.finalResilienceMemoryStabilityIndex
  }

  function RelapseEventReduction(g: RunSummary, l: RunSummary): real
  {
    g.finalResilienceRelapseEventFraction - l.finalResilienceRelapseEventFraction
  }

  function TurnoverSpikeReduction(g: RunSummary, l: RunSummary): real
  {
    g.finalAnalytics.resilience.turnoverSpike - l.finalAnalytics.resilience.turnoverSpike
  }

  /** The memory delta less the immediate delta. */
  function PathDependenceGain(g: RunSummary, l: RunSummary): real
  {
    MemoryStabilityDelta(g, l) - ResilienceStabilityDelta(g, l)
  }

  function LatestRecoveryLagReduction(g: RunSummary, l: RunSummary): real
  {
    ComparableLatestRecoveryLag(g) - ComparableLatestRecoveryLag(l)
  }

  function MemoryRecoveryLagReduction(g: RunSummary, l: RunSummary): real
  {
    ComparableMemoryRecoveryLag(g) - ComparableMemoryRecoveryLag(l)
  }

  /** `DisturbanceGridCellPairedDeltas`. */
  datatype PairedDeltas = PairedDeltas(
    resilienceStabilityDelta: PairedDeltaAggregate,
    memoryStabilityDelta: PairedDeltaAggregate,
    relapseEventReduction: PairedDeltaAggregate,
    turnoverSpikeReduction: PairedDeltaAggregate,
    pathDependenceGain: PairedDeltaAggregate,
    latestRecoveryLagReduction: PairedDeltaAggregate,
    memoryRecoveryLagReduction: PairedDeltaAggregate)

  /** The seven paired summaries of two paired lists of runs. */
  function PairedDeltasOf(globalRuns: seq<RunSummary>, localRuns: seq<RunSummary>): PairedDeltas
    requires |globalRuns| == |localRuns|
  {
    PairedDeltas(
      PairedSummary(Deltas(globalRuns, localRuns, ResilienceStabilityDelta)),
      PairedSummary(Deltas(globalRuns, localRuns, MemoryStabilityDelta)),
      PairedSummary(Deltas(globalRuns, localRuns, RelapseEventReduction)),
      PairedSummary(Deltas(globalRuns, localRuns, TurnoverSpikeReduction)),
      PairedSummary(Deltas(globalRuns, localRuns, PathDependenceGain)),
      PairedSummary(Deltas(globalRuns, localRuns, LatestRecoveryLagReduction)),
      PairedSummary(Deltas(globalRuns, localRuns, MemoryRecoveryLagReduction)))
  }

  /** The mean path-dependence gain is the mean memory delta less the mean immediate delta. */
  lemma PathDependenceGainMean(globalRuns: seq<RunSummary>, localRuns: seq<RunSummary>)
    requires |globalRuns| == |localRuns|
    ensures var d := PairedDeltasOf(globalRuns, localRuns);
            d.pathDependenceGain.mean == d.memoryStabilityDelta.mean - d.resilienceStabilityDelta.mean
  {
    var memory := Deltas(globalRuns, localRuns, MemoryStabilityDelta);
    var immediate := Deltas(globalRuns, localRuns, ResilienceStabilityDelta);
    Stats.MeanOfDifferences(memory, immediate);
    assert Deltas(globalRuns, localRuns, PathDependenceGain)
        == seq(|memory|, i requires 0 <= i < |memory| => memory[i] - immediate[i]);
  }

  /**
   * `summarizeDisturbancePairedDeltas`: all seven summaries of paired runs; an
   * unpaired input fails with the pairing error.
   */
  method SummarizeDisturbancePairedDeltas(globalRuns: seq<RunSummary>, localRuns: seq<RunSummary>)
    returns (r: Result<PairedDeltas, PairingError>)
    ensures r.Success? <==> Paired(globalRuns, localRuns)
    ensures r.Failure? ==> PairingCheck(globalRuns, localRuns) == Fail(r.error)
    ensures r.Success? ==> r.value == PairedDeltasOf(globalRuns, localRuns)
  {
    var resilience := SummarizePairedRuns(globalRuns, localRuns, ResilienceStabilityDelta);
    if resilience.Failure? {
      return Failure(resilience.error);
    }
    var memory := SummarizePairedRuns(globalRuns, localRuns, MemoryStabilityDelta);
    var relapse := SummarizePairedRuns(globalRuns, localRuns, RelapseEventReduction);
    var turnover := SummarizePairedRuns(globalRuns, localRuns, TurnoverSpikeReduction);
    var gain := SummarizePairedRuns(globalRuns, localRuns, PathDependenceGain);
    var latest := SummarizePairedRuns(globalRuns, localRuns, LatestRecoveryLagReduction);
    var memoryLag := SummarizePairedRuns(globalRuns, localRuns, MemoryRecoveryLagReduction);
    r := Success(PairedDeltas(resilience.value, memory.value, relapse.value, turnover.value, gain.value,
                              latest.value, memoryLag.value));
  }

  /** `DisturbanceGridCellTimingDiagnostics`. */
  datatype TimingDiagnostics = TimingDiagnostics(
    globalLatestEventPhaseMean: real,
    localLatestEventPhaseMean: real,
    globalMemoryEventPhaseConcentrationMean: real,
    localMemoryEventPhaseConcentrationMean: real)

  function LatestPhases(runs: seq<RunSummary>): seq<real>
  {
    seq(|runs|, i requires 0 <= i < |runs| => runs[i].finalAnalytics.resilience.latestEventSeasonalPhase)
  }

  function PhaseConcentrations(runs: seq<RunSummary>): seq<real>
  {
    seq(|runs|, i requires 0 <= i < |runs| => runs[i].finalAnalytics.resilience.memoryEventPhaseConcentration)
  }

  /**
   * `summarizeDisturbanceTimingDiagnostics`: after the pairing check, the mean
   * latest-event phase and the mean phase concentration on each side.
   */
  method SummarizeDisturbanceTimingDiagnostics(globalRuns: seq<RunSummary>, localRuns: seq<RunSummary>)
    returns (r: Result<TimingDiagnostics, PairingError>)
    ensures r.Success? <==> Paired(globalRuns, localRuns)
    ensures r.Failure? ==> PairingCheck(globalRuns, localRuns) == Fail(r.error)
    ensures r.Success? ==> r.value == TimingDiagnostics(
                             Stats.Mean(LatestPhases(globalRuns)), Stats.Mean(LatestPhases(localRuns)),
                             Stats.Mean(PhaseConcentrations(globalRuns)), Stats.Mean(PhaseConcentrations(localRuns)))
  {
    var check := EnsurePairedRuns(globalRuns, localRuns);
    PairingCheckSpec(globalRuns, localRuns);
    if check.Fail? {
      return Failure(check.error);
    }
    var globalPhase := Summarize(LatestPhases(globalRuns));
    var localPhase := Summarize(LatestPhases(localRuns));
    var globalConcentration := Summarize(PhaseConcentrations(globalRuns));
    var localConcentration := Summarize(PhaseConcentrations(localRuns));
    r := Success(TimingDiagnostics(globalPhase.mean, localPhase.mean, globalConcentration.mean, localConcentration.mean));
  }

  /** `ExperimentAggregateSummary`. */
  datatype ExperimentAggregate = ExperimentAggregate(
    runs: nat,
    extinctRuns: nat,
    extinctionRate: real,
    stepsExecuted: NumericAggregate,
    finalPopulation: NumericAggregate,
    finalMeanEnergy: NumericAggregate,
    finalActiveClades: NumericAggregate,
    finalActiveSpecies: NumericAggregate,
    finalDominantSpeciesShare: NumericAggregate,
    finalSpeciesSpeciationRate: NumericAggregate,
    finalSpeciesExtinctionRate: NumericAggregate,
    finalSpeciesNetDiversificationRate: NumericAggregate,
    finalResilienceStabilityIndex: NumericAggregate,
    finalResilienceMemoryStabilityIndex: NumericAggregate,
    finalResilienceRelapseEventFraction: NumericAggregate)

  function StabilityIndexOf(run: RunSummary): real
  {
    run.finalResilienceStabilityIndex
  }

  /** One figure of every run (or grid cell), in order: the `map` before each `summarize`. */
  function Figures<T>(items: seq<T>, figure: T -> real): (values: seq<real>)
    ensures |values| == |items| && forall i :: 0 <= i < |items| ==> values[i] == figure(items[i])
  {
    seq(|items|, i requires 0 <= i < |items| => figure(items[i]))
  }

  /** The number of extinct runs: those whose last step left no population. */
  function ExtinctRuns(runs: seq<RunSummary>): (n: nat)
    ensures n <= |runs|
    ensures n == |set i | 0 <= i < |runs| && runs[i].extinct|
  {
    var flags := seq(|runs|, i requires 0 <= i < |runs| => runs[i].extinct);
    CountTrueCounts(flags);
    assert (set i | 0 <= i < |flags| && flags[i]) == set i | 0 <= i < |runs| && runs[i].extinct;
    CountTrue(flags)
  }

  /**
   * `aggregateRuns`: the number of runs, how many went extinct and their
   * share, and the summary of every final figure across the runs.
   */
  function AggregateRuns(runs: seq<RunSummary>): (a: ExperimentAggregate)
    ensures a.runs == |runs| && a.extinctRuns == ExtinctRuns(runs)
    ensures 0.0 <= a.extinctionRate <= 1.0
    ensures |runs| == 0 ==> a.extinctionRate == 0.0
    ensures a.extinctionRate == Fraction(a.extinctRuns, a.runs)
    ensures a.finalResilienceStabilityIndex == Summary(Figures(runs, StabilityIndexOf))
  {
    var extinctRuns := ExtinctRuns(runs);
    ExperimentAggregate(
      |runs|,
      extinctRuns,
      Fraction(extinctRuns, |runs|),
      Summary(Figures(runs, (r: RunSummary) => r.stepsExecuted as real)),
      Summary(Figures(runs, (r: RunSummary) => r.finalSummary.population as real)),
      Summary(Figures(runs, (r: RunSummary) => r.finalSummary.meanEnergy)),
      Summary(Figures(runs, (r: RunSummary) => r.finalSummary.activeClades as real)),
      Summary(Figures(runs, (r: RunSummary) => r.finalSummary.activeSpecies as real)),
      Summary(Figures(runs, (r: RunSummary) => r.finalSummary.dominantSpeciesShare)),
      Summary(Figures(runs, (r: RunSummary) => r.finalAnalytics.species.originationRate)),
      Summary(Figures(runs, (r: RunSummary) => r.finalAnalytics.species.extinctionRate)),
      Summary(Figures(runs, (r: RunSummary) => r.finalAnalytics.species.netDiversificationRate)),
      Summary(Figures(runs, StabilityIndexOf)),
      Summary(Figures(runs, (r: RunSummary) => r.finalResilienceMemoryStabilityIndex)),
      Summary(Figures(runs, (r: RunSummary) => r.finalResilienceRelapseEventFraction)))
  }

  /** Over runs recorded by `RecordRun`, the aggregated stability index stays in [0, 1]. */
  lemma AggregateStabilityInUnitInterval(runs: seq<RunSummary>)
    requires forall i :: 0 <= i < |runs| ==> 0.0 <= runs[i].finalResilienceStabilityIndex <= 1.0
    ensures var s := AggregateRuns(runs).finalResilienceStabilityIndex;
            0.0 <= s.min && s.max <= 1.0 && 0.0 <= s.mean <= 1.0
  {
    if |runs| > 0 {
      SummaryWithin(Figures(runs, StabilityIndexOf), 0.0, 1.0);
    }
  }

  /** `DisturbanceGridCellSummary`: one (interval, amplitude, phase) cell of the grid study. */
  datatype GridCell = GridCell(
    interval: int,
    amplitude: real,
    phase: real,
    global: ExperimentAggregate,
    local: ExperimentAggregate,
    pairedDeltas: PairedDeltas,
    timingDiagnostics: TimingDiagnostics,
    hypothesisSupport: bool)

  /** A cell supports the hypothesis when localized events cut relapses and gain from path dependence. */
  function HypothesisSupport(deltas: PairedDeltas): bool
  {
    deltas.relapseEventReduction.mean > 0.0 && deltas.pathDependenceGain.mean > 0.0
  }

  /**
   * For paired runs, support means fewer relapses under localized events and a
   * memory gain that exceeds the immediate one; with no runs there is no support.
   */
  lemma HypothesisSupportMeaning(globalRuns: seq<RunSummary>, localRuns: seq<RunSummary>)
    requires |globalRuns| == |localRuns|
    ensures var d := PairedDeltasOf(globalRuns, localRuns);
            HypothesisSupport(d)
            <==> d.relapseEventReduction.mean > 0.0 && d.memoryStabilityDelta.mean > d.resilienceStabilityDelta.mean
    ensures |globalRuns| == 0 ==> !HypothesisSupport(PairedDeltasOf(globalRuns, localRuns))
  {
    PathDependenceGainMean(globalRuns, localRuns);
  }

  /** `DisturbanceGridStudySummary`. */
  datatype GridStudySummary = GridStudySummary(
    cells: nat,
    supportedCells: nat,
    supportFraction: real,
    memoryStabilityDelta: NumericAggregate,
    relapseEventReduction: NumericAggregate,
    pathDependenceGain: NumericAggregate,
    latestRecoveryLagReduction: NumericAggregate,
    memoryRecoveryLagReduction: NumericAggregate,
    globalMemoryEventPhaseConcentration: NumericAggregate,
    localMemoryEventPhaseConcentration: NumericAggregate)

  function MemoryStabilityGainOf(cell: GridCell): real
  {
    cell.pairedDeltas.memoryStabilityDelta.mean
  }

  /** The number of cells that support the hypothesis. */
  function SupportedCells(cells: seq<GridCell>): (n: nat)
    ensures n <= |cells|
    ensures n == |set i | 0 <= i < |cells| && cells[i].hypothesisSupport|
  {
    var flags := seq(|cells|, i requires 0 <= i < |cells| => cells[i].hypothesisSupport);
    CountTrueCounts(flags);
    assert (set i | 0 <= i < |flags| && flags[i]) == set i | 0 <= i < |cells| && cells[i].hypothesisSupport;
    CountTrue(flags)
  }

  /**
   * `summarizeDisturbanceGridStudy`: the number of cells, how many support the
   * hypothesis and their share, and the summary of the per-cell means.
   */
  function SummarizeDisturbanceGridStudy(cells: seq<GridCell>): (s: GridStudySummary)
    ensures s.cells == |cells| && s.supportedCells == SupportedCells(cells)
    ensures 0.0 <= s.supportFraction <= 1.0
    ensures |cells| == 0 ==> s.supportedCells == 0 && s.supportFraction == 0.0
    ensures s.supportFraction == Fraction(s.supportedCells, s.cells)
    ensures s.memoryStabilityDelta == Summary(Figures(cells, MemoryStabilityGainOf))
  {
    var supported := SupportedCells(cells);
    GridStudySummary(
      |cells|,
      supported,
      Fraction(supported, |cells|),
      Summary(Figures(cells, MemoryStabilityGainOf)),
      Summary(Figures(cells, (c: GridCell) => c.pairedDeltas.relapseEventReduction.mean)),
      Summary(Figures(cells, (c: GridCell) => c.pairedDeltas.pathDependenceGain.mean)),
      Summary(Figures(cells, (c: GridCell) => c.pairedDeltas.latestRecoveryLagReduction.mean)),
      Summary(Figures(cells, (c: GridCell) => c.pairedDeltas.memoryRecoveryLagReduction.mean)),
      Summary(Figures(cells, (c: GridCell) => c.timingDiagnostics.globalMemoryEventPhaseConcentrationMean)),
      Summary(Figures(cells, (c: GridCell) => c.timingDiagnostics.localMemoryEventPhaseConcentrationMean)))
  }
}
