/**
 * The CSV exporters: the per-tick metrics table, the one-row experiment
 * aggregate and the per-cell grid-study table, with the series alignment check
 * and the analytics-window normalization.  `String(number)` is the parameter
 * `render`.
 */
module Export {
  import opened Wrappers
  import opened Analytics
  import opened Numbers
  import opened Csv
  import Experiment

  /** `normalizeWindow`: `Math.max(1, Math.floor(value))`, at least 1 and the floor of any value from 1 up. */
  function NormalizeWindow(value: real): (w: int)
    ensures w >= 1
    ensures value >= 1.0 ==> w as real <= value < w as real + 1.0
    ensures value < 1.0 ==> w == 1
  {
    MaxInt(1, value.Floor)
  }

  /** Why a summary series and an analytics series cannot be exported side by side. */
  datatype AlignmentError =
    | LengthMismatch(summaries: nat, analytics: nat)
    | TickMismatch(index: nat, summaryTick: int, analyticsTick: int)

  /** The two series are aligned: equally long, with the same tick at every index. */
  predicate Aligned(summaries: seq<StepSummary>, analytics: seq<Snapshot>)
  {
    |summaries| == |analytics| && forall i :: 0 <= i < |summaries| ==> summaries[i].tick == analytics[i].tick
  }

  /** The first index from `i` on whose ticks differ. */
  function FirstTickMismatch(summaries: seq<StepSummary>, analytics: seq<Snapshot>, i: nat): Outcome<AlignmentError>
    requires |summaries| == |analytics| && i <= |summaries|
    decreases |summaries| - i
  {
    if i == |summaries| then Pass
    else if summaries[i].tick != analytics[i].tick then Fail(TickMismatch(i, summaries[i].tick, analytics[i].tick))
    else FirstTickMismatch(summaries, analytics, i + 1)
  }

  /** What `assertAlignedSeries` does: the length check first, then the first tick that differs. */
  function AlignmentCheck(summaries: seq<StepSummary>, analytics: seq<Snapshot>): Outcome<AlignmentError>
  {
    if |summaries| != |analytics| then Fail(LengthMismatch(|summaries|, |analytics|))
    else FirstTickMismatch(summaries, analytics, 0)
  }

  lemma {:induction false} FirstTickMismatchSpec(summaries: seq<StepSummary>, analytics: seq<Snapshot>, i: nat)
    requires |summaries| == |analytics| && i <= |summaries|
    ensures FirstTickMismatch(summaries, analytics, i).Pass?
            <==> forall j :: i <= j < |summaries| ==> summaries[j].tick == analytics[j].tick
    ensures var o := FirstTickMismatch(summaries, analytics, i);
            o.Fail? ==> && o.error.TickMismatch?
                        && i <= o.error.index < |summaries|
                        && o.error.summaryTick == summaries[o.error.index].tick
                        && o.error.analyticsTick == analytics[o.error.index].tick
                        && o.error.summaryTick != o.error.analyticsTick
                        && forall j :: i <= j < o.error.index ==> summaries[j].tick == analytics[j].tick
    decreases |summaries| - i
  {
    if i < |summaries| && summaries[i].tick == analytics[i].tick {
      FirstTickMismatchSpec(summaries, analytics, i + 1);
    }
  }

  /**
   * The check passes exactly for aligned series; a length mismatch reports both
   * lengths, and otherwise the error names the first index whose ticks differ.
   */
  lemma AlignmentCheckSpec(summaries: seq<StepSummary>, analytics: seq<Snapshot>)
    ensures AlignmentCheck(summaries, analytics).Pass? <==> Aligned(summaries, analytics)
    ensures |summaries| != |analytics|
            ==> AlignmentCheck(summaries, analytics) == Fail(LengthMismatch(|summaries|, |analytics|))
    ensures var o := AlignmentCheck(summaries, analytics);
            o.Fail? && |summaries| == |analytics|
            ==> && o.error.TickMismatch?
                && o.error.index < |summaries|
                && o.error.summaryTick == summaries[o.error.index].tick
                && o.error.analyticsTick == analytics[o.error.index].tick
                && o.error.summaryTick != o.error.analyticsTick
                && forall j :: 0 <= j < o.error.index ==> summaries[j].tick == analytics[j].tick
  {
    if |summaries| == |analytics| {
      FirstTickMismatchSpec(summaries, analytics, 0);
    }
  }

  /** `assertAlignedSeries`: the thrown error becomes a `Fail`. */
  method AssertAlignedSeries(summaries: seq<StepSummary>, analytics: seq<Snapshot>) returns (o: Outcome<AlignmentError>)
    ensures o == AlignmentCheck(summaries, analytics)
  {
    if |summaries| != |analytics| {
      return Fail(LengthMismatch(|summaries|, |analytics|));
    }
    var i := 0;
    while i < |summaries|
      invariant 0 <= i <= |summaries|
      invariant FirstTickMismatch(summaries, analytics, 0) == FirstTickMismatch(summaries, analytics, i)
    {
      if summaries[i].tick != analytics[i].tick {
        return Fail(TickMismatch(i, summaries[i].tick, analytics[i].tick));
      }
      i := i + 1;
    }
    return Pass;
  }

  /** A row of numbers, all finite here, as `toCsvRow` writes it. */
  function NumericRow(fields: seq<real>, render: real -> string): string
  {
    ToCsvRow(seq(|fields|, i requires 0 <= i < |fields| => Num(Finite(fields[i]))), render)
  }

  /** The text of each number, in order. */
  function Rendered(fields: seq<real>, render: real -> string): (texts: seq<string>)
    ensures |texts| == |fields|
    ensures forall i :: 0 <= i < |fields| ==> texts[i] == render(fields[i])
  {
    seq(|fields|, i requires 0 <= i < |fields| => render(fields[i]))
  }

  /** A non-empty numeric row reads back as the rendering of each of its numbers, in order. */
  lemma NumericRowReadsBack(fields: seq<real>, render: real -> string)
    requires |fields| > 0
    ensures ParseRecord(NumericRow(fields, render)) == Rendered(fields, render)
  {
    var values := seq(|fields|, i requires 0 <= i < |fields| => Num(Finite(fields[i])));
    RowRoundTrip(values, render);
    assert forall i :: 0 <= i < |fields| ==> ValueText(values[i], render) == render(fields[i]);
  }

  /**
   * The lines of a table: the header joined with commas, then one numeric row
   * per item, in order.
   */
  function Table<T>(columns: seq<string>, items: seq<T>, fields: T -> seq<real>, render: real -> string): (rows: seq<string>)
    ensures |rows| == |items| + 1 && rows[0] == Join(columns, ",")
    ensures forall i :: 0 <= i < |items| ==> rows[i + 1] == NumericRow(fields(items[i]), render)
  {
    [Join(columns, ",")] + seq(|items|, i requires 0 <= i < |items| => NumericRow(fields(items[i]), render))
  }

  /** Writes a table line by line, as the exporters' `rows.push` loops do. */
  method WriteTable<T>(columns: seq<string>, items: seq<T>, fields: T -> seq<real>, render: real -> string)
    returns (csv: string)
    ensures csv == Document(Table(columns, items, fields, render))
  {
    var rows := [Join(columns, ",")];
    var i := 0;
    while i < |items|
      invariant 0 <= i <= |items|
      invariant rows == Table(columns, items[..i], fields, render)
    {
      assert items[..i + 1] == items[..i] + [items[i]];
      rows := rows + [NumericRow(fields(items[i]), render)];
      i := i + 1;
    }
    assert items[..i] == items;
    csv := Document(rows);
  }

  /**
   * A table whose items all have `width` numbers is its lines, each ended by a
   * line feed; the line after the header that stands for item `i` reads back as
   * the rendered numbers of that item, one per column.
   */
  lemma TableLayout<T>(columns: seq<string>, items: seq<T>, fields: T -> seq<real>, render: real -> string, width: nat)
    requires width > 0
    requires forall i :: 0 <= i < |items| ==> |fields(items[i])| == width
    ensures var rows := Table(columns, items, fields, render);
            && Document(rows) == Terminated(rows)
            && forall i :: 0 <= i < |items| ==> ParseRecord(rows[i + 1]) == Rendered(fields(items[i]), render)
  {
    var rows := Table(columns, items, fields, render);
    DocumentTerminatesRows(rows);
    forall i | 0 <= i < |items|
      ensures ParseRecord(rows[i + 1]) == Rendered(fields(items[i]), render)
    {
      NumericRowReadsBack(fields(items[i]), render);
    }
  }

  /** A header whose names hold no comma, quote or line feed reads back as those names. */
  lemma PlainHeaderReadsBack(columns: seq<string>)
    requires |columns| > 0
    requires forall i :: 0 <= i < |columns| ==> !NeedsQuoting(columns[i])
    ensures ParseRecord(Join(columns, ",")) == columns
  {
    RecordRoundTrip(columns, columns);
  }

  /** `METRICS_CSV_COLUMNS`. */
  const MetricsColumns: seq<string> := [
    "tick",
    "population",
    "births",
    "deaths",
    "mean_energy",
    "mean_metabolism",
    "mean_harvest",
    "mean_aggression",
    "active_clades",
    "active_species",
    "dominant_species_share",
    "selection_diff_metabolism",
    "selection_diff_harvest",
    "selection_diff_aggression",
    "clade_extinctions_step",
    "species_extinctions_step",
    "cumulative_extinct_clades",
    "cumulative_extinct_species",
    "window_start_tick",
    "window_end_tick",
    "window_size",
    "species_speciations_window",
    "species_extinctions_window",
    "species_speciation_rate",
    "species_extinction_rate",
    "species_turnover_rate",
    "species_net_diversification_rate",
    "species_extinct_lifespan_count",
    "species_extinct_lifespan_mean",
    "species_extinct_lifespan_max",
    "species_active_age_count",
    "species_active_age_mean",
    "species_active_age_max",
    "clade_originations_window",
    "clade_extinctions_window",
    "clade_origination_rate",
    "clade_extinction_rate",
    "clade_turnover_rate",
    "clade_net_diversification_rate",
    "clade_extinct_lifespan_count",
    "clade_extinct_lifespan_mean",
    "clade_extinct_lifespan_max",
    "clade_active_age_count",
    "clade_active_age_mean",
    "clade_active_age_max",
    "strategy_active_species",
    "strategy_habitat_preference_mean",
    "strategy_habitat_preference_stddev",
    "strategy_habitat_preference_min",
    "strategy_habitat_preference_max",
    "strategy_habitat_preference_weighted_mean",
    "strategy_trophic_level_mean",
    "strategy_trophic_level_stddev",
    "strategy_trophic_level_min",
    "strategy_trophic_level_max",
    "strategy_trophic_level_weighted_mean",
    "strategy_defense_level_mean",
    "strategy_defense_level_stddev",
    "strategy_defense_level_min",
    "strategy_defense_level_max",
    "strategy_defense_level_weighted_mean",
    "forcing_cycle_length",
    "forcing_phase",
    "forcing_wave",
    "forcing_regen_multiplier",
    "forcing_fertility_contrast_multiplier",
    "disturbance_interval",
    "disturbance_phase_offset",
    "disturbance_energy_loss",
    "disturbance_resource_loss",
    "disturbance_radius",
    "disturbance_refugia_fraction",
    "disturbance_events_window",
    "disturbance_last_event_tick",
    "disturbance_last_population_shock",
    "disturbance_last_resource_shock",
    "disturbance_last_affected_cell_fraction",
    "disturbance_last_refugia_cell_fraction",
    "resilience_recovery_ticks",
    "resilience_recovery_progress",
    "resilience_recovery_relapses",
    "resilience_sustained_recovery_ticks",
    "resilience_population_trough_depth",
    "resilience_population_trough_ticks",
    "resilience_delayed_population_shock_depth",
    "resilience_pre_turnover_rate",
    "resilience_post_turnover_rate",
    "resilience_turnover_spike",
    "resilience_extinction_burst_depth",
    "resilience_memory_event_count",
    "resilience_memory_recovered_event_fraction",
    "resilience_memory_relapse_event_fraction",
    "resilience_memory_stability_index_mean",
    "resilience_latest_event_seasonal_phase",
    "resilience_latest_event_recovery_lag_ticks",
    "resilience_memory_recovery_lag_ticks_mean",
    "resilience_memory_event_phase_mean",
    "resilience_memory_event_phase_concentration",
    "locality_occupied_cells",
    "locality_occupied_cell_fraction",
    "locality_mean_dominant_species_share",
    "locality_dominant_species_share_stddev",
    "locality_mean_species_richness",
    "locality_turnover_transitions",
    "locality_turnover_changed_cell_fraction_mean",
    "locality_turnover_changed_cell_fraction_stddev",
    "locality_turnover_per_cell_mean",
    "locality_turnover_per_cell_stddev",
    "locality_turnover_per_cell_max",
    "locality_radius",
    "locality_radius_mean_dominant_species_share",
    "locality_radius_dominant_species_share_stddev",
    "locality_radius_mean_species_richness",
    "locality_radius_center_dominant_alignment",
    "locality_radius_turnover_transitions",
    "locality_radius_turnover_changed_cell_fraction_mean",
    "locality_radius_turnover_changed_cell_fraction_stddev",
    "locality_radius_turnover_per_cell_mean",
    "locality_radius_turnover_per_cell_stddev",
    "locality_radius_turnover_per_cell_max"
  ]

  lemma MetricsColumnCount()
    ensures |MetricsColumns| == 120
  {
  }

  /** The numbers of one metrics row, in column order: the step summary's, then the analytics snapshot's. */
  function MetricsFields(summary: StepSummary, point: Snapshot): (fields: seq<real>)
    ensures |fields| == 120
  {
    [
      summary.tick as real,
      summary.population as real,
      summary.births as real,
      summary.deaths as real,
      summary.meanEnergy,
      summary.meanGenome.metabolism,
      summary.meanGenome.harvest,
      summary.meanGenome.aggression,
      summary.activeClades as real,
      summary.activeSpecies as real,
      summary.dominantSpeciesShare,
      summary.selectionDifferential.metabolism,
      summary.selectionDifferential.harvest,
      summary.selectionDifferential.aggression,
      summary.cladeExtinctions as real,
      summary.speciesExtinctions as real,
      summary.cumulativeExtinctClades as real,
      summary.cumulativeExtinctSpecies as real,
      point.window.startTick,
      point.window.endTick,
      point.window.size,
      point.species.originationsInWindow,
      point.species.extinctionsInWindow,
      point.species.originationRate,
      point.species.extinctionRate,
      point.species.turnoverRate,
      point.species.netDiversificationRate,
      point.species.extinctLifespan.count,
      point.species.extinctLifespan.mean,
      point.species.extinctLifespan.max,
      point.species.activeAge.count,
      point.species.activeAge.mean,
      point.species.activeAge.max,
      point.clades.originationsInWindow,
      point.clades.extinctionsInWindow,
      point.clades.originationRate,
      point.clades.extinctionRate,
      point.clades.turnoverRate,
      point.clades.netDiversificationRate,
      point.clades.extinctLifespan.count,
      point.clades.extinctLifespan.mean,
      point.clades.extinctLifespan.max,
      point.clades.activeAge.count,
      point.clades.activeAge.mean,
      point.clades.activeAge.max,
      point.strategy.activeSpecies,
      point.strategy.habitatPreference.mean,
      point.strategy.habitatPreference.stdDev,
      point.strategy.habitatPreference.min,
      point.strategy.habitatPreference.max,
      point.strategy.habitatPreference.weightedMean,
      point.strategy.trophicLevel.mean,
      point.strategy.trophicLevel.stdDev,
      point.strategy.trophicLevel.min,
      point.strategy.trophicLevel.max,
      point.strategy.trophicLevel.weightedMean,
      point.strategy.defenseLevel.mean,
      point.strategy.defenseLevel.stdDev,
      point.strategy.defenseLevel.min,
      point.strategy.defenseLevel.max,
      point.strategy.defenseLevel.weightedMean,
      point.forcing.cycleLength,
      point.forcing.phase,
      point.forcing.wave,
      point.forcing.regenMultiplier,
      point.forcing.fertilityContrastMultiplier,
      point.disturbance.interval,
      point.disturbance.phaseOffset,
      point.disturbance.energyLoss,
      point.disturbance.resourceLoss,
      point.disturbance.radius,
      point.disturbance.refugiaFraction,
      point.disturbance.eventsInWindow,
      point.disturbance.lastEventTick,
      point.disturbance.lastEventPopulationShock,
      point.disturbance.lastEventResourceShock,
      point.disturbance.lastEventAffectedCellFraction,
      point.disturbance.lastEventRefugiaCellFraction,
      point.resilience.recoveryTicks,
      point.resilience.recoveryProgress,
      point.resilience.recoveryRelapses,
      point.resilience.sustainedRecoveryTicks,
      point.resilience.populationTroughDepth,
      point.resilience.populationTroughTicks,
      point.resilience.delayedPopulationShockDepth,
      point.resilience.preDisturbanceTurnoverRate,
      point.resilience.postDisturbanceTurnoverRate,
      point.resilience.turnoverSpike,
      point.resilience.extinctionBurstDepth,
      point.resilience.memoryEventCount,
      point.resilience.memoryRecoveredEventFraction,
      point.resilience.memoryRelapseEventFraction,
      point.resilience.memoryStabilityIndexMean,
      point.resilience.latestEventSeasonalPhase,
      point.resilience.latestEventRecoveryLagTicks,
      point.resilience.memoryRecoveryLagTicksMean,
      point.resilience.memoryEventPhaseMean,
      point.resilience.memoryEventPhaseConcentration,
      point.locality.occupiedCells,
      point.locality.occupiedCellFraction,
      point.locality.meanDominantSpeciesShare,
      point.locality.dominantSpeciesShareStdDev,
      point.locality.meanSpeciesRichness,
      point.localityTurnover.transitions,
      point.localityTurnover.changedDominantCellFractionMean,
      point.localityTurnover.changedDominantCellFractionStdDev,
      point.localityTurnover.perCellDominantTurnoverMean,
      point.localityTurnover.perCellDominantTurnoverStdDev,
      point.localityTurnover.perCellDominantTurnoverMax,
      point.localityRadius.radius,
      point.localityRadius.meanDominantSpeciesShare,
      point.localityRadius.dominantSpeciesShareStdDev,
      point.localityRadius.meanSpeciesRichness,
      point.localityRadius.centerDominantAlignment,
      point.localityRadiusTurnover.transitions,
      point.localityRadiusTurnover.changedDominantCellFractionMean,
      point.localityRadiusTurnover.changedDominantCellFractionStdDev,
      point.localityRadiusTurnover.perCellDominantTurnoverMean,
      point.localityRadiusTurnover.perCellDominantTurnoverStdDev,
      point.localityRadiusTurnover.perCellDominantTurnoverMax
    ]
  }

  /** The metrics of one tick, its summary paired with its analytics snapshot. */
  function MetricsRecord(point: (StepSummary, Snapshot)): (fields: seq<real>)
    ensures |fields| == 120
  {
    MetricsFields(point.0, point.1)
  }

  /** The summaries paired index by index with the analytics snapshots. */
  function Zip(summaries: seq<StepSummary>, analytics: seq<Snapshot>): (points: seq<(StepSummary, Snapshot)>)
    requires |summaries| == |analytics|
    ensures |points| == |summaries|
    ensures forall i :: 0 <= i < |points| ==> points[i] == (summaries[i], analytics[i])
  {
    seq(|summaries|, i requires 0 <= i < |summaries| => (summaries[i], analytics[i]))
  }

  /** The metrics table: the header, then one row per tick, joined by line feeds and ended by one. */
  function MetricsCsv(summaries: seq<StepSummary>, analytics: seq<Snapshot>, render: real -> string): string
    requires |summaries| == |analytics|
  {
    Document(Table(MetricsColumns, Zip(summaries, analytics), MetricsRecord, render))
  }

  /**
   * `metricsToCsv`: unaligned series fail with the alignment error; otherwise
   * the header and one row per tick.
   */
  method MetricsToCsv(summaries: seq<StepSummary>, analytics: seq<Snapshot>, render: real -> string)
    returns (r: Result<string, AlignmentError>)
    ensures r.Success? <==> Aligned(summaries, analytics)
    ensures r.Failure? ==> AlignmentCheck(summaries, analytics) == Fail(r.error)
    ensures r.Success? ==> r.value == MetricsCsv(summaries, analytics, render)
  {
    var check := AssertAlignedSeries(summaries, analytics);
    AlignmentCheckSpec(summaries, analytics);
    if check.Fail? {
      return Failure(check.error);
    }
    var csv := WriteTable(MetricsColumns, Zip(summaries, analytics), MetricsRecord, render);
    return Success(csv);
  }

  /**
   * The metrics table has one line per tick after the header line, every line
   * ended by a line feed, and line `i + 1` reads back as the 120 rendered
   * numbers of tick `i`.
   */
  lemma MetricsCsvLayout(summaries: seq<StepSummary>, analytics: seq<Snapshot>, render: real -> string)
    requires |summaries| == |analytics|
    ensures var rows := Table(MetricsColumns, Zip(summaries, analytics), MetricsRecord, render);
            && MetricsCsv(summaries, analytics, render) == Terminated(rows)
            && |rows| == |summaries| + 1
            && forall i :: 0 <= i < |summaries| ==>
                 ParseRecord(rows[i + 1]) == Rendered(MetricsFields(summaries[i], analytics[i]), render)
  {
    TableLayout(MetricsColumns, Zip(summaries, analytics), MetricsRecord, render, 120);
  }

  /** `EXPERIMENT_AGGREGATE_CSV_COLUMNS`. */
  const AggregateColumns: seq<string> := [
    "runs",
    "extinct_runs",
    "extinction_rate",
    "steps_executed_mean",
    "steps_executed_min",
    "steps_executed_max",
    "final_population_mean",
    "final_population_min",
    "final_population_max",
    "final_mean_energy_mean",
    "final_mean_energy_min",
    "final_mean_energy_max",
    "final_active_clades_mean",
    "final_active_clades_min",
    "final_active_clades_max",
    "final_active_species_mean",
    "final_active_species_min",
    "final_active_species_max",
    "final_dominant_species_share_mean",
    "final_dominant_species_share_min",
    "final_dominant_species_share_max",
    "final_species_speciation_rate_mean",
    "final_species_speciation_rate_min",
    "final_species_speciation_rate_max",
    "final_species_extinction_rate_mean",
    "final_species_extinction_rate_min",
    "final_species_extinction_rate_max",
    "final_species_net_diversification_rate_mean",
    "final_species_net_diversification_rate_min",
    "final_species_net_diversification_rate_max",
    "final_resilience_stability_index_mean",
    "final_resilience_stability_index_min",
    "final_resilience_stability_index_max",
    "final_resilience_memory_stability_index_mean",
    "final_resilience_memory_stability_index_min",
    "final_resilience_memory_stability_index_max",
    "final_resilience_relapse_event_fraction_mean",
    "final_resilience_relapse_event_fraction_min",
    "final_resilience_relapse_event_fraction_max"
  ]

  lemma AggregateColumnCount()
    ensures |AggregateColumns| == 39
  {
  }

  /** The numbers of the aggregate row, in column order. */
  function AggregateFields(aggregate: Experiment.ExperimentAggregate): (fields: seq<real>)
    ensures |fields| == 39
    ensures fields[0] == aggregate.runs as real && fields[2] == aggregate.extinctionRate
  {
    [
      aggregate.runs as real,
      aggregate.extinctRuns as real,
      aggregate.extinctionRate,
      aggregate.stepsExecuted.mean,
      aggregate.stepsExecuted.min,
      aggregate.stepsExecuted.max,
      aggregate.finalPopulation.mean,
      aggregate.finalPopulation.min,
      aggregate.finalPopulation.max,
      aggregate.finalMeanEnergy.mean,
      aggregate.finalMeanEnergy.min,
      aggregate.finalMeanEnergy.max,
      aggregate.finalActiveClades.mean,
      aggregate.finalActiveClades.min,
      aggregate.finalActiveClades.max,
      aggregate.finalActiveSpecies.mean,
      aggregate.finalActiveSpecies.min,
      aggregate.finalActiveSpecies.max,
      aggregate.finalDominantSpeciesShare.mean,
      aggregate.finalDominantSpeciesShare.min,
      aggregate.finalDominantSpeciesShare.max,
      aggregate.finalSpeciesSpeciationRate.mean,
      aggregate.finalSpeciesSpeciationRate.min,
      aggregate.finalSpeciesSpeciationRate.max,
      aggregate.finalSpeciesExtinctionRate.mean,
      aggregate.finalSpeciesExtinctionRate.min,
      aggregate.finalSpeciesExtinctionRate.max,
      aggregate.finalSpeciesNetDiversificationRate.mean,
      aggregate.finalSpeciesNetDiversificationRate.min,
      aggregate.finalSpeciesNetDiversificationRate.max,
      aggregate.finalResilienceStabilityIndex.mean,
      aggregate.finalResilienceStabilityIndex.min,
      aggregate.finalResilienceStabilityIndex.max,
      aggregate.finalResilienceMemoryStabilityIndex.mean,
      aggregate.finalResilienceMemoryStabilityIndex.min,
      aggregate.finalResilienceMemoryStabilityIndex.max,
      aggregate.finalResilienceRelapseEventFraction.mean,
      aggregate.finalResilienceRelapseEventFraction.min,
      aggregate.finalResilienceRelapseEventFraction.max
    ]
  }

  /** `experimentAggregateToCsv`: the header line and the single aggregate line. */
  function ExperimentAggregateToCsv(aggregate: Experiment.ExperimentAggregate, render: real -> string): (csv: string)
  {
    Document(Table(AggregateColumns, [aggregate], AggregateFields, render))
  }

  /**
   * The aggregate table is two lines, each ended by a line feed, the second
   * reading back as the 39 rendered numbers.
   */
  lemma AggregateCsvLayout(aggregate: Experiment.ExperimentAggregate, render: real -> string)
    ensures var rows := Table(AggregateColumns, [aggregate], AggregateFields, render);
            && ExperimentAggregateToCsv(aggregate, render) == Terminated(rows)
            && |rows| == 2
            && ParseRecord(rows[1]) == Rendered(AggregateFields(aggregate), render)
  {
    TableLayout(AggregateColumns, [aggregate], AggregateFields, render, 39);
  }

  /** `DISTURBANCE_GRID_STUDY_CSV_COLUMNS`. */
  const GridColumns: seq<string> := [
    "interval",
    "amplitude",
    "phase",
    "global_resilience_stability_mean",
    "local_resilience_stability_mean",
    "global_memory_stability_mean",
    "local_memory_stability_mean",
    "global_relapse_event_fraction_mean",
    "local_relapse_event_fraction_mean",
    "delta_resilience_stability_mean",
    "delta_resilience_stability_min",
    "delta_resilience_stability_max",
    "delta_resilience_stability_positive_fraction",
    "delta_memory_stability_mean",
    "delta_memory_stability_min",
    "delta_memory_stability_max",
    "delta_memory_stability_positive_fraction",
    "relapse_event_reduction_mean",
    "relapse_event_reduction_min",
    "relapse_event_reduction_max",
    "relapse_event_reduction_positive_fraction",
    "turnover_spike_reduction_mean",
    "turnover_spike_reduction_min",
    "turnover_spike_reduction_max",
    "turnover_spike_reduction_positive_fraction",
    "path_dependence_gain_mean",
    "path_dependence_gain_min",
    "path_dependence_gain_max",
    "path_dependence_gain_positive_fraction",
    "global_latest_event_phase_mean",
    "local_latest_event_phase_mean",
    "global_memory_event_phase_concentration_mean",
    "local_memory_event_phase_concentration_mean",
    "latest_recovery_lag_reduction_mean",
    "latest_recovery_lag_reduction_min",
    "latest_recovery_lag_reduction_max",
    "latest_recovery_lag_reduction_positive_fraction",
    "memory_recovery_lag_reduction_mean",
    "memory_recovery_lag_reduction_min",
    "memory_recovery_lag_reduction_max",
    "memory_recovery_lag_reduction_positive_fraction",
    "hypothesis_support"
  ]

  lemma GridColumnCount()
    ensures |GridColumns| == 42
  {
  }

  /** The numbers of one grid-study row, in column order; the hypothesis flag is written as 1 or 0. */
  function GridFields(cell: Experiment.GridCell): (fields: seq<real>)
    ensures |fields| == 42
    ensures fields[41] == 1.0 <==> cell.hypothesisSupport
    ensures fields[41] == 0.0 <==> !cell.hypothesisSupport
  {
    [
      cell.interval as real,
      cell.amplitude,
      cell.phase,
      cell.global.finalResilienceStabilityIndex.mean,
      cell.local.finalResilienceStabilityIndex.mean,
      cell.global.finalResilienceMemoryStabilityIndex.mean,
      cell.local.finalResilienceMemoryStabilityIndex.mean,
      cell.global.finalResilienceRelapseEventFraction.mean,
      cell.local.finalResilienceRelapseEventFraction.mean,
      cell.pairedDeltas.resilienceStabilityDelta.mean,
      cell.pairedDeltas.resilienceStabilityDelta.min,
      cell.pairedDeltas.resilienceStabilityDelta.max,
      cell.pairedDeltas.resilienceStabilityDelta.positiveFraction,
      cell.pairedDeltas.memoryStabilityDelta.mean,
      cell.pairedDeltas.memoryStabilityDelta.min,
      cell.pairedDeltas.memoryStabilityDelta.max,
      cell.pairedDeltas.memoryStabilityDelta.positiveFraction,
      cell.pairedDeltas.relapseEventReduction.mean,
      cell.pairedDeltas.relapseEventReduction.min,
      cell.pairedDeltas.relapseEventReduction.max,
      cell.pairedDeltas.relapseEventReduction.positiveFraction,
      cell.pairedDeltas.turnoverSpikeReduction.mean,
      cell.pairedDeltas.turnoverSpikeReduction.min,
      cell.pairedDeltas.turnoverSpikeReduction.max,
      cell.pairedDeltas.turnoverSpikeReduction.positiveFraction,
      cell.pairedDeltas.pathDependenceGain.mean,
      cell.pairedDeltas.pathDependenceGain.min,
      cell.pairedDeltas.pathDependenceGain.max,
      cell.pairedDeltas.pathDependenceGain.positiveFraction,
      cell.timingDiagnostics.globalLatestEventPhaseMean,
      cell.timingDiagnostics.localLatestEventPhaseMean,
      cell.timingDiagnostics.globalMemoryEventPhaseConcentrationMean,
      cell.timingDiagnostics.localMemoryEventPhaseConcentrationMean,
      cell.pairedDeltas.latestRecoveryLagReduction.mean,
      cell.pairedDeltas.latestRecoveryLagReduction.min,
      cell.pairedDeltas.latestRecoveryLagReduction.max,
      cell.pairedDeltas.latestRecoveryLagReduction.positiveFraction,
      cell.pairedDeltas.memoryRecoveryLagReduction.mean,
      cell.pairedDeltas.memoryRecoveryLagReduction.min,
      cell.pairedDeltas.memoryRecoveryLagReduction.max,
      cell.pairedDeltas.memoryRecoveryLagReduction.positiveFraction,
      (if cell.hypothesisSupport then 1.0 else 0.0)
    ]
  }

  /** The grid-study table: the header, then one row per cell in grid order. */
  function GridCsv(cells: seq<Experiment.GridCell>, render: real -> string): string
  {
    Document(Table(GridColumns, cells, GridFields, render))
  }

  /** `disturbanceGridStudyToCsv`. */
  method DisturbanceGridStudyToCsv(cells: seq<Experiment.GridCell>, render: real -> string) returns (csv: string)
    ensures csv == GridCsv(cells, render)
  {
    csv := WriteTable(GridColumns, cells, GridFields, render);
  }

  /**
   * The grid table has one line per cell after the header line, every line
   * ended by a line feed; line `i + 1` reads back as the 42 numbers of cell `i`,
   * the last being `render(1)` exactly when the cell supports the hypothesis.
   */
  lemma GridCsvLayout(cells: seq<Experiment.GridCell>, render: real -> string)
    ensures var rows := Table(GridColumns, cells, GridFields, render);
            && GridCsv(cells, render) == Terminated(rows)
            && forall i :: 0 <= i < |cells| ==>
                 && ParseRecord(rows[i + 1]) == Rendered(GridFields(cells[i]), render)
                 && |ParseRecord(rows[i + 1])| == 42
                 && ParseRecord(rows[i + 1])[41] == render(if cells[i].hypothesisSupport then 1.0 else 0.0)
  {
    TableLayout(GridColumns, cells, GridFields, render, 42);
  }
}
