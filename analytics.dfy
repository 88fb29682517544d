/**
 * The per-tick analytics record as the experiment layer and the CSV exporters
 * read it (`EvolutionAnalyticsSnapshot` and its parts), and the step summary.
 * Every figure is a finite number here.
 */
module Analytics {
  import opened Types

  /** `buildTurnoverWindow`'s result as exported. */
  datatype WindowFigures = WindowFigures(startTick: real, endTick: real, size: real)

  /** Count, mean and maximum of a list of durations. */
  datatype DurationFigures = DurationFigures(count: real, mean: real, max: real)

  /**
   * Species or clade turnover over the analytics window. Species and clades share
   * this record, so the species' `speciationsInWindow` and `speciationRate` appear
   * here as `originationsInWindow` and `originationRate`.
   */
  datatype TaxonFigures = TaxonFigures(
    originationsInWindow: real,
    extinctionsInWindow: real,
    originationRate: real,
    extinctionRate: real,
    turnoverRate: real,
    netDiversificationRate: real,
    extinctLifespan: DurationFigures,
    activeAge: DurationFigures)

  /** Mean, spread, range and population-weighted mean of one species trait. */
  datatype TraitFigures = TraitFigures(mean: real, stdDev: real, min: real, max: real, weightedMean: real)

  datatype StrategyFigures = StrategyFigures(
    activeSpecies: real,
    habitatPreference: TraitFigures,
    trophicLevel: TraitFigures,
    defenseLevel: TraitFigures)

  datatype ForcingFigures = ForcingFigures(
    cycleLength: real,
    phase: real,
    wave: real,
    regenMultiplier: real,
    fertilityContrastMultiplier: real)

  datatype DisturbanceFigures = DisturbanceFigures(
    interval: real,
    phaseOffset: real,
    energyLoss: real,
    resourceLoss: real,
    radius: real,
    refugiaFraction: real,
    eventsInWindow: real,
    lastEventTick: real,
    lastEventPopulationShock: real,
    lastEventResourceShock: real,
    lastEventAffectedCellFraction: real,
    lastEventRefugiaCellFraction: real)

  /** `ResilienceAnalytics`. */
  datatype Resilience = Resilience(
    recoveryTicks: real,
    recoveryProgress: real,
    recoveryRelapses: real,
    sustainedRecoveryTicks: real,
    populationTroughDepth: real,
    populationTroughTicks: real,
    delayedPopulationShockDepth: real,
    preDisturbanceTurnoverRate: real,
    postDisturbanceTurnoverRate: real,
    turnoverSpike: real,
    extinctionBurstDepth: real,
    memoryEventCount: real,
    memoryRecoveredEventFraction: real,
    memoryRelapseEventFraction: real,
    memoryStabilityIndexMean: real,
    latestEventSeasonalPhase: real,
    latestEventRecoveryLagTicks: real,
    memoryRecoveryLagTicksMean: real,
    memoryEventPhaseMean: real,
    memoryEventPhaseConcentration: real)

  datatype LocalityFigures = LocalityFigures(
    occupiedCells: real,
    occupiedCellFraction: real,
    meanDominantSpeciesShare: real,
    dominantSpeciesShareStdDev: real,
    meanSpeciesRichness: real)

  datatype TurnoverFigures = TurnoverFigures(
    transitions: real,
    changedDominantCellFractionMean: real,
    changedDominantCellFractionStdDev: real,
    perCellDominantTurnoverMean: real,
    perCellDominantTurnoverStdDev: real,
    perCellDominantTurnoverMax: real)

  datatype RadiusFigures = RadiusFigures(
    radius: real,
    meanDominantSpeciesShare: real,
    dominantSpeciesShareStdDev: real,
    meanSpeciesRichness: real,
    centerDominantAlignment: real)

  /** `EvolutionAnalyticsSnapshot`. */
  datatype Snapshot = Snapshot(
    tick: int,
    window: WindowFigures,
    species: TaxonFigures,
    clades: TaxonFigures,
    strategy: StrategyFigures,
    forcing: ForcingFigures,
    disturbance: DisturbanceFigures,
    resilience: Resilience,
    locality: LocalityFigures,
    localityTurnover: TurnoverFigures,
    localityRadius: RadiusFigures,
    localityRadiusTurnover: TurnoverFigures)

  /** `StepSummary`: what `step` reports for one tick. */
  datatype StepSummary = StepSummary(
    tick: int,
    population: int,
    births: int,
    deaths: int,
    meanEnergy: real,
    meanGenome: Genome,
    activeClades: int,
    activeSpecies: int,
    dominantSpeciesShare: real,
    selectionDifferential: Genome,
    cladeExtinctions: int,
    speciesExtinctions: int,
    cumulativeExtinctClades: int,
    cumulativeExtinctSpecies: int)
}
