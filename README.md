# alife core in Dafny

A model of the core of `alife`, an agent-based ecological simulation written in
TypeScript, with proofs about it. A population of agents lives on a wrapping
grid of resource cells. Each agent has a genome, a lineage (clade) and a species.
Every tick the engine does five things:

- it moves, feeds and breeds the agents and resolves the encounters between them;
- it removes the dead;
- it keeps a per-taxon history;
- it records a locality frame (the dominant species of every cell and of its
  neighbourhood);
- it may apply a scheduled disturbance (a shock to resources and energies on part
  of the grid) and track each shock's recovery.

The experiment layer runs seeds side by side, checks that paired runs line up,
and summarises them. The export layer writes the results as CSV.

The model covers:

- **Random** (`rng.dfy`): the xorshift32 generator, as a class over a `bv32`
  state.
- **Grid** (`grid.dfy`): toroidal wrapping with JavaScript's truncating remainder,
  row-major cell indices and the radius neighbourhood walk.
- **Counts** (`counts.dfy`): `countBy` tallies and the merging of tallies.
- **Windows** (`window.dfy`): the trailing analytics window.
- **Locality** and **LocalityTracking** (`locality.dfy`, `locality_tracker.dfy`):
  the per-cell and per-neighbourhood dominant species, the frame recorder and the
  turnover of dominance between frames.
- **TaxonHistory** (`taxon.dfy`): the per-clade and per-species histories, and the
  counts over windows and the durations taken from them.
- **Species** (`species.dfy`): the genome distance, the speciation rule, the
  lazily defaulted species trait tables and the trait inheritance of a new species.
- **Resources** (`resources.dfy`): the resource grid as a 2-D array with clamped
  writes, regeneration, shocks and the recycling of the dead.
- **Population** (`population.dfy`): the age/energy mortality partition and the
  diversity figures.
- **Encounters** (`encounters.dfy`): per-cell encounter resolution, in which the
  dominant agent robs the others.
- **Disturbance** (`disturbance.dfy`): the schedule, the normalisations, the
  choice of targeted and refuge cells, the shock and the event record with its
  recovery state and stability index.
- **Experiment** and **Validation** (`experiment.dfy`, `validation.dfy`): run
  records, seed pairing, paired deltas, aggregates, the grid-study summary and the
  input validators.
- **Csv** and **Export** (`csv.dfy`, `export.dfy`): CSV escaping, rows and
  documents; an RFC 4180 reader used as the reference for round trips; the
  metrics, aggregate and grid-study tables; and the alignment check on exported
  series.

Kinds of values:

- JavaScript numbers are exact reals.
- Where the code distinguishes non-finite values, a number is
  `Number = Finite(value) | NonFinite`.
- Counts, ticks and ids are integers.
- The generator state is a `bv32`.
- The code that changes state step by step is written as classes and methods
  with loops; the code that only computes is written as functions.

## Model

| member | source | states |
|---|---|---|
| `Random.NextNonzero` | src/rng.ts:8-15 | a non-zero xorshift state never steps to 0, so the generator never gets stuck |
| `Random.SeedState` | src/rng.ts:4-6 | the seeded state is never 0; a seed that is 0 modulo 2^32 gives state 1 |
| `Random.Fraction` | src/rng.ts:17-19 | a 32-bit word divided by 2^32 lies in [0, 1) and times 2^32 gives the word back |
| `Random.UnitOf` | src/rng.ts:17-19 | the float drawn from a state lies in [0, 1) |
| `Random.Scaled` | src/rng.ts:21-26 | the scaled draw lies in [0, n) |
| `Random.ScaledIsFloor` | src/rng.ts:25 | `floor(float * n)` equals the exact integer form of the scaled draw |
| `Random.BoundedOf` | src/rng.ts:21-26 | the bounded draw from a state lies in [0, n) |
| `Random.Stream` | src/rng.ts:8-15 | n steps from a state give n words |
| `Random.SwapPermutes` | src/rng.ts:35 | the swap of two slots permutes the values |
| `Random.ShuffleFrom` | src/rng.ts:32-38 | the shuffle reference keeps the length |
| `Random.ShufflePermutes` | src/rng.ts:32-38 | the shuffle result is a permutation of its input |
| `Random.ShuffleDraws` | src/rng.ts:32-38 | shuffling from index i advances the generator exactly i times (none for i <= 0) |
| `Random.Rng.constructor` | src/rng.ts:4-6 | the state is the seeded state, never 0 |
| `Random.Rng.NextU32` | src/rng.ts:8-15 | the state takes one xorshift step and the new state is returned |
| `Random.Rng.Float` | src/rng.ts:17-19 | one step; the result is the new state over 2^32, in [0, 1) |
| `Random.Rng.Int` | src/rng.ts:21-26 | a bound <= 0 fails without touching the state; otherwise one step and a result in [0, bound) |
| `Random.Rng.Pick` | src/rng.ts:28-30 | an empty list fails; otherwise one step and an element of the list at the drawn index |
| `Random.Rng.ShuffleTurn` | src/rng.ts:33-36 | one step, then slot i is swapped with the drawn slot in [0, i] |
| `Random.Rng.Shuffle` | src/rng.ts:32-38 | the array is shuffled in place as the reference prescribes and returned; lists of length <= 1 and the state are untouched |
| `Random.SameSeedSameSequence` | src/rng.ts:1-15 | two generators with equal seeds produce the same words |
| `Grid.JsRem` | src/simulation.ts:1954-1962 | JavaScript's `%`: the sign of the dividend, magnitude below the divisor |
| `Grid.Wrap` | src/simulation.ts:1954-1962 | wrapping lands in [0, size) |
| `Grid.WrapIsMod` | src/simulation.ts:1954-1962 | wrapping equals the mathematical modulo, for negative coordinates too |
| `Grid.CellIndexBounds` | src/simulation.ts:767 | a cell on the grid has a row-major index in [0, width*height) |
| `Grid.CellIndexInverse` | src/simulation.ts:797-798 | the index modulo the width and divided by the width give back x and y |
| `Grid.CellIndexInjective` | src/simulation.ts:1622-1623 | distinct cells have distinct indices |
| `Grid.OffsetIndex` | src/simulation.ts:893-899 | an offset from a centre, wrapped, is a valid cell index |
| `Grid.DedupSpec` | src/simulation.ts:887-904 | the set-based dedup keeps every visited cell once and adds none |
| `Grid.NormalizeRadius` | src/simulation.ts:890 | a negative radius counts as 0 |
| `Grid.RadiusZeroVisits` | src/simulation.ts:887-904 | radius 0 visits only the centre |
| `Grid.CellsWithinRadius` | src/simulation.ts:887-904 | the neighbourhood is duplicate-free, on the grid, holds the wrapped centre and is just the centre for radius <= 0 |
| `Grid.CellsWithinRadiusSpec` | src/simulation.ts:887-904 | the reference neighbourhood has those properties |
| `Grid.CellsWithinRadiusZero` | src/simulation.ts:887-904 | the reference neighbourhood for radius <= 0 is the single centre cell |
| `Grid.CollectCellIndicesWithinRadius` | src/simulation.ts:887-904 | the double loop returns the neighbourhood in visiting order |
| `Grid.VisitRow` | src/simulation.ts:893-900 | the inner loop visits one row of offsets |
| `Grid.VisitCell` | src/simulation.ts:894-899 | one offset is visited: its wrapped index is added when it lies in the ball and is new |
| `Counts.CountAtMostTotal` | src/simulation.ts:846-851 | one species' count never exceeds the total of the tally |
| `Counts.Occurrences` | src/simulation.ts:1847-1854 | a key occurs at most as often as the list is long |
| `Counts.OccurrencesPositive` | src/simulation.ts:1847-1854 | a key is counted exactly when some element has it |
| `Counts.TallyAppend` | src/simulation.ts:1849-1852 | bumping the key of an appended element keeps the tally and adds one to its total |
| `Counts.TallyEmpty` | src/simulation.ts:1847-1854 | a tally is empty exactly when the list is |
| `Counts.TallyPositive` | src/simulation.ts:1847-1854 | every key in a tally has a positive count |
| `Counts.CountBy` | src/simulation.ts:1847-1854 | `countBy` returns the tally of the list by the selector, whose total is the list's length |
| `Counts.AddCounts` | src/simulation.ts:878-880 | merged tallies have the union of the keys and the sum of the counts |
| `Counts.MergeInto` | src/simulation.ts:878-880 | the merge loop adds every count of one tally into the other |
| `Windows.BuildTurnoverWindow` | src/simulation.ts:996-1007 | at tick 0 the window is empty; otherwise it ends at the current tick, starts at tick 1 or later, and is `max(1, floor(size))` long unless it is cut short at tick 1 |
| `Locality.DescribeSpeciesCounts` | src/simulation.ts:838-854 | the description has the total population, the largest count, and a species holding it (the smallest such id when id 0 is absent); an empty tally gives zeros |
| `Locality.DescriptionUnique` | src/simulation.ts:838-854 | when id 0 is absent, the description of a tally is unique, whatever order the loop takes |
| `Locality.DominantWithinTotal` | src/simulation.ts:846-852 | the dominant count never exceeds the total population |
| `Locality.DescribesDominant` | src/simulation.ts:848-851 | the reported dominant species has a count no other species exceeds |
| `Locality.BuildSpeciesCountsByCell` | src/simulation.ts:764-770 | each cell's counts are the species tally of the agents standing on it |
| `Locality.MergeAllKeys` | src/simulation.ts:856-885 | a species is in the merged neighbourhood tally exactly when it is in one of the visited cells |
| `Locality.CollectNeighborhoodSpeciesCounts` | src/simulation.ts:856-885 | the result is the merge of the tallies of the neighbourhood cells |
| `Locality.CollectRow` | src/simulation.ts:867-881 | the inner loop merges the tallies of one row of offsets |
| `Locality.Occupied` | src/simulation.ts:781-793 | the occupied list holds only indices of non-empty cells |
| `Locality.ShareInUnit` | src/simulation.ts:791 | the dominant share of a described tally lies in [0, 1] |
| `Locality.DescribeCells` | src/simulation.ts:781-793 | every cell gets a dominant species of its tally (0 when empty); each occupied cell, in order, gets its richness and a share equal to its dominant species' count over the cell's population |
| `Locality.DescribeNeighborhoods` | src/simulation.ts:795-820 | every cell gets its neighbourhood's dominant species; each occupied cell gets the neighbourhood dominant species' count over the neighbourhood's population, the neighbourhood's richness, and 1 or 0 for whether its own dominant species is that of its neighbourhood |
| `Locality.DescribeNeighborhood` | src/simulation.ts:797-818 | one turn of that loop: afterwards the description above covers every cell up to and including the current one |
| `Locality.ShareIsTallyShare` | src/simulation.ts:811-813 | the share of a tally's description is its dominant species' count over its total, or 0 for an empty tally |
| `Locality.BuildLocalityFrame` | src/simulation.ts:761-832 | the frame is the description of the agents' cells and neighbourhoods at the normalised radius, with every share equal to a dominant count over a population |
| `Locality.NormalizedLocalityRadius` | src/simulation.ts:834-836 | the radius is the floor of a non-negative `localityRadius` (it lies within 1 below it), and 0 for a negative one |
| `LocalityTracking.Transitions` | src/simulation.ts:661-667 | the number of transitions in a tick range is at most the range's length |
| `LocalityTracking.TransitionsCountTicks` | src/simulation.ts:661-667 | transitions are the ticks whose frame and previous frame both exist |
| `LocalityTracking.ChangedCells` | src/simulation.ts:668-674 | at most every cell changes |
| `LocalityTracking.ChangedFractions` | src/simulation.ts:675 | one changed-cell fraction per transition |
| `LocalityTracking.CellChanges` | src/simulation.ts:672 | a cell changes at most once per transition |
| `LocalityTracking.ChangedFractionsInUnit` | src/simulation.ts:675 | every changed-cell fraction lies in [0, 1] |
| `LocalityTracking.CountChangedCells` | src/simulation.ts:669-674 | the cell loop counts the changed cells and bumps each changed cell's counter |
| `LocalityTracking.CountTurnover` | src/simulation.ts:656-676 | the tick loop counts every transition, changed fraction and per-cell change in the window |
| `LocalityTracking.ComputeTurnover` | src/simulation.ts:654-698 | the turnover figures are those of the reference definition |
| `LocalityTracking.Rates` | src/simulation.ts:689 | one rate per cell |
| `LocalityTracking.TurnoverBounds` | src/simulation.ts:678-698 | all turnover fractions and rates lie in [0, 1], and a window without transitions gives zeros |
| `LocalityTracking.TransitionsWithinWindow` | src/simulation.ts:654-676 | a window never holds more transitions than ticks |
| `LocalityTracking.LocalityTracker.constructor` | src/simulation.ts:157 | a tracker starts with no frames |
| `LocalityTracking.LocalityTracker.RecordLocalityFrame` | src/simulation.ts:761-832 | the frame of the current agents is stored at the tick; the other frames stay |
| `LocalityTracking.LocalityTracker.BuildLocalityTurnover` | src/simulation.ts:654-698 | the turnover of the cell-dominant frames over the window |
| `LocalityTracking.LocalityTracker.BuildLocalityRadiusTurnover` | src/simulation.ts:712-759 | the turnover of the neighbourhood-dominant frames, with the normalised radius |
| `TaxonHistory.SeededState` | src/simulation.ts:1126-1136 | a seeded taxon starts at tick 0, with its initial population as births, peak and last population and with one timeline point |
| `TaxonHistory.Seeded` | src/simulation.ts:1122-1138 | seeding covers exactly the initial taxa, none extinct |
| `TaxonHistory.Lookup` | src/simulation.ts:1170-1183 | a known taxon is read back; an unknown one starts empty at the current tick |
| `TaxonHistory.UpdateState` | src/simulation.ts:1185-1203 | births and deaths accumulate, the peak is the running maximum, a timeline point is appended, and extinction is set on the first tick at 0 and cleared by a living population |
| `TaxonHistory.UpdatedShape` | src/simulation.ts:1140-1207 | an update keeps every known taxon, adds the newly seen ones and touches no other |
| `TaxonHistory.UnrecordedAreDormant` | src/simulation.ts:1147-1161 | a known taxon that is skipped is extinct with population 0 and has no count this tick |
| `TaxonHistory.SeedResult` | src/simulation.ts:1122-1138 | seeding keeps the history keyed by id and removes the seeded ids from the extinct set |
| `TaxonHistory.ExtinctIdsReplace` | src/simulation.ts:1192-1200 | replacing one taxon's state changes the extinct count by that taxon's change alone |
| `TaxonHistory.SeedTaxonHistory` | src/simulation.ts:1122-1138 | the seeding loop gives the seeded history |
| `TaxonHistory.UpdateTaxonHistory` | src/simulation.ts:1140-1207 | the update loop gives the updated history and the change in its extinct count |
| `TaxonHistory.TaxonTracker.constructor` | src/simulation.ts:1062-1065 | the tracker starts from the seeded history with no extinctions |
| `TaxonHistory.TaxonTracker.RecordTick` | src/simulation.ts:231-246 | each tick updates the history and keeps the extinct counter equal to the number of extinct taxa |
| `TaxonHistory.CountOriginationsInWindow` | src/simulation.ts:1009-1017 | the number of taxa first seen inside the window |
| `TaxonHistory.CountExtinctionsInWindow` | src/simulation.ts:1019-1027 | the number of taxa that went extinct inside the window |
| `TaxonHistory.ExtinctDurations` | src/simulation.ts:1029-1037 | exactly as many durations as extinct taxa, one per taxon, each from first sight to extinction |
| `TaxonHistory.ActiveDurations` | src/simulation.ts:1039-1047 | exactly as many durations as surviving taxa, one per taxon, each from first sight to the current tick |
| `TaxonHistory.DurationsPartition` | src/simulation.ts:1029-1047 | extinct and active taxa together are the whole history |
| `Species.GenomeDistance` | src/simulation.ts:1976-1982 | the distance is non-negative |
| `Species.GenomeDistanceMetric` | src/simulation.ts:1976-1982 | the distance is 0 exactly for equal genomes, symmetric, and obeys the triangle inequality |
| `Species.ScaledSignal` | src/simulation.ts:1541-1548 | a trait shift is 0 for a non-positive mutation rate and never larger than the rate |
| `Species.ScaledSignalOdd` | src/simulation.ts:1548 | reversing the signal reverses the shift |
| `Species.TraitDeltas` | src/simulation.ts:1540-1571 | each trait shift is bounded by its mutation rate, 0 for a clone, and antisymmetric between parent and child |
| `Species.DefaultInsertionInvisible` | src/simulation.ts:1503-1538 | writing back an entry's defaulted value changes no defaulted lookup |
| `Species.SpeciesTraits.constructor` | src/simulation.ts:1067-1110 | the trait tables start as given, with the next species id |
| `Species.SpeciesTraits.GetSpeciesHabitatPreference` | src/simulation.ts:1503-1510 | returns the stored preference or the default 1, within [0.1, 2], and stores it; the other tables stay |
| `Species.SpeciesTraits.GetSpeciesTrophicLevel` | src/simulation.ts:1522-1529 | returns the stored trophic level or the default 0, within [0, 1], and stores it; the other tables stay |
| `Species.SpeciesTraits.GetSpeciesDefenseLevel` | src/simulation.ts:1531-1538 | returns the stored defence level or the default 0, within [0, 1], and stores it; the other tables stay |
| `Species.SpeciesTraits.AssignChildSpecies` | src/simulation.ts:1439-1452 | a child that has not diverged keeps the parent's species and nothing changes; a diverged child gets the next id, and that species inherits the parent's traits shifted and clamped |
| `Resources.DepositBounds` | src/simulation.ts:1762-1769 | successive clamped deposits never lower a cell and never exceed the capacity |
| `Resources.IndexCell` | src/simulation.ts:1622-1623 | a cell index splits into a column and a row on the grid that give it back |
| `Resources.ScaledAmount` | src/simulation.ts:1225 | a fertility fraction times the capacity is a valid initial amount |
| `Resources.ResourceGrid.constructor` | src/simulation.ts:1223-1227 | the cell with row-major index k gets the capacity times the (k+1)-th float drawn; every cell starts between 0 and the capacity; the generator has advanced once per cell |
| `Resources.InitialAmountAtBounds` | src/simulation.ts:1225 | an initial amount lies in [0, capacity), or is 0 when the capacity is 0 |
| `Resources.ResourceGrid.GetResource` | src/simulation.ts:339-341 | a cell reads between 0 and the capacity |
| `Resources.ResourceGrid.SetResource` | src/simulation.ts:335-337 | the cell becomes the value clamped to [0, capacity] and no other cell changes |
| `Resources.ResourceGrid.RegenerateResources` | src/simulation.ts:1585-1598 | every cell becomes its old amount plus its growth, clamped |
| `Resources.ResourceGrid.ApplyResourceShock` | src/simulation.ts:1619-1626 | affected cells are scaled by one minus the loss, clamped; the others stay; no cell grows |
| `Resources.ResourceGrid.ShockCells` | src/simulation.ts:1620-1626 | every affected cell is scaled by the multiplier and clamped, once; the others stay |
| `Resources.ResourceGrid.ShockCell` | src/simulation.ts:1624 | exactly the indexed cell is scaled and clamped |
| `Resources.ResourceGrid.RecycleDeadAgents` | src/simulation.ts:1754-1771 | every cell receives, in order and clamped, the deposits of the dead agents standing on it |
| `Population.PartitionSplits` | src/simulation.ts:214-222 | survivors and casualties together are the population, as a multiset |
| `Population.PartitionSizes` | src/simulation.ts:214-222 | their sizes add up to the population's size |
| `Population.PartitionSides` | src/simulation.ts:216-221 | every survivor passes the age and energy test and every casualty fails it |
| `Population.PartitionByMortality` | src/simulation.ts:214-224 | the loop returns the survivors and the casualties, in order |
| `Population.DeathsCountTheDead` | src/simulation.ts:254 | the tick's death count is the number of casualties |
| `Population.TallyKeys` | src/simulation.ts:1909-1918 | a species tally's keys are the species present |
| `Population.DiversityMetrics` | src/simulation.ts:1903-1921 | zeros for the empty population; otherwise the clade and species counts and the largest species share, which lies in (0, 1] |
| `Population.LargestCount` | src/simulation.ts:1915 | the loop returns a count of the tally that no other count exceeds |
| `Population.ShareBounds` | src/simulation.ts:1915-1919 | no species' share exceeds the largest one, and that lies in (0, 1] |
| `Encounters.Members` | src/simulation.ts:1397-1408 | the members of a cell are agent indices |
| `Encounters.MembersOfCell` | src/simulation.ts:1397-1408 | the members are the living agents in the cell, in list order |
| `Encounters.HeadAt` | src/simulation.ts:1415-1416 | the head is an agent nobody outranks, ahead of every earlier tie |
| `Encounters.StealRate` | src/simulation.ts:1419-1425 | the rate is non-negative, and positive under positive pressure |
| `Encounters.Share` | src/simulation.ts:1425 | the stolen share of energy is non-negative, and positive for a positive rate |
| `Encounters.Stolen` | src/simulation.ts:1419-1425 | a theft takes between 0 and all of the target's energy, and something when the dominant is nearly as aggressive as the target |
| `Encounters.StolenIgnoresDominantEnergy` | src/simulation.ts:1419-1425 | the amount stolen does not depend on the dominant's own energy |
| `Encounters.Dominant` | src/simulation.ts:1415-1416 | the dominant agent is a member of the cell |
| `Encounters.Resolved` | src/simulation.ts:1396-1433 | resolution changes energies only, agent by agent |
| `Encounters.ResolveEncounters` | src/simulation.ts:1396-1433 | the method computes the reference resolution |
| `Encounters.GroupByCell` | src/simulation.ts:1397-1408 | every living agent is listed under its cell, in order |
| `Encounters.GroupOne` | src/simulation.ts:1400-1407 | one agent is grouped |
| `Encounters.ResolveNextCell` | src/simulation.ts:1410-1432 | one more cell is settled |
| `Encounters.FindDominant` | src/simulation.ts:1415-1416 | the loop finds the head of the sort by energy and aggression |
| `Encounters.ResolveCell` | src/simulation.ts:1411-1431 | in one cell every other member is robbed by the dominant, which gains the sum |
| `Encounters.RobOne` | src/simulation.ts:1419-1430 | one more member is robbed |
| `Encounters.CellEnergyConserved` | src/simulation.ts:1410-1432 | a cell's total energy is unchanged by its encounters |
| `Encounters.DominantIsSortHead` | src/simulation.ts:1415-1416 | the dominant is what the descending sort puts first |
| `Encounters.GainsNonNegative` | src/simulation.ts:1418-1431 | the dominant's gain is non-negative |
| `Encounters.EncounterOutcome` | src/simulation.ts:1396-1433 | the dead and the lone are untouched; the dominant never loses; the others never gain; only the dominant gains |
| `Disturbance.NormalizedInterval` | src/simulation.ts:1820-1822 | the interval is `floor` of the setting when it is at least 1, otherwise 0 (off) |
| `Disturbance.NormalizedPhaseOffset` | src/simulation.ts:1824-1830 | the fractional part of a finite offset, 0 for a non-finite one |
| `Disturbance.PhaseOffsetTick` | src/simulation.ts:1832-1837 | the offset tick lies in [0, interval), 0 when off |
| `Disturbance.SchedulePeriodic` | src/simulation.ts:1812-1818 | a shock tick is a shock tick again one interval later |
| `Disturbance.OneShockPerInterval` | src/simulation.ts:1812-1818 | every interval-long run of ticks holds exactly one shock tick |
| `Disturbance.SameRemainderClose` | src/simulation.ts:1816 | two ticks with the same remainder less than an interval apart are equal |
| `Disturbance.NormalizedRadius` | src/simulation.ts:1839-1841 | the radius is at least -1 (whole grid), `floor` of the setting otherwise |
| `Disturbance.NormalizedRefugia` | src/simulation.ts:1843-1845 | the refuge fraction lies in [0, 1] |
| `Disturbance.AffectedCount` | src/simulation.ts:1690 | no refuges: every targeted cell is hit; any refuge: fewer cells are hit |
| `Disturbance.AllCells` | src/simulation.ts:1675 | the whole-grid target lists every cell once, in order |
| `Disturbance.DistinctCardinality` | src/simulation.ts:1685-1703 | a duplicate-free list has as many elements as its set |
| `Disturbance.BuildDisturbanceCellSets` | src/simulation.ts:1663-1704 | the result and the generator's new state are those of the reference definition from the old state: the draws for the centre, then the shuffle |
| `Disturbance.CellSetsSpec` | src/simulation.ts:1663-1704 | an empty grid gives no cells; it fails, with the error of `int`, only for a grid of positive size but non-positive width; a negative radius targets the whole grid; otherwise the targets are the neighbourhood of the centre drawn as `int(width)`, `int(height)`; the hit cells are targets, as many as the refuge rule says |
| `Disturbance.TargetedShare` | src/simulation.ts:1685-1703 | the hit cells and the generator's new state are those of the reference definition: the first cells of the shuffled targets, after the shuffle's draws |
| `Disturbance.TargetedShareSpec` | src/simulation.ts:1685-1703 | the hit cells are targets, as many as the refuge rule says; with no refuge they are all the targets with no draw; the generator advances one step per shuffle turn, and only when a partial share is shuffled |
| `Disturbance.Living` | src/simulation.ts:1615 | at most every agent is alive |
| `Disturbance.ShockEnergies` | src/simulation.ts:1628-1637 | agents in hit cells have their energy scaled; the others stay |
| `Disturbance.ShockLiving` | src/simulation.ts:1628-1639 | a shock never revives an agent, and kills none when the loss is below 1 |
| `Disturbance.NewEvent` | src/simulation.ts:1643-1660 | a new event starts its minima at the post-shock figures, and is recovered at once exactly when the population was 0 or did not drop |
| `Disturbance.ShockEventRecovered` | src/simulation.ts:1657-1658 | a shock whose loss is below 1 is recovered on its own tick |
| `Disturbance.UpdateEvent` | src/simulation.ts:1706-1732 | a future event is untouched; minima only fall; recovery is set at the first tick back at the pre-shock population, and a fall below it afterwards counts a relapse |
| `Disturbance.UpdatePreservesWellFormed` | src/simulation.ts:1706-1732 | updates keep an event well formed |
| `Disturbance.UpdateTracksLow` | src/simulation.ts:1715-1719 | a new low moves the minimum and its tick |
| `Disturbance.DisturbanceLog.constructor` | src/simulation.ts:159 | the log starts empty |
| `Disturbance.DisturbanceLog.Record` | src/simulation.ts:1643 | a shock appends its event |
| `Disturbance.DisturbanceLog.UpdateDisturbanceEventState` | src/simulation.ts:1706-1732 | every event takes one update step; none is added or dropped |
| `Disturbance.RecoveryLagTicks` | src/simulation.ts:525-530 | -1 exactly for an unrecovered event, otherwise the ticks from shock to recovery |
| `Disturbance.RecoveryStateFor` | src/simulation.ts:532-555 | the recovery progress lies in [0, 1]; an event with no population is fully recovered; otherwise the progress is the population over the pre-shock figure below it and 1 from it upwards; after recovery, the recovery time is the gap to the shock and the sustained time is the ticks since recovery, never negative |
| `Disturbance.StabilityIndex` | src/simulation.ts:584-593 | the index lies in [0, 1], never exceeds the clamped progress and equals it without relapses |
| `Disturbance.StabilityBounds` | src/simulation.ts:584-593 | the unclamped index lies between 0 and the progress |
| `Disturbance.StabilityMonotone` | src/simulation.ts:584-593 | more relapses never raise the index |
| `Stats.MeanBounds` | src/simulation.ts:1856-1862 | the mean of values within bounds lies within them |
| `Stats.MaxOf` | src/experiment.ts:498-499 | the maximum is one of the values and not below any |
| `Stats.MinOf` | src/experiment.ts:498-499 | the minimum is one of the values and not above any |
| `Stats.MeanOfDifferences` | src/experiment.ts:371-388 | the mean of pairwise differences is the difference of the means |
| `Numbers.Clamp` | src/simulation.ts:1965-1967 | inside a non-empty range the result is in the range, a value in it is kept, and the bounds win outside it |
| `Numbers.Trunc` | src/experiment.ts:218 | `Math.trunc` rounds toward zero |
| `Experiment.ClampUnitInterval` | src/experiment.ts:472-480 | the result lies in [0, 1] and a value there is kept |
| `Experiment.ComputeResilienceStabilityIndex` | src/experiment.ts:465-470 | the index lies in [0, 1] and is the engine's stability index |
| `Experiment.StabilityIndexExamples` | src/experiment.ts:465-470 | concrete inputs give the expected clamped indices |
| `Experiment.Summary` | src/experiment.ts:482-503 | zeros for no values; the mean is the mean; minimum and maximum are values bounding every value and the mean |
| `Experiment.Summarize` | src/experiment.ts:482-503 | the loop computes the summary |
| `Experiment.SummaryWithin` | src/experiment.ts:482-503 | values within bounds have a summary within them |
| `Experiment.CountTrueCounts` | src/experiment.ts:380-382 | the count of flags is the number of indices set |
| `Experiment.Fraction` | src/experiment.ts:388 | a count over a total lies in [0, 1] and is 0 for no total |
| `Experiment.RunSeedsIncrease` | src/experiment.ts:59 | later runs get larger seeds |
| `Experiment.RecordRun` | src/experiment.ts:72-82 | a run record numbers the run from 1, is extinct exactly when the population is 0, and carries stability and relapse figures in [0, 1] |
| `Experiment.FirstSeedMismatchSpec` | src/experiment.ts:422-428 | the scan passes exactly when the remaining seeds agree, and otherwise reports the first disagreeing run |
| `Experiment.PairingCheckSpec` | src/experiment.ts:416-429 | pairing passes exactly when the run lists are equally long and seed by seed equal; a length mismatch is reported first |
| `Experiment.EnsurePairedRuns` | src/experiment.ts:416-429 | the loop returns the pairing verdict |
| `Experiment.PairedSummary` | src/experiment.ts:385-389 | the positive fraction lies in [0, 1], the mean between minimum and maximum, and no values give zeros |
| `Experiment.PositiveFractionCounts` | src/experiment.ts:380-388 | the positive fraction is the fraction of positive deltas |
| `Experiment.SummarizePairedRuns` | src/experiment.ts:365-390 | fails exactly on unpaired runs, with the pairing error, and otherwise summarises the deltas |
| `Experiment.CollectDeltas` | src/experiment.ts:371-383 | the loop collects the deltas and counts the positive ones |
| `Experiment.ComparableLatestRecoveryLag` | src/experiment.ts:431-434 | a lag is kept; an unrecovered run counts as one tick past the run; never negative |
| `Experiment.ComparableMemoryRecoveryLag` | src/experiment.ts:436-440 | a fully recovered run keeps its lag; otherwise the unrecovered share adds a penalty; never negative |
| `Experiment.Penalty` | src/experiment.ts:439 | the penalty lies between 0 and the run length, 0 for no unrecovered share |
| `Experiment.PenaltyBounds` | src/experiment.ts:439 | a share of a length lies between 0 and the length |
| `Experiment.PathDependenceGainMean` | src/experiment.ts:325-330 | the mean path-dependence gain is the mean memory gain minus the mean stability gain |
| `Experiment.SummarizeDisturbancePairedDeltas` | src/experiment.ts:297-342 | fails exactly on unpaired runs, and otherwise gives the seven paired summaries |
| `Experiment.SummarizeDisturbanceTimingDiagnostics` | src/experiment.ts:344-363 | fails exactly on unpaired runs, and otherwise summarises the phases and concentrations |
| `Experiment.ExtinctRuns` | src/experiment.ts:443 | the number of extinct runs |
| `Experiment.AggregateRuns` | src/experiment.ts:442-463 | the run count, the extinct count and its rate, and the figure summaries |
| `Experiment.AggregateStabilityInUnitInterval` | src/experiment.ts:459 | the aggregated stability figures lie in [0, 1] |
| `Experiment.HypothesisSupportMeaning` | src/experiment.ts:150-151 | support means a positive mean relapse reduction and a mean memory delta above the mean immediate delta; no runs never support |
| `Experiment.SupportedCells` | src/experiment.ts:393 | the number of supporting cells |
| `Experiment.SummarizeDisturbanceGridStudy` | src/experiment.ts:392-414 | the cell count, the supported count and fraction, and the cell-figure summaries |
| `Validation.ToInteger` | src/experiment.ts:214-219 | non-finite values fail; finite ones are truncated toward zero |
| `Validation.ToPositiveInt` | src/experiment.ts:221-227 | accepts exactly the finite values >= 1, truncated, and names the error otherwise |
| `Validation.ToNonNegativeInt` | src/experiment.ts:229-235 | accepts exactly the finite values > -1, truncated to >= 0, and names the error otherwise |
| `Validation.ToUnitInterval` | src/experiment.ts:244-252 | accepts exactly the finite values in [0, 1], unchanged |
| `Validation.ToPhaseOffset` | src/experiment.ts:261-267 | accepts exactly the finite values and returns their fractional part, in [0, 1) |
| `Validation.NatToString` | src/experiment.ts:241 | an index is written in decimal digits without a leading zero |
| `Validation.NatToStringValue` | src/experiment.ts:241 | the digits read back as the index |
| `Validation.ValidateFromSpec` | src/experiment.ts:237-274 | a list passes exactly when every item does, and the first bad item's error is reported under its indexed name |
| `Validation.ValidateFromAccepts` | src/experiment.ts:237-274 | mapping a list from an index succeeds exactly when every item from there on is accepted |
| `Validation.ValidateFromValues` | src/experiment.ts:237-274 | a successful mapping holds one accepted value per item, in the items' order |
| `Validation.ValidateFromRefuses` | src/experiment.ts:237-274 | a failed mapping reports the error of the first refused item, all earlier items being accepted |
| `Validation.ToPositiveIntList` | src/experiment.ts:237-242 | an empty list fails; otherwise it passes exactly when every item is a positive integer |
| `Validation.ToUnitIntervalList` | src/experiment.ts:254-259 | an empty list fails; otherwise it passes exactly when every item lies in [0, 1] |
| `Validation.ToPhaseOffsetList` | src/experiment.ts:269-274 | an empty list fails; otherwise it passes exactly when every item is finite, and each item becomes its normalised phase offset |
| `Validation.NormalizeConfig` | src/experiment.ts:177-192 | passes exactly when all fields validate; the config is the truncated fields, with seed step 1 and stop-when-extinct true by default; each field's error is reported when the fields before it pass |
| `Validation.NormalizeGridStudyConfig` | src/experiment.ts:194-212 | passes exactly when the base and every list and option validate; the config holds their validated values, with the default phase, radius and refuge fraction; each part's error is reported when the parts before it pass |
| `Validation.ValidateOne` | src/experiment.ts:237-242 | a one-item list validates as its item under the name `name[0]` |
| `Validation.ExampleBaseAccepted` | src/experiment.ts:177-192 | a concrete base configuration is accepted with the defaults filled in |
| `Validation.EmptyIntervalsRefused` | src/experiment.ts:237-240 | an empty interval list is refused |
| `Validation.AmplitudeOutsideUnitIntervalRefused` | src/experiment.ts:248-250 | an amplitude above 1 is refused under its indexed name |
| `Validation.NegativeRadiusRefused` | src/experiment.ts:229-235 | a local radius of -1 is refused with "localRadius must be >= 0" |
| `Validation.EmptyPhasesRefused` | src/experiment.ts:269-272 | an empty phase list is refused |
| `Validation.NonFinitePhaseRefused` | src/experiment.ts:261-264 | a non-finite phase is refused |
| `Csv.NumberToString` | src/export.ts:513-518 | a non-finite number is written as the empty field |
| `Csv.DoubleQuotes` | src/export.ts:524 | doubling quotes never shortens a text |
| `Csv.EscapeCsv` | src/export.ts:520-525 | a field without special characters is kept; any other is quoted with its quotes doubled |
| `Csv.DocumentTerminatesRows` | src/export.ts:384 | a joined document ends every row with a line feed |
| `Csv.QuotedRoundTrip` | src/export.ts:520-525 | a quoted field reads back as its text |
| `Csv.PlainRoundTrip` | src/export.ts:520-522 | a plain field reads back as its text |
| `Csv.FieldRoundTrip` | src/export.ts:520-525 | every escaped field reads back as its text |
| `Csv.RecordRoundTrip` | src/export.ts:507-511 | a row of escaped fields reads back as the field texts |
| `Csv.RowRoundTrip` | src/export.ts:507-525 | a `toCsvRow` row reads back as its values' texts |
| `Export.NormalizeWindow` | src/export.ts:488-490 | the window is at least 1 and `floor` of a setting of 1 or more |
| `Export.FirstTickMismatchSpec` | src/export.ts:498-504 | the scan passes exactly when the remaining ticks agree, otherwise it reports the first mismatch |
| `Export.AlignmentCheckSpec` | src/export.ts:492-505 | the series pass exactly when aligned; a length mismatch reports both lengths, otherwise the first tick mismatch |
| `Export.AssertAlignedSeries` | src/export.ts:492-505 | the loop returns the alignment verdict |
| `Export.NumericRowReadsBack` | src/export.ts:507-511 | a row of finite numbers reads back as their rendered texts |
| `Export.WriteTable` | src/export.ts:251-385 | the row loop writes the table's document |
| `Export.TableLayout` | src/export.ts:251-385 | each data row reads back as its item's rendered fields |
| `Export.PlainHeaderReadsBack` | src/export.ts:253 | a header whose names need no quoting reads back as the names |
| `Export.MetricsColumnCount` | src/export.ts:18-139 | the metrics table has 120 columns |
| `Export.MetricsFields` | src/export.ts:258-380 | a metrics row has 120 fields |
| `Export.MetricsToCsv` | src/export.ts:251-385 | fails exactly on misaligned series, and otherwise writes the metrics table |
| `Export.MetricsCsvLayout` | src/export.ts:251-385 | one row per tick after the header, each reading back as the tick's 120 fields |
| `Export.AggregateColumnCount` | src/export.ts:141-181 | the aggregate table has 39 columns |
| `Export.AggregateFields` | src/export.ts:389-429 | 39 fields, led by the run count, with the extinction rate third |
| `Export.AggregateCsvLayout` | src/export.ts:387-431 | a header and one row that reads back as the aggregate's fields |
| `Export.GridColumnCount` | src/export.ts:183-226 | the grid-study table has 42 columns |
| `Export.GridFields` | src/export.ts:437-480 | 42 fields, the last 1 exactly for a supporting cell and 0 otherwise |
| `Export.DisturbanceGridStudyToCsv` | src/export.ts:433-486 | the row loop writes the grid-study table |
| `Export.GridCsvLayout` | src/export.ts:433-486 | each row reads back as its cell's 42 fields, with the support flag last |

## Left out

- Input and output are parameters or absent: the clock (`Date`), JSON export,
  the command line (`index.ts`), and `String(number)` for finite numbers, which is
  the `render` parameter of the CSV writer.
- Numbers are exact reals: IEEE rounding, `NaN` as distinct from `Infinity`, and
  the transcendental code are not modelled. That code covers seasonal forcing
  (`sin`/`cos`), habitat efficiency (`exp`), `summarizeCircularPhase` (`atan2`,
  `sqrt`) and every standard deviation; those fields are plain reals.
- `step()` as a whole, `processAgentTurn`, `pickDestination`, harvesting, and the
  energy and position part of `reproduce` are not modelled. The model covers the
  step's bookkeeping: mortality, deaths, taxon histories, locality frames,
  encounters, resources, species traits and disturbances.
- `runExperiment`, `runDisturbanceGridStudy` and `withDisturbanceConfig` are not
  modelled, because they orchestrate engine runs. The records they build are
  modelled (`Experiment.RecordRun`, the summaries). The "produced no step data"
  error of `runExperiment` is outside `Experiment.RecordRun`, which receives the
  final summary.
- `buildRunExport` and the JSON exporters are not modelled. Their window and
  alignment checks are modelled (`Export.NormalizeWindow`,
  `Export.AssertAlignedSeries`).
- Agents are values in a sequence, so aliasing of agent objects is not modelled.
  The encounter sort is modelled by its head element, because only the head (the
  dominant agent) is used.
- The iteration order of JavaScript `Map` and `Set` is not modelled: the loops
  over maps take the keys in an unspecified order.
- `Locality.DescribeSpeciesCounts`: the smaller-id tie-break is stated only when
  id 0 is absent, since with id 0 the outcome of the source depends on the
  insertion order.
- `Random.SeedState`: the state is not stated to equal the seed reduced modulo
  2^32. The contract states only that it is non-zero, and 1 for a seed that is 0
  modulo 2^32.
- `Random.NextNonzero`: that the xorshift step is invertible is not proved; only
  that it never reaches 0.
- `Species.SpeciesTraits.constructor`: the constructor receives the initial trait
  tables; the averaging of founders' genomes in the initialisers is not modelled.
- `Export.NormalizeWindow`: non-finite windows lie outside the model's
  real-valued parameter. In the source, `Math.max(1, Math.floor(value))` gives 1
  only for `-Infinity`; it gives `NaN` for `NaN` and `Infinity` for `Infinity`,
  so the "at least 1" promise does not hold there as a window length.
- `Export.TableLayout`: the header is stated as the joined column names. That it reads
  back as the names is proved only in general (`Export.PlainHeaderReadsBack`),
  not for the three concrete headers.
- `Export.MetricsFields`, `Export.AggregateFields` and `Export.GridFields` state
  the field count and a few named fields, not the place of every one of their
  120, 39 and 42 fields.
- `LocalityTracking.ComputeTurnover`: requires at least one cell, as do
  `LocalityTracking.LocalityTracker.Valid` and `Resources.ResourceGrid.Valid`. On
  a grid with no cells the source's `Math.max()` over no per-cell rates is
  `-Infinity`, which lies outside the model's real numbers.
- `Resources.ResourceGrid.constructor`: requires `maxResource >= 0`, as do
  `Resources.ResourceGrid.Valid` and `Resources.InitialAmountAtBounds`. The source
  does not validate the configured cap; with a negative cap a cell would start
  in (cap, 0], and the clamp to [0, cap] has an empty range.
