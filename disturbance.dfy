/**
 * Scheduled disturbances: when a shock fires, which cells it targets and which
 * of those it hits, the event record it leaves, how that record is updated tick
 * by tick while the population recovers, and the recovery figures read from it.
 */
module Disturbance {
  import opened Wrappers
  import opened Numbers
  import opened Types
  import Grid
  import Random

  // ---------------------------------------------------------------------------
  // Schedule
  // ---------------------------------------------------------------------------

  /** `normalizedDisturbanceInterval`: `Math.max(0, Math.floor(interval))`. */
  function NormalizedInterval(disturbanceInterval: real): (n: int)
    ensures n >= 0
    ensures disturbanceInterval >= 1.0 ==> n == disturbanceInterval.Floor
    ensures disturbanceInterval < 1.0 ==> n == 0
  {
    MaxInt(0, disturbanceInterval.Floor)
  }

  /**
   * `normalizedDisturbancePhaseOffset`: 0 for a non-finite offset; otherwise
   * JavaScript's `offset % 1` (which keeps the sign of `offset`), moved into
   * [0, 1) by adding 1 when negative.  That is the fractional part of the offset.
   */
  function NormalizedPhaseOffset(offset: Number): (f: real)
    ensures 0.0 <= f < 1.0
    ensures offset.Finite? ==> f == offset.value - offset.value.Floor as real
    ensures offset.NonFinite? ==> f == 0.0
  {
    if offset.NonFinite? then 0.0
    else
      var wrapped := offset.value - Trunc(offset.value) as real;
      if wrapped < 0.0 then wrapped + 1.0 else wrapped
  }

  /** `normalizedDisturbancePhaseOffsetTick`: the offset as a whole number of ticks into the interval. */
  function PhaseOffsetTick(interval: int, phaseOffset: real): (k: int)
    requires 0.0 <= phaseOffset < 1.0
    ensures interval <= 0 ==> k == 0
    ensures interval > 0 ==> 0 <= k < interval
  {
    if interval <= 0 then 0
    else
      assert phaseOffset * interval as real < interval as real;
      (phaseOffset * interval as real).Floor
  }

  /**
   * `shouldApplyDisturbance`: a shock fires at a positive step tick whose
   * remainder modulo the (positive) interval is the phase-offset tick.
   */
  function ShouldApplyDisturbance(interval: int, phaseOffsetTick: int, stepTick: int): bool
  {
    if interval <= 0 || stepTick <= 0 then false
    else stepTick % interval == phaseOffsetTick
  }

  /** The schedule repeats with the interval. */
  lemma SchedulePeriodic(interval: int, phaseOffsetTick: int, stepTick: int)
    requires interval > 0 && stepTick > 0
    ensures ShouldApplyDisturbance(interval, phaseOffsetTick, stepTick + interval)
            == ShouldApplyDisturbance(interval, phaseOffsetTick, stepTick)
  {
    Grid.DivModUnique(stepTick + interval, stepTick / interval + 1, stepTick % interval, interval);
  }

  /**
   * With the offset inside the interval, every run of `interval` consecutive
   * positive ticks holds exactly one shock.
   */
  lemma OneShockPerInterval(interval: int, phaseOffsetTick: int, start: int)
    requires interval > 0 && 0 <= phaseOffsetTick < interval && start >= 0
    ensures exists t :: start < t <= start + interval && ShouldApplyDisturbance(interval, phaseOffsetTick, t)
    ensures forall t, u ::
              (&& start < t <= start + interval && start < u <= start + interval
               && ShouldApplyDisturbance(interval, phaseOffsetTick, t)
               && ShouldApplyDisturbance(interval, phaseOffsetTick, u)) ==> t == u
  {
    var m := (phaseOffsetTick - start) % interval;
    var q := (phaseOffsetTick - start) / interval;
    var t := if m == 0 then start + interval else start + m;
    assert t == phaseOffsetTick - (if m == 0 then q - 1 else q) * interval;
    Grid.DivModUnique(t, -(if m == 0 then q - 1 else q), phaseOffsetTick, interval);
    assert ShouldApplyDisturbance(interval, phaseOffsetTick, t);
    forall t, u |
      start < t <= start + interval && start < u <= start + interval
      && ShouldApplyDisturbance(interval, phaseOffsetTick, t)
      && ShouldApplyDisturbance(interval, phaseOffsetTick, u)
      ensures t == u
    {
      SameRemainderClose(t, u, interval);
    }
  }

  /** Two numbers less than `interval` apart with the same remainder are equal. */
  lemma SameRemainderClose(t: int, u: int, interval: int)
    requires interval > 0 && t % interval == u % interval
    requires t - interval < u < t + interval
    ensures t == u
  {
    var qt, qu := t / interval, u / interval;
    assert (qt - qu) * interval == t - u;
    if qt - qu >= 1 {
      assert false;
    } else if qt - qu <= -1 {
      assert false;
    }
  }

  // ---------------------------------------------------------------------------
  // Targeted and affected cells
  // ---------------------------------------------------------------------------

  /** `normalizedDisturbanceRadius`: `Math.max(-1, Math.floor(radius))`; -1 means the whole grid. */
  function NormalizedRadius(disturbanceRadius: real): (r: int)
    ensures r >= -1
    ensures disturbanceRadius >= -1.0 ==> r == disturbanceRadius.Floor
  {
    MaxInt(-1, disturbanceRadius.Floor)
  }

  /** `normalizedDisturbanceRefugiaFraction`: the refugia fraction clamped to [0, 1]. */
  function NormalizedRefugia(refugiaFraction: real): (f: real)
    ensures 0.0 <= f <= 1.0
  {
    Clamp(refugiaFraction, 0.0, 1.0)
  }

  /** `Math.max(0, Math.floor(targeted * (1 - refugia)))`: how many targeted cells are hit. */
  function AffectedCount(targeted: nat, refugia: real): (n: nat)
    requires 0.0 <= refugia <= 1.0
    ensures n <= targeted
    ensures refugia == 0.0 ==> n == targeted
    ensures refugia > 0.0 && targeted > 0 ==> n < targeted
  {
    ScaleWithin(targeted as real, 1.0 - refugia);
    MaxInt(0, (targeted as real * (1.0 - refugia)).Floor)
  }

  /** The cells a shock may reach and the cells it hits, as `buildDisturbanceCellSets` returns them. */
  datatype CellSets = CellSets(targeted: seq<int>, affected: set<int>)

  /** The indices 0, 1, ..., n - 1 (`Array.from({ length: n }, (_, i) => i)`). */
  function AllCells(n: nat): (cells: seq<int>)
    ensures |cells| == n
    ensures forall i :: 0 <= i < n ==> cells[i] == i
  {
    seq(n, i => i)
  }

  /** The elements of a list, as a set. */
  function Elements(s: seq<int>): set<int>
  {
    set x | x in s
  }

  /** A list without repetitions counts in each element at most once. */
  lemma {:induction false} DistinctMultiplicity(s: seq<int>, x: int)
    requires Grid.Distinct(s)
    ensures multiset(s)[x] <= 1
  {
    if |s| > 0 {
      var p := s[..|s| - 1];
      assert s == p + [s[|s| - 1]];
      assert Grid.Distinct(p);
      DistinctMultiplicity(p, x);
      if x == s[|s| - 1] {
        assert x !in p;
      }
    }
  }

  /** A rearrangement of a list without repetitions has none either. */
  lemma DistinctPermutation(a: seq<int>, b: seq<int>)
    requires Grid.Distinct(a) && multiset(a) == multiset(b)
    ensures Grid.Distinct(b)
  {
    forall i, j | 0 <= i < j < |b| ensures b[i] != b[j]
    {
      if b[i] == b[j] {
        var x := b[i];
        assert b == b[..i] + [x] + b[i + 1..j] + [x] + b[j + 1..];
        assert multiset(b)[x] >= 2;
        DistinctMultiplicity(a, x);
        assert false;
      }
    }
  }

  /** A list without repetitions has as many elements as its set. */
  lemma {:induction false} DistinctCardinality(s: seq<int>)
    requires Grid.Distinct(s)
    ensures |Elements(s)| == |s|
  {
    if |s| > 0 {
      var p := s[..|s| - 1];
      assert s == p + [s[|s| - 1]];
      assert Grid.Distinct(p);
      DistinctCardinality(p);
      assert s[|s| - 1] !in p;
      assert Elements(s) == Elements(p) + {s[|s| - 1]};
    }
  }

  /** The prefix of a list without repetitions has none either. */
  lemma DistinctPrefix(s: seq<int>, k: nat)
    requires Grid.Distinct(s) && k <= |s|
    ensures Grid.Distinct(s[..k])
  {
  }

  /** What the shock reaches for a given list of targets and refugia fraction, when no draw is needed. */
  predicate AffectsWhole(targeted: seq<int>, refugia: real)
    requires 0.0 <= refugia <= 1.0
  {
    refugia <= 0.0 || AffectedCount(|targeted|, refugia) >= |targeted|
  }

  /** Whether choosing the affected cells needs a shuffle: some, but not all, targets are hit. */
  predicate NeedsShuffle(targeted: seq<int>, refugia: real)
    requires 0.0 <= refugia <= 1.0
  {
    |targeted| > 0 && refugia > 0.0 && 0 < AffectedCount(|targeted|, refugia) < |targeted|
  }

  /**
   * The affected cells of the second half of `buildDisturbanceCellSets`, and the
   * generator state after it, starting from state `st`: no targets give none;
   * no refugia, or a share that rounds up to every target, give all of them; a
   * share that rounds down to nothing gives none; otherwise the first
   * `AffectedCount` elements of `rng.shuffle([...targeted])`.
   */
  function TargetedShareOf(targeted: seq<int>, refugia: real, st: bv32): (r: (set<int>, bv32))
    requires 0.0 <= refugia <= 1.0
  {
    var affectedCount := AffectedCount(|targeted|, refugia);
    if |targeted| == 0 then ({}, st)
    else if refugia <= 0.0 then (Elements(targeted), st)
    else if affectedCount <= 0 then ({}, st)
    else if affectedCount >= |targeted| then (Elements(targeted), st)
    else
      var shuffled := Random.ShuffleFrom(targeted, |targeted| - 1, st);
      (Elements(shuffled.0[..affectedCount]), shuffled.1)
  }

  /**
   * The affected cells are targets, exactly `AffectedCount` of them; all targets
   * are hit without a draw when no refuge is left; and the generator advances by
   * the `|targeted| - 1` draws of the shuffle exactly when one is needed.
   */
  lemma TargetedShareSpec(targeted: seq<int>, refugia: real, st: bv32)
    requires Grid.Distinct(targeted) && 0.0 <= refugia <= 1.0
    ensures var r := TargetedShareOf(targeted, refugia, st);
      && r.0 <= Elements(targeted)
      && |r.0| == AffectedCount(|targeted|, refugia)
      && (AffectsWhole(targeted, refugia) ==> r == (Elements(targeted), st))
      && r.1 == Random.Advance(st, if NeedsShuffle(targeted, refugia) then |targeted| - 1 else 0)
  {
    DistinctCardinality(targeted);
    if NeedsShuffle(targeted, refugia) {
      var affectedCount := AffectedCount(|targeted|, refugia);
      var shuffled := Random.ShuffleFrom(targeted, |targeted| - 1, st).0;
      Random.ShufflePermutes(targeted, |targeted| - 1, st);
      Random.ShuffleDraws(targeted, |targeted| - 1, st);
      DistinctPermutation(targeted, shuffled);
      var chosen := shuffled[..affectedCount];
      DistinctPrefix(shuffled, affectedCount);
      DistinctCardinality(chosen);
      forall x | x in chosen ensures x in targeted
      {
        assert x in multiset(shuffled);
      }
    }
  }

  /**
   * `buildDisturbanceCellSets` from generator state `st`: the result and the
   * state afterwards.  An empty grid gives an empty pair; radius -1 targets the
   * whole grid; otherwise the centre is `(int(width), int(height))`, drawn in
   * that order, and the targets are the cells within the radius of it.  A
   * non-positive width makes the first draw fail.
   */
  ghost function CellSetsOf(width: int, height: int, disturbanceRadius: real, refugiaFraction: real, st: bv32)
    : (r: (Result<CellSets, Random.RngError>, bv32))
  {
    var totalCells := width * height;
    var radius := NormalizedRadius(disturbanceRadius);
    var refugia := NormalizedRefugia(refugiaFraction);
    if totalCells <= 0 then (Success(CellSets([], {})), st)
    else if radius < 0 then
      var share := TargetedShareOf(AllCells(totalCells), refugia, st);
      (Success(CellSets(AllCells(totalCells), share.0)), share.1)
    else if width <= 0 then (Failure(Random.NonPositiveBound), st)
    else
      PositiveFactor(width, height);
      var afterX := Random.Next(st);
      var afterY := Random.Next(afterX);
      var targeted := Grid.CellsWithinRadius(width, height, Random.BoundedOf(afterX, width),
                                             Random.BoundedOf(afterY, height), radius);
      var share := TargetedShareOf(targeted, refugia, afterY);
      (Success(CellSets(targeted, share.0)), share.1)
  }

  lemma PositiveFactor(width: int, height: int)
    requires width * height > 0 && width > 0
    ensures height > 0
  {
  }

  /**
   * What every result of `CellSetsOf` satisfies: the draw fails only for a
   * non-positive width on a non-empty grid with a radius; otherwise the targets
   * are the whole grid or a neighbourhood, without repetitions and on the grid,
   * and the affected cells are `AffectedCount` of them.
   */
  lemma CellSetsSpec(width: int, height: int, disturbanceRadius: real, refugiaFraction: real, st: bv32)
    ensures var r := CellSetsOf(width, height, disturbanceRadius, refugiaFraction, st).0;
      && (r.Failure? ==> width * height > 0 && NormalizedRadius(disturbanceRadius) >= 0 && width <= 0)
      && (width * height <= 0 ==> r == Success(CellSets([], {})))
      && (r.Success? && width * height > 0 ==>
            && Grid.Distinct(r.value.targeted)
            && (NormalizedRadius(disturbanceRadius) < 0 ==> r.value.targeted == AllCells(width * height))
            && (NormalizedRadius(disturbanceRadius) >= 0 ==>
                  width > 0 && height > 0 &&
                  r.value.targeted == Grid.CellsWithinRadius(width, height,
                                                             Random.BoundedOf(Random.Next(st), width),
                                                             Random.BoundedOf(Random.Next(Random.Next(st)), height),
                                                             NormalizedRadius(disturbanceRadius)))
            && Grid.InRange(r.value.targeted, width * height)
            && r.value.affected <= Elements(r.value.targeted)
            && |r.value.affected| == AffectedCount(|r.value.targeted|, NormalizedRefugia(refugiaFraction)))
  {
    var totalCells := width * height;
    var radius := NormalizedRadius(disturbanceRadius);
    var refugia := NormalizedRefugia(refugiaFraction);
    if totalCells > 0 {
      if radius < 0 {
        TargetedShareSpec(AllCells(totalCells), refugia, st);
      } else if width > 0 {
        PositiveFactor(width, height);
        var afterX := Random.Next(st);
        var afterY := Random.Next(afterX);
        var targeted := Grid.CellsWithinRadius(width, height, Random.BoundedOf(afterX, width),
                                               Random.BoundedOf(afterY, height), radius);
        TargetedShareSpec(targeted, refugia, afterY);
      }
    }
  }

  /**
   * `buildDisturbanceCellSets`: the result and the generator state afterwards
   * are those of `CellSetsOf` from the state before, whose properties
   * `CellSetsSpec` states.
   */
  method BuildDisturbanceCellSets(rng: Random.Rng, width: int, height: int, disturbanceRadius: real,
                                  refugiaFraction: real)
    returns (r: Result<CellSets, Random.RngError>)
    requires rng.Valid()
    modifies rng
    ensures rng.Valid()
    ensures (r, rng.state) == CellSetsOf(width, height, disturbanceRadius, refugiaFraction, old(rng.state))
  {
    var totalCells := width * height;
    if totalCells <= 0 {
      return Success(CellSets([], {}));
    }
    var radius := NormalizedRadius(disturbanceRadius);
    var targeted: seq<int>;
    if radius < 0 {
      targeted := AllCells(totalCells);
    } else {
      var cx := rng.Int(width);
      if cx.Failure? {
        return Failure(cx.error);
      }
      PositiveFactor(width, height);
      var cy := rng.Int(height);
      targeted := Grid.CollectCellIndicesWithinRadius(width, height, cx.value, cy.value, radius);
    }
    var refugia := NormalizedRefugia(refugiaFraction);
    var affected := TargetedShare(rng, targeted, refugia);
    return Success(CellSets(targeted, affected));
  }

  /**
   * The second half of `buildDisturbanceCellSets`: the affected cells and the
   * state afterwards are `TargetedShareOf` the targets from the state before.
   */
  method TargetedShare(rng: Random.Rng, targeted: seq<int>, refugia: real) returns (affected: set<int>)
    requires rng.Valid() && 0.0 <= refugia <= 1.0
    modifies rng
    ensures rng.Valid()
    ensures (affected, rng.state) == TargetedShareOf(targeted, refugia, old(rng.state))
  {
    if |targeted| == 0 {
      return {};
    }
    if refugia <= 0.0 {
      return Elements(targeted);
    }
    var affectedCount := AffectedCount(|targeted|, refugia);
    if affectedCount <= 0 {
      return {};
    }
    if affectedCount >= |targeted| {
      return Elements(targeted);
    }
    var cells := new int[|targeted|](i requires 0 <= i < |targeted| => targeted[i]);
    assert cells[..] == targeted;
    var _ := rng.Shuffle(cells);
    affected := Elements(cells[..affectedCount]);
  }

  // ---------------------------------------------------------------------------
  // The energy shock and the event it records
  // ---------------------------------------------------------------------------

  /** `agents.filter((agent) => agent.energy > 0).length`. */
  function Living(agents: seq<Agent>): (n: nat)
    ensures n <= |agents|
  {
    if |agents| == 0 then 0
    else Living(agents[..|agents| - 1]) + (if agents[|agents| - 1].energy > 0.0 then 1 else 0)
  }

  /** One agent after the energy shock: an agent in an affected cell keeps `1 - energyLoss` of its energy. */
  function ShockAgent(a: Agent, affected: set<int>, width: int, energyLoss: real): Agent
  {
    if a.y * width + a.x in affected then a.(energy := a.energy * (1.0 - energyLoss)) else a
  }

  /** Every agent after the energy shock of `applyDisturbanceIfScheduled`. */
  function ShockEnergies(agents: seq<Agent>, affected: set<int>, width: int, energyLoss: real)
    : (shocked: seq<Agent>)
    ensures |shocked| == |agents|
    ensures forall i :: 0 <= i < |agents| ==> shocked[i] == ShockAgent(agents[i], affected, width, energyLoss)
  {
    seq(|agents|, i requires 0 <= i < |agents| => ShockAgent(agents[i], affected, width, energyLoss))
  }

  /**
   * A loss in [0, 1] never brings an agent back to life, so the shock cannot
   * raise the living population; a loss below 1 kills nobody.
   */
  lemma {:induction false} ShockLiving(agents: seq<Agent>, affected: set<int>, width: int, energyLoss: real)
    requires 0.0 <= energyLoss <= 1.0
    ensures Living(ShockEnergies(agents, affected, width, energyLoss)) <= Living(agents)
    ensures energyLoss < 1.0 ==> Living(ShockEnergies(agents, affected, width, energyLoss)) == Living(agents)
  {
    if |agents| > 0 {
      var p := agents[..|agents| - 1];
      var shocked := ShockEnergies(agents, affected, width, energyLoss);
      assert shocked[..|agents| - 1] == ShockEnergies(p, affected, width, energyLoss);
      ShockLiving(p, affected, width, energyLoss);
      var a, b := agents[|agents| - 1], shocked[|agents| - 1];
      assert b == ShockAgent(a, affected, width, energyLoss);
      if a.y * width + a.x in affected {
        assert b.energy == a.energy * (1.0 - energyLoss);
        if a.energy > 0.0 && energyLoss < 1.0 {
          assert b.energy > 0.0;
        }
        if a.energy <= 0.0 {
          assert b.energy <= 0.0;
        }
      } else {
        assert b == a;
      }
    }
  }

  /** `DisturbanceEventState`: one shock and what has been seen since. */
  datatype DisturbanceEvent = DisturbanceEvent(
    tick: int,
    populationBefore: nat,
    populationAfterShock: nat,
    activeSpeciesBefore: nat,
    activeSpeciesAfterShock: nat,
    totalResourcesBefore: real,
    totalResourcesAfterShock: real,
    targetedCells: nat,
    affectedCells: nat,
    totalCells: int,
    minPopulationSinceEvent: nat,
    minPopulationTickSinceEvent: int,
    minActiveSpeciesSinceEvent: nat,
    recoveryTick: Option<int>,
    recoveryRelapses: nat)

  /**
   * The record pushed for a shock at `stepTick`: the lows start at the
   * post-shock figures, no relapse yet, and the event counts as recovered at
   * once exactly when there was nobody to lose or nobody was lost.
   */
  function NewEvent(stepTick: int, populationBefore: nat, populationAfterShock: nat, activeSpeciesBefore: nat,
                    activeSpeciesAfterShock: nat, totalResourcesBefore: real, totalResourcesAfterShock: real,
                    targetedCells: nat, affectedCells: nat, totalCells: int): (e: DisturbanceEvent)
    ensures e.tick == stepTick && e.recoveryRelapses == 0
    ensures e.minPopulationSinceEvent == populationAfterShock && e.minPopulationTickSinceEvent == stepTick
    ensures e.minActiveSpeciesSinceEvent == activeSpeciesAfterShock
    ensures e.recoveryTick.Some? <==> populationBefore == 0 || populationAfterShock >= populationBefore
    ensures e.recoveryTick.Some? ==> e.recoveryTick.value == stepTick
    ensures WellFormed(e)
  {
    DisturbanceEvent(stepTick, populationBefore, populationAfterShock, activeSpeciesBefore,
                     activeSpeciesAfterShock, totalResourcesBefore, totalResourcesAfterShock, targetedCells,
                     affectedCells, totalCells, populationAfterShock, stepTick, activeSpeciesAfterShock,
                     if populationBefore <= 0 || populationAfterShock >= populationBefore then Some(stepTick)
                     else None,
                     0)
  }

  /**
   * An event recorded after an energy shock with a loss in [0, 1] counts as
   * recovered at once exactly when the shock killed nobody (or nobody lived).
   */
  lemma ShockEventRecovered(e: DisturbanceEvent, agents: seq<Agent>, affected: set<int>, width: int,
                            energyLoss: real, stepTick: int, activeBefore: nat, activeAfter: nat,
                            resourcesBefore: real, resourcesAfter: real, targetedCells: nat,
                            affectedCells: nat, totalCells: int)
    requires 0.0 <= energyLoss <= 1.0
    requires e == NewEvent(stepTick, Living(agents), Living(ShockEnergies(agents, affected, width, energyLoss)),
                           activeBefore, activeAfter, resourcesBefore, resourcesAfter, targetedCells,
                           affectedCells, totalCells)
    ensures e.recoveryTick.Some? <==> e.populationAfterShock == e.populationBefore
    ensures energyLoss < 1.0 ==> e.recoveryTick == Some(stepTick)
  {
    ShockLiving(agents, affected, width, energyLoss);
  }

  /**
   * The invariant every recorded event keeps: the lows never exceed the
   * post-shock figures and are never dated before the shock, a recovery is
   * never dated before the shock, and an event with nobody alive beforehand
   * stays recovered from its own tick with no relapses.
   */
  ghost predicate WellFormed(e: DisturbanceEvent)
  {
    && e.minPopulationSinceEvent <= e.populationAfterShock
    && e.minActiveSpeciesSinceEvent <= e.activeSpeciesAfterShock
    && e.minPopulationTickSinceEvent >= e.tick
    && (e.recoveryTick.Some? ==> e.recoveryTick.value >= e.tick)
    && (e.populationBefore == 0 ==> e.recoveryTick == Some(e.tick) && e.recoveryRelapses == 0)
  }

  /** The fields a tick's update never touches. */
  predicate SameShock(e: DisturbanceEvent, r: DisturbanceEvent)
  {
    && r.tick == e.tick
    && r.populationBefore == e.populationBefore
    && r.populationAfterShock == e.populationAfterShock
    && r.activeSpeciesBefore == e.activeSpeciesBefore
    && r.activeSpeciesAfterShock == e.activeSpeciesAfterShock
    && r.totalResourcesBefore == e.totalResourcesBefore
    && r.totalResourcesAfterShock == e.totalResourcesAfterShock
    && r.targetedCells == e.targetedCells
    && r.affectedCells == e.affectedCells
    && r.totalCells == e.totalCells
  }

  /**
   * One event's part of `updateDisturbanceEventState`.  An event later than the
   * current tick is skipped.  Otherwise the lows follow the current figures
   * (a new population low is dated now); for an event with a population before
   * the shock, falling below it clears the recovery (a relapse when it was set)
   * and reaching it again dates the recovery now.
   */
  function UpdateEvent(e: DisturbanceEvent, currentTick: int, currentPopulation: nat,
                       currentActiveSpecies: nat): (r: DisturbanceEvent)
    ensures SameShock(e, r)
    ensures e.tick > currentTick ==> r == e
    ensures r.minPopulationSinceEvent <= e.minPopulationSinceEvent
    ensures r.minActiveSpeciesSinceEvent <= e.minActiveSpeciesSinceEvent
    ensures e.tick <= currentTick ==>
      && r.minPopulationSinceEvent == MinInt(e.minPopulationSinceEvent, currentPopulation)
      && r.minActiveSpeciesSinceEvent == MinInt(e.minActiveSpeciesSinceEvent, currentActiveSpecies)
      && (r.minPopulationTickSinceEvent == currentTick
          || r.minPopulationTickSinceEvent == e.minPopulationTickSinceEvent)
      && (currentPopulation < e.minPopulationSinceEvent ==> r.minPopulationTickSinceEvent == currentTick)
    ensures e.tick <= currentTick && e.populationBefore > 0 ==>
      && (r.recoveryTick.None? <==> currentPopulation < e.populationBefore)
      && (r.recoveryTick.Some? && e.recoveryTick.Some? ==> r.recoveryTick == e.recoveryTick)
      && (r.recoveryTick.Some? && e.recoveryTick.None? ==> r.recoveryTick == Some(currentTick))
      && (r.recoveryRelapses == e.recoveryRelapses + 1 <==> e.recoveryTick.Some? && r.recoveryTick.None?)
      && (r.recoveryRelapses == e.recoveryRelapses || r.recoveryRelapses == e.recoveryRelapses + 1)
    ensures e.populationBefore == 0 ==>
      r.recoveryTick == e.recoveryTick && r.recoveryRelapses == e.recoveryRelapses
  {
    if e.tick > currentTick then e
    else
      var lows :=
        if currentPopulation < e.minPopulationSinceEvent
        then e.(minPopulationSinceEvent := currentPopulation, minPopulationTickSinceEvent := currentTick)
        else e;
      var lows := lows.(minActiveSpeciesSinceEvent := MinInt(lows.minActiveSpeciesSinceEvent, currentActiveSpecies));
      if e.populationBefore <= 0 then lows
      else if currentPopulation < e.populationBefore then
        lows.(recoveryRelapses := if e.recoveryTick.Some? then e.recoveryRelapses + 1 else e.recoveryRelapses,
              recoveryTick := None)
      else if e.recoveryTick.None? then lows.(recoveryTick := Some(currentTick))
      else lows
  }

  /** The per-tick update keeps an event well formed. */
  lemma UpdatePreservesWellFormed(e: DisturbanceEvent, currentTick: int, currentPopulation: nat,
                                  currentActiveSpecies: nat)
    requires WellFormed(e)
    ensures WellFormed(UpdateEvent(e, currentTick, currentPopulation, currentActiveSpecies))
  {
  }

  /**
   * The population low is the smallest population seen: after an update it is at
   * most the current population, and it is never below a bound that every
   * figure seen so far respects.
   */
  lemma UpdateTracksLow(e: DisturbanceEvent, currentTick: int, currentPopulation: nat,
                        currentActiveSpecies: nat, floor: nat)
    requires e.tick <= currentTick
    requires floor <= e.minPopulationSinceEvent && floor <= currentPopulation
    ensures var r := UpdateEvent(e, currentTick, currentPopulation, currentActiveSpecies);
      floor <= r.minPopulationSinceEvent <= currentPopulation
  {
  }

  /** The disturbance events of one run, in the order the shocks happened. */
  class DisturbanceLog {
    var events: seq<DisturbanceEvent>

    ghost predicate Valid()
      reads this
    {
      forall i :: 0 <= i < |events| ==> WellFormed(events[i])
    }

    constructor()
      ensures Valid() && events == []
    {
      events := [];
    }

    /** `disturbanceEvents.push(...)`. */
    method Record(e: DisturbanceEvent)
      requires Valid() && WellFormed(e)
      modifies this
      ensures Valid()
      ensures events == old(events) + [e]
    {
      events := events + [e];
    }

    /**
     * `updateDisturbanceEventState`: every event is updated for the current
     * tick, in order, and stays well formed; no event is added or removed.
     */
    method UpdateDisturbanceEventState(currentTick: int, currentPopulation: nat, currentActiveSpecies: nat)
      requires Valid()
      modifies this
      ensures Valid()
      ensures |events| == |old(events)|
      ensures forall i :: 0 <= i < |events| ==>
                events[i] == UpdateEvent(old(events)[i], currentTick, currentPopulation, currentActiveSpecies)
    {
      var i := 0;
      while i < |events|
        invariant 0 <= i <= |events| == |old(events)|
        invariant forall j :: 0 <= j < i ==>
                    events[j] == UpdateEvent(old(events)[j], currentTick, currentPopulation, currentActiveSpecies)
        invariant forall j :: i <= j < |events| ==> events[j] == old(events)[j]
        invariant Valid()
      {
        UpdatePreservesWellFormed(events[i], currentTick, currentPopulation, currentActiveSpecies);
        events := events[i := UpdateEvent(events[i], currentTick, currentPopulation, currentActiveSpecies)];
        i := i + 1;
      }
    }
  }

  // ---------------------------------------------------------------------------
  // Recovery figures
  // ---------------------------------------------------------------------------

  /** `recoveryLagTicksForEvent`: -1 while unrecovered, otherwise the ticks from the shock to the recovery. */
  function RecoveryLagTicks(e: DisturbanceEvent): (lag: int)
    ensures lag >= -1
    ensures lag == -1 <==> e.recoveryTick.None?
    ensures WellFormed(e) && e.recoveryTick.Some? ==> lag == e.recoveryTick.value - e.tick
  {
    if e.recoveryTick.None? then -1 else MaxInt(0, e.recoveryTick.value - e.tick)
  }

  /** The four recovery figures `buildRecoveryStateForEvent` reports. */
  datatype RecoveryState = RecoveryState(recoveryTicks: int, recoveryProgress: real, recoveryRelapses: nat,
                                         sustainedRecoveryTicks: int)

  /**
   * `buildRecoveryStateForEvent`: an event with nobody alive beforehand is fully
   * recovered; otherwise the progress is the current population as a share of
   * the population before, capped at 1, the recovery time is -1 while
   * unrecovered, and the sustained time counts the ticks since the recovery.
   */
  function RecoveryStateFor(e: DisturbanceEvent, currentPopulation: nat, tickCount: int): (s: RecoveryState)
    ensures 0.0 <= s.recoveryProgress <= 1.0
    ensures s.sustainedRecoveryTicks >= 0
    ensures e.populationBefore == 0 ==> s == RecoveryState(0, 1.0, 0, 0)
    ensures e.populationBefore > 0 ==>
      && s.recoveryRelapses == e.recoveryRelapses
      && (e.recoveryTick.None? ==> s.recoveryTicks == -1)
      && (s.recoveryProgress == 1.0 <==> currentPopulation >= e.populationBefore)
      && (e.recoveryTick.None? ==> s.sustainedRecoveryTicks == 0)
      && (e.recoveryTick.Some? ==>
            && s.recoveryTicks == e.recoveryTick.value - e.tick
            && s.sustainedRecoveryTicks == MaxInt(0, tickCount - e.recoveryTick.value))
      && (currentPopulation < e.populationBefore ==>
            s.recoveryProgress * e.populationBefore as real == currentPopulation as real)
      && (WellFormed(e) ==> s.recoveryTicks == RecoveryLagTicks(e))
  {
    if e.populationBefore <= 0 then RecoveryState(0, 1.0, 0, 0)
    else
      var share := currentPopulation as real / e.populationBefore as real;
      assert share >= 1.0 <==> currentPopulation >= e.populationBefore;
      RecoveryState(if e.recoveryTick.None? then -1 else e.recoveryTick.value - e.tick,
                    Clamp(share, 0.0, 1.0),
                    e.recoveryRelapses,
                    if e.recoveryTick.None? then 0 else MaxInt(0, tickCount - e.recoveryTick.value))
  }

  /**
   * `computeResilienceStabilityIndex`: the recovery progress (clamped to [0, 1])
   * weighted by how long the recovery has lasted against how often it relapsed:
   * `progress * (sustained + 1) / (sustained + relapses + 1)`, with negative
   * counts read as 0.
   */
  function StabilityIndex(recoveryProgress: real, sustainedRecoveryTicks: real, recoveryRelapses: real)
    : (x: real)
    ensures 0.0 <= x <= 1.0
    ensures x <= Clamp(recoveryProgress, 0.0, 1.0)
    ensures recoveryRelapses <= 0.0 ==> x == Clamp(recoveryProgress, 0.0, 1.0)
  {
    var progress := Clamp(recoveryProgress, 0.0, 1.0);
    var sustained := MaxReal(0.0, sustainedRecoveryTicks);
    var relapses := MaxReal(0.0, recoveryRelapses);
    StabilityBounds(progress, sustained, relapses);
    (progress * (sustained + 1.0)) / (sustained + relapses + 1.0)
  }

  lemma StabilityBounds(progress: real, sustained: real, relapses: real)
    requires 0.0 <= progress <= 1.0 && sustained >= 0.0 && relapses >= 0.0
    ensures var x := (progress * (sustained + 1.0)) / (sustained + relapses + 1.0);
      0.0 <= x <= progress && (relapses == 0.0 ==> x == progress)
  {
    var num, den := sustained + 1.0, sustained + relapses + 1.0;
    var w := num / den;
    assert 0.0 < w <= 1.0;
    assert (progress * num) / den == progress * w;
    assert progress * w <= progress;
  }

  /** More relapses never raise the index. */
  lemma StabilityMonotone(progress: real, sustained: real, relapses: real, moreRelapses: real)
    requires relapses <= moreRelapses
    ensures StabilityIndex(progress, sustained, moreRelapses) <= StabilityIndex(progress, sustained, relapses)
  {
    var p := Clamp(progress, 0.0, 1.0);
    var s := MaxReal(0.0, sustained);
    var a, b := MaxReal(0.0, relapses), MaxReal(0.0, moreRelapses);
    var num := p * (s + 1.0);
    assert num >= 0.0;
    assert s + a + 1.0 <= s + b + 1.0;
    var d1, d2 := s + a + 1.0, s + b + 1.0;
    var x1, x2 := num / d1, num / d2;
    DivideAntitone(num, d1, d2);
    assert StabilityIndex(progress, sustained, relapses) == x1;
    assert StabilityIndex(progress, sustained, moreRelapses) == x2;
  }

  /** Dividing a non-negative number by a larger positive number gives a smaller quotient. */
  lemma DivideAntitone(num: real, d1: real, d2: real)
    requires num >= 0.0 && 0.0 < d1 <= d2
    ensures num / d2 <= num / d1
  {
    var x1, x2 := num / d1, num / d2;
    assert x1 >= 0.0;
    assert x1 * (d2 - d1) >= 0.0;
    assert x1 * d2 >= x1 * d1 == num == x2 * d2;
    if x2 > x1 {
      assert false;
    }
  }
}
