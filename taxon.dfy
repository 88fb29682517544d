/**
 * The per-taxon history the simulation keeps for clades and for species
 * (`seedTaxonHistory`, `updateTaxonHistory`), together with the cumulative
 * extinction counter `step` adds each update's delta to, and the window queries
 * over it.
 */
module TaxonHistory {
  import opened Wrappers
  import opened Counts
  import opened Types
  import opened Windows

  /** `TaxonHistoryState`: one clade's or species' record. */
  datatype TaxonState = TaxonState(
    id: int,
    firstSeenTick: int,
    extinctTick: Option<int>,
    totalBirths: nat,
    totalDeaths: nat,
    peakPopulation: nat,
    lastPopulation: nat,
    timeline: seq<TaxonTimelinePoint>)

  type History = map<int, TaxonState>

  /** Every record is stored under its own id. */
  ghost predicate Keyed(history: History)
  {
    forall id :: id in history ==> history[id].id == id
  }

  /** The ids whose records are currently extinct. */
  ghost function ExtinctIds(history: History): set<int>
  {
    set id | id in history && history[id].extinctTick.Some?
  }

  /** The number of extinct records. */
  ghost function ExtinctCount(history: History): nat
  {
    |ExtinctIds(history)|
  }

  // ---------------------------------------------------------------------------
  // Seeding

  /** The record `seedTaxonHistory` creates for a taxon present at tick 0. */
  function SeededState(id: int, population: nat): (s: TaxonState)
    ensures s.id == id && s.firstSeenTick == 0 && s.extinctTick == None
    ensures s.totalBirths == s.peakPopulation == s.lastPopulation == population && s.totalDeaths == 0
    ensures s.timeline == [TaxonTimelinePoint(0, population, population, 0)]
  {
    TaxonState(id, 0, None, population, 0, population, population, [TaxonTimelinePoint(0, population, population, 0)])
  }

  /** The records seeding creates, one per counted id. */
  function Seeded(counts: Counts): (h: History)
    ensures h.Keys == counts.Keys
    ensures Keyed(h) && ExtinctIds(h) == {}
  {
    map id | id in counts :: SeededState(id, counts[id])
  }

  // ---------------------------------------------------------------------------
  // One update of one record

  /** The record of `id`, or the fresh record `updateTaxonHistory` creates for a new id. */
  function Lookup(history: History, id: int, tick: int): (s: TaxonState)
    ensures id in history ==> s == history[id]
    ensures id !in history ==> s == TaxonState(id, tick, None, 0, 0, 0, 0, [])
  {
    if id in history then history[id] else TaxonState(id, tick, None, 0, 0, 0, 0, [])
  }

  /**
   * `hadPopulationBeforeStep`: the taxon had members before the step, or some
   * were born during it.
   */
  predicate HadPopulation(s: TaxonState, births: nat)
  {
    s.lastPopulation > 0 || births > 0
  }

  /**
   * The record after one tick: totals grow by the tick's births and deaths, the
   * peak is raised to the population, an extinct taxon with members again is
   * recolonised, a living taxon that had members and now has none goes extinct
   * at `tick`, and the tick's point is appended to the timeline.
   */
  function UpdateState(s: TaxonState, tick: int, population: nat, births: nat, deaths: nat): (r: TaxonState)
    ensures r.id == s.id && r.firstSeenTick == s.firstSeenTick
    ensures r.totalBirths == s.totalBirths + births && r.totalDeaths == s.totalDeaths + deaths
    ensures r.peakPopulation >= population && r.peakPopulation >= s.peakPopulation
    ensures r.peakPopulation == population || r.peakPopulation == s.peakPopulation
    ensures r.lastPopulation == population
    ensures r.timeline == s.timeline + [TaxonTimelinePoint(tick, population, births, deaths)]
    ensures population > 0 ==> r.extinctTick == None
    ensures s.extinctTick.None? ==>
      (r.extinctTick.Some? <==> HadPopulation(s, births) && population == 0)
    ensures r.extinctTick.Some? && s.extinctTick.None? ==> r.extinctTick == Some(tick)
    ensures s.extinctTick.Some? && population == 0 ==> r.extinctTick == s.extinctTick
  {
    var wasExtinct := s.extinctTick.Some?;
    var cleared := if wasExtinct && population > 0 then None else s.extinctTick;
    var extinct := if cleared.None? && HadPopulation(s, births) && population == 0 then Some(tick) else cleared;
    TaxonState(
      s.id, s.firstSeenTick, extinct,
      s.totalBirths + births, s.totalDeaths + deaths,
      if population > s.peakPopulation then population else s.peakPopulation,
      population,
      s.timeline + [TaxonTimelinePoint(tick, population, births, deaths)])
  }

  /** `extinctionDelta`'s change for one record: -1 on recolonisation, +1 on extinction. */
  function Delta(s: TaxonState, r: TaxonState): int
  {
    (if r.extinctTick.Some? then 1 else 0) - (if s.extinctTick.Some? then 1 else 0)
  }

  // ---------------------------------------------------------------------------
  // The whole update

  /**
   * `idsToRecord`: every id with a population, birth or death count this tick,
   * and every tracked taxon that is not extinct or still had members last tick.
   */
  function RecordIds(history: History, populationCounts: Counts, birthsCounts: Counts,
                           deathsCounts: Counts): set<int>
  {
    populationCounts.Keys + birthsCounts.Keys + deathsCounts.Keys
    + (set id | id in history && (history[id].extinctTick.None? || history[id].lastPopulation > 0))
  }

  /** The history with the ids of `done` updated for this tick and no other record touched. */
  ghost function UpdatedOn(history: History, done: set<int>, tick: int, populationCounts: Counts,
                           birthsCounts: Counts, deathsCounts: Counts): History
  {
    map id | id in history.Keys + done ::
      if id in done
      then UpdateState(Lookup(history, id, tick), tick, Get(populationCounts, id), Get(birthsCounts, id),
                       Get(deathsCounts, id))
      else history[id]
  }

  /** The history after `updateTaxonHistory`. */
  ghost function Updated(history: History, tick: int, populationCounts: Counts, birthsCounts: Counts,
                         deathsCounts: Counts): History
  {
    UpdatedOn(history, RecordIds(history, populationCounts, birthsCounts, deathsCounts), tick,
              populationCounts, birthsCounts, deathsCounts)
  }

  /**
   * What one update does to the history: the recorded ids are exactly the ids
   * counted this tick and the tracked taxa that are alive or had members; each
   * gets its updated record (a new id a fresh record first seen at `tick`); every
   * other record is untouched; no record is dropped; and records stay keyed.
   */
  lemma UpdatedShape(history: History, tick: int, populationCounts: Counts, birthsCounts: Counts,
                     deathsCounts: Counts)
    requires Keyed(history)
    ensures var h := Updated(history, tick, populationCounts, birthsCounts, deathsCounts);
      var ids := RecordIds(history, populationCounts, birthsCounts, deathsCounts);
      && h.Keys == history.Keys + ids
      && Keyed(h)
      && (forall id :: id in ids <==>
            id in populationCounts || id in birthsCounts || id in deathsCounts
            || (id in history && (history[id].extinctTick.None? || history[id].lastPopulation > 0)))
      && (forall id :: id in history && id !in ids ==> h[id] == history[id])
      && (forall id :: id in ids ==>
            h[id] == UpdateState(Lookup(history, id, tick), tick, Get(populationCounts, id),
                                 Get(birthsCounts, id), Get(deathsCounts, id)))
      && (forall id :: id in ids && id !in history ==> h[id].firstSeenTick == tick)
  {
  }

  /** A record that is not recorded is extinct and had no members at the last tick. */
  lemma UnrecordedAreDormant(history: History, tick: int, populationCounts: Counts, birthsCounts: Counts,
                             deathsCounts: Counts, id: int)
    requires id in history && id !in RecordIds(history, populationCounts, birthsCounts, deathsCounts)
    ensures history[id].extinctTick.Some? && history[id].lastPopulation == 0
    ensures Get(populationCounts, id) == 0 && Get(birthsCounts, id) == 0 && Get(deathsCounts, id) == 0
  {
  }

  /** Seeding one more id adds its seeded record. */
  lemma SeedStep(history: History, counts: Counts, remaining: set<int>, id: int)
    requires id in remaining && remaining <= counts.Keys
    ensures history + Seeded(counts - (remaining - {id}))
            == (history + Seeded(counts - remaining))[id := SeededState(id, counts[id])]
  {
    var a := history + Seeded(counts - remaining);
    var b := history + Seeded(counts - (remaining - {id}));
    assert b.Keys == a.Keys + {id};
  }

  /** Seeding keeps records keyed, and a seeded record is not extinct. */
  lemma SeedResult(history: History, counts: Counts)
    requires Keyed(history)
    ensures Keyed(history + Seeded(counts))
    ensures ExtinctIds(history + Seeded(counts)) == ExtinctIds(history) - counts.Keys
  {
  }

  /** Replacing one record changes the number of extinct records by that record's delta. */
  lemma ExtinctIdsReplace(history: History, id: int, s: TaxonState, r: TaxonState)
    requires id in history ==> history[id] == s
    requires id !in history ==> s.extinctTick.None?
    ensures |ExtinctIds(history[id := r])| == |ExtinctIds(history)| + Delta(s, r)
  {
    var before, after := ExtinctIds(history), ExtinctIds(history[id := r]);
    assert after - {id} == before - {id};
    assert id in after <==> r.extinctTick.Some?;
    assert id in before <==> s.extinctTick.Some?;
    CardinalityWithout(before, id);
    CardinalityWithout(after, id);
  }

  lemma CardinalityWithout(a: set<int>, x: int)
    ensures |a| == |a - {x}| + (if x in a then 1 else 0)
  {
    if x in a {
      assert a == (a - {x}) + {x};
    } else {
      assert a - {x} == a;
    }
  }

  /** Updating one more id extends the partial update by that id's record. */
  lemma UpdatedOnStep(history: History, ids: set<int>, remaining: set<int>, id: int, tick: int,
                      populationCounts: Counts, birthsCounts: Counts, deathsCounts: Counts)
    requires id in remaining && remaining <= ids
    ensures var h := UpdatedOn(history, ids - remaining, tick, populationCounts, birthsCounts, deathsCounts);
      && Lookup(h, id, tick) == Lookup(history, id, tick)
      && UpdatedOn(history, ids - (remaining - {id}), tick, populationCounts, birthsCounts, deathsCounts)
         == h[id := UpdateState(Lookup(h, id, tick), tick, Get(populationCounts, id), Get(birthsCounts, id),
                                Get(deathsCounts, id))]
  {
    var done := ids - remaining;
    assert ids - (remaining - {id}) == done + {id};
    var h := UpdatedOn(history, done, tick, populationCounts, birthsCounts, deathsCounts);
    var h' := UpdatedOn(history, done + {id}, tick, populationCounts, birthsCounts, deathsCounts);
    var r := UpdateState(Lookup(history, id, tick), tick, Get(populationCounts, id), Get(birthsCounts, id),
                         Get(deathsCounts, id));
    assert h'.Keys == h.Keys + {id};
    forall x | x in h'.Keys
      ensures h'[x] == h[id := r][x]
    {
    }
    assert h' == h[id := r];
  }

  /** The loop state of `updateTaxonHistory` once the ids outside `remaining` are updated. */
  ghost predicate UpdateProgress(history: History, ids: set<int>, remaining: set<int>, tick: int,
                                 populationCounts: Counts, birthsCounts: Counts, deathsCounts: Counts,
                                 updated: History, extinctionDelta: int)
  {
    && remaining <= ids
    && updated == UpdatedOn(history, ids - remaining, tick, populationCounts, birthsCounts, deathsCounts)
    && extinctionDelta == ExtinctCount(updated) - ExtinctCount(history)
  }

  lemma UpdateProgressStep(history: History, ids: set<int>, remaining: set<int>, id: int, tick: int,
                           populationCounts: Counts, birthsCounts: Counts, deathsCounts: Counts,
                           updated: History, extinctionDelta: int)
    requires id in remaining
    requires UpdateProgress(history, ids, remaining, tick, populationCounts, birthsCounts, deathsCounts,
                            updated, extinctionDelta)
    ensures var state := Lookup(updated, id, tick);
      var next := UpdateState(state, tick, Get(populationCounts, id), Get(birthsCounts, id), Get(deathsCounts, id));
      UpdateProgress(history, ids, remaining - {id}, tick, populationCounts, birthsCounts, deathsCounts,
                     updated[id := next], extinctionDelta + Delta(state, next))
  {
    UpdatedOnStep(history, ids, remaining, id, tick, populationCounts, birthsCounts, deathsCounts);
    var state := Lookup(updated, id, tick);
    var next := UpdateState(state, tick, Get(populationCounts, id), Get(birthsCounts, id), Get(deathsCounts, id));
    ExtinctIdsReplace(updated, id, state, next);
  }

  /**
   * `seedTaxonHistory`: a fresh record, first seen at tick 0, for every counted
   * id, in whatever order the counts come, replacing any record of that id.
   */
  method SeedTaxonHistory(history: History, counts: Counts) returns (seeded: History)
    requires Keyed(history)
    ensures seeded == history + Seeded(counts)
    ensures Keyed(seeded)
    ensures ExtinctIds(seeded) == ExtinctIds(history) - counts.Keys
  {
    seeded := history;
    var remaining := counts.Keys;
    assert counts - remaining == map[];
    assert seeded == history + Seeded(map[]);
    while |remaining| > 0
      invariant remaining <= counts.Keys
      invariant seeded == history + Seeded(counts - remaining)
      decreases |remaining|
    {
      SetHasElement(remaining);
      var id :| id in remaining;
      var population := counts[id];
      SeedStep(history, counts, remaining, id);
      var state := TaxonState(id, 0, None, population, 0, population, population,
                              [TaxonTimelinePoint(0, population, population, 0)]);
      assert state == SeededState(id, population);
      seeded := seeded[id := state];
      remaining := remaining - {id};
    }
    assert counts - remaining == counts;
    SeedResult(history, counts);
  }

  /** Before the loop nothing is recorded yet. */
  lemma UpdateProgressStart(history: History, ids: set<int>, tick: int, populationCounts: Counts,
                            birthsCounts: Counts, deathsCounts: Counts)
    ensures UpdateProgress(history, ids, ids, tick, populationCounts, birthsCounts, deathsCounts, history, 0)
  {
    assert UpdatedOn(history, ids - ids, tick, populationCounts, birthsCounts, deathsCounts) == history;
  }

  /** Once no id remains, every id is recorded. */
  lemma UpdateProgressEnd(history: History, ids: set<int>, remaining: set<int>, tick: int,
                          populationCounts: Counts, birthsCounts: Counts, deathsCounts: Counts,
                          updated: History, extinctionDelta: int)
    requires |remaining| == 0
    requires UpdateProgress(history, ids, remaining, tick, populationCounts, birthsCounts, deathsCounts,
                            updated, extinctionDelta)
    ensures updated == UpdatedOn(history, ids, tick, populationCounts, birthsCounts, deathsCounts)
    ensures extinctionDelta == ExtinctCount(updated) - ExtinctCount(history)
  {
    assert ids - remaining == ids;
  }

  /** One turn of the update loop: take any id still to record and update its record. */
  method RecordOne(history: History, ids: set<int>, remaining: set<int>, tick: int, populationCounts: Counts,
                   birthsCounts: Counts, deathsCounts: Counts, updated: History, extinctionDelta: int)
    returns (updated': History, extinctionDelta': int, remaining': set<int>)
    requires |remaining| > 0
    requires UpdateProgress(history, ids, remaining, tick, populationCounts, birthsCounts, deathsCounts,
                            updated, extinctionDelta)
    ensures |remaining'| < |remaining|
    ensures UpdateProgress(history, ids, remaining', tick, populationCounts, birthsCounts, deathsCounts,
                           updated', extinctionDelta')
  {
    SetHasElement(remaining);
    var id :| id in remaining;
    UpdateProgressStep(history, ids, remaining, id, tick, populationCounts, birthsCounts,
                       deathsCounts, updated, extinctionDelta);
    var population := Get(populationCounts, id);
    var births := Get(birthsCounts, id);
    var deaths := Get(deathsCounts, id);
    var state := Lookup(updated, id, tick);
    var next := UpdateState(state, tick, population, births, deaths);
    extinctionDelta' := extinctionDelta + Delta(state, next);
    updated' := updated[id := next];
    remaining' := remaining - {id};
  }

  /**
   * `updateTaxonHistory`: update every recorded id for `tick`, in whatever order
   * the ids come, and return the change in the number of extinct records.
   */
  method UpdateTaxonHistory(history: History, tick: int, populationCounts: Counts, birthsCounts: Counts,
                            deathsCounts: Counts)
    returns (updated: History, extinctionDelta: int)
    ensures updated == Updated(history, tick, populationCounts, birthsCounts, deathsCounts)
    ensures extinctionDelta == ExtinctCount(updated) - ExtinctCount(history)
  {
    var idsToRecord := RecordIds(history, populationCounts, birthsCounts, deathsCounts);
    updated := history;
    var remaining := idsToRecord;
    extinctionDelta := 0;
    UpdateProgressStart(history, idsToRecord, tick, populationCounts, birthsCounts, deathsCounts);
    while |remaining| > 0
      invariant UpdateProgress(history, idsToRecord, remaining, tick, populationCounts, birthsCounts,
                               deathsCounts, updated, extinctionDelta)
      decreases |remaining|
    {
      updated, extinctionDelta, remaining :=
        RecordOne(history, idsToRecord, remaining, tick, populationCounts, birthsCounts, deathsCounts,
                  updated, extinctionDelta);
    }
    UpdateProgressEnd(history, idsToRecord, remaining, tick, populationCounts, birthsCounts, deathsCounts,
                      updated, extinctionDelta);
  }

  /**
   * The clade or species history of `LifeSimulation` (`cladeHistory` or
   * `speciesHistory`) and its cumulative extinction counter (`extinctClades` or
   * `extinctSpecies`).
   */
  class TaxonTracker {
    var history: History
    var extinctCount: int

    /** The counter is the number of extinct records, and records are keyed by id. */
    ghost predicate Valid()
      reads this
    {
      Keyed(history) && extinctCount == |ExtinctIds(history)|
    }

    /** `initializeEvolutionHistory`: seed an empty history with the initial tally. */
    constructor(initialCounts: Counts)
      ensures Valid() && history == Seeded(initialCounts) && extinctCount == 0
    {
      var seeded := SeedTaxonHistory(map[], initialCounts);
      assert map[] + Seeded(initialCounts) == Seeded(initialCounts);
      history := seeded;
      extinctCount := 0;
    }

    /**
     * The lines of `step` that update one history for the new tick and add the
     * returned delta to its counter: the counter keeps counting the extinct records.
     */
    method RecordTick(tick: int, populationCounts: Counts, birthsCounts: Counts, deathsCounts: Counts)
      returns (extinctionDelta: int)
      requires Valid()
      modifies this
      ensures Valid()
      ensures history == Updated(old(history), tick, populationCounts, birthsCounts, deathsCounts)
      ensures extinctCount == old(extinctCount) + extinctionDelta
    {
      UpdatedShape(history, tick, populationCounts, birthsCounts, deathsCounts);
      var updated;
      updated, extinctionDelta := UpdateTaxonHistory(history, tick, populationCounts, birthsCounts, deathsCounts);
      history := updated;
      extinctCount := extinctCount + extinctionDelta;
    }
  }

  // ---------------------------------------------------------------------------
  // Window queries

  /** A record first seen inside the window (after tick 0). */
  predicate OriginatedIn(s: TaxonState, window: TurnoverWindow)
  {
    s.firstSeenTick > 0 && window.startTick <= s.firstSeenTick <= window.endTick
  }

  /** A record that went extinct inside the window. */
  predicate ExtinctIn(s: TaxonState, window: TurnoverWindow)
  {
    s.extinctTick.Some? && window.startTick <= s.extinctTick.value <= window.endTick
  }

  ghost function Originations(history: History, window: TurnoverWindow): set<int>
  {
    set id | id in history && OriginatedIn(history[id], window)
  }

  ghost function Extinctions(history: History, window: TurnoverWindow): set<int>
  {
    set id | id in history && ExtinctIn(history[id], window)
  }

  lemma SubsetCard(a: set<int>, b: set<int>)
    requires a <= b
    ensures |a| <= |b|
  {
    assert b == a + (b - a);
  }

  /**
   * `countOriginationsInWindow`: the number of records first seen inside the
   * window, which is at most the number of records.
   */
  method CountOriginationsInWindow(history: History, window: TurnoverWindow) returns (count: nat)
    ensures count == |Originations(history, window)|
    ensures count <= |history|
  {
    count := 0;
    var remaining := history.Keys;
    while |remaining| > 0
      invariant remaining <= history.Keys
      invariant count == |Originations(history - remaining, window)|
      decreases |remaining|
    {
      SetHasElement(remaining);
      var id :| id in remaining;
      var state := history[id];
      ghost var seen := Originations(history - remaining, window);
      if OriginatedIn(state, window) {
        assert Originations(history - (remaining - {id}), window) == seen + {id};
        count := count + 1;
      } else {
        assert Originations(history - (remaining - {id}), window) == seen;
      }
      remaining := remaining - {id};
    }
    assert history - remaining == history;
    SubsetCard(Originations(history, window), history.Keys);
  }

  /**
   * `countExtinctionsInWindow`: the number of records that went extinct inside
   * the window, which is at most the number of records.
   */
  method CountExtinctionsInWindow(history: History, window: TurnoverWindow) returns (count: nat)
    ensures count == |Extinctions(history, window)|
    ensures count <= |history|
  {
    count := 0;
    var remaining := history.Keys;
    while |remaining| > 0
      invariant remaining <= history.Keys
      invariant count == |Extinctions(history - remaining, window)|
      decreases |remaining|
    {
      SetHasElement(remaining);
      var id :| id in remaining;
      var state := history[id];
      ghost var seen := Extinctions(history - remaining, window);
      if ExtinctIn(state, window) {
        assert Extinctions(history - (remaining - {id}), window) == seen + {id};
        count := count + 1;
      } else {
        assert Extinctions(history - (remaining - {id}), window) == seen;
      }
      remaining := remaining - {id};
    }
    assert history - remaining == history;
    SubsetCard(Extinctions(history, window), history.Keys);
  }

  /**
   * `extinctDurations`: for every extinct record, in whatever order the records
   * come, the ticks from first sighting to extinction.
   */
  method ExtinctDurations(history: History) returns (values: seq<int>, ghost ids: seq<int>)
    ensures |values| == |ExtinctIds(history)|
    ensures |values| == |ids| && (forall i, j :: 0 <= i < j < |ids| ==> ids[i] != ids[j])
    ensures forall id :: id in ids <==> id in ExtinctIds(history)
    ensures forall i :: 0 <= i < |ids| ==>
      ids[i] in history && history[ids[i]].extinctTick.Some?
      && values[i] == history[ids[i]].extinctTick.value - history[ids[i]].firstSeenTick
  {
    values, ids := [], [];
    var remaining := history.Keys;
    while |remaining| > 0
      invariant remaining <= history.Keys
      invariant |values| == |ids| && (forall i, j :: 0 <= i < j < |ids| ==> ids[i] != ids[j])
      invariant forall id :: id in ids <==> id in ExtinctIds(history) && id !in remaining
      invariant forall i :: 0 <= i < |ids| ==>
        ids[i] in history && history[ids[i]].extinctTick.Some?
        && values[i] == history[ids[i]].extinctTick.value - history[ids[i]].firstSeenTick
      decreases |remaining|
    {
      SetHasElement(remaining);
      var id :| id in remaining;
      var state := history[id];
      if state.extinctTick.Some? {
        values := values + [state.extinctTick.value - state.firstSeenTick];
        ids := ids + [id];
      }
      remaining := remaining - {id};
    }
    DistinctElements(ids);
    ghost var listed := set k | k in ids;
    forall k ensures k in listed <==> k in ExtinctIds(history) {
      assert k !in remaining;
    }
    assert listed == ExtinctIds(history);
  }

  /**
   * `activeDurations`: for every living record, in whatever order the records
   * come, the ticks from first sighting to the current tick.
   */
  method ActiveDurations(history: History, tickCount: int) returns (values: seq<int>, ghost ids: seq<int>)
    ensures |values| == |history.Keys - ExtinctIds(history)|
    ensures |values| == |ids| && (forall i, j :: 0 <= i < j < |ids| ==> ids[i] != ids[j])
    ensures forall id :: id in ids <==> id in history && id !in ExtinctIds(history)
    ensures forall i :: 0 <= i < |ids| ==>
      ids[i] in history && history[ids[i]].extinctTick.None?
      && values[i] == tickCount - history[ids[i]].firstSeenTick
  {
    values, ids := [], [];
    var remaining := history.Keys;
    while |remaining| > 0
      invariant remaining <= history.Keys
      invariant |values| == |ids| && (forall i, j :: 0 <= i < j < |ids| ==> ids[i] != ids[j])
      invariant forall id :: id in ids <==> id in history && id !in ExtinctIds(history) && id !in remaining
      invariant forall i :: 0 <= i < |ids| ==>
        ids[i] in history && history[ids[i]].extinctTick.None?
        && values[i] == tickCount - history[ids[i]].firstSeenTick
      decreases |remaining|
    {
      SetHasElement(remaining);
      var id :| id in remaining;
      var state := history[id];
      if state.extinctTick.None? {
        values := values + [tickCount - state.firstSeenTick];
        ids := ids + [id];
      }
      remaining := remaining - {id};
    }
    DistinctElements(ids);
    ghost var listed := set k | k in ids;
    forall k ensures k in listed <==> k in history.Keys - ExtinctIds(history) {
      assert k !in remaining;
    }
    assert listed == history.Keys - ExtinctIds(history);
  }

  /** A sequence without repeats has as many elements as its set of elements. */
  lemma {:induction false} DistinctElements(ids: seq<int>)
    requires forall i, j :: 0 <= i < j < |ids| ==> ids[i] != ids[j]
    ensures |set k | k in ids| == |ids|
    decreases |ids|
  {
    if |ids| > 0 {
      var front, last := ids[..|ids| - 1], ids[|ids| - 1];
      DistinctElements(front);
      assert last !in front by {
        forall i | 0 <= i < |front| ensures front[i] != last {
          assert front[i] == ids[i];
        }
      }
      assert (set k | k in ids) == (set k | k in front) + {last};
    }
  }

  /** The extinct and the living durations together cover every record once. */
  lemma DurationsPartition(history: History)
    ensures |ExtinctIds(history)| + |history.Keys - ExtinctIds(history)| == |history|
  {
    assert history.Keys == ExtinctIds(history) + (history.Keys - ExtinctIds(history));
  }
}
