/**
 * Species-level traits: the genome distance that decides speciation, the
 * trait shifts a new species inherits, and the three per-species trait tables
 * (habitat preference, trophic level, defence level) whose getters insert a
 * default for an unknown species.
 */
module Species {
  import opened Numbers
  import opened Types

  function AbsReal(v: real): (a: real)
    ensures a >= 0.0 && (a == v || a == -v)
  {
    if v < 0.0 then -v else v
  }

  /** `genomeDistance`: the sum of the absolute trait differences. */
  function GenomeDistance(a: Genome, b: Genome): (d: real)
    ensures d >= 0.0
  {
    AbsReal(a.metabolism - b.metabolism) + AbsReal(a.harvest - b.harvest) + AbsReal(a.aggression - b.aggression)
  }

  /** The distance is a metric: zero exactly between equal genomes, symmetric, and obeying the triangle inequality. */
  lemma GenomeDistanceMetric(a: Genome, b: Genome, c: Genome)
    ensures GenomeDistance(a, b) == 0.0 <==> a == b
    ensures GenomeDistance(a, b) == GenomeDistance(b, a)
    ensures GenomeDistance(a, c) <= GenomeDistance(a, b) + GenomeDistance(b, c)
  {
  }

  /** The speciation rule of `reproduce`: the child founds a new species when its genome is at least the threshold away. */
  predicate Diverged(parent: Genome, child: Genome, speciationThreshold: real)
  {
    GenomeDistance(parent, child) >= speciationThreshold
  }

  /** `clamp(signal, -1, 1) * max(0, scale)`: the shape shared by the three trait shifts. */
  function ScaledSignal(signal: real, mutation: real): (d: real)
    ensures mutation <= 0.0 ==> d == 0.0
    ensures -MaxReal(0.0, mutation) <= d <= MaxReal(0.0, mutation)
  {
    var scale := MaxReal(0.0, mutation);
    if scale == 0.0 then 0.0 else UnitTimes(Clamp(signal, -1.0, 1.0), scale)
  }

  /** A factor in [-1, 1] times a non-negative scale stays within the scale. */
  function UnitTimes(c: real, scale: real): (p: real)
    requires -1.0 <= c <= 1.0 && scale >= 0.0
    ensures -scale <= p <= scale
  {
    assert (1.0 - c) * scale >= 0.0;
    assert (1.0 + c) * scale >= 0.0;
    c * scale
  }

  /** A reversed signal gives the reversed shift. */
  lemma ScaledSignalOdd(signal: real, mutation: real)
    ensures ScaledSignal(-signal, mutation) == -ScaledSignal(signal, mutation)
  {
  }

  /** `habitatPreferenceDeltaFromMutation`: driven by the harvest gain and the metabolism saving. */
  function HabitatPreferenceDelta(parent: Genome, child: Genome, habitatPreferenceMutation: real): real
  {
    ScaledSignal((child.harvest - parent.harvest) * 0.65 + (parent.metabolism - child.metabolism) * 0.35,
                 habitatPreferenceMutation)
  }

  /** `trophicDeltaFromMutation`: driven by the aggression gain and the harvest loss. */
  function TrophicDelta(parent: Genome, child: Genome, trophicMutation: real): real
  {
    ScaledSignal((child.aggression - parent.aggression) * 0.7 + (parent.harvest - child.harvest) * 0.3,
                 trophicMutation)
  }

  /** `defenseDeltaFromMutation`: driven by the aggression loss and the metabolism gain. */
  function DefenseDelta(parent: Genome, child: Genome, defenseMutation: real): real
  {
    ScaledSignal((parent.aggression - child.aggression) * 0.65 + (child.metabolism - parent.metabolism) * 0.35,
                 defenseMutation)
  }

  /**
   * Each shift is bounded by its mutation scale, vanishes when the child has
   * the parent's genome, and reverses when parent and child swap places.
   */
  lemma TraitDeltas(parent: Genome, child: Genome, habitatMutation: real, trophicMutation: real,
                    defenseMutation: real)
    ensures AbsReal(HabitatPreferenceDelta(parent, child, habitatMutation)) <= MaxReal(0.0, habitatMutation)
    ensures AbsReal(TrophicDelta(parent, child, trophicMutation)) <= MaxReal(0.0, trophicMutation)
    ensures AbsReal(DefenseDelta(parent, child, defenseMutation)) <= MaxReal(0.0, defenseMutation)
    ensures parent == child ==>
      && HabitatPreferenceDelta(parent, child, habitatMutation) == 0.0
      && TrophicDelta(parent, child, trophicMutation) == 0.0
      && DefenseDelta(parent, child, defenseMutation) == 0.0
    ensures HabitatPreferenceDelta(child, parent, habitatMutation) == -HabitatPreferenceDelta(parent, child, habitatMutation)
    ensures TrophicDelta(child, parent, trophicMutation) == -TrophicDelta(parent, child, trophicMutation)
    ensures DefenseDelta(child, parent, defenseMutation) == -DefenseDelta(parent, child, defenseMutation)
  {
    var h := (child.harvest - parent.harvest) * 0.65 + (parent.metabolism - child.metabolism) * 0.35;
    var t := (child.aggression - parent.aggression) * 0.7 + (parent.harvest - child.harvest) * 0.3;
    var d := (parent.aggression - child.aggression) * 0.65 + (child.metabolism - parent.metabolism) * 0.35;
    ScaledSignalOdd(h, habitatMutation);
    ScaledSignalOdd(t, trophicMutation);
    ScaledSignalOdd(d, defenseMutation);
    assert (parent.harvest - child.harvest) * 0.65 + (child.metabolism - parent.metabolism) * 0.35 == -h;
    assert (parent.aggression - child.aggression) * 0.7 + (child.harvest - parent.harvest) * 0.3 == -t;
    assert (child.aggression - parent.aggression) * 0.65 + (parent.metabolism - child.metabolism) * 0.35 == -d;
  }

  const DefaultHabitatPreference: real := 1.0
  const DefaultTrophicLevel: real := 0.0
  const DefaultDefenseLevel: real := 0.0

  /** `map.get(species) ?? fallback`: what a trait getter returns. */
  function LookupOr(m: map<int, real>, species: int, fallback: real): real
  {
    if species in m then m[species] else fallback
  }

  /** Inserting the default for a missing species does not change any later lookup. */
  lemma DefaultInsertionInvisible(m: map<int, real>, species: int, fallback: real, other: int)
    ensures LookupOr(m[species := LookupOr(m, species, fallback)], other, fallback) == LookupOr(m, other, fallback)
  {
  }

  /** All values of a table lie in [lo, hi]. */
  ghost predicate Within(m: map<int, real>, lo: real, hi: real)
  {
    forall s :: s in m ==> lo <= m[s] <= hi
  }

  /**
   * The three trait tables and the next free species id.  Every stored
   * preference lies in [0.1, 2] and every level in [0, 1], as the clamps that
   * write them guarantee.
   */
  class SpeciesTraits {
    var habitatPreference: map<int, real>
    var trophicLevel: map<int, real>
    var defenseLevel: map<int, real>
    var nextSpeciesId: int

    ghost predicate Valid()
      reads this
    {
      && Within(habitatPreference, 0.1, 2.0)
      && Within(trophicLevel, 0.0, 1.0)
      && Within(defenseLevel, 0.0, 1.0)
    }

    /** The tables as the initialisers leave them (each value clamped into its range). */
    constructor(habitatPreference: map<int, real>, trophicLevel: map<int, real>, defenseLevel: map<int, real>,
                nextSpeciesId: int)
      requires Within(habitatPreference, 0.1, 2.0) && Within(trophicLevel, 0.0, 1.0)
      requires Within(defenseLevel, 0.0, 1.0)
      ensures Valid()
      ensures this.habitatPreference == habitatPreference && this.trophicLevel == trophicLevel
      ensures this.defenseLevel == defenseLevel && this.nextSpeciesId == nextSpeciesId
    {
      this.habitatPreference := habitatPreference;
      this.trophicLevel := trophicLevel;
      this.defenseLevel := defenseLevel;
      this.nextSpeciesId := nextSpeciesId;
    }

    /** `getSpeciesHabitatPreference`: the stored preference, or 1 stored and returned for an unknown species. */
    method GetSpeciesHabitatPreference(species: int) returns (v: real)
      requires Valid()
      modifies this
      ensures Valid()
      ensures v == LookupOr(old(habitatPreference), species, DefaultHabitatPreference) && 0.1 <= v <= 2.0
      ensures habitatPreference == old(habitatPreference)[species := v]
      ensures trophicLevel == old(trophicLevel) && defenseLevel == old(defenseLevel)
      ensures nextSpeciesId == old(nextSpeciesId)
    {
      if species in habitatPreference {
        v := habitatPreference[species];
        assert habitatPreference == habitatPreference[species := v];
      } else {
        v := DefaultHabitatPreference;
        habitatPreference := habitatPreference[species := v];
      }
    }

    /** `getSpeciesTrophicLevel`: the stored level, or 0 stored and returned for an unknown species. */
    method GetSpeciesTrophicLevel(species: int) returns (v: real)
      requires Valid()
      modifies this
      ensures Valid()
      ensures v == LookupOr(old(trophicLevel), species, DefaultTrophicLevel) && 0.0 <= v <= 1.0
      ensures trophicLevel == old(trophicLevel)[species := v]
      ensures habitatPreference == old(habitatPreference) && defenseLevel == old(defenseLevel)
      ensures nextSpeciesId == old(nextSpeciesId)
    {
      if species in trophicLevel {
        v := trophicLevel[species];
        assert trophicLevel == trophicLevel[species := v];
      } else {
        v := DefaultTrophicLevel;
        trophicLevel := trophicLevel[species := v];
      }
    }

    /** `getSpeciesDefenseLevel`: the stored level, or 0 stored and returned for an unknown species. */
    method GetSpeciesDefenseLevel(species: int) returns (v: real)
      requires Valid()
      modifies this
      ensures Valid()
      ensures v == LookupOr(old(defenseLevel), species, DefaultDefenseLevel) && 0.0 <= v <= 1.0
      ensures defenseLevel == old(defenseLevel)[species := v]
      ensures habitatPreference == old(habitatPreference) && trophicLevel == old(trophicLevel)
      ensures nextSpeciesId == old(nextSpeciesId)
    {
      if species in defenseLevel {
        v := defenseLevel[species];
        assert defenseLevel == defenseLevel[species := v];
      } else {
        v := DefaultDefenseLevel;
        defenseLevel := defenseLevel[species := v];
      }
    }

    /**
     * The species part of `reproduce`: a child that diverged from its parent
     * gets the next species id, and that species inherits the parent's three
     * traits shifted by the mutation and clamped (the parent's traits are read
     * through the defaulting getters); otherwise the child keeps the parent's
     * species and nothing changes.
     */
    method AssignChildSpecies(parentSpecies: int, parent: Genome, child: Genome, speciationThreshold: real,
                              habitatMutation: real, trophicMutation: real, defenseMutation: real)
      returns (childSpecies: int)
      requires Valid()
      modifies this
      ensures Valid()
      ensures !Diverged(parent, child, speciationThreshold) ==>
        && childSpecies == parentSpecies && nextSpeciesId == old(nextSpeciesId)
        && habitatPreference == old(habitatPreference) && trophicLevel == old(trophicLevel)
        && defenseLevel == old(defenseLevel)
      ensures Diverged(parent, child, speciationThreshold) ==>
        && childSpecies == old(nextSpeciesId) && nextSpeciesId == old(nextSpeciesId) + 1
        && habitatPreference == old(habitatPreference)
             [parentSpecies := LookupOr(old(habitatPreference), parentSpecies, DefaultHabitatPreference)]
             [childSpecies := Clamp(LookupOr(old(habitatPreference), parentSpecies, DefaultHabitatPreference)
                                    + HabitatPreferenceDelta(parent, child, habitatMutation), 0.1, 2.0)]
        && trophicLevel == old(trophicLevel)
             [parentSpecies := LookupOr(old(trophicLevel), parentSpecies, DefaultTrophicLevel)]
             [childSpecies := Clamp(LookupOr(old(trophicLevel), parentSpecies, DefaultTrophicLevel)
                                    + TrophicDelta(parent, child, trophicMutation), 0.0, 1.0)]
        && defenseLevel == old(defenseLevel)
             [parentSpecies := LookupOr(old(defenseLevel), parentSpecies, DefaultDefenseLevel)]
             [childSpecies := Clamp(LookupOr(old(defenseLevel), parentSpecies, DefaultDefenseLevel)
                                    + DefenseDelta(parent, child, defenseMutation), 0.0, 1.0)]
    {
      if !Diverged(parent, child, speciationThreshold) {
        return parentSpecies;
      }
      childSpecies := nextSpeciesId;
      nextSpeciesId := nextSpeciesId + 1;
      var parentPreference := GetSpeciesHabitatPreference(parentSpecies);
      habitatPreference := habitatPreference[childSpecies :=
        Clamp(parentPreference + HabitatPreferenceDelta(parent, child, habitatMutation), 0.1, 2.0)];
      var parentTrophic := GetSpeciesTrophicLevel(parentSpecies);
      trophicLevel := trophicLevel[childSpecies :=
        Clamp(parentTrophic + TrophicDelta(parent, child, trophicMutation), 0.0, 1.0)];
      var parentDefense := GetSpeciesDefenseLevel(parentSpecies);
      defenseLevel := defenseLevel[childSpecies :=
        Clamp(parentDefense + DefenseDelta(parent, child, defenseMutation), 0.0, 1.0)];
    }
  }
}
