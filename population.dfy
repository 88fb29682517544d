/**
 * The bookkeeping at the end of a tick: which agents survive, how many died,
 * and the diversity figures of the survivors.
 */
module Population {
  import opened Types
  import opened Counts
  import Stats

  /** An agent survives the tick when it still has energy and is not past the age limit. */
  predicate Survives(a: Agent, maxAge: int)
  {
    a.energy > 0.0 && a.age <= maxAge
  }

  /** The agents that survive, in list order. */
  function Survivors(s: seq<Agent>, maxAge: int): seq<Agent>
  {
    if |s| == 0 then []
    else Survivors(s[..|s| - 1], maxAge) + (if Survives(s[|s| - 1], maxAge) then [s[|s| - 1]] else [])
  }

  /** The agents that die, in list order. */
  function Casualties(s: seq<Agent>, maxAge: int): seq<Agent>
  {
    if |s| == 0 then []
    else Casualties(s[..|s| - 1], maxAge) + (if Survives(s[|s| - 1], maxAge) then [] else [s[|s| - 1]])
  }

  /** Every agent lands in exactly one of the two lists. */
  lemma {:induction false} PartitionSplits(s: seq<Agent>, maxAge: int)
    ensures multiset(Survivors(s, maxAge)) + multiset(Casualties(s, maxAge)) == multiset(s)
  {
    if |s| > 0 {
      var p := s[..|s| - 1];
      PartitionSplits(p, maxAge);
      assert s == p + [s[|s| - 1]];
    }
  }

  /** The two lists together are as long as the population. */
  lemma PartitionSizes(s: seq<Agent>, maxAge: int)
    ensures |Survivors(s, maxAge)| + |Casualties(s, maxAge)| == |s|
  {
    PartitionSplits(s, maxAge);
    assert |multiset(Survivors(s, maxAge)) + multiset(Casualties(s, maxAge))| == |multiset(s)|;
  }

  /** The survivors all survive and the casualties all die. */
  lemma {:induction false} PartitionSides(s: seq<Agent>, maxAge: int)
    ensures forall a :: a in Survivors(s, maxAge) ==> a in s && Survives(a, maxAge)
    ensures forall a :: a in Casualties(s, maxAge) ==> a in s && !Survives(a, maxAge)
  {
    if |s| > 0 {
      var p := s[..|s| - 1];
      PartitionSides(p, maxAge);
      assert forall a :: a in p ==> a in s;
    }
  }

  /**
   * The mortality pass of `step`: one scan that sends every agent to the
   * survivors or to the dead.
   */
  method PartitionByMortality(agents: seq<Agent>, maxAge: int) returns (survivors: seq<Agent>, dead: seq<Agent>)
    ensures survivors == Survivors(agents, maxAge) && dead == Casualties(agents, maxAge)
  {
    survivors, dead := [], [];
    var i := 0;
    while i < |agents|
      invariant 0 <= i <= |agents|
      invariant survivors == Survivors(agents[..i], maxAge) && dead == Casualties(agents[..i], maxAge)
    {
      assert agents[..i + 1][..i] == agents[..i];
      var agent := agents[i];
      if Survives(agent, maxAge) {
        survivors := survivors + [agent];
      } else {
        dead := dead + [agent];
      }
      i := i + 1;
    }
    assert agents[..|agents|] == agents;
  }

  /**
   * The step summary's `deaths = beforeCount + births - afterCount`: with the
   * offspring appended to the population before the mortality pass, it is the
   * number of agents that died.
   */
  lemma DeathsCountTheDead(population: seq<Agent>, offspring: seq<Agent>, maxAge: int)
    ensures |population| + |offspring| - |Survivors(population + offspring, maxAge)|
            == |Casualties(population + offspring, maxAge)|
  {
    PartitionSizes(population + offspring, maxAge);
  }

  /** The diversity figures of `diversityMetrics`. */
  datatype Diversity = Diversity(activeClades: nat, activeSpecies: nat, dominantSpeciesShare: real)

  /** The lineages present. */
  function Clades(agents: seq<Agent>): set<int>
  {
    set i | 0 <= i < |agents| :: agents[i].lineage
  }

  /** The species present. */
  function SpeciesPresent(agents: seq<Agent>): set<int>
  {
    set i | 0 <= i < |agents| :: agents[i].species
  }

  /** The species tally holds exactly the species present. */
  lemma TallyKeys(counts: Counts, agents: seq<Agent>)
    requires IsTally(counts, agents, SpeciesOf)
    ensures counts.Keys == SpeciesPresent(agents)
  {
    forall k
      ensures k in counts <==> k in SpeciesPresent(agents)
    {
      OccurrencesPositive(agents, SpeciesOf, k);
    }
  }

  /**
   * `diversityMetrics`: for an empty population all zero; otherwise the number
   * of lineages present, the number of species present, and the share of the
   * population held by the most numerous species, which lies in (0, 1].
   */
  method DiversityMetrics(agents: seq<Agent>) returns (d: Diversity)
    ensures |agents| == 0 ==> d == Diversity(0, 0, 0.0)
    ensures |agents| > 0 ==>
      && d.activeClades == |Clades(agents)|
      && d.activeSpecies == |SpeciesPresent(agents)|
      && (exists k :: k in SpeciesPresent(agents)
                      && d.dominantSpeciesShare == Occurrences(agents, SpeciesOf, k) as real / |agents| as real)
      && (forall k :: Occurrences(agents, SpeciesOf, k) as real / |agents| as real <= d.dominantSpeciesShare)
      && 0.0 < d.dominantSpeciesShare <= 1.0
  {
    if |agents| == 0 {
      return Diversity(0, 0, 0.0);
    }
    var clades: set<int> := {};
    var speciesCounts: Counts := map[];
    var i := 0;
    while i < |agents|
      invariant 0 <= i <= |agents|
      invariant clades == Clades(agents[..i])
      invariant IsTally(speciesCounts, agents[..i], SpeciesOf)
    {
      assert agents[..i + 1] == agents[..i] + [agents[i]];
      TallyAppend(speciesCounts, agents[..i], agents[i], SpeciesOf);
      clades := clades + {agents[i].lineage};
      speciesCounts := Bump(speciesCounts, agents[i].species);
      i := i + 1;
    }
    assert agents[..|agents|] == agents;
    TallyKeys(speciesCounts, agents);
    TallyEmpty(speciesCounts, agents, SpeciesOf);
    var dominantCount := LargestCount(speciesCounts);
    var k :| k in speciesCounts && speciesCounts[k] == dominantCount;
    TallyPositive(speciesCounts, agents, SpeciesOf, k);
    d := Diversity(|clades|, |speciesCounts|, dominantCount as real / |agents| as real);
    ShareBounds(agents, speciesCounts, dominantCount);
  }

  /** `Math.max(...counts.values())`: the largest count of a non-empty tally. */
  method LargestCount(counts: Counts) returns (c: nat)
    requires |counts| > 0
    ensures exists k :: k in counts && counts[k] == c
    ensures forall k :: k in counts ==> counts[k] <= c
  {
    SetHasElement(counts.Keys);
    var first :| first in counts;
    c := counts[first];
    var remaining := counts.Keys - {first};
    while |remaining| > 0
      invariant remaining <= counts.Keys
      invariant exists k :: k in counts && counts[k] == c
      invariant forall k :: k in counts && k !in remaining ==> counts[k] <= c
      decreases |remaining|
    {
      SetHasElement(remaining);
      var k :| k in remaining;
      if counts[k] > c {
        c := counts[k];
      }
      remaining := remaining - {k};
    }
  }

  /** The dominant share is a fraction of the population no species exceeds. */
  lemma ShareBounds(agents: seq<Agent>, counts: Counts, c: nat)
    requires |agents| > 0 && IsTally(counts, agents, SpeciesOf)
    requires exists k :: k in counts && counts[k] == c
    requires forall k :: k in counts ==> counts[k] <= c
    ensures forall k :: Occurrences(agents, SpeciesOf, k) as real / |agents| as real <= c as real / |agents| as real
    ensures 0.0 < c as real / |agents| as real <= 1.0
  {
    var n := |agents| as real;
    var k0 :| k0 in counts && counts[k0] == c;
    assert 0 < c <= |agents|;
    Stats.FractionOfWhole(c as real, n);
    forall k
      ensures Occurrences(agents, SpeciesOf, k) as real / n <= c as real / n
    {
      assert Occurrences(agents, SpeciesOf, k) <= c by {
        if k !in counts {
          OccurrencesPositive(agents, SpeciesOf, k);
        }
      }
      Stats.DivideMonotone(Occurrences(agents, SpeciesOf, k) as real, c as real, n);
    }
  }
}
