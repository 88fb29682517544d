/**
 * `resolveEncounters`: living agents that share a cell fight once per tick.
 * The cell's dominant agent (highest aggression, then highest energy, earliest
 * in the agent list among equals) takes energy from every other agent on the
 * cell.  Agents are values here: the method returns the agent list with the
 * new energies.
 */
module Encounters {
  import opened Numbers
  import opened Types
  import Species
  import Counts

  /** The configuration and trait tables one encounter reads. */
  datatype Rules = Rules(
    trophicLevel: map<int, real>,
    defenseLevel: map<int, real>,
    predationPressure: real,
    defenseMitigation: real)

  /** Only agents with positive energy are grouped. */
  predicate Living(a: Agent) { a.energy > 0.0 }

  function CellOf(a: Agent): (int, int) { (a.x, a.y) }

  /**
   * `a` sorts strictly before `b` under the comparator
   * `b.aggression - a.aggression || b.energy - a.energy`.
   */
  predicate Outranks(a: Agent, b: Agent)
  {
    a.genome.aggression > b.genome.aggression
    || (a.genome.aggression == b.genome.aggression && a.energy > b.energy)
  }

  predicate Increasing(ms: seq<int>)
  {
    forall i, j :: 0 <= i < j < |ms| ==> ms[i] < ms[j]
  }

  predicate Indices(view: seq<Agent>, ms: seq<int>)
  {
    forall i :: 0 <= i < |ms| ==> 0 <= ms[i] < |view|
  }

  /**
   * `byCell.get(key)` after the first `n` agents were scanned: the indices of
   * the living agents on cell `k`, in list order.
   */
  function Members(agents: seq<Agent>, k: (int, int), n: nat): (ms: seq<int>)
    requires n <= |agents|
    ensures forall i :: 0 <= i < |ms| ==> 0 <= ms[i] < n
  {
    if n == 0 then []
    else
      var ms := Members(agents, k, n - 1);
      if Living(agents[n - 1]) && CellOf(agents[n - 1]) == k then ms + [n - 1] else ms
  }

  /** A cell's list holds exactly the living agents on it, each once, in list order. */
  lemma {:induction false} MembersOfCell(agents: seq<Agent>, k: (int, int), n: nat)
    requires n <= |agents|
    ensures forall j :: j in Members(agents, k, n) <==> 0 <= j < n && Living(agents[j]) && CellOf(agents[j]) == k
    ensures Increasing(Members(agents, k, n))
  {
    if n > 0 {
      MembersOfCell(agents, k, n - 1);
    }
  }

  /**
   * The position in `ms` of the agent a stable sort by the comparator puts
   * first: no member outranks it, and it outranks every member listed before it.
   */
  function HeadAt(view: seq<Agent>, ms: seq<int>): (p: nat)
    requires |ms| > 0 && Indices(view, ms)
    ensures p < |ms|
    ensures forall j :: 0 <= j < |ms| ==> !Outranks(view[ms[j]], view[ms[p]])
    ensures forall j :: 0 <= j < p ==> Outranks(view[ms[p]], view[ms[j]])
  {
    if |ms| == 1 then 0
    else
      var p := HeadAt(view, ms[..|ms| - 1]);
      if Outranks(view[ms[|ms| - 1]], view[ms[p]]) then |ms| - 1 else p
  }

  /** Non-negative factor of the theft: `pressure * 0.25 * predationMultiplier * defenseMultiplier`. */
  function StealRate(pressure: real, predationMultiplier: real, defenseMultiplier: real): (rate: real)
    requires pressure >= 0.0 && predationMultiplier >= 1.0 && defenseMultiplier >= 0.05
    ensures rate >= 0.0
    ensures pressure > 0.0 ==> rate > 0.0
  {
    var a := pressure * 0.25;
    var b := a * predationMultiplier;
    assert b >= a;
    var c := b * defenseMultiplier;
    assert a > 0.0 ==> c > 0.0;
    c
  }

  /** `target.energy * rate`, which stays non-negative and is positive for a positive rate. */
  function Share(energy: real, rate: real): (s: real)
    requires energy > 0.0 && rate >= 0.0
    ensures s >= 0.0 && (rate > 0.0 ==> s > 0.0)
  {
    energy * rate
  }

  /**
   * The energy the dominant takes from one target:
   * `min(target.energy, target.energy * pressure * 0.25 * predation * defense)`,
   * with the trophic and defence levels read through the defaulting getters.
   * From a living target it is between 0 and all of the target's energy, and
   * positive whenever the dominant is at least as aggressive as the target.
   */
  function Stolen(dominant: Agent, target: Agent, rules: Rules): (s: real)
    requires Living(target)
    ensures 0.0 <= s <= target.energy
    ensures dominant.genome.aggression + 0.1 > target.genome.aggression ==> s > 0.0
  {
    var pressure := MaxReal(0.0, dominant.genome.aggression - target.genome.aggression + 0.1);
    var trophicGap := Species.LookupOr(rules.trophicLevel, dominant.species, Species.DefaultTrophicLevel)
                      - Species.LookupOr(rules.trophicLevel, target.species, Species.DefaultTrophicLevel);
    var predationMultiplier := 1.0 + MaxReal(0.0, rules.predationPressure) * MaxReal(0.0, trophicGap);
    var mitigation := Clamp(rules.defenseMitigation, 0.0, 0.95);
    var defenseMultiplier :=
      MaxReal(0.05, 1.0 - mitigation * Species.LookupOr(rules.defenseLevel, target.species, Species.DefaultDefenseLevel));
    MinReal(target.energy, Share(target.energy, StealRate(pressure, predationMultiplier, defenseMultiplier)))
  }

  /** The theft depends on the dominant's aggression and species, not on its energy. */
  lemma StolenIgnoresDominantEnergy(dominant: Agent, target: Agent, rules: Rules, energy: real)
    requires Living(target)
    ensures Stolen(dominant.(energy := energy), target, rules) == Stolen(dominant, target, rules)
  {
  }

  /** What dominant `d` takes from the members of `ms` other than itself. */
  function Gains(view: seq<Agent>, d: int, ms: seq<int>, rules: Rules): real
    requires 0 <= d < |view| && Indices(view, ms)
    requires forall i :: 0 <= i < |ms| ==> Living(view[ms[i]])
  {
    if |ms| == 0 then 0.0
    else
      var m := ms[|ms| - 1];
      Gains(view, d, ms[..|ms| - 1], rules) + (if m == d then 0.0 else Stolen(view[d], view[m], rules))
  }

  /** The energy member `m` of a cell ends with when `d` is the cell's dominant. */
  function Settled(view: seq<Agent>, ms: seq<int>, d: int, m: int, rules: Rules): real
    requires 0 <= d < |view| && 0 <= m < |view| && Indices(view, ms)
    requires Living(view[m]) && forall i :: 0 <= i < |ms| ==> Living(view[ms[i]])
  {
    if m == d then view[d].energy + Gains(view, d, ms, rules)
    else view[m].energy - Stolen(view[d], view[m], rules)
  }

  /** The dominant of the cell `k`, given that some living agent stands on it. */
  function Dominant(agents: seq<Agent>, k: (int, int)): (d: int)
    requires |Members(agents, k, |agents|)| > 0
    ensures d in Members(agents, k, |agents|)
  {
    var ms := Members(agents, k, |agents|);
    ms[HeadAt(agents, ms)]
  }

  /** An agent's energy after the encounters of the tick. */
  function EnergyAfter(agents: seq<Agent>, i: int, rules: Rules): real
    requires 0 <= i < |agents|
  {
    var a := agents[i];
    if !Living(a) then a.energy
    else
      var ms := Members(agents, CellOf(a), |agents|);
      MembersOfCell(agents, CellOf(a), |agents|);
      Settled(agents, ms, Dominant(agents, CellOf(a)), i, rules)
  }

  /** The agent list after `resolveEncounters`: only energies differ. */
  function Resolved(agents: seq<Agent>, rules: Rules): (r: seq<Agent>)
    ensures |r| == |agents|
    ensures forall i :: 0 <= i < |r| ==> r[i] == agents[i].(energy := EnergyAfter(agents, i, rules))
  {
    seq(|agents|, i requires 0 <= i < |agents| => agents[i].(energy := EnergyAfter(agents, i, rules)))
  }

  /** Agent `j` once the cells outside `remaining` are settled. */
  function Expected(agents: seq<Agent>, remaining: set<(int, int)>, j: int, rules: Rules): Agent
    requires 0 <= j < |agents|
  {
    if Living(agents[j]) && CellOf(agents[j]) !in remaining
    then agents[j].(energy := EnergyAfter(agents, j, rules))
    else agents[j]
  }

  /** The loop state of `resolveEncounters`: exactly the cells outside `remaining` are settled. */
  ghost predicate SettledOutside(agents: seq<Agent>, remaining: set<(int, int)>, resolved: seq<Agent>, rules: Rules)
  {
    |resolved| == |agents| && forall j :: 0 <= j < |agents| ==> resolved[j] == Expected(agents, remaining, j, rules)
  }

  /** `byCell` lists, for every occupied cell, its living agents in list order. */
  ghost predicate Grouped(agents: seq<Agent>, byCell: map<(int, int), seq<int>>)
  {
    && (forall k :: k in byCell ==> byCell[k] == Members(agents, k, |agents|) && |byCell[k]| > 0)
    && (forall j :: 0 <= j < |agents| && Living(agents[j]) ==> CellOf(agents[j]) in byCell)
  }

  /**
   * `resolveEncounters`: group the living agents by cell, then, in every cell
   * shared by two or more, let the dominant take `Stolen` from each of the others.
   */
  method ResolveEncounters(agents: seq<Agent>, rules: Rules) returns (resolved: seq<Agent>)
    ensures resolved == Resolved(agents, rules)
  {
    var byCell := GroupByCell(agents);
    resolved := agents;
    var remaining := byCell.Keys;
    assert SettledOutside(agents, remaining, resolved, rules);
    while |remaining| > 0
      invariant remaining <= byCell.Keys && SettledOutside(agents, remaining, resolved, rules)
      decreases |remaining|
    {
      resolved, remaining := ResolveNextCell(agents, byCell, remaining, resolved, rules);
    }
    assert forall j :: 0 <= j < |agents| ==> resolved[j] == Expected(agents, {}, j, rules);
  }

  /** The scan that builds `byCell`. */
  method GroupByCell(agents: seq<Agent>) returns (byCell: map<(int, int), seq<int>>)
    ensures Grouped(agents, byCell)
  {
    byCell := map[];
    var i := 0;
    while i < |agents|
      invariant 0 <= i <= |agents| && GroupedUpTo(agents, byCell, i)
    {
      byCell := GroupOne(agents, byCell, i);
      i := i + 1;
    }
  }

  /** `byCell` after the first `i` agents were scanned. */
  ghost predicate GroupedUpTo(agents: seq<Agent>, byCell: map<(int, int), seq<int>>, i: nat)
    requires i <= |agents|
  {
    && (forall k :: k in byCell ==> byCell[k] == Members(agents, k, i) && |byCell[k]| > 0)
    && (forall k :: k !in byCell ==> Members(agents, k, i) == [])
    && (forall j :: 0 <= j < i && Living(agents[j]) ==> CellOf(agents[j]) in byCell)
  }

  /** One agent of the scan: a living agent is appended to its cell's list, created on first use. */
  method GroupOne(agents: seq<Agent>, byCell: map<(int, int), seq<int>>, i: nat)
    returns (byCell': map<(int, int), seq<int>>)
    requires i < |agents| && GroupedUpTo(agents, byCell, i)
    ensures GroupedUpTo(agents, byCell', i + 1)
  {
    byCell' := byCell;
    var a := agents[i];
    if Living(a) {
      var key := CellOf(a);
      if key !in byCell' {
        byCell' := byCell'[key := []];
      }
      byCell' := byCell'[key := byCell'[key] + [i]];
    }
  }

  /** One iteration over `byCell.values()`: the cells are disjoint, so any order gives the same result. */
  method ResolveNextCell(agents: seq<Agent>, byCell: map<(int, int), seq<int>>, remaining: set<(int, int)>,
                         resolved: seq<Agent>, rules: Rules)
    returns (resolved': seq<Agent>, remaining': set<(int, int)>)
    requires Grouped(agents, byCell) && |remaining| > 0 && remaining <= byCell.Keys
    requires SettledOutside(agents, remaining, resolved, rules)
    ensures remaining' <= remaining && |remaining'| < |remaining|
    ensures SettledOutside(agents, remaining', resolved', rules)
  {
    var k :| k in remaining;
    var members := byCell[k];
    UnsettledCell(agents, byCell, remaining, resolved, rules, k);
    if |members| >= 2 {
      resolved' := ResolveCell(resolved, members, rules);
    } else {
      resolved' := resolved;
    }
    remaining' := remaining - {k};
    CellSettles(agents, byCell, remaining, resolved, rules, k, resolved');
  }

  /** The members of a cell still to settle are as they were, living, and on that cell. */
  lemma UnsettledCell(agents: seq<Agent>, byCell: map<(int, int), seq<int>>, remaining: set<(int, int)>,
                      resolved: seq<Agent>, rules: Rules, k: (int, int))
    requires Grouped(agents, byCell) && remaining <= byCell.Keys && k in remaining
    requires SettledOutside(agents, remaining, resolved, rules)
    ensures |byCell[k]| > 0 && Indices(resolved, byCell[k]) && Increasing(byCell[k])
    ensures forall i :: 0 <= i < |byCell[k]| ==> Living(resolved[byCell[k][i]])
    ensures forall i :: 0 <= i < |byCell[k]| ==> resolved[byCell[k][i]] == agents[byCell[k][i]]
  {
    MembersOfCell(agents, k, |agents|);
    var ms := byCell[k];
    forall i | 0 <= i < |ms|
      ensures resolved[ms[i]] == agents[ms[i]] && Living(agents[ms[i]])
    {
      assert ms[i] in ms;
    }
  }

  /** After settling cell `k` (or leaving a lone agent alone) the cells outside `remaining - {k}` are settled. */
  lemma CellSettles(agents: seq<Agent>, byCell: map<(int, int), seq<int>>, remaining: set<(int, int)>,
                    resolved: seq<Agent>, rules: Rules, k: (int, int), resolved': seq<Agent>)
    requires Grouped(agents, byCell) && remaining <= byCell.Keys && k in remaining
    requires SettledOutside(agents, remaining, resolved, rules)
    requires |byCell[k]| > 0 && Indices(resolved, byCell[k])
    requires forall i :: 0 <= i < |byCell[k]| ==> Living(resolved[byCell[k][i]])
    requires forall i :: 0 <= i < |byCell[k]| ==> resolved[byCell[k][i]] == agents[byCell[k][i]]
    requires |resolved'| == |resolved|
    requires forall j :: 0 <= j < |resolved| ==>
               resolved'[j] == (if j in byCell[k] && |byCell[k]| >= 2
                                then resolved[j].(energy := Settled(resolved, byCell[k], byCell[k][HeadAt(resolved, byCell[k])], j, rules))
                                else resolved[j])
    ensures SettledOutside(agents, remaining - {k}, resolved', rules)
  {
    var ms := byCell[k];
    MembersOfCell(agents, k, |agents|);
    forall j | 0 <= j < |agents|
      ensures resolved'[j] == Expected(agents, remaining - {k}, j, rules)
    {
      if Living(agents[j]) && CellOf(agents[j]) == k {
        MemberSettles(agents, resolved, ms, k, j, rules);
      } else {
        assert j !in ms;
      }
    }
  }

  /** A member of cell `k` ends with the energy `EnergyAfter` gives it. */
  lemma MemberSettles(agents: seq<Agent>, resolved: seq<Agent>, ms: seq<int>, k: (int, int), j: int, rules: Rules)
    requires ms == Members(agents, k, |agents|) && |resolved| == |agents|
    requires 0 <= j < |agents| && Living(agents[j]) && CellOf(agents[j]) == k
    requires forall i :: 0 <= i < |ms| ==> Living(resolved[ms[i]])
    requires forall i :: 0 <= i < |ms| ==> resolved[ms[i]] == agents[ms[i]]
    ensures j in ms && resolved[j] == agents[j]
    ensures EnergyAfter(agents, j, rules)
            == if |ms| >= 2 then Settled(resolved, ms, ms[HeadAt(resolved, ms)], j, rules) else resolved[j].energy
  {
    MembersOfCell(agents, k, |agents|);
    var i :| 0 <= i < |ms| && ms[i] == j;
    EnergyAfterInCell(agents, k, j, rules);
    HeadAtFrame(resolved, agents, ms);
    var d := Dominant(agents, k);
    if |ms| < 2 {
      assert ms == [j];
      LoneSettles(agents, j, rules);
    } else {
      GainsFrame(resolved, agents, d, ms, rules);
      SettledFrame(resolved, agents, ms, d, j, rules);
    }
  }

  /** A living agent's energy after the encounters is its settlement in its own cell. */
  lemma EnergyAfterInCell(agents: seq<Agent>, k: (int, int), j: int, rules: Rules)
    requires 0 <= j < |agents| && Living(agents[j]) && CellOf(agents[j]) == k
    ensures var ms := Members(agents, k, |agents|);
      && j in ms && Indices(agents, ms) && (forall i :: 0 <= i < |ms| ==> Living(agents[ms[i]]))
      && EnergyAfter(agents, j, rules) == Settled(agents, ms, Dominant(agents, k), j, rules)
  {
    MembersOfCell(agents, k, |agents|);
  }

  /** An agent alone in its cell keeps its energy. */
  lemma LoneSettles(view: seq<Agent>, j: int, rules: Rules)
    requires 0 <= j < |view| && Living(view[j])
    ensures Indices(view, [j])
    ensures Settled(view, [j], j, j, rules) == view[j].energy
  {
    assert Gains(view, j, [j], rules) == Gains(view, j, [], rules) + 0.0;
  }

  /** A member's settlement reads only the member, the dominant and the dominant's takings. */
  lemma SettledFrame(v: seq<Agent>, w: seq<Agent>, ms: seq<int>, d: int, j: int, rules: Rules)
    requires 0 <= d < |v| && 0 <= j < |v| && Indices(v, ms) && |v| == |w|
    requires Living(v[j]) && forall i :: 0 <= i < |ms| ==> Living(v[ms[i]]) && v[ms[i]] == w[ms[i]]
    requires v[d] == w[d] && v[j] == w[j]
    requires Gains(v, d, ms, rules) == Gains(w, d, ms, rules)
    ensures Settled(v, ms, d, j, rules) == Settled(w, ms, d, j, rules)
  {
  }

  /** The head of a cell reads only the cell's members. */
  lemma {:induction false} HeadAtFrame(v: seq<Agent>, w: seq<Agent>, ms: seq<int>)
    requires |ms| > 0 && Indices(v, ms) && |v| == |w|
    requires forall i :: 0 <= i < |ms| ==> v[ms[i]] == w[ms[i]]
    ensures HeadAt(v, ms) == HeadAt(w, ms)
  {
    if |ms| > 1 {
      HeadAtFrame(v, w, ms[..|ms| - 1]);
    }
  }

  /** The dominant's takings read only the cell's members and the dominant. */
  lemma {:induction false} GainsFrame(v: seq<Agent>, w: seq<Agent>, d: int, ms: seq<int>, rules: Rules)
    requires 0 <= d < |v| && Indices(v, ms) && |v| == |w| && v[d] == w[d]
    requires forall i :: 0 <= i < |ms| ==> Living(v[ms[i]]) && v[ms[i]] == w[ms[i]]
    ensures Gains(v, d, ms, rules) == Gains(w, d, ms, rules)
  {
    if |ms| > 0 {
      GainsFrame(v, w, d, ms[..|ms| - 1], rules);
    }
  }

  /** `agentsInCell.sort(...)[0]`: the scan keeps the first member no later member outranks. */
  method FindDominant(view: seq<Agent>, ms: seq<int>) returns (p: nat)
    requires |ms| > 0 && Indices(view, ms)
    ensures p == HeadAt(view, ms)
  {
    p := 0;
    var j := 1;
    while j < |ms|
      invariant 1 <= j <= |ms| && p == HeadAt(view, ms[..j])
    {
      assert ms[..j + 1][..j] == ms[..j];
      if Outranks(view[ms[j]], view[ms[p]]) {
        p := j;
      }
      j := j + 1;
    }
    assert ms[..|ms|] == ms;
  }

  /** One shared cell: the dominant found, then each other member robbed in turn. */
  method ResolveCell(view: seq<Agent>, ms: seq<int>, rules: Rules) returns (next: seq<Agent>)
    requires |ms| > 0 && Indices(view, ms) && Increasing(ms)
    requires forall i :: 0 <= i < |ms| ==> Living(view[ms[i]])
    ensures |next| == |view|
    ensures forall j :: 0 <= j < |view| ==>
              next[j] == (if j in ms then view[j].(energy := Settled(view, ms, ms[HeadAt(view, ms)], j, rules))
                          else view[j])
  {
    var p := FindDominant(view, ms);
    var d := ms[p];
    next := view;
    var t := 0;
    while t < |ms|
      invariant 0 <= t <= |ms|
      invariant Robbed(view, ms, d, t, next, rules)
    {
      next := RobOne(view, ms, d, t, next, rules);
      t := t + 1;
    }
    assert ms[..|ms|] == ms;
  }

  /** The cell after its first `t` members were visited. */
  ghost predicate Robbed(view: seq<Agent>, ms: seq<int>, d: int, t: nat, next: seq<Agent>, rules: Rules)
    requires 0 <= d < |view| && Indices(view, ms) && t <= |ms|
    requires forall i :: 0 <= i < |ms| ==> Living(view[ms[i]])
  {
    && |next| == |view|
    && next[d] == view[d].(energy := view[d].energy + Gains(view, d, ms[..t], rules))
    && forall j :: 0 <= j < |view| && j != d ==>
         next[j] == (if j in ms[..t] then view[j].(energy := view[j].energy - Stolen(view[d], view[j], rules))
                     else view[j])
  }

  /** One target: `stolen` moves from the target to the dominant, unless it is not positive. */
  method RobOne(view: seq<Agent>, ms: seq<int>, d: int, t: nat, next: seq<Agent>, rules: Rules)
    returns (next': seq<Agent>)
    requires 0 <= d < |view| && Indices(view, ms) && Increasing(ms) && t < |ms|
    requires forall i :: 0 <= i < |ms| ==> Living(view[ms[i]])
    requires Robbed(view, ms, d, t, next, rules)
    ensures Robbed(view, ms, d, t + 1, next', rules)
  {
    next' := next;
    var m := ms[t];
    assert ms[..t + 1] == ms[..t] + [m];
    if m != d {
      assert m !in ms[..t];
      var target := next'[m];
      StolenIgnoresDominantEnergy(view[d], target, rules, next'[d].energy);
      var stolen := Stolen(next'[d], target, rules);
      if stolen > 0.0 {
        next' := next'[m := target.(energy := target.energy - stolen)];
        next' := next'[d := next'[d].(energy := next'[d].energy + stolen)];
      }
    }
  }

  /** The energy held by the agents `ms` of a view. */
  function EnergySum(view: seq<Agent>, ms: seq<int>): real
    requires Indices(view, ms)
  {
    if |ms| == 0 then 0.0 else EnergySum(view, ms[..|ms| - 1]) + view[ms[|ms| - 1]].energy
  }

  /** What the members `ms` of cell `cell` hold once settled with dominant `d`. */
  function SettledSum(view: seq<Agent>, cell: seq<int>, d: int, ms: seq<int>, rules: Rules): real
    requires 0 <= d < |view| && Indices(view, cell) && Indices(view, ms)
    requires forall i :: 0 <= i < |cell| ==> Living(view[cell[i]])
    requires forall i :: 0 <= i < |ms| ==> Living(view[ms[i]])
  {
    if |ms| == 0 then 0.0
    else SettledSum(view, cell, d, ms[..|ms| - 1], rules) + Settled(view, cell, d, ms[|ms| - 1], rules)
  }

  /**
   * Over a prefix of the cell, the settled energies are the old ones minus
   * what was taken from the prefix, plus the dominant's whole takings once
   * the dominant is in the prefix.
   */
  lemma {:induction false} SettledSumSplit(view: seq<Agent>, cell: seq<int>, d: int, n: nat, rules: Rules)
    requires 0 <= d < |view| && Indices(view, cell) && Increasing(cell) && n <= |cell|
    requires forall i :: 0 <= i < |cell| ==> Living(view[cell[i]])
    ensures SettledSum(view, cell, d, cell[..n], rules)
            == EnergySum(view, cell[..n]) - Gains(view, d, cell[..n], rules)
               + (if d in cell[..n] then Gains(view, d, cell, rules) else 0.0)
  {
    if n > 0 {
      var p := cell[..n];
      assert p[..n - 1] == cell[..n - 1];
      SettledSumSplit(view, cell, d, n - 1, rules);
      if cell[n - 1] == d {
        assert d !in cell[..n - 1];
      } else {
        assert (d in p) == (d in cell[..n - 1]);
      }
    }
  }

  /** Summing energies that are the settled ones gives the settled sum. */
  lemma {:induction false} SumOfSettled(r: seq<Agent>, view: seq<Agent>, cell: seq<int>, d: int, n: nat, rules: Rules)
    requires 0 <= d < |view| && Indices(view, cell) && |r| == |view| && n <= |cell|
    requires forall i :: 0 <= i < |cell| ==> Living(view[cell[i]])
    requires forall i :: 0 <= i < |cell| ==> r[cell[i]].energy == Settled(view, cell, d, cell[i], rules)
    ensures EnergySum(r, cell[..n]) == SettledSum(view, cell, d, cell[..n], rules)
  {
    if n > 0 {
      assert cell[..n][..n - 1] == cell[..n - 1];
      SumOfSettled(r, view, cell, d, n - 1, rules);
    }
  }

  /** A member of an occupied cell is living and settles against the cell's dominant. */
  lemma CellMembersSettle(agents: seq<Agent>, k: (int, int), rules: Rules)
    requires |Members(agents, k, |agents|)| > 0
    ensures var cell := Members(agents, k, |agents|);
            forall i :: 0 <= i < |cell| ==> Living(agents[cell[i]])
    ensures var cell := Members(agents, k, |agents|);
            forall i :: 0 <= i < |cell| ==>
              Resolved(agents, rules)[cell[i]].energy == Settled(agents, cell, Dominant(agents, k), cell[i], rules)
  {
    var cell := Members(agents, k, |agents|);
    MembersOfCell(agents, k, |agents|);
    forall i | 0 <= i < |cell|
      ensures Living(agents[cell[i]])
      ensures Resolved(agents, rules)[cell[i]].energy == Settled(agents, cell, Dominant(agents, k), cell[i], rules)
    {
      assert cell[i] in cell;
    }
  }

  /** `resolveEncounters` moves energy between the agents of a cell and never creates or destroys any. */
  lemma CellEnergyConserved(agents: seq<Agent>, k: (int, int), rules: Rules)
    ensures var cell := Members(agents, k, |agents|);
            EnergySum(Resolved(agents, rules), cell) == EnergySum(agents, cell)
  {
    var cell := Members(agents, k, |agents|);
    if |cell| > 0 {
      MembersOfCell(agents, k, |agents|);
      CellMembersSettle(agents, k, rules);
      SumOfSettled(Resolved(agents, rules), agents, cell, Dominant(agents, k), |cell|, rules);
      SettledSumSplit(agents, cell, Dominant(agents, k), |cell|, rules);
      assert cell[..|cell|] == cell;
    }
  }

  /** Agent `i` is its cell's dominant. */
  predicate IsDominant(agents: seq<Agent>, i: int)
    requires 0 <= i < |agents|
  {
    Living(agents[i])
    && (MembersOfCell(agents, CellOf(agents[i]), |agents|);
        i == Dominant(agents, CellOf(agents[i])))
  }

  /**
   * The dominant is the agent the stable sort puts first: no cell-mate
   * outranks it, and it outranks every cell-mate listed before it.
   */
  lemma DominantIsSortHead(agents: seq<Agent>, k: (int, int))
    requires |Members(agents, k, |agents|)| > 0
    ensures forall m :: m in Members(agents, k, |agents|) ==> !Outranks(agents[m], agents[Dominant(agents, k)])
    ensures forall m :: m in Members(agents, k, |agents|) && m < Dominant(agents, k) ==>
              Outranks(agents[Dominant(agents, k)], agents[m])
  {
    var cell := Members(agents, k, |agents|);
    MembersOfCell(agents, k, |agents|);
    var p := HeadAt(agents, cell);
    forall m | m in cell
      ensures !Outranks(agents[m], agents[cell[p]])
      ensures m < cell[p] ==> Outranks(agents[cell[p]], agents[m])
    {
      var j :| 0 <= j < |cell| && cell[j] == m;
      if m < cell[p] {
        assert j < p;
      }
    }
  }

  lemma {:induction false} GainsNonNegative(view: seq<Agent>, d: int, ms: seq<int>, rules: Rules)
    requires 0 <= d < |view| && Indices(view, ms)
    requires forall i :: 0 <= i < |ms| ==> Living(view[ms[i]])
    ensures Gains(view, d, ms, rules) >= 0.0
  {
    if |ms| > 0 {
      GainsNonNegative(view, d, ms[..|ms| - 1], rules);
    }
  }

  /**
   * What one agent gets from the encounters: a dead agent and a lone agent
   * keep their energy, the dominant of a shared cell never loses, and every
   * other living agent loses a positive amount but never more than it had.
   * So only a dominant can gain.
   */
  lemma EncounterOutcome(agents: seq<Agent>, i: int, rules: Rules)
    requires 0 <= i < |agents|
    ensures !Living(agents[i]) ==> EnergyAfter(agents, i, rules) == agents[i].energy
    ensures Living(agents[i]) && |Members(agents, CellOf(agents[i]), |agents|)| == 1 ==>
              EnergyAfter(agents, i, rules) == agents[i].energy
    ensures IsDominant(agents, i) ==> EnergyAfter(agents, i, rules) >= agents[i].energy
    ensures Living(agents[i]) && !IsDominant(agents, i) ==>
              0.0 <= EnergyAfter(agents, i, rules) < agents[i].energy
    ensures EnergyAfter(agents, i, rules) > agents[i].energy ==> IsDominant(agents, i)
  {
    if Living(agents[i]) {
      var k := CellOf(agents[i]);
      var cell := Members(agents, k, |agents|);
      MembersOfCell(agents, k, |agents|);
      var d := Dominant(agents, k);
      assert forall j :: 0 <= j < |cell| ==> cell[j] in cell;
      GainsNonNegative(agents, d, cell, rules);
      if |cell| == 1 {
        assert cell == [i];
        assert Gains(agents, i, cell, rules) == Gains(agents, i, [], rules) + 0.0;
      }
      if i != d {
        DominantIsSortHead(agents, k);
        assert !Outranks(agents[i], agents[d]);
      }
    }
  }
}
