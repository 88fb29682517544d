/**
 * Locality analytics: per-cell species tallies, the dominant species of a cell and
 * of its Manhattan neighbourhood, the per-tick locality frame, and the
 * frame-to-frame dominant turnover over a window of ticks.
 */
module Locality {
  import opened Counts
  import opened Grid
  import opened Stats
  import opened Types
  import opened Windows

  /** What `describeSpeciesCounts` reports about one tally. */
  datatype SpeciesStats = SpeciesStats(dominantSpecies: int, dominantCount: nat, totalPopulation: nat)

  /**
   * `st` describes `counts`: its total is the sum of the counts and its dominant
   * count the largest count; an empty tally gives 0/0/0; otherwise the dominant
   * species is a key holding the largest count, and, when 0 is not a key, the
   * smallest such key.
   */
  ghost predicate Describes(counts: Counts, st: SpeciesStats)
  {
    && st.totalPopulation == Total(counts)
    && (forall k :: k in counts ==> counts[k] <= st.dominantCount)
    && (|counts| == 0 ==> st == SpeciesStats(0, 0, 0))
    && (|counts| > 0 ==> st.dominantSpecies in counts && counts[st.dominantSpecies] == st.dominantCount)
    && (0 !in counts ==>
          forall k :: k in counts && counts[k] == st.dominantCount ==> st.dominantSpecies <= k)
  }

  /**
   * Loop state of `describeSpeciesCounts` once the keys outside `remaining` have
   * been visited.
   */
  ghost predicate DescribesVisited(counts: Counts, remaining: set<int>, st: SpeciesStats)
  {
    && remaining <= counts.Keys
    && st.totalPopulation == Total(counts - remaining)
    && (forall k :: k in counts && k !in remaining ==> counts[k] <= st.dominantCount)
    && (remaining == counts.Keys ==> st == SpeciesStats(0, 0, 0))
    && (remaining != counts.Keys ==>
          st.dominantSpecies in counts && st.dominantSpecies !in remaining
          && counts[st.dominantSpecies] == st.dominantCount)
    && (0 !in counts ==>
          forall k :: k in counts && k !in remaining && counts[k] == st.dominantCount ==> st.dominantSpecies <= k)
  }

  /** The state after visiting `species`, as the body of the loop computes it. */
  function Visit(st: SpeciesStats, species: int, count: nat): SpeciesStats
  {
    if count > st.dominantCount
       || (count == st.dominantCount && (st.dominantSpecies == 0 || species < st.dominantSpecies))
    then SpeciesStats(species, count, st.totalPopulation + count)
    else SpeciesStats(st.dominantSpecies, st.dominantCount, st.totalPopulation + count)
  }

  lemma VisitStep(counts: Counts, remaining: set<int>, st: SpeciesStats, species: int)
    requires DescribesVisited(counts, remaining, st) && species in remaining
    ensures DescribesVisited(counts, remaining - {species}, Visit(st, species, counts[species]))
  {
    TotalRestrictStep(counts, remaining, species);
  }

  /**
   * `describeSpeciesCounts`: one pass over the entries, visiting them in any order.
   * Whatever the order, the result describes the tally.
   */
  method DescribeSpeciesCounts(counts: Counts) returns (stats: SpeciesStats)
    ensures Describes(counts, stats)
  {
    stats := SpeciesStats(0, 0, 0);
    var remaining := counts.Keys;
    assert counts - remaining == map[];
    while |remaining| > 0
      invariant DescribesVisited(counts, remaining, stats)
      decreases |remaining|
    {
      SetHasElement(remaining);
      var species :| species in remaining;
      VisitStep(counts, remaining, stats, species);
      var count := counts[species];
      stats := Visit(stats, species, count);
      remaining := remaining - {species};
    }
    assert counts - remaining == counts;
  }

  /**
   * For species ids other than 0 the description is unique: the entry order of the
   * tally cannot change the dominant species, its count or the total.
   */
  lemma DescriptionUnique(counts: Counts, a: SpeciesStats, b: SpeciesStats)
    requires 0 !in counts
    requires Describes(counts, a) && Describes(counts, b)
    ensures a == b
  {
    if |counts| > 0 {
      assert counts[a.dominantSpecies] <= b.dominantCount;
      assert counts[b.dominantSpecies] <= a.dominantCount;
    }
  }

  /** The dominant count is at most the total, so the dominance share lies in [0, 1]. */
  lemma DominantWithinTotal(counts: Counts, st: SpeciesStats)
    requires Describes(counts, st)
    ensures st.dominantCount <= st.totalPopulation
  {
    if |counts| > 0 {
      CountAtMostTotal(counts, st.dominantSpecies);
    }
  }

  /** A species `sp` that `describeSpeciesCounts` may report as dominant for `counts`. */
  ghost predicate IsDominantOf(counts: Counts, sp: int)
  {
    if |counts| == 0 then sp == 0
    else
      && sp in counts
      && (forall k :: k in counts ==> counts[k] <= counts[sp])
      && (0 !in counts ==> forall k :: k in counts && counts[k] == counts[sp] ==> sp <= k)
  }

  lemma DescribesDominant(counts: Counts, st: SpeciesStats)
    requires Describes(counts, st)
    ensures IsDominantOf(counts, st.dominantSpecies)
  {
  }

  // ---------------------------------------------------------------------------
  // Per-cell tallies

  /** The agents standing on cell `i` of a grid `width` wide, in list order. */
  function AtCell(agents: seq<Agent>, width: int, i: int): seq<Agent>
  {
    if |agents| == 0 then []
    else
      var last := agents[|agents| - 1];
      AtCell(agents[..|agents| - 1], width, i) + (if CellIndex(width, last.x, last.y) == i then [last] else [])
  }

  /** Every agent stands on a cell of the grid (the engine keeps positions wrapped). */
  ghost predicate OnGrid(agents: seq<Agent>, width: int, height: int)
  {
    forall a :: a in agents ==> 0 <= a.x < width && 0 <= a.y < height
  }

  /** `speciesCountsByCell` is the species tally of the agents on each cell. */
  ghost predicate CellTallies(cells: seq<Counts>, agents: seq<Agent>, width: int)
  {
    forall i :: 0 <= i < |cells| ==> IsTally(cells[i], AtCell(agents, width, i), SpeciesOf)
  }

  lemma CellTallyStep(cells: seq<Counts>, agents: seq<Agent>, width: int, height: int, n: int)
    requires 0 <= n < |agents| && 0 <= agents[n].x < width && 0 <= agents[n].y < height
    requires |cells| == width * height && CellTallies(cells, agents[..n], width)
    ensures var a := agents[n];
      var c := CellIndex(width, a.x, a.y);
      0 <= c < |cells|
      && CellTallies(cells[c := Bump(cells[c], a.species)], agents[..n + 1], width)
  {
    var a := agents[n];
    var c := CellIndex(width, a.x, a.y);
    CellIndexBounds(width, height, a.x, a.y);
    assert agents[..n + 1][..n] == agents[..n];
    var cells' := cells[c := Bump(cells[c], a.species)];
    forall i | 0 <= i < |cells'|
      ensures IsTally(cells'[i], AtCell(agents[..n + 1], width, i), SpeciesOf)
    {
      if i == c {
        TallyAppend(cells[c], AtCell(agents[..n], width, c), a, SpeciesOf);
      } else {
        assert AtCell(agents[..n + 1], width, i) == AtCell(agents[..n], width, i);
      }
    }
  }

  /** The first loop of `recordLocalityFrame`: tally the species of the agents on each cell. */
  method BuildSpeciesCountsByCell(width: int, height: int, agents: seq<Agent>) returns (cells: seq<Counts>)
    requires width > 0 && height > 0 && OnGrid(agents, width, height)
    ensures |cells| == width * height
    ensures CellTallies(cells, agents, width)
  {
    cells := seq(width * height, _ => map[]);
    var n := 0;
    while n < |agents|
      invariant 0 <= n <= |agents|
      invariant |cells| == width * height
      invariant CellTallies(cells, agents[..n], width)
    {
      var agent := agents[n];
      assert agent in agents;
      CellTallyStep(cells, agents, width, height, n);
      var cellIndex := agent.y * width + agent.x;
      var counts := cells[cellIndex];
      cells := cells[cellIndex := Bump(counts, agent.species)];
      n := n + 1;
    }
    assert agents[..|agents|] == agents;
  }

  // ---------------------------------------------------------------------------
  // Neighbourhood tallies

  /** The tallies of the cells `idx` (indices into `cells`) added together, in order. */
  ghost function MergeAll(cells: seq<Counts>, idx: seq<int>): Counts
    requires InRange(idx, |cells|)
  {
    if |idx| == 0 then map[]
    else AddCounts(MergeAll(cells, idx[..|idx| - 1]), cells[idx[|idx| - 1]])
  }

  /** A species occurs in the merged tally exactly when it occurs in one of the merged cells. */
  lemma {:induction false} MergeAllKeys(cells: seq<Counts>, idx: seq<int>, k: int)
    requires InRange(idx, |cells|)
    ensures k in MergeAll(cells, idx) <==> exists j :: 0 <= j < |idx| && k in cells[idx[j]]
  {
    if |idx| > 0 {
      var p := idx[..|idx| - 1];
      MergeAllKeys(cells, p, k);
      if exists j :: 0 <= j < |p| && k in cells[p[j]] {
        var j :| 0 <= j < |p| && k in cells[p[j]];
        assert idx[j] == p[j];
      }
      if exists j :: 0 <= j < |idx| && k in cells[idx[j]] {
        var j :| 0 <= j < |idx| && k in cells[idx[j]];
        if j < |p| {
          assert k in cells[p[j]];
        }
      }
    }
  }

  /** The species tally of the neighbourhood of radius `r` around cell `i`. */
  ghost function NeighborhoodCounts(cells: seq<Counts>, width: int, height: int, i: int, r: nat): Counts
    requires width > 0 && height > 0 && |cells| == width * height
  {
    MergeAll(cells, CellsWithinRadius(width, height, i % width, i / width, r))
  }

  lemma MergeSnoc(cells: seq<Counts>, idx: seq<int>, c: int)
    requires InRange(idx, |cells|) && 0 <= c < |cells|
    ensures InRange(idx + [c], |cells|)
    ensures MergeAll(cells, idx + [c]) == AddCounts(MergeAll(cells, idx), cells[c])
  {
    assert (idx + [c])[..|idx|] == idx;
  }

  /** The loop state of the neighbourhood collector once the offsets before (dx, dy) are visited. */
  ghost predicate CollectedUpTo(cells: seq<Counts>, width: int, height: int, cx: int, cy: int, r: int,
                                dy: int, dx: int, visited: seq<int>, counts: Counts)
    requires width > 0 && height > 0
  {
    && VisitedUpTo(width, height, cx, cy, r, dy, dx, visited)
    && InRange(visited, |cells|)
    && counts == MergeAll(cells, visited)
  }

  /** One turn of the inner loop of the collector. */
  lemma CollectStep(cells: seq<Counts>, width: int, height: int, cx: int, cy: int, r: int,
                    dy: int, dx: int, visited: seq<int>, counts: Counts)
    requires width > 0 && height > 0 && |cells| == width * height
    requires CollectedUpTo(cells, width, height, cx, cy, r, dy, dx, visited, counts)
    ensures var i := OffsetIndex(width, height, cx, cy, dx, dy);
      if Abs(dx) + Abs(dy) <= r && i !in visited
      then CollectedUpTo(cells, width, height, cx, cy, r, dy, dx + 1, visited + [i], AddCounts(counts, cells[i]))
      else CollectedUpTo(cells, width, height, cx, cy, r, dy, dx + 1, visited, counts)
  {
    RowStep(width, height, cx, cy, r, dy, dx, visited);
    var i := OffsetIndex(width, height, cx, cy, dx, dy);
    if Abs(dx) + Abs(dy) <= r && i !in visited {
      MergeSnoc(cells, visited, i);
    }
  }

  /**
   * `collectNeighborhoodSpeciesCounts`: the same two loops as the cell collector,
   * adding the tally of each newly visited cell into the result.  Callers pass the
   * normalised, non-negative radius.
   */
  method CollectNeighborhoodSpeciesCounts(
    width: int, height: int, centerX: int, centerY: int, radius: int, cells: seq<Counts>)
    returns (counts: Counts)
    requires width > 0 && height > 0 && |cells| == width * height && radius >= 0
    ensures counts == MergeAll(cells, CellsWithinRadius(width, height, centerX, centerY, radius))
  {
    counts := map[];
    var visited: seq<int> := [];
    var dy: int := -radius;
    while dy <= radius
      invariant -radius <= dy <= radius + 1
      invariant CollectedUpTo(cells, width, height, centerX, centerY, radius, dy, -radius, visited, counts)
    {
      visited, counts := CollectRow(width, height, centerX, centerY, radius, dy, cells, visited, counts);
      dy := dy + 1;
    }
    CellsWithinRadiusUnfold(width, height, centerX, centerY, radius, visited);
  }

  /** The inner loop of the neighbourhood collector: row `dy` of offsets. */
  method CollectRow(width: int, height: int, centerX: int, centerY: int, radius: int, dy: int,
                    cells: seq<Counts>, visited0: seq<int>, counts0: Counts)
    returns (visited: seq<int>, counts: Counts)
    requires width > 0 && height > 0 && |cells| == width * height && dy <= radius
    requires CollectedUpTo(cells, width, height, centerX, centerY, radius, dy, -radius, visited0, counts0)
    ensures CollectedUpTo(cells, width, height, centerX, centerY, radius, dy + 1, -radius, visited, counts)
  {
    visited, counts := visited0, counts0;
    var dx: int := -radius;
    while dx <= radius
      invariant -radius <= dx <= radius + 1
      invariant CollectedUpTo(cells, width, height, centerX, centerY, radius, dy, dx, visited, counts)
    {
      CollectStep(cells, width, height, centerX, centerY, radius, dy, dx, visited, counts);
      if Abs(dx) + Abs(dy) <= radius {
        var x := Wrap(centerX + dx, width);
        var y := Wrap(centerY + dy, height);
        var index := y * width + x;
        assert index == OffsetIndex(width, height, centerX, centerY, dx, dy);
        if index !in visited {
          visited := visited + [index];
          counts := MergeInto(counts, cells[index]);
        }
      }
      dx := dx + 1;
    }
    NextRow(width, height, centerX, centerY, radius, dy, visited);
  }

  // ---------------------------------------------------------------------------
  // Frames

  /** `LocalityFrame`: what `recordLocalityFrame` stores for one tick. */
  datatype LocalityFrame = LocalityFrame(
    dominantSpeciesByCell: seq<int>,
    dominanceSharesByOccupiedCell: seq<real>,
    speciesRichnessByOccupiedCell: seq<nat>,
    neighborhoodDominantSpeciesByCell: seq<int>,
    neighborhoodDominanceSharesByOccupiedCell: seq<real>,
    neighborhoodSpeciesRichnessByOccupiedCell: seq<nat>,
    neighborhoodCenterDominantAlignmentByOccupiedCell: seq<real>,
    occupiedCells: nat)

  /** The indices below `n` of the occupied cells, ascending. */
  function Occupied(cells: seq<Counts>, n: nat): (occ: seq<int>)
    requires n <= |cells|
    ensures forall j :: 0 <= j < |occ| ==> 0 <= occ[j] < n && |cells[occ[j]]| > 0
  {
    if n == 0 then []
    else Occupied(cells, n - 1) + (if |cells[n - 1]| > 0 then [n - 1] else [])
  }

  /** The share `dominantCount / totalPopulation` of a description (0 for an empty tally). */
  function Share(st: SpeciesStats): real
  {
    if st.totalPopulation == 0 then 0.0 else st.dominantCount as real / st.totalPopulation as real
  }

  /**
   * The dominance share of a tally whose dominant species is `sp`: its count over
   * the tally total, 0 for an empty tally.
   */
  ghost function TallyShare(counts: Counts, sp: int): real
  {
    if Total(counts) == 0 || sp !in counts then 0.0 else counts[sp] as real / Total(counts) as real
  }

  /** The share of a description is the dominant species' count over the tally total. */
  lemma ShareIsTallyShare(counts: Counts, st: SpeciesStats)
    requires Describes(counts, st)
    ensures Share(st) == TallyShare(counts, st.dominantSpecies)
  {
    if |counts| == 0 {
      assert Total(counts) == 0;
    }
  }

  lemma ShareInUnit(counts: Counts, st: SpeciesStats)
    requires Describes(counts, st)
    ensures 0.0 <= Share(st) <= 1.0
  {
    DominantWithinTotal(counts, st);
    if st.totalPopulation > 0 {
      DivideBounds(st.dominantCount as real, st.totalPopulation as real, 0.0, 1.0);
    }
  }

  /**
   * The per-cell part of a frame after the cells below `i` are described: their
   * dominant species, and the share and richness of the occupied ones among them.
   */
  ghost predicate CellPartUpTo(cells: seq<Counts>, i: nat, dominant: seq<int>, shares: seq<real>,
                               richness: seq<nat>, occupied: nat)
    requires i <= |cells|
  {
    var occ := Occupied(cells, i);
    && |dominant| == |cells|
    && (forall c :: 0 <= c < i ==> IsDominantOf(cells[c], dominant[c]))
    && (forall c :: i <= c < |cells| ==> dominant[c] == 0)
    && occupied == |occ| == |shares| == |richness|
    && (forall j :: 0 <= j < |occ| ==>
          && 0.0 <= shares[j] <= 1.0
          && shares[j] == TallyShare(cells[occ[j]], dominant[occ[j]])
          && richness[j] == |cells[occ[j]]|)
  }

  /** The per-cell part of a frame: dominant species, shares and richness of the occupied cells. */
  ghost predicate CellPart(cells: seq<Counts>, dominant: seq<int>, shares: seq<real>, richness: seq<nat>,
                           occupied: nat)
  {
    CellPartUpTo(cells, |cells|, dominant, shares, richness, occupied)
  }

  lemma CellSkip(cells: seq<Counts>, i: nat, dominant: seq<int>, shares: seq<real>, richness: seq<nat>,
                 occupied: nat)
    requires i < |cells| && |cells[i]| == 0
    requires CellPartUpTo(cells, i, dominant, shares, richness, occupied)
    ensures CellPartUpTo(cells, i + 1, dominant, shares, richness, occupied)
  {
    assert Occupied(cells, i + 1) == Occupied(cells, i);
  }

  lemma CellAdd(cells: seq<Counts>, i: nat, dominant: seq<int>, shares: seq<real>, richness: seq<nat>,
                occupied: nat, st: SpeciesStats)
    requires i < |cells| && |cells[i]| > 0 && Describes(cells[i], st)
    requires CellPartUpTo(cells, i, dominant, shares, richness, occupied)
    ensures CellPartUpTo(cells, i + 1, dominant[i := st.dominantSpecies], shares + [Share(st)],
                         richness + [|cells[i]|], occupied + 1)
  {
    ShareInUnit(cells[i], st);
    ShareIsTallyShare(cells[i], st);
    assert Occupied(cells, i + 1) == Occupied(cells, i) + [i];
  }

  /** The second loop of `recordLocalityFrame`: describe every occupied cell. */
  method DescribeCells(cells: seq<Counts>)
    returns (dominant: seq<int>, shares: seq<real>, richness: seq<nat>, occupied: nat)
    ensures CellPart(cells, dominant, shares, richness, occupied)
  {
    dominant := seq(|cells|, _ => 0);
    shares, richness, occupied := [], [], 0;
    var i := 0;
    while i < |cells|
      invariant 0 <= i <= |cells|
      invariant CellPartUpTo(cells, i, dominant, shares, richness, occupied)
    {
      var counts := cells[i];
      if |counts| == 0 {
        CellSkip(cells, i, dominant, shares, richness, occupied);
        i := i + 1;
        continue;
      }
      var cellStats := DescribeSpeciesCounts(counts);
      CellAdd(cells, i, dominant, shares, richness, occupied, cellStats);
      occupied := occupied + 1;
      dominant := dominant[i := cellStats.dominantSpecies];
      shares := shares + [Share(cellStats)];
      richness := richness + [|counts|];
      i := i + 1;
    }
  }

  /** The 1/0 alignment of a cell's own dominant species with its neighbourhood's. */
  function Alignment(centerDominant: int, neighborhoodDominant: int): real
  {
    if centerDominant != 0 && centerDominant == neighborhoodDominant then 1.0 else 0.0
  }

  /** The neighbourhood part of a frame after the cells below `i` are described. */
  ghost predicate NeighborhoodPartUpTo(cells: seq<Counts>, width: int, height: int, r: nat, dominant: seq<int>,
                                       i: nat, nDominant: seq<int>, nShares: seq<real>, nRichness: seq<nat>,
                                       alignment: seq<real>)
    requires width > 0 && height > 0 && |cells| == width * height && |dominant| == |cells| && i <= |cells|
  {
    var occ := Occupied(cells, i);
    && |nDominant| == |cells|
    && (forall c :: 0 <= c < i ==> IsDominantOf(NeighborhoodCounts(cells, width, height, c, r), nDominant[c]))
    && |occ| == |nShares| == |nRichness| == |alignment|
    && (forall j :: 0 <= j < |occ| ==>
          && 0.0 <= nShares[j] <= 1.0
          && nShares[j] == TallyShare(NeighborhoodCounts(cells, width, height, occ[j], r), nDominant[occ[j]])
          && nRichness[j] == |NeighborhoodCounts(cells, width, height, occ[j], r)|
          && alignment[j] == Alignment(dominant[occ[j]], nDominant[occ[j]]))
  }

  /**
   * The neighbourhood part of a frame: the dominant species of every cell's
   * neighbourhood, and the share, richness and alignment of the occupied cells'.
   */
  ghost predicate NeighborhoodPart(cells: seq<Counts>, width: int, height: int, r: nat, dominant: seq<int>,
                                   nDominant: seq<int>, nShares: seq<real>, nRichness: seq<nat>,
                                   alignment: seq<real>)
    requires width > 0 && height > 0 && |cells| == width * height && |dominant| == |cells|
  {
    NeighborhoodPartUpTo(cells, width, height, r, dominant, |cells|, nDominant, nShares, nRichness, alignment)
  }

  lemma NeighborhoodSkip(cells: seq<Counts>, width: int, height: int, r: nat, dominant: seq<int>,
                         i: nat, nDominant: seq<int>, nShares: seq<real>, nRichness: seq<nat>,
                         alignment: seq<real>, st: SpeciesStats)
    requires width > 0 && height > 0 && |cells| == width * height && |dominant| == |cells| && i < |cells|
    requires |cells[i]| == 0 && Describes(NeighborhoodCounts(cells, width, height, i, r), st)
    requires NeighborhoodPartUpTo(cells, width, height, r, dominant, i, nDominant, nShares, nRichness, alignment)
    ensures NeighborhoodPartUpTo(cells, width, height, r, dominant, i + 1, nDominant[i := st.dominantSpecies],
                                 nShares, nRichness, alignment)
  {
    assert Occupied(cells, i + 1) == Occupied(cells, i);
  }

  lemma NeighborhoodAdd(cells: seq<Counts>, width: int, height: int, r: nat, dominant: seq<int>,
                        i: nat, nDominant: seq<int>, nShares: seq<real>, nRichness: seq<nat>,
                        alignment: seq<real>, st: SpeciesStats)
    requires width > 0 && height > 0 && |cells| == width * height && |dominant| == |cells| && i < |cells|
    requires |cells[i]| > 0 && Describes(NeighborhoodCounts(cells, width, height, i, r), st)
    requires NeighborhoodPartUpTo(cells, width, height, r, dominant, i, nDominant, nShares, nRichness, alignment)
    ensures NeighborhoodPartUpTo(cells, width, height, r, dominant, i + 1, nDominant[i := st.dominantSpecies],
                                 nShares + [Share(st)],
                                 nRichness + [|NeighborhoodCounts(cells, width, height, i, r)|],
                                 alignment + [Alignment(dominant[i], st.dominantSpecies)])
  {
    ShareInUnit(NeighborhoodCounts(cells, width, height, i, r), st);
    ShareIsTallyShare(NeighborhoodCounts(cells, width, height, i, r), st);
    assert Occupied(cells, i + 1) == Occupied(cells, i) + [i];
  }

  /** The third loop of `recordLocalityFrame`: describe the neighbourhood of every cell. */
  method DescribeNeighborhoods(width: int, height: int, r: nat, cells: seq<Counts>, dominant: seq<int>)
    returns (nDominant: seq<int>, nShares: seq<real>, nRichness: seq<nat>, alignment: seq<real>)
    requires width > 0 && height > 0 && |cells| == width * height && |dominant| == |cells|
    ensures NeighborhoodPart(cells, width, height, r, dominant, nDominant, nShares, nRichness, alignment)
  {
    nDominant := seq(|cells|, _ => 0);
    nShares, nRichness, alignment := [], [], [];
    var i := 0;
    while i < |cells|
      invariant 0 <= i <= |cells|
      invariant NeighborhoodPartUpTo(cells, width, height, r, dominant, i, nDominant, nShares, nRichness, alignment)
    {
      nDominant, nShares, nRichness, alignment :=
        DescribeNeighborhood(width, height, r, cells, dominant, i, nDominant, nShares, nRichness, alignment);
      i := i + 1;
    }
  }

  /** One turn of the third loop: the neighbourhood of cell `i`. */
  method DescribeNeighborhood(width: int, height: int, r: nat, cells: seq<Counts>, dominant: seq<int>, i: nat,
                              nDominant0: seq<int>, nShares0: seq<real>, nRichness0: seq<nat>,
                              alignment0: seq<real>)
    returns (nDominant: seq<int>, nShares: seq<real>, nRichness: seq<nat>, alignment: seq<real>)
    requires width > 0 && height > 0 && |cells| == width * height && |dominant| == |cells| && i < |cells|
    requires NeighborhoodPartUpTo(cells, width, height, r, dominant, i, nDominant0, nShares0, nRichness0, alignment0)
    ensures NeighborhoodPartUpTo(cells, width, height, r, dominant, i + 1, nDominant, nShares, nRichness, alignment)
  {
    var centerX := i % width;
    var centerY := i / width;
    var neighborhoodCounts := CollectNeighborhoodSpeciesCounts(width, height, centerX, centerY, r, cells);
    var neighborhoodStats := DescribeSpeciesCounts(neighborhoodCounts);
    if |cells[i]| == 0 {
      NeighborhoodSkip(cells, width, height, r, dominant, i, nDominant0, nShares0, nRichness0, alignment0,
                       neighborhoodStats);
      return nDominant0[i := neighborhoodStats.dominantSpecies], nShares0, nRichness0, alignment0;
    }
    NeighborhoodAdd(cells, width, height, r, dominant, i, nDominant0, nShares0, nRichness0, alignment0,
                    neighborhoodStats);
    var centerDominant := dominant[i];
    nDominant := nDominant0[i := neighborhoodStats.dominantSpecies];
    nShares := nShares0 + [Share(neighborhoodStats)];
    nRichness := nRichness0 + [|neighborhoodCounts|];
    alignment := alignment0 + [Alignment(centerDominant, neighborhoodStats.dominantSpecies)];
  }

  /** `normalizedLocalityRadius`: `max(0, floor(localityRadius))`. */
  function NormalizedLocalityRadius(localityRadius: real): (r: nat)
    ensures localityRadius >= 0.0 ==> r as real <= localityRadius < r as real + 1.0
    ensures localityRadius < 0.0 ==> r == 0
  {
    NormalizeRadius(localityRadius.Floor)
  }

  /** `frame` is the locality frame of `agents` on a `width` by `height` grid with radius `r`. */
  ghost predicate IsFrameOf(frame: LocalityFrame, width: int, height: int, r: nat, agents: seq<Agent>)
    requires width > 0 && height > 0
  {
    exists cells: seq<Counts> ::
      && |cells| == width * height
      && CellTallies(cells, agents, width)
      && CellPart(cells, frame.dominantSpeciesByCell, frame.dominanceSharesByOccupiedCell,
                  frame.speciesRichnessByOccupiedCell, frame.occupiedCells)
      && NeighborhoodPart(cells, width, height, r, frame.dominantSpeciesByCell,
                          frame.neighborhoodDominantSpeciesByCell, frame.neighborhoodDominanceSharesByOccupiedCell,
                          frame.neighborhoodSpeciesRichnessByOccupiedCell,
                          frame.neighborhoodCenterDominantAlignmentByOccupiedCell)
  }

  /** The frame `recordLocalityFrame` builds from the agents. */
  method BuildLocalityFrame(width: int, height: int, r: nat, agents: seq<Agent>) returns (frame: LocalityFrame)
    requires width > 0 && height > 0 && OnGrid(agents, width, height)
    ensures |frame.dominantSpeciesByCell| == width * height
    ensures |frame.neighborhoodDominantSpeciesByCell| == width * height
    ensures IsFrameOf(frame, width, height, r, agents)
  {
    var cells := BuildSpeciesCountsByCell(width, height, agents);
    var dominant, shares, richness, occupied := DescribeCells(cells);
    var nDominant, nShares, nRichness, alignment := DescribeNeighborhoods(width, height, r, cells, dominant);
    frame := LocalityFrame(dominant, shares, richness, nDominant, nShares, nRichness, alignment, occupied);
  }
}
