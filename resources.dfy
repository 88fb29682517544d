/**
 * The resource grid: one amount per cell, `resources[y][x]`, kept in
 * [0, maxResource] by every operation that writes it.
 */
module Resources {
  import opened Numbers
  import opened Types
  import Grid
  import Random
  import Counts

  /** `(decompositionBase + max(0, energy) * decompositionEnergyFraction) * fertility`: what a dead agent returns. */
  function Recycled(a: Agent, fertility: (int, int) -> real, decompositionBase: real,
                    decompositionEnergyFraction: real): real
  {
    (decompositionBase + MaxReal(0.0, a.energy) * decompositionEnergyFraction) * fertility(a.x, a.y)
  }

  /** The amounts returned to cell (x, y) by the dead agents standing on it, in list order. */
  function DepositsAt(dead: seq<Agent>, x: int, y: int, fertility: (int, int) -> real, decompositionBase: real,
                      decompositionEnergyFraction: real): seq<real>
  {
    if |dead| == 0 then []
    else
      var rest := DepositsAt(dead[..|dead| - 1], x, y, fertility, decompositionBase, decompositionEnergyFraction);
      var a := dead[|dead| - 1];
      if a.x == x && a.y == y
      then rest + [Recycled(a, fertility, decompositionBase, decompositionEnergyFraction)]
      else rest
  }

  /** A cell's amount after the deposits, in order: a positive deposit is added and the sum clamped. */
  function Deposit(v: real, amounts: seq<real>, maxResource: real): real
  {
    if |amounts| == 0 then v
    else
      var before := Deposit(v, amounts[..|amounts| - 1], maxResource);
      var a := amounts[|amounts| - 1];
      if a <= 0.0 then before else Clamp(before + a, 0.0, maxResource)
  }

  /** Deposits never take anything away and never push a cell past the cap. */
  lemma {:induction false} DepositBounds(v: real, amounts: seq<real>, maxResource: real)
    requires 0.0 <= v <= maxResource
    ensures v <= Deposit(v, amounts, maxResource) <= maxResource
  {
    if |amounts| > 0 {
      DepositBounds(v, amounts[..|amounts| - 1], maxResource);
    }
  }

  /** The one cell whose row-major index is `index`. */
  lemma CellOfIndex(width: int, height: int, index: int)
    requires width > 0 && 0 <= index < width * height
    ensures forall y, x :: 0 <= y < height && 0 <= x < width ==>
              (Grid.CellIndex(width, x, y) == index <==> y == index / width && x == index % width)
  {
    IndexCell(width, height, index);
    forall y, x | 0 <= y < height && 0 <= x < width
      ensures Grid.CellIndex(width, x, y) == index <==> y == index / width && x == index % width
    {
      Grid.CellIndexInverse(width, x, y);
    }
  }

  /** A row-major index inside the grid names the cell (index % width, floor(index / width)). */
  lemma IndexCell(width: int, height: int, index: int)
    requires width > 0 && 0 <= index < width * height
    ensures 0 <= index % width < width && 0 <= index / width < height
    ensures (index / width) * width + index % width == index
  {
    var q := index / width;
    if q >= height {
    }
  }

  /** An amount `rng.float() * maxResource` can take: in [0, maxResource), or 0 when the cap is 0. */
  predicate InitialAmount(v: real, maxResource: real)
  {
    0.0 <= v && (v < maxResource || v == 0.0 == maxResource)
  }

  lemma ScaledAmount(f: real, maxResource: real)
    requires 0.0 <= f < 1.0 && maxResource >= 0.0
    ensures InitialAmount(ScaledDraw(f, maxResource), maxResource)
  {
    if maxResource > 0.0 {
      assert f * maxResource < 1.0 * maxResource;
    }
  }

  /** `rng.float() * maxResource`: a draw scaled to the cap. */
  function ScaledDraw(f: real, maxResource: real): real
  {
    f * maxResource
  }

  /**
   * The amount `buildInitialResources` gives the cell with row-major index
   * `index` when the generator starts in state `st`: the cells draw one float
   * each, row by row, so this cell gets the `index + 1`-th float times the cap.
   */
  function InitialAmountAt(st: bv32, index: nat, maxResource: real): real
  {
    ScaledDraw(Random.UnitOf(Random.Advance(st, index + 1)), maxResource)
  }

  /** Every initial amount lies in [0, maxResource), or is 0 when the cap is 0. */
  lemma InitialAmountAtBounds(st: bv32, index: nat, maxResource: real)
    requires maxResource >= 0.0
    ensures InitialAmount(InitialAmountAt(st, index, maxResource), maxResource)
  {
    ScaledAmount(Random.UnitOf(Random.Advance(st, index + 1)), maxResource);
  }

  /** One turn of the inner loop of `buildInitialResources`: the cell with row-major index `k` draws the next float. */
  method DrawCell(rng: Random.Rng, grid: array2<real>, y: int, x: int, maxResource: real, ghost st0: bv32, ghost k: nat)
    requires rng.Valid() && 0 <= y < grid.Length0 && 0 <= x < grid.Length1
    requires rng.state == Random.Advance(st0, k)
    modifies rng, grid
    ensures rng.Valid() && rng.state == Random.Advance(st0, k + 1)
    ensures grid[y, x] == InitialAmountAt(st0, k, maxResource)
    ensures forall y', x' :: 0 <= y' < grid.Length0 && 0 <= x' < grid.Length1 && (y', x') != (y, x) ==>
              grid[y', x'] == old(grid[y', x'])
  {
    Random.AdvanceStep(st0, k);
    var f := rng.Float();
    grid[y, x] := ScaledDraw(f, maxResource);
  }

  /**
   * The inner loop of `buildInitialResources`: row `y`, whose first cell has
   * row-major index `base`, draws one float per cell, left to right.
   */
  method FillRow(rng: Random.Rng, grid: array2<real>, y: int, maxResource: real, ghost st0: bv32, ghost base: nat)
    requires rng.Valid() && 0 <= y < grid.Length0
    requires rng.state == Random.Advance(st0, base)
    modifies rng, grid
    ensures rng.Valid() && rng.state == Random.Advance(st0, base + grid.Length1)
    ensures forall x :: 0 <= x < grid.Length1 ==> grid[y, x] == InitialAmountAt(st0, base + x, maxResource)
    ensures forall y', x' :: 0 <= y' < grid.Length0 && y' != y && 0 <= x' < grid.Length1 ==>
              grid[y', x'] == old(grid[y', x'])
  {
    var x := 0;
    while x < grid.Length1
      invariant 0 <= x <= grid.Length1 && rng.Valid()
      invariant rng.state == Random.Advance(st0, base + x)
      invariant forall x' :: 0 <= x' < x ==> grid[y, x'] == InitialAmountAt(st0, base + x', maxResource)
      invariant forall y', x' :: 0 <= y' < grid.Length0 && y' != y && 0 <= x' < grid.Length1 ==>
                  grid[y', x'] == old(grid[y', x'])
    {
      DrawCell(rng, grid, y, x, maxResource, st0, base + x);
      x := x + 1;
    }
  }

  class ResourceGrid {
    const width: int
    const height: int
    const maxResource: real
    /** `resources[y][x]` is `cells[y, x]`. */
    const cells: array2<real>

    ghost predicate Valid()
      reads this, cells
    {
      && width > 0 && height > 0 && maxResource >= 0.0
      && cells.Length0 == height && cells.Length1 == width
      && forall y, x :: 0 <= y < height && 0 <= x < width ==> 0.0 <= cells[y, x] <= maxResource
    }

    /**
     * `buildInitialResources`: row by row, every cell gets `rng.float() * maxResource`,
     * which lies in [0, maxResource); the generator advances once per cell.
     */
    constructor(rng: Random.Rng, width: int, height: int, maxResource: real)
      requires rng.Valid() && width > 0 && height > 0 && maxResource >= 0.0
      modifies rng
      ensures Valid() && fresh(cells) && rng.Valid()
      ensures this.width == width && this.height == height && this.maxResource == maxResource
      ensures forall y, x :: 0 <= y < height && 0 <= x < width ==>
                cells[y, x] == InitialAmountAt(old(rng.state), Grid.CellIndex(width, x, y), maxResource)
      ensures forall y, x :: 0 <= y < height && 0 <= x < width ==> InitialAmount(cells[y, x], maxResource)
      ensures rng.state == Random.Advance(old(rng.state), width * height)
    {
      this.width := width;
      this.height := height;
      this.maxResource := maxResource;
      var grid := new real[height, width];
      ghost var st0 := rng.state;
      ghost var base: nat := 0;
      var y := 0;
      while y < height
        invariant 0 <= y <= height && rng.Valid()
        invariant base == Grid.CellIndex(width, 0, y)
        invariant rng.state == Random.Advance(st0, base)
        invariant forall y', x' :: 0 <= y' < y && 0 <= x' < width ==>
                    grid[y', x'] == InitialAmountAt(st0, Grid.CellIndex(width, x', y'), maxResource)
      {
        FillRow(rng, grid, y, maxResource, st0, base);
        forall x' | 0 <= x' < width ensures Grid.CellIndex(width, x', y) == base + x' { }
        assert Grid.CellIndex(width, 0, y + 1) == base + width;
        base := base + width;
        y := y + 1;
      }
      forall y, x | 0 <= y < height && 0 <= x < width
        ensures InitialAmount(grid[y, x], maxResource)
      {
        Grid.CellIndexBounds(width, height, x, y);
        InitialAmountAtBounds(st0, Grid.CellIndex(width, x, y), maxResource);
      }
      assert Grid.CellIndex(width, 0, height) == width * height;
      cells := grid;
    }

    /** `getResource`: the amount at the wrapped coordinates. */
    function GetResource(x: int, y: int): (v: real)
      requires Valid()
      reads this, cells
      ensures 0.0 <= v <= maxResource
    {
      cells[Grid.Wrap(y, height), Grid.Wrap(x, width)]
    }

    /** `setResource`: the wrapped cell gets the value clamped to [0, maxResource]; no other cell changes. */
    method SetResource(x: int, y: int, value: real)
      requires Valid()
      modifies cells
      ensures Valid()
      ensures GetResource(x, y) == Clamp(value, 0.0, maxResource)
      ensures forall y', x' ::
                (0 <= y' < height && 0 <= x' < width && (y', x') != (Grid.Wrap(y, height), Grid.Wrap(x, width)))
                ==> cells[y', x'] == old(cells[y', x'])
    {
      cells[Grid.Wrap(y, height), Grid.Wrap(x, width)] := Clamp(value, 0.0, maxResource);
    }

    /**
     * `regenerateResources`: every cell grows by its own amount (regeneration
     * rate times the seasonal multiplier times the cell's fertility, given here
     * as `growth`) and is clamped to [0, maxResource].
     */
    method RegenerateResources(growth: (int, int) -> real)
      requires Valid()
      modifies cells
      ensures Valid()
      ensures forall y, x :: 0 <= y < height && 0 <= x < width ==>
                cells[y, x] == Clamp(old(cells[y, x]) + growth(x, y), 0.0, maxResource)
    {
      var y := 0;
      while y < height
        invariant 0 <= y <= height && Valid()
        invariant forall y', x' :: 0 <= y' < y && 0 <= x' < width ==>
                    cells[y', x'] == Clamp(old(cells[y', x']) + growth(x', y'), 0.0, maxResource)
        invariant forall y', x' :: y <= y' < height && 0 <= x' < width ==> cells[y', x'] == old(cells[y', x'])
      {
        var x := 0;
        while x < width
          invariant 0 <= x <= width && Valid()
          invariant forall y', x' :: 0 <= y' < y && 0 <= x' < width ==>
                      cells[y', x'] == Clamp(old(cells[y', x']) + growth(x', y'), 0.0, maxResource)
          invariant forall x' :: 0 <= x' < x ==>
                      cells[y, x'] == Clamp(old(cells[y, x']) + growth(x', y), 0.0, maxResource)
          invariant forall y', x' :: y <= y' < height && 0 <= x' < width && (y' != y || x' >= x) ==>
                      cells[y', x'] == old(cells[y', x'])
        {
          cells[y, x] := Clamp(cells[y, x] + growth(x, y), 0.0, maxResource);
          x := x + 1;
        }
        y := y + 1;
      }
    }

    /**
     * The resource half of a disturbance: each affected cell (by row-major index)
     * keeps `1 - resourceLoss` of its amount, clamped; every other cell is
     * untouched, and no cell gains.
     */
    method ApplyResourceShock(affected: set<int>, resourceLoss: real)
      requires Valid() && 0.0 <= resourceLoss <= 1.0
      requires forall i :: i in affected ==> 0 <= i < width * height
      modifies cells
      ensures Valid()
      ensures forall y, x :: 0 <= y < height && 0 <= x < width ==>
                cells[y, x] == (if resourceLoss > 0.0 && Grid.CellIndex(width, x, y) in affected
                                then Clamp(old(cells[y, x]) * (1.0 - resourceLoss), 0.0, maxResource)
                                else old(cells[y, x]))
      ensures forall y, x :: 0 <= y < height && 0 <= x < width ==> cells[y, x] <= old(cells[y, x])
    {
      if resourceLoss > 0.0 {
        ShockCells(affected, 1.0 - resourceLoss);
      }
      forall y, x | 0 <= y < height && 0 <= x < width
        ensures cells[y, x] <= old(cells[y, x])
      {
        assert 0.0 <= old(cells[y, x]) <= maxResource;
        ScaleWithin(old(cells[y, x]), 1.0 - resourceLoss);
        if resourceLoss > 0.0 && Grid.CellIndex(width, x, y) in affected {
          assert cells[y, x] == Clamp(old(cells[y, x]) * (1.0 - resourceLoss), 0.0, maxResource);
        } else {
          assert cells[y, x] == old(cells[y, x]);
        }
      }
    }

    /** The loop over the affected cells, each scaled by `multiplier` and clamped once. */
    method ShockCells(affected: set<int>, multiplier: real)
      requires Valid()
      requires forall i :: i in affected ==> 0 <= i < width * height
      modifies cells
      ensures Valid()
      ensures forall y, x :: 0 <= y < height && 0 <= x < width ==>
                cells[y, x] == (if Grid.CellIndex(width, x, y) in affected
                                then Clamp(old(cells[y, x]) * multiplier, 0.0, maxResource)
                                else old(cells[y, x]))
    {
      var remaining := affected;
      while |remaining| > 0
        invariant remaining <= affected && Valid()
        invariant forall y, x :: 0 <= y < height && 0 <= x < width ==>
                    cells[y, x] == (if Grid.CellIndex(width, x, y) in affected - remaining
                                    then Clamp(old(cells[y, x]) * multiplier, 0.0, maxResource)
                                    else old(cells[y, x]))
        decreases |remaining|
      {
        Counts.SetHasElement(remaining);
        var index :| index in remaining;
        ShockCell(index, multiplier);
        remaining := remaining - {index};
      }
      assert affected - remaining == affected;
    }

    /** One affected cell of the resource shock: `resources[y][x] = clamp(resources[y][x] * multiplier, 0, max)`. */
    method ShockCell(index: int, multiplier: real)
      requires Valid() && 0 <= index < width * height
      modifies cells
      ensures Valid()
      ensures forall y, x :: 0 <= y < height && 0 <= x < width ==>
                cells[y, x] == (if Grid.CellIndex(width, x, y) == index
                                then Clamp(old(cells[y, x]) * multiplier, 0.0, maxResource)
                                else old(cells[y, x]))
    {
      IndexCell(width, height, index);
      CellOfIndex(width, height, index);
      var x, y := index % width, index / width;
      var shocked := Clamp(cells[y, x] * multiplier, 0.0, maxResource);
      cells[y, x] := shocked;
    }

    /**
     * `recycleDeadAgents`: each dead agent, in list order, returns
     * `Recycled` to its cell when that is positive, clamped to the cap.  A cell
     * ends at its deposits applied in that order; cells never lose resources.
     */
    method RecycleDeadAgents(dead: seq<Agent>, fertility: (int, int) -> real, decompositionBase: real,
                             decompositionEnergyFraction: real)
      requires Valid()
      requires forall i :: 0 <= i < |dead| ==> 0 <= dead[i].x < width && 0 <= dead[i].y < height
      modifies cells
      ensures Valid()
      ensures forall y, x :: 0 <= y < height && 0 <= x < width ==>
                cells[y, x] == Deposit(old(cells[y, x]), DepositsAt(dead, x, y, fertility, decompositionBase,
                                                                     decompositionEnergyFraction), maxResource)
    {
      var i := 0;
      while i < |dead|
        invariant 0 <= i <= |dead| && Valid()
        invariant forall y, x :: 0 <= y < height && 0 <= x < width ==>
                    cells[y, x] == Deposit(old(cells[y, x]), DepositsAt(dead[..i], x, y, fertility, decompositionBase,
                                                                         decompositionEnergyFraction), maxResource)
      {
        var a := dead[i];
        var recycled := Recycled(a, fertility, decompositionBase, decompositionEnergyFraction);
        assert dead[..i + 1][..i] == dead[..i];
        if recycled > 0.0 {
          cells[a.y, a.x] := Clamp(cells[a.y, a.x] + recycled, 0.0, maxResource);
        }
        i := i + 1;
      }
      assert dead[..|dead|] == dead;
    }
  }
}
