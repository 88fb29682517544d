/**
 * Toroidal grid geometry: coordinate wrapping, row-major cell indices and the
 * Manhattan-ball cell collector used by the locality analytics and by the
 * local disturbance shocks.
 */
module Grid {

  /** JavaScript's `%` on integers: the remainder takes the sign of the dividend. */
  function JsRem(a: int, b: int): (r: int)
    requires b > 0
    ensures -b < r < b
    ensures a >= 0 ==> r == a % b
    ensures a < 0 ==> r == -((-a) % b)
  {
    if a >= 0 then a % b else -((-a) % b)
  }

  /** Euclidean division is determined by its defining equation. */
  lemma DivModUnique(t: int, q: int, m: int, size: int)
    requires size > 0 && 0 <= m < size && t == q * size + m
    ensures t / size == q && t % size == m
  {
    var q', m' := t / size, t % size;
    assert (q - q') * size == m' - m;
    if q - q' >= 1 {
      assert false;
    } else if q - q' <= -1 {
      assert false;
    }
  }

  /** `((v % size) + size) % size`, the wrap of `wrapX`/`wrapY`. */
  function Wrap(v: int, size: int): (r: int)
    requires size > 0
    ensures 0 <= r < size
  {
    JsRem(JsRem(v, size) + size, size)
  }

  /** The wrap is the Euclidean remainder: always in range, and congruent to `v`. */
  lemma WrapIsMod(v: int, size: int)
    requires size > 0
    ensures Wrap(v, size) == v % size
  {
    var t := JsRem(v, size) + size;
    if v >= 0 {
      DivModUnique(t, 1, v % size, size);
    } else {
      var q, m := (-v) / size, (-v) % size;
      assert -v == q * size + m;
      if m == 0 {
        DivModUnique(t, 1, 0, size);
        DivModUnique(v, -q, 0, size);
      } else {
        DivModUnique(t, 0, size - m, size);
        assert v == (-q - 1) * size + (size - m);
        DivModUnique(v, -q - 1, size - m, size);
      }
    }
  }

  function Abs(v: int): nat { if v < 0 then -v else v }

  /** Row-major index `y * width + x` of cell (x, y). */
  function CellIndex(width: int, x: int, y: int): int { y * width + x }

  lemma CellIndexBounds(width: int, height: int, x: int, y: int)
    requires 0 <= x < width && 0 <= y < height
    ensures 0 <= CellIndex(width, x, y) < width * height
  {
    assert y * width <= (height - 1) * width;
  }

  /** A row-major index determines its column (`i % width`) and row (`floor(i / width)`). */
  lemma CellIndexInverse(width: int, x: int, y: int)
    requires 0 <= x < width && 0 <= y
    ensures CellIndex(width, x, y) % width == x
    ensures CellIndex(width, x, y) / width == y
  {
    DivModUnique(CellIndex(width, x, y), y, x, width);
  }

  /** Distinct cells have distinct indices. */
  lemma CellIndexInjective(width: int, x: int, y: int, x': int, y': int)
    requires 0 <= x < width && 0 <= y && 0 <= x' < width && 0 <= y'
    requires CellIndex(width, x, y) == CellIndex(width, x', y')
    ensures x == x' && y == y'
  {
    CellIndexInverse(width, x, y);
    CellIndexInverse(width, x', y');
  }

  /** The index a visit at offset (dx, dy) from (cx, cy) lands on, after wrapping. */
  function OffsetIndex(width: int, height: int, cx: int, cy: int, dx: int, dy: int): (i: int)
    requires width > 0 && height > 0
    ensures 0 <= i < width * height
  {
    CellIndexBounds(width, height, Wrap(cx + dx, width), Wrap(cy + dy, height));
    CellIndex(width, Wrap(cx + dx, width), Wrap(cy + dy, height))
  }

  /**
   * The visits of row `dy` for the offsets `-r <= dx' < dx` whose Manhattan
   * length is at most `r`, in the order the inner loop makes them (duplicates kept).
   */
  function RowVisits(width: int, height: int, cx: int, cy: int, r: int, dy: int, dx: int): (s: seq<int>)
    requires width > 0 && height > 0 && -r <= dx
    decreases dx + r
  {
    if dx == -r then []
    else
      RowVisits(width, height, cx, cy, r, dy, dx - 1)
      + (if Abs(dx - 1) + Abs(dy) <= r then [OffsetIndex(width, height, cx, cy, dx - 1, dy)] else [])
  }

  /** The visits of the rows `-r <= dy' < dy`, in loop order. */
  function Visits(width: int, height: int, cx: int, cy: int, r: int, dy: int): (s: seq<int>)
    requires width > 0 && height > 0 && -r <= dy && 0 <= r
    decreases dy + r
  {
    if dy == -r then []
    else Visits(width, height, cx, cy, r, dy - 1) + RowVisits(width, height, cx, cy, r, dy - 1, r + 1)
  }

  /** Every visit of the ball of radius `r`, in the order of the two nested loops. */
  function BallVisits(width: int, height: int, cx: int, cy: int, r: int): seq<int>
    requires width > 0 && height > 0 && 0 <= r
  {
    Visits(width, height, cx, cy, r, r + 1)
  }

  /** The elements of `s` in order of first occurrence: what spreading a JS `Set` filled from `s` gives. */
  function Dedup(s: seq<int>): seq<int>
  {
    if |s| == 0 then []
    else
      var d := Dedup(s[..|s| - 1]);
      if s[|s| - 1] in d then d else d + [s[|s| - 1]]
  }

  /** Every element of `idx` is an index into a list of length `n`. */
  ghost predicate InRange(idx: seq<int>, n: int)
  {
    forall j :: 0 <= j < |idx| ==> 0 <= idx[j] < n
  }

  predicate Distinct(s: seq<int>)
  {
    forall i, j :: 0 <= i < j < |s| ==> s[i] != s[j]
  }

  lemma DedupSnoc(s: seq<int>, x: int)
    ensures Dedup(s + [x]) == if x in Dedup(s) then Dedup(s) else Dedup(s) + [x]
  {
    assert (s + [x])[..|s + [x]| - 1] == s;
  }

  /** `Dedup` keeps each element once and loses none. */
  lemma {:induction false} DedupSpec(s: seq<int>)
    ensures Distinct(Dedup(s))
    ensures forall x :: x in Dedup(s) <==> x in s
  {
    if |s| > 0 {
      var p := s[..|s| - 1];
      assert s == p + [s[|s| - 1]];
      DedupSpec(p);
      DedupSnoc(p, s[|s| - 1]);
    }
  }

  /** `normalizedRadius = Math.max(0, radius)`. */
  function NormalizeRadius(radius: int): (r: nat)
    ensures radius >= 0 ==> r == radius
    ensures radius < 0 ==> r == 0
  {
    if radius < 0 then 0 else radius
  }

  /**
   * `collectCellIndicesWithinRadius`: the distinct wrapped indices of the cells at
   * Manhattan distance at most `max(0, radius)` from (centerX, centerY), in the
   * order they are first visited.
   */
  method CollectCellIndicesWithinRadius(width: int, height: int, centerX: int, centerY: int, radius: int)
    returns (cells: seq<int>)
    requires width > 0 && height > 0
    ensures cells == CellsWithinRadius(width, height, centerX, centerY, radius)
  {
    var r := NormalizeRadius(radius);
    var visited: seq<int> := [];
    var dy: int := -r;
    while dy <= r
      invariant -r <= dy <= r + 1
      invariant VisitedUpTo(width, height, centerX, centerY, r, dy, -r, visited)
    {
      visited := VisitRow(width, height, centerX, centerY, r, dy, visited);
      dy := dy + 1;
    }
    CellsWithinRadiusUnfold(width, height, centerX, centerY, radius, visited);
    cells := visited;
  }

  /** The inner loop of the collector: row `dy` of offsets, adding each new index to `visited`. */
  method VisitRow(width: int, height: int, centerX: int, centerY: int, r: int, dy: int, visited0: seq<int>)
    returns (visited: seq<int>)
    requires width > 0 && height > 0 && dy <= r
    requires VisitedUpTo(width, height, centerX, centerY, r, dy, -r, visited0)
    ensures VisitedUpTo(width, height, centerX, centerY, r, dy + 1, -r, visited)
  {
    visited := visited0;
    var dx: int := -r;
    while dx <= r
      invariant -r <= dx <= r + 1
      invariant VisitedUpTo(width, height, centerX, centerY, r, dy, dx, visited)
    {
      visited := VisitCell(width, height, centerX, centerY, r, dy, dx, visited);
      dx := dx + 1;
    }
    NextRow(width, height, centerX, centerY, r, dy, visited);
  }

  /** One turn of the inner loop: the cell at offset (dx, dy), added when in the ball and not yet seen. */
  method VisitCell(width: int, height: int, centerX: int, centerY: int, r: int, dy: int, dx: int,
                   visited0: seq<int>) returns (visited: seq<int>)
    requires width > 0 && height > 0
    requires VisitedUpTo(width, height, centerX, centerY, r, dy, dx, visited0)
    ensures VisitedUpTo(width, height, centerX, centerY, r, dy, dx + 1, visited)
  {
    RowStep(width, height, centerX, centerY, r, dy, dx, visited0);
    visited := visited0;
    if Abs(dx) + Abs(dy) <= r {
      var x := Wrap(centerX + dx, width);
      var y := Wrap(centerY + dy, height);
      var index := y * width + x;
      assert index == OffsetIndex(width, height, centerX, centerY, dx, dy);
      if index !in visited {
        visited := visited + [index];
      }
    }
  }

  /**
   * The loop state of the collector once the offsets before (dx, dy) are visited:
   * `visited` holds the distinct indices seen so far, in order.
   */
  ghost predicate VisitedUpTo(width: int, height: int, cx: int, cy: int, r: int, dy: int, dx: int,
                              visited: seq<int>)
    requires width > 0 && height > 0
  {
    && 0 <= r && 0 <= dy + r && 0 <= dx + r
    && visited == Dedup(Visits(width, height, cx, cy, r, dy) + RowVisits(width, height, cx, cy, r, dy, dx))
  }

  /** Finishing row `dy` is starting row `dy + 1`; the first row starts from nothing. */
  lemma NextRow(width: int, height: int, cx: int, cy: int, r: int, dy: int, visited: seq<int>)
    requires width > 0 && height > 0
    requires VisitedUpTo(width, height, cx, cy, r, dy, r + 1, visited)
    ensures VisitedUpTo(width, height, cx, cy, r, dy + 1, -r, visited)
  {
    assert Visits(width, height, cx, cy, r, dy + 1) + RowVisits(width, height, cx, cy, r, dy + 1, -r)
           == Visits(width, height, cx, cy, r, dy) + RowVisits(width, height, cx, cy, r, dy, r + 1);
  }

  /** One turn of the inner loop: the visit at (dx, dy), when in the ball, is added unless already seen. */
  lemma RowStep(width: int, height: int, cx: int, cy: int, r: int, dy: int, dx: int, visited: seq<int>)
    requires width > 0 && height > 0
    requires VisitedUpTo(width, height, cx, cy, r, dy, dx, visited)
    ensures var i := OffsetIndex(width, height, cx, cy, dx, dy);
      VisitedUpTo(width, height, cx, cy, r, dy, dx + 1,
                  if Abs(dx) + Abs(dy) <= r && i !in visited then visited + [i] else visited)
  {
    var before := Visits(width, height, cx, cy, r, dy) + RowVisits(width, height, cx, cy, r, dy, dx);
    var i := OffsetIndex(width, height, cx, cy, dx, dy);
    if Abs(dx) + Abs(dy) <= r {
      assert Visits(width, height, cx, cy, r, dy) + RowVisits(width, height, cx, cy, r, dy, dx + 1) == before + [i];
      DedupSnoc(before, i);
    } else {
      assert Visits(width, height, cx, cy, r, dy) + RowVisits(width, height, cx, cy, r, dy, dx + 1) == before;
    }
  }

  /** Every visit lands on a cell of the grid. */
  lemma {:induction false} RowVisitsInRange(width: int, height: int, cx: int, cy: int, r: int, dy: int, dx: int)
    requires width > 0 && height > 0 && -r <= dx
    ensures forall i :: i in RowVisits(width, height, cx, cy, r, dy, dx) ==> 0 <= i < width * height
    decreases dx + r
  {
    if dx != -r {
      RowVisitsInRange(width, height, cx, cy, r, dy, dx - 1);
    }
  }

  lemma {:induction false} VisitsInRange(width: int, height: int, cx: int, cy: int, r: int, dy: int)
    requires width > 0 && height > 0 && -r <= dy && 0 <= r
    ensures forall i :: i in Visits(width, height, cx, cy, r, dy) ==> 0 <= i < width * height
    decreases dy + r
  {
    if dy != -r {
      VisitsInRange(width, height, cx, cy, r, dy - 1);
      RowVisitsInRange(width, height, cx, cy, r, dy - 1, r + 1);
    }
  }

  /** A row visited past `dx' = 0` contains the offset (0, dy) when that is in the ball. */
  lemma {:induction false} RowVisitsHasAxis(width: int, height: int, cx: int, cy: int, r: int, dy: int, dx: int)
    requires width > 0 && height > 0 && 0 < dx && 0 <= r && Abs(dy) <= r
    ensures OffsetIndex(width, height, cx, cy, 0, dy) in RowVisits(width, height, cx, cy, r, dy, dx)
    decreases dx
  {
    if dx > 1 {
      RowVisitsHasAxis(width, height, cx, cy, r, dy, dx - 1);
    }
  }

  lemma {:induction false} VisitsHasCentre(width: int, height: int, cx: int, cy: int, r: int, dy: int)
    requires width > 0 && height > 0 && 0 < dy && 0 <= r && -r <= dy
    ensures OffsetIndex(width, height, cx, cy, 0, 0) in Visits(width, height, cx, cy, r, dy)
    decreases dy
  {
    if dy > 1 {
      VisitsHasCentre(width, height, cx, cy, r, dy - 1);
    } else {
      RowVisitsHasAxis(width, height, cx, cy, r, 0, r + 1);
    }
  }

  /** With radius 0 a single visit happens: the centre. */
  lemma RadiusZeroVisits(width: int, height: int, cx: int, cy: int)
    requires width > 0 && height > 0
    ensures BallVisits(width, height, cx, cy, 0) == [OffsetIndex(width, height, cx, cy, 0, 0)]
  {
    assert RowVisits(width, height, cx, cy, 0, 0, 0) == [];
    assert Visits(width, height, cx, cy, 0, 0) == [];
  }

  /**
   * The collector's result: distinct indices of grid cells, including the wrapped
   * centre.
   */
  lemma CellsWithinRadiusSpec(width: int, height: int, centerX: int, centerY: int, radius: int)
    requires width > 0 && height > 0
    ensures var cells := Dedup(BallVisits(width, height, centerX, centerY, NormalizeRadius(radius)));
      && Distinct(cells)
      && InRange(cells, width * height)
      && Wrap(centerY, height) * width + Wrap(centerX, width) in cells
  {
    var r := NormalizeRadius(radius);
    var visits := BallVisits(width, height, centerX, centerY, r);
    DedupSpec(visits);
    VisitsInRange(width, height, centerX, centerY, r, r + 1);
    VisitsHasCentre(width, height, centerX, centerY, r, r + 1);
    var cells := Dedup(visits);
    forall j | 0 <= j < |cells|
      ensures 0 <= cells[j] < width * height
    {
      assert cells[j] in visits;
    }
  }

  /** With a radius of at most 0 the collector returns exactly the wrapped centre. */
  lemma CellsWithinRadiusZero(width: int, height: int, centerX: int, centerY: int, radius: int)
    requires width > 0 && height > 0
    ensures radius <= 0 ==>
      Dedup(BallVisits(width, height, centerX, centerY, NormalizeRadius(radius)))
      == [Wrap(centerY, height) * width + Wrap(centerX, width)]
  {
    if radius <= 0 {
      var visits := BallVisits(width, height, centerX, centerY, 0);
      RadiusZeroVisits(width, height, centerX, centerY);
      assert visits == [] + [visits[0]];
      DedupSnoc([], visits[0]);
    }
  }

  /**
   * What `collectCellIndicesWithinRadius` returns: the distinct indices of the grid
   * cells within Manhattan distance `max(0, radius)` of the centre, in the order
   * they are first visited; the wrapped centre is always one of them, and it is
   * the only one when the radius is at most 0.
   */
  ghost function CellsWithinRadius(width: int, height: int, centerX: int, centerY: int, radius: int)
    : (cells: seq<int>)
    requires width > 0 && height > 0
    ensures Distinct(cells)
    ensures InRange(cells, width * height)
    ensures Wrap(centerY, height) * width + Wrap(centerX, width) in cells
    ensures radius <= 0 ==> cells == [Wrap(centerY, height) * width + Wrap(centerX, width)]
  {
    CellsWithinRadiusSpec(width, height, centerX, centerY, radius);
    CellsWithinRadiusZero(width, height, centerX, centerY, radius);
    Dedup(BallVisits(width, height, centerX, centerY, NormalizeRadius(radius)))
  }

  /** Once every row is visited, the loop state is the collector's result. */
  lemma CellsWithinRadiusUnfold(width: int, height: int, centerX: int, centerY: int, radius: int,
                                visited: seq<int>)
    requires width > 0 && height > 0
    requires var r: int := NormalizeRadius(radius); VisitedUpTo(width, height, centerX, centerY, r, r + 1, -r, visited)
    ensures visited == CellsWithinRadius(width, height, centerX, centerY, radius)
  {
    var r: int := NormalizeRadius(radius);
    assert Visits(width, height, centerX, centerY, r, r + 1) + RowVisits(width, height, centerX, centerY, r, r + 1, -r)
           == Visits(width, height, centerX, centerY, r, r + 1);
  }
}
