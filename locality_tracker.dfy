/**
 * The locality frames the simulation records once per tick, and the turnover of
 * the dominant species between consecutive frames over a window of ticks
 * (`buildLocalityTurnover`, `buildLocalityRadiusTurnover`).
 */
module LocalityTracking {
  import opened Wrappers
  import opened Stats
  import opened Types
  import opened Windows
  import opened Locality

  /** Entry `i` of a per-cell list, or `undefined` past its end. */
  function CellAt(s: seq<int>, i: int): Option<int>
  {
    if 0 <= i < |s| then Some(s[i]) else None
  }

  /** `previous[i] !== current[i]`. */
  predicate Differs(prev: seq<int>, cur: seq<int>, i: int)
  {
    CellAt(prev, i) != CellAt(cur, i)
  }

  /** Tick `t` is a transition: both its frame and its predecessor frame are recorded. */
  predicate HasTransition(frames: map<int, seq<int>>, t: int)
  {
    t - 1 in frames && t in frames
  }

  /** The number of transitions among the ticks `lo..hi`. */
  function Transitions(frames: map<int, seq<int>>, lo: int, hi: int): (n: nat)
    ensures n <= if hi < lo then 0 else hi - lo + 1
    decreases hi - lo
  {
    if hi < lo then 0
    else Transitions(frames, lo, hi - 1) + (if HasTransition(frames, hi) then 1 else 0)
  }

  /** The ticks of `lo..hi` that are transitions. */
  ghost function TransitionSet(frames: map<int, seq<int>>, lo: int, hi: int): set<int>
  {
    set t | lo <= t <= hi && HasTransition(frames, t)
  }

  /** `Transitions` counts exactly the transition ticks of the range. */
  lemma {:induction false} TransitionsCountTicks(frames: map<int, seq<int>>, lo: int, hi: int)
    ensures Transitions(frames, lo, hi) == |TransitionSet(frames, lo, hi)|
    decreases hi - lo
  {
    if hi < lo {
      assert TransitionSet(frames, lo, hi) == {};
    } else {
      TransitionsCountTicks(frames, lo, hi - 1);
      if HasTransition(frames, hi) {
        assert TransitionSet(frames, lo, hi) == TransitionSet(frames, lo, hi - 1) + {hi};
      } else {
        assert TransitionSet(frames, lo, hi) == TransitionSet(frames, lo, hi - 1);
      }
    }
  }

  /** The number of cells below `n` whose dominant species differs between two frames. */
  function ChangedCells(prev: seq<int>, cur: seq<int>, n: nat): (c: nat)
    ensures c <= n
  {
    if n == 0 then 0
    else ChangedCells(prev, cur, n - 1) + (if Differs(prev, cur, n - 1) then 1 else 0)
  }

  /** `totalCells === 0 ? 0 : changedCells / totalCells`. */
  function CellFraction(changed: nat, totalCells: nat): real
  {
    if totalCells == 0 then 0.0 else changed as real / totalCells as real
  }

  /** The changed-cell fraction of every transition of `lo..hi`, in tick order. */
  function ChangedFractions(frames: map<int, seq<int>>, lo: int, hi: int, totalCells: nat): (fs: seq<real>)
    ensures |fs| == Transitions(frames, lo, hi)
    decreases hi - lo
  {
    if hi < lo then []
    else
      ChangedFractions(frames, lo, hi - 1, totalCells)
      + (if HasTransition(frames, hi)
         then [CellFraction(ChangedCells(frames[hi - 1], frames[hi], totalCells), totalCells)]
         else [])
  }

  /** The number of transitions of `lo..hi` at which cell `i` changed its dominant species. */
  function CellChanges(frames: map<int, seq<int>>, lo: int, hi: int, i: int): (c: nat)
    ensures c <= Transitions(frames, lo, hi)
    decreases hi - lo
  {
    if hi < lo then 0
    else
      CellChanges(frames, lo, hi - 1, i)
      + (if HasTransition(frames, hi) && Differs(frames[hi - 1], frames[hi], i) then 1 else 0)
  }

  /** The changes of every cell `0 <= i < totalCells` over `lo..hi`. */
  function PerCellChanges(frames: map<int, seq<int>>, lo: int, hi: int, totalCells: nat): (cs: seq<nat>)
    ensures |cs| == totalCells
    ensures forall i :: 0 <= i < totalCells ==> cs[i] == CellChanges(frames, lo, hi, i)
  {
    seq(totalCells, i => CellChanges(frames, lo, hi, i))
  }

  /** Every element of `s` lies in [0, 1]. */
  ghost predicate InUnit(s: seq<real>)
  {
    forall j :: 0 <= j < |s| ==> 0.0 <= s[j] <= 1.0
  }

  /** Every changed-cell fraction lies in [0, 1]. */
  lemma {:induction false} ChangedFractionsInUnit(frames: map<int, seq<int>>, lo: int, hi: int, totalCells: nat)
    ensures InUnit(ChangedFractions(frames, lo, hi, totalCells))
    decreases hi - lo
  {
    if hi >= lo {
      ChangedFractionsInUnit(frames, lo, hi - 1, totalCells);
      var p := ChangedFractions(frames, lo, hi - 1, totalCells);
      var fs := ChangedFractions(frames, lo, hi, totalCells);
      if HasTransition(frames, hi) {
        var c := ChangedCells(frames[hi - 1], frames[hi], totalCells);
        if totalCells > 0 {
          DivideBounds(c as real, totalCells as real, 0.0, 1.0);
        }
        var x := CellFraction(c, totalCells);
        assert 0.0 <= x <= 1.0;
        assert fs == p + [x];
        forall j | 0 <= j < |fs|
          ensures 0.0 <= fs[j] <= 1.0
        {
          if j < |p| {
            assert fs[j] == p[j];
          }
        }
      } else {
        assert fs == p;
      }
    }
  }

  /** `Math.max(1, start)`: tick 0 has no predecessor frame. */
  function FirstTick(startTick: int): int
  {
    if startTick > 1 then startTick else 1
  }

  /** The inner loop of the turnover counters: compare two frames cell by cell. */
  method CountChangedCells(prev: seq<int>, cur: seq<int>, perCellChanges0: seq<nat>)
    returns (changedCells: nat, perCellChanges: seq<nat>)
    ensures changedCells == ChangedCells(prev, cur, |perCellChanges0|)
    ensures |perCellChanges| == |perCellChanges0|
    ensures forall i :: 0 <= i < |perCellChanges| ==>
      perCellChanges[i] == perCellChanges0[i] + (if Differs(prev, cur, i) then 1 else 0)
  {
    changedCells := 0;
    perCellChanges := perCellChanges0;
    var i := 0;
    while i < |perCellChanges0|
      invariant 0 <= i <= |perCellChanges0| && |perCellChanges| == |perCellChanges0|
      invariant changedCells == ChangedCells(prev, cur, i)
      invariant forall c :: 0 <= c < i ==>
        perCellChanges[c] == perCellChanges0[c] + (if Differs(prev, cur, c) then 1 else 0)
      invariant forall c :: i <= c < |perCellChanges| ==> perCellChanges[c] == perCellChanges0[c]
    {
      if Differs(prev, cur, i) {
        changedCells := changedCells + 1;
        perCellChanges := perCellChanges[i := perCellChanges[i] + 1];
      }
      i := i + 1;
    }
  }

  /** The loop state of the turnover counters once the ticks before `tick` are visited. */
  ghost predicate CountedUpTo(frames: map<int, seq<int>>, totalCells: nat, lo: int, tick: int,
                              transitions: nat, changedFractions: seq<real>, perCellChanges: seq<nat>)
  {
    && transitions == Transitions(frames, lo, tick - 1)
    && changedFractions == ChangedFractions(frames, lo, tick - 1, totalCells)
    && |perCellChanges| == totalCells
    && forall i :: 0 <= i < totalCells ==> perCellChanges[i] == CellChanges(frames, lo, tick - 1, i)
  }

  /**
   * The tick loop shared by `buildLocalityTurnover` and `buildLocalityRadiusTurnover`:
   * count the transitions in `max(1, startTick)..endTick`, the fraction of cells
   * whose dominant species changed at each, and the changes of every cell.
   */
  method CountTurnover(frames: map<int, seq<int>>, totalCells: nat, startTick: int, endTick: int)
    returns (transitions: nat, changedFractions: seq<real>, perCellChanges: seq<nat>)
    ensures CountedUpTo(frames, totalCells, FirstTick(startTick), endTick + 1,
                        transitions, changedFractions, perCellChanges)
  {
    var lo := if startTick > 1 then startTick else 1;
    changedFractions := [];
    perCellChanges := seq(totalCells, _ => 0);
    transitions := 0;
    var tick := lo;
    while tick <= endTick
      invariant lo <= tick && (tick <= endTick + 1 || tick == lo)
      invariant CountedUpTo(frames, totalCells, lo, tick, transitions, changedFractions, perCellChanges)
      decreases endTick - tick
    {
      if !(tick - 1 in frames && tick in frames) {
        tick := tick + 1;
        continue;
      }
      var previous := frames[tick - 1];
      var current := frames[tick];
      transitions := transitions + 1;
      var changedCells;
      changedCells, perCellChanges := CountChangedCells(previous, current, perCellChanges);
      changedFractions := changedFractions + [if totalCells == 0 then 0.0 else changedCells as real / totalCells as real];
      tick := tick + 1;
    }
    if endTick < lo {
      assert Transitions(frames, lo, endTick) == Transitions(frames, lo, lo - 1);
      assert ChangedFractions(frames, lo, endTick, totalCells) == [];
    }
  }

  /** `LocalityTurnoverAnalytics` without its standard deviations. */
  datatype LocalityTurnover = LocalityTurnover(
    transitions: nat,
    changedDominantCellFractionMean: real,
    perCellDominantTurnoverMean: real,
    perCellDominantTurnoverMax: real)

  /** `LocalityRadiusTurnoverAnalytics` without its standard deviations. */
  datatype LocalityRadiusTurnover = LocalityRadiusTurnover(radius: nat, turnover: LocalityTurnover)

  /**
   * The body the two turnover analytics share: the tick loop, then the all-zero
   * record without transitions, else the means and the maximum of the rates.
   */
  method ComputeTurnover(frames: map<int, seq<int>>, totalCells: nat, window: TurnoverWindow)
    returns (t: LocalityTurnover)
    requires totalCells > 0
    ensures t == TurnoverOf(frames, totalCells, window)
  {
    var transitions, changedFractions, perCellChanges :=
      CountTurnover(frames, totalCells, window.startTick, window.endTick);
    assert perCellChanges == PerCellChanges(frames, FirstTick(window.startTick), window.endTick, totalCells);
    if transitions == 0 {
      return LocalityTurnover(0, 0.0, 0.0, 0.0);
    }
    var perCellRates := Rates(perCellChanges, transitions);
    t := LocalityTurnover(transitions, Mean(changedFractions), Mean(perCellRates), MaxOf(perCellRates));
  }

  /** `perCellChanges.map((count) => count / transitions)`. */
  function Rates(perCellChanges: seq<nat>, transitions: nat): (rates: seq<real>)
    requires transitions > 0
    ensures |rates| == |perCellChanges|
  {
    seq(|perCellChanges|, i requires 0 <= i < |perCellChanges| => perCellChanges[i] as real / transitions as real)
  }

  /** The analytics record of the counters: all zero without transitions. */
  function Summarize(transitions: nat, changedFractions: seq<real>, perCellChanges: seq<nat>): LocalityTurnover
    requires |perCellChanges| > 0
  {
    if transitions == 0 then LocalityTurnover(0, 0.0, 0.0, 0.0)
    else
      var rates := Rates(perCellChanges, transitions);
      LocalityTurnover(transitions, Mean(changedFractions), Mean(rates), MaxOf(rates))
  }

  /** The turnover of the per-cell lists `frames` over the window, as both analytics compute it. */
  ghost function TurnoverOf(frames: map<int, seq<int>>, totalCells: nat, window: TurnoverWindow): LocalityTurnover
    requires totalCells > 0
  {
    var lo := FirstTick(window.startTick);
    Summarize(Transitions(frames, lo, window.endTick),
              ChangedFractions(frames, lo, window.endTick, totalCells),
              PerCellChanges(frames, lo, window.endTick, totalCells))
  }

  /**
   * The turnover promises: the transitions are the ticks of the window with both
   * frames present; every mean, rate and maximum lies in [0, 1]; without
   * transitions every field is 0.
   */
  lemma TurnoverBounds(frames: map<int, seq<int>>, totalCells: nat, window: TurnoverWindow)
    requires totalCells > 0
    ensures var t := TurnoverOf(frames, totalCells, window);
      && t.transitions == |TransitionSet(frames, FirstTick(window.startTick), window.endTick)|
      && (t.transitions == 0 ==> t == LocalityTurnover(0, 0.0, 0.0, 0.0))
      && 0.0 <= t.changedDominantCellFractionMean <= 1.0
      && 0.0 <= t.perCellDominantTurnoverMean <= 1.0
      && 0.0 <= t.perCellDominantTurnoverMax <= 1.0
  {
    var lo, hi := FirstTick(window.startTick), window.endTick;
    TransitionsCountTicks(frames, lo, hi);
    var n := Transitions(frames, lo, hi);
    if n > 0 {
      var fs := ChangedFractions(frames, lo, hi, totalCells);
      ChangedFractionsInUnit(frames, lo, hi, totalCells);
      MeanBounds(fs, 0.0, 1.0);
      var changes := PerCellChanges(frames, lo, hi, totalCells);
      var rates := Rates(changes, n);
      forall i | 0 <= i < |rates|
        ensures 0.0 <= rates[i] <= 1.0
      {
        DivideBounds(changes[i] as real, n as real, 0.0, 1.0);
      }
      MeanBounds(rates, 0.0, 1.0);
    }
  }

  /** In a window built by `buildTurnoverWindow` there are at most `window.size` transitions. */
  lemma TransitionsWithinWindow(frames: map<int, seq<int>>, tickCount: nat, windowSize: real)
    ensures var w := BuildTurnoverWindow(tickCount, windowSize);
      Transitions(frames, FirstTick(w.startTick), w.endTick) <= w.size
  {
  }

  /** The per-cell dominant species of every recorded frame. */
  function DominantByTick(frames: map<int, LocalityFrame>): map<int, seq<int>>
  {
    map t | t in frames :: frames[t].dominantSpeciesByCell
  }

  /** The per-cell neighbourhood dominant species of every recorded frame. */
  function NeighborhoodDominantByTick(frames: map<int, LocalityFrame>): map<int, seq<int>>
  {
    map t | t in frames :: frames[t].neighborhoodDominantSpeciesByCell
  }

  /**
   * The locality part of `LifeSimulation`: the grid size and locality radius of its
   * configuration, and `localityFrames`, the frame recorded at each tick.
   */
  class LocalityTracker {
    const width: int
    const height: int
    const localityRadius: real
    var frames: map<int, LocalityFrame>

    /** The grid is not empty, and every recorded frame covers all of its cells. */
    ghost predicate Valid()
      reads this
    {
      && width > 0 && height > 0
      && forall t :: t in frames ==>
           && |frames[t].dominantSpeciesByCell| == width * height
           && |frames[t].neighborhoodDominantSpeciesByCell| == width * height
    }

    constructor(width: int, height: int, localityRadius: real)
      requires width > 0 && height > 0
      ensures Valid()
      ensures this.width == width && this.height == height && this.localityRadius == localityRadius
      ensures frames == map[]
    {
      this.width := width;
      this.height := height;
      this.localityRadius := localityRadius;
      frames := map[];
    }

    /**
     * `recordLocalityFrame`: store the frame of the current agents at `tick`,
     * replacing any frame recorded there before and leaving the others alone.
     */
    method RecordLocalityFrame(tick: nat, agents: seq<Agent>)
      requires Valid() && OnGrid(agents, width, height)
      modifies this
      ensures Valid()
      ensures tick in frames && frames == old(frames)[tick := frames[tick]]
      ensures IsFrameOf(frames[tick], width, height, NormalizedLocalityRadius(localityRadius), agents)
    {
      var frame := BuildLocalityFrame(width, height, NormalizedLocalityRadius(localityRadius), agents);
      frames := frames[tick := frame];
    }

    /** `buildLocalityTurnover`: the turnover of the per-cell dominant species over the window. */
    method BuildLocalityTurnover(window: TurnoverWindow) returns (t: LocalityTurnover)
      requires Valid()
      ensures t == TurnoverOf(DominantByTick(frames), width * height, window)
    {
      var byTick := DominantByTick(frames);
      t := ComputeTurnover(byTick, width * height, window);
    }

    /** `buildLocalityRadiusTurnover`: the same over the neighbourhood dominant species. */
    method BuildLocalityRadiusTurnover(window: TurnoverWindow) returns (t: LocalityRadiusTurnover)
      requires Valid()
      ensures t.radius == NormalizedLocalityRadius(localityRadius)
      ensures t.turnover == TurnoverOf(NeighborhoodDominantByTick(frames), width * height, window)
    {
      var radius := NormalizedLocalityRadius(localityRadius);
      var byTick := NeighborhoodDominantByTick(frames);
      var turnover := ComputeTurnover(byTick, width * height, window);
      t := LocalityRadiusTurnover(radius, turnover);
    }
  }
}
