/** The trailing window of ticks that the turnover analytics look at (`buildTurnoverWindow`). */
module Windows {

  /** `TurnoverWindow`: the ticks `startTick..endTick`, `size` of them. */
  datatype TurnoverWindow = TurnoverWindow(startTick: int, endTick: int, size: int)

  /** `Math.max(1, Math.floor(windowSize))`. */
  function NormalizedSize(windowSize: real): int
  {
    if windowSize.Floor < 1 then 1 else windowSize.Floor
  }

  /**
   * At tick 0 the window is empty (`{0, 0, 0}`); otherwise it is the longest run of
   * ticks ending at the current tick that starts no earlier than tick 1 and holds
   * at most `max(1, floor(windowSize))` ticks.
   */
  function BuildTurnoverWindow(tickCount: nat, windowSize: real): (w: TurnoverWindow)
    ensures tickCount == 0 ==> w == TurnoverWindow(0, 0, 0)
    ensures tickCount > 0 ==>
      && w.endTick == tickCount
      && 1 <= w.startTick <= w.endTick
      && w.size == w.endTick - w.startTick + 1
      && w.size <= NormalizedSize(windowSize)
      && (w.startTick > 1 ==> w.size == NormalizedSize(windowSize))
  {
    if tickCount == 0 then TurnoverWindow(0, 0, 0)
    else
      var normalized := NormalizedSize(windowSize);
      var size := if normalized < tickCount then normalized else tickCount;
      TurnoverWindow(tickCount - size + 1, tickCount, size)
  }
}
