// The frame throttle of the Game of Life engine: the decision, taken on
// every animation frame, whether enough time has passed to advance a
// generation (the first lines of tick in js/game-of-life.js).
//
// Timestamps are whole milliseconds. JavaScript's null and undefined are
// kept apart because the source's subtraction treats them differently:
// `t - null` is `t`, while `t - undefined` is NaN.

module Throttle {

  /** A timestamp as the engine sees it. */
  datatype Stamp = Null | Undefined | At(ms: int)

  /** JavaScript truthiness of a timestamp: a number other than 0. */
  predicate Truthy(t: Stamp) {
    t.At? && t.ms != 0
  }

  /** The value of `timestamp ? timestamp - lastTimestamp : null`. */
  datatype Delta = NoDelta | NaN | Elapsed(ms: int)

  /**
   * No delta without a truthy timestamp; otherwise the time since the last
   * update, where a null baseline counts as 0 and an undefined one gives NaN.
   */
  function ComputeDelta(timestamp: Stamp, last: Stamp): (d: Delta)
    ensures d.NoDelta? <==> !Truthy(timestamp)
    ensures d.NaN? <==> Truthy(timestamp) && last.Undefined?
    ensures d.Elapsed? ==> d.ms == timestamp.ms - (if last.At? then last.ms else 0)
  {
    if !Truthy(timestamp) then NoDelta
    else match last
      case Null => Elapsed(timestamp.ms)
      case Undefined => NaN
      case At(l) => Elapsed(timestamp.ms - l)
  }

  /** `!delta || delta >= speed`: a falsy delta (none, NaN or 0) or one of at least `speed`. */
  function ShouldUpdate(delta: Delta, speed: int): bool {
    match delta
    case NoDelta => true
    case NaN => true
    case Elapsed(d) => d == 0 || d >= speed
  }

  /**
   * The decision in plain terms: the frame updates exactly when there is no
   * usable timestamp, no baseline to subtract, the same instant as the
   * baseline, or at least `speed` milliseconds since it.
   */
  lemma UpdateDecision(timestamp: Stamp, last: Stamp, speed: int)
    ensures ShouldUpdate(ComputeDelta(timestamp, last), speed) <==>
      !Truthy(timestamp) || last.Undefined? ||
      (var base := if last.At? then last.ms else 0;
       timestamp.ms == base || timestamp.ms - base >= speed)
  {
  }

  /**
   * Against a recorded baseline at a different instant, the frame updates
   * exactly when at least `speed` milliseconds have passed: this is the
   * rate limit the engine promises.
   */
  lemma UpdatesAreSpacedBySpeed(t: int, l: int, speed: int)
    requires t != 0 && t != l
    ensures ShouldUpdate(ComputeDelta(At(t), At(l)), speed) <==> t - l >= speed
  {
  }

  /** With a null baseline the elapsed time is measured from 0, so an early first timestamp is skipped. */
  lemma NullBaselineCountsFromZero(t: int, speed: int)
    requires t != 0
    ensures ShouldUpdate(ComputeDelta(At(t), Null), speed) <==> t >= speed
  {
  }

  /** A repeated timestamp always updates, since a zero delta is falsy. */
  lemma RepeatedTimestampUpdates(t: int, speed: int)
    ensures ShouldUpdate(ComputeDelta(At(t), At(t)), speed)
  {
  }
}
