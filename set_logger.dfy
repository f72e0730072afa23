/**
 * The set logger: weight and reps controls seeded from the card's defaults,
 * the bodyweight rule (no default weight and a weight of 0 log a null
 * weight), and the repeat button's visibility.
 */
module SetLogger {
  import opened Wrappers
  import opened Increment

  const WeightStep: real := 2.5
  const RepsStep: real := 1.0
  const RepsMin: real := 1.0

  /** The weight sent for the current control value: null exactly in the bodyweight case. */
  function Logged(defaultWeight: Option<real>, weight: real): (w: Option<real>)
    ensures w.None? <==> defaultWeight.None? && weight == 0.0
    ensures w.Some? ==> w.value == weight
  {
    if defaultWeight.None? && weight == 0.0 then None else Some(weight)
  }

  /** With a default weight, 0 is logged as 0, not as bodyweight. */
  lemma ZeroWithDefaultIsNotBodyweight(d: real)
    ensures Logged(Some(d), 0.0) == Some(0.0)
  {
  }

  /** The repeat button shows only with a last set and a repeat handler. */
  predicate RepeatShown(hasLastSet: bool, hasRepeatHandler: bool) {
    hasLastSet && hasRepeatHandler
  }

  /**
   * One mounted logger. `defaultWeight` is the current prop; `weight` and
   * `reps` are the state, seeded once from the props at mount and kept when
   * the props change. The reps control steps by whole numbers from a whole
   * start, so `reps` is kept as an integer.
   */
  class Logger {
    var defaultWeight: Option<real>
    var weight: real
    var reps: int

    constructor(defaultWeight: Option<real>, defaultReps: int)
      ensures this.defaultWeight == defaultWeight
      ensures weight == defaultWeight.GetOr(0.0) && reps == defaultReps
    {
      this.defaultWeight := defaultWeight;
      weight := defaultWeight.GetOr(0.0);
      reps := defaultReps;
    }

    /** A later render with new props: the state values stay. */
    method Rerender(defaultWeight: Option<real>)
      modifies this
      ensures this.defaultWeight == defaultWeight && weight == old(weight) && reps == old(reps)
    {
      this.defaultWeight := defaultWeight;
    }

    predicate IsBodyweight()
      reads this
    {
      defaultWeight.None? && weight == 0.0
    }

    method WeightDown()
      modifies this
      ensures weight >= DefaultMin
      ensures weight == Decrement(old(weight), WeightStep, DefaultMin)
      ensures reps == old(reps) && defaultWeight == old(defaultWeight)
    {
      weight := Decrement(weight, WeightStep, DefaultMin);
    }

    method WeightUp()
      modifies this
      ensures weight == Step(old(weight), WeightStep)
      ensures reps == old(reps) && defaultWeight == old(defaultWeight)
    {
      weight := Step(weight, WeightStep);
    }

    method RepsDown()
      modifies this
      ensures reps as real >= RepsMin
      ensures reps as real == Decrement(old(reps) as real, RepsStep, RepsMin)
      ensures weight == old(weight) && defaultWeight == old(defaultWeight)
    {
      reps := if reps - 1 > 1 then reps - 1 else 1;
    }

    method RepsUp()
      modifies this
      ensures reps as real == Step(old(reps) as real, RepsStep)
      ensures weight == old(weight) && defaultWeight == old(defaultWeight)
    {
      reps := reps + 1;
    }

    /** "LOG SET": the weight (null when bodyweight) and the reps. */
    method Log() returns (w: Option<real>, r: int)
      ensures w == Logged(defaultWeight, weight)
      ensures w.None? <==> IsBodyweight()
      ensures r == reps
    {
      w := Logged(defaultWeight, weight);
      r := reps;
    }
  }
}
