/**
 * The increment control: a value with a minus button that steps down but not
 * below a floor, and a plus button that steps up without bound. The weight
 * (steps of 2.5) and reps (steps of 1) controls are exact in binary floating
 * point at the sizes involved, so `real` models them.
 */
module Increment {

  /** The floor when the caller gives none. */
  const DefaultMin: real := 0.0

  /** The minus button: `Math.max(min, value - step)`. */
  function Decrement(value: real, step: real, min: real): (r: real)
    ensures r >= min && r >= value - step
    ensures r == min || r == value - step
  {
    if value - step > min then value - step else min
  }

  /** The plus button: `value + step`. */
  function Step(value: real, step: real): real {
    value + step
  }

  /** A value at or above the floor stays at or above it whichever button is pressed. */
  lemma StaysAboveFloor(value: real, step: real, min: real)
    requires value >= min && step >= 0.0
    ensures Decrement(value, step, min) >= min && Step(value, step) >= min
  {
  }

  /** When the step down does not reach the floor, the plus button undoes the minus button. */
  lemma IncrementUndoesDecrement(value: real, step: real, min: real)
    requires value - step >= min
    ensures Step(Decrement(value, step, min), step) == value
  {
  }

  /** From at or above the floor, the minus button undoes the plus button. */
  lemma DecrementUndoesIncrement(value: real, step: real, min: real)
    requires value >= min
    ensures Decrement(Step(value, step), step, min) == value
  {
  }
}
