/**
 * The exercise card of the active workout: the defaults it hands the set
 * logger (the last set's values, else the previous session's first set,
 * else none / 8 reps), the one-line summary of the logged sets, the target
 * line and the repeat-last action. `num` renders a JavaScript number.
 */
module ExerciseCard {
  import opened Wrappers
  import opened Text
  import opened Js
  import opened Models
  import opened Display
  import SetLogger

  const FallbackReps := 8

  /** `sets[sets.length - 1]`: the last logged set, or none (`undefined`) for an empty list. */
  function LastSet(sets: seq<WorkoutSet>): (r: Option<WorkoutSet>)
    ensures r.None? <==> sets == []
    ensures r.Some? ==> r.value == sets[|sets| - 1]
  {
    if sets == [] then None else Some(sets[|sets| - 1])
  }

  /**
   * `lastSet?.weight_kg ?? (previousSets[0]?.weight_kg ?? null)`: a non-null
   * last weight wins; a missing last set or a bodyweight (null) last weight
   * falls through to the previous session's first set.
   */
  function DefaultWeight(sets: seq<WorkoutSet>, previous: seq<WorkoutSet>): (w: Option<real>)
    ensures sets != [] && sets[|sets| - 1].weightKg.Some? ==> w == sets[|sets| - 1].weightKg
    ensures (sets == [] || sets[|sets| - 1].weightKg.None?) ==> w == (if previous != [] then previous[0].weightKg else None)
    ensures w.Some? ==> (sets != [] && w == sets[|sets| - 1].weightKg) || (previous != [] && w == previous[0].weightKg)
  {
    var last := LastSet(sets);
    if last.Some? && last.value.weightKg.Some? then last.value.weightKg
    else if previous != [] then previous[0].weightKg
    else None
  }

  /** A bodyweight last set does not make the default bodyweight: the previous session's weight is used. */
  lemma BodyweightLastSetFallsThrough(sets: seq<WorkoutSet>, previous: seq<WorkoutSet>)
    requires sets != [] && sets[|sets| - 1].weightKg.None?
    ensures DefaultWeight(sets, previous) == (if previous != [] then previous[0].weightKg else None)
  {
  }

  /** `lastSet?.reps ?? (previousSets[0]?.reps ?? 8)`; reps are never null. */
  function DefaultReps(sets: seq<WorkoutSet>, previous: seq<WorkoutSet>): (r: int)
    ensures sets != [] ==> r == sets[|sets| - 1].reps
    ensures sets == [] && previous != [] ==> r == previous[0].reps
    ensures sets == [] && previous == [] ==> r == FallbackReps
  {
    match LastSet(sets)
    case Some(s) => s.reps
    case None => if previous != [] then previous[0].reps else FallbackReps
  }

  /** `${w}×${s.reps}` with "BW" for a null weight. */
  function SetText(s: WorkoutSet, num: real -> string): string {
    WeightText(s.weightKg, num) + "×" + IntToString(s.reps)
  }

  function SetTexts(sets: seq<WorkoutSet>, num: real -> string): (r: seq<string>)
    ensures |r| == |sets| && forall i :: 0 <= i < |sets| ==> r[i] == SetText(sets[i], num)
  {
    seq(|sets|, i requires 0 <= i < |sets| => SetText(sets[i], num))
  }

  /** `setsSummary`: none without sets, else the set texts joined with ", " in logged order. */
  function SetsSummary(sets: seq<WorkoutSet>, num: real -> string): (r: Option<string>)
    ensures r.None? <==> sets == []
  {
    if sets == [] then None else Some(Join(SetTexts(sets, num), ", "))
  }

  /** When numbers render without commas, the summary splits back into one text per set, in order. */
  lemma SummaryListsEverySet(sets: seq<WorkoutSet>, num: real -> string)
    requires sets != []
    requires forall w :: ',' !in num(w)
    ensures Split(SetsSummary(sets, num).value, ", ") == SetTexts(sets, num)
  {
    var parts := SetTexts(sets, num);
    forall k | 0 <= k < |parts| ensures ',' !in parts[k] {
      var s := sets[k];
      IntTextHasNo(s.reps, ',');
      assert parts[k] == WeightText(s.weightKg, num) + "×" + IntToString(s.reps);
      if s.weightKg.Some? {
        assert WeightText(s.weightKg, num) == num(s.weightKg.value) + "kg";
      }
    }
    SplitJoin(parts, ", ");
  }

  /** The range suffix of the target line: `-max` when the maximum is shown. */
  function TargetSuffix(te: TemplateExercise): (r: string)
    ensures r == "" <==> !ShowsMax(te.targetRepsMin, te.targetRepsMax)
  {
    if ShowsMax(te.targetRepsMin, te.targetRepsMax) then "-" + IntToString(te.targetRepsMax.value) else ""
  }

  /** "Target: {sets}×{min}{suffix}"; a null JSX child renders nothing. */
  function TargetLine(te: TemplateExercise): (r: string)
    ensures StartsWith(r, "Target: ")
  {
    var r := "Target: " + JsxText(te.targetSets) + "×" + JsxText(te.targetRepsMin) + TargetSuffix(te);
    assert r[..|"Target: "|] == "Target: ";
    r
  }

  /** The maximum appears, after a '-', exactly when it is truthy and differs from the minimum. */
  lemma TargetLineShowsMax(te: TemplateExercise)
    ensures ShowsMax(te.targetRepsMin, te.targetRepsMax) ==>
      EndsWith(TargetLine(te), "-" + IntToString(te.targetRepsMax.value))
    ensures !ShowsMax(te.targetRepsMin, te.targetRepsMax) ==>
      TargetLine(te) == "Target: " + JsxText(te.targetSets) + "×" + JsxText(te.targetRepsMin)
  {
    var head := "Target: " + JsxText(te.targetSets) + "×" + JsxText(te.targetRepsMin);
    if ShowsMax(te.targetRepsMin, te.targetRepsMax) {
      var suffix := TargetSuffix(te);
      assert TargetLine(te) == head + suffix;
      assert (head + suffix)[|head + suffix| - |suffix|..] == suffix;
    } else {
      assert TargetLine(te) == head + "";
    }
  }

  /** The repeat action: the last set's weight and reps, when there is a last set. */
  function RepeatLast(sets: seq<WorkoutSet>): (r: Option<(Option<real>, int)>)
    ensures r.Some? <==> sets != []
    ensures r.Some? ==> r.value == (sets[|sets| - 1].weightKg, sets[|sets| - 1].reps)
  {
    match LastSet(sets)
    case Some(s) => Some((s.weightKg, s.reps))
    case None => None
  }

  /** The card passes `hasLastSet = !!lastSet` and a repeat handler only with a last set: the button shows exactly when a set is logged. */
  lemma RepeatShownIffSetLogged(sets: seq<WorkoutSet>)
    ensures SetLogger.RepeatShown(LastSet(sets).Some?, RepeatLast(sets).Some?) <==> sets != []
  {
  }
}
