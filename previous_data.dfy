/**
 * The "Last: W × reps" line that shows the previous session's sets of an
 * exercise: the weight of the first set only, then every set's reps.
 */
module PreviousData {
  import opened Wrappers
  import opened Text
  import opened Js
  import opened Models
  import opened Display

  function RepsTexts(sets: seq<WorkoutSet>): (r: seq<string>)
    ensures |r| == |sets| && forall i :: 0 <= i < |sets| ==> r[i] == IntToString(sets[i].reps)
  {
    seq(|sets|, i requires 0 <= i < |sets| => IntToString(sets[i].reps))
  }

  /** The text before the reps: "Last: <first set's weight> × ". */
  function Head(sets: seq<WorkoutSet>, num: real -> string): string
    requires sets != []
  {
    "Last: " + WeightText(sets[0].weightKg, num) + " × "
  }

  /**
   * Nothing for no sets; else "Last: <first set's weight> × " followed by the
   * reps of every set, in order, which split back at ", " into one count each.
   */
  function Summary(sets: seq<WorkoutSet>, num: real -> string): (r: Option<string>)
    ensures r.None? <==> sets == []
    ensures r.Some? ==> StartsWith(r.value, Head(sets, num))
    ensures r.Some? ==> Split(r.value[|Head(sets, num)|..], ", ") == RepsTexts(sets)
  {
    if sets == [] then None
    else
      var head := Head(sets, num);
      var reps := Join(RepsTexts(sets), ", ");
      var t := head + reps;
      assert t[..|head|] == head && t[|head|..] == reps;
      RepsRoundTrip(sets);
      Some(t)
  }

  /** The reps part lists every set's reps in order, and each reads back as that set's count. */
  lemma RepsRoundTrip(sets: seq<WorkoutSet>)
    requires sets != []
    ensures Split(Join(RepsTexts(sets), ", "), ", ") == RepsTexts(sets)
    ensures forall i :: 0 <= i < |sets| ==> ParseInt(RepsTexts(sets)[i]) == Some(sets[i].reps)
  {
    var parts := RepsTexts(sets);
    forall k | 0 <= k < |parts| ensures ',' !in parts[k] {
      IntTextHasNo(sets[k].reps, ',');
    }
    SplitJoin(parts, ", ");
    forall i | 0 <= i < |sets| ensures ParseInt(parts[i]) == Some(sets[i].reps) {
      ParseIntToString(sets[i].reps);
    }
  }
}
