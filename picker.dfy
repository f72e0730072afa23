/**
 * The exercise picker: the loaded exercises narrowed, case-insensitively, to
 * those whose name or muscle group contains the typed filter, in list order.
 */
module Picker {
  import opened Wrappers
  import opened Text
  import opened Js
  import opened Models
  import opened Tables

  const NothingFound := "No exercises found"

  /** The filter test: the lowercased name contains the lowercased filter, or a (non-empty) muscle group does. */
  predicate Matches(e: Exercise, filter: string) {
    Contains(ToLower(e.name), ToLower(filter)) ||
    (TruthyText(e.muscleGroup) && Contains(ToLower(e.muscleGroup.value), ToLower(filter)))
  }

  function Shown(filter: string): Exercise -> bool {
    (e: Exercise) => Matches(e, filter)
  }

  /** `exercises.filter(...)`: the matching exercises, each kept in its place in the list. */
  function Filtered(exs: seq<Exercise>, filter: string): (r: seq<Exercise>)
    ensures forall e :: e in r <==> e in exs && Matches(e, filter)
    ensures IsSubsequence(r, exs)
  {
    FilterSubsequence(exs, Shown(filter));
    Filter(exs, Shown(filter))
  }

  lemma {:induction false} FilterAll<T(!new)>(s: seq<T>, p: T -> bool)
    requires forall x :: x in s ==> p(x)
    ensures Filter(s, p) == s
    decreases |s|
  {
    if s != [] {
      assert s[0] in s;
      FilterAll(s[1..], p);
      assert s == [s[0]] + s[1..];
    }
  }

  /** An empty filter shows every exercise, in list order. */
  lemma EmptyFilterShowsAll(exs: seq<Exercise>)
    ensures Filtered(exs, "") == exs
  {
    forall e | e in exs ensures Matches(e, "") {
      ContainsEmpty(ToLower(e.name));
    }
    FilterAll(exs, Shown(""));
  }

  lemma LowerIdempotent(s: string)
    ensures ToLower(ToLower(s)) == ToLower(s)
  {
    forall i | 0 <= i < |s| ensures ToLower(ToLower(s))[i] == ToLower(s)[i] {
      assert LowerChar(LowerChar(s[i])) == LowerChar(s[i]);
    }
  }

  /** Case does not matter: a filter and its lowercase form show the same exercises. */
  lemma FilterIgnoresCase(exs: seq<Exercise>, filter: string)
    ensures Filtered(exs, ToLower(filter)) == Filtered(exs, filter)
  {
    LowerIdempotent(filter);
    FilterSameTest(exs, Shown(ToLower(filter)), Shown(filter));
  }

  lemma {:induction false} FilterSameTest<T(!new)>(s: seq<T>, p: T -> bool, q: T -> bool)
    requires forall x :: p(x) == q(x)
    ensures Filter(s, p) == Filter(s, q)
    decreases |s|
  {
    if s != [] {
      FilterSameTest(s[1..], p, q);
    }
  }

  /** The empty-list message is shown exactly when nothing matches. */
  function Message(exs: seq<Exercise>, filter: string): (m: Option<string>)
    ensures m.Some? <==> forall e :: e in exs ==> !Matches(e, filter)
    ensures m.Some? ==> m.value == NothingFound
  {
    var r := Filtered(exs, filter);
    if r == [] then Some(NothingFound)
    else
      assert r[0] in r;
      None
  }

  /** The picker's state: the loaded list and the typed filter. */
  class PickerState {
    var exercises: seq<Exercise>
    var filter: string

    constructor()
      ensures exercises == [] && filter == ""
    {
      exercises := [];
      filter := "";
    }

    /** The list request answered. */
    method Loaded(exs: seq<Exercise>)
      modifies this
      ensures exercises == exs && filter == old(filter)
    {
      exercises := exs;
    }

    /** The search field changed. */
    method Type(f: string)
      modifies this
      ensures filter == f && exercises == old(exercises)
    {
      filter := f;
    }

    function Visible(): seq<Exercise>
      reads this
    {
      Filtered(exercises, filter)
    }
  }
}
