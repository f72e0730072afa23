/**
 * The workouts (templates) page: the per-exercise labels "<sets>×<range>"
 * of an expanded template, one template expanded at a time.
 */
module TemplatesPage {
  import opened Wrappers
  import opened Text
  import opened Js
  import opened Models
  import opened Display
  import Home

  /** The label: nothing without a (truthy) minimum, else "<sets>×<range>". */
  function Label(te: TemplateExercise): (r: string)
    ensures r == "" <==> !Truthy(te.targetRepsMin)
  {
    if Truthy(te.targetRepsMin) then
      TemplateText(te.targetSets) + "×" + RangeText(te.targetRepsMin.value, te.targetRepsMax)
    else ""
  }

  /**
   * A non-empty label reads back as the home page's does: the minimum, and
   * the maximum exactly when it is truthy and differs from the minimum; the
   * two pages show a label for the same exercises.
   */
  lemma LabelReadsBack(te: TemplateExercise)
    requires Truthy(te.targetRepsMin) && te.targetRepsMin.value >= 0
    requires te.targetRepsMax.Some? ==> te.targetRepsMax.value >= 0
    ensures var r := Label(te);
      var head := TemplateText(te.targetSets) + "×";
      StartsWith(r, head) &&
      ParseRange(r[|head|..]) ==
        Some((te.targetRepsMin.value, if ShowsMax(te.targetRepsMin, te.targetRepsMax) then te.targetRepsMax else None))
    ensures (Label(te) == "") == (Home.RepLabel(te) == "")
  {
    var head := TemplateText(te.targetSets) + "×";
    var range := RangeText(te.targetRepsMin.value, te.targetRepsMax);
    assert Label(te) == head + range;
    assert (head + range)[..|head|] == head;
    assert (head + range)[|head|..] == range;
    RangeRoundTrip(te.targetRepsMin.value, te.targetRepsMax);
  }

  /** The page state: the one expanded template card. */
  class ListPage {
    var expandedId: Option<int>

    constructor()
      ensures expandedId == None
    {
      expandedId := None;
    }

    /** A click on a card: it opens (closing any other) or, when it was open, closes. */
    method Click(id: int)
      modifies this
      ensures expandedId == Toggle(old(expandedId), id)
      ensures expandedId == Some(id) <==> old(expandedId) != Some(id)
    {
      expandedId := Toggle(expandedId, id);
    }
  }
}
