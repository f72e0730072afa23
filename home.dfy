/**
 * The home page: the redirect to the workout when a session is open, the
 * choice between a freeform and a template workout, the per-exercise rep
 * labels of the template list (one template expanded at a time), and the
 * start-workout flow. The requests' answers are parameters.
 */
module Home {
  import opened Wrappers
  import opened Text
  import opened Js
  import opened Models
  import opened Display
  import Sessions
  import Db

  /** The rep label: nothing without a (truthy) minimum, else "<sets>s | <range>r". */
  function RepLabel(te: TemplateExercise): (r: string)
    ensures r == "" <==> !Truthy(te.targetRepsMin)
  {
    if Truthy(te.targetRepsMin) then
      TemplateText(te.targetSets) + "s | " + RangeText(te.targetRepsMin.value, te.targetRepsMax) + "r"
    else ""
  }

  /**
   * A non-empty label reads back: the sets before " | ", then the minimum and
   * the maximum exactly when it is truthy and differs from the minimum.
   */
  lemma RepLabelReadsBack(te: TemplateExercise)
    requires Truthy(te.targetRepsMin) && te.targetRepsMin.value >= 0
    requires te.targetRepsMax.Some? ==> te.targetRepsMax.value >= 0
    ensures var r := RepLabel(te);
      var head := TemplateText(te.targetSets) + "s | ";
      StartsWith(r, head) && EndsWith(r, "r") &&
      ParseRange(r[|head|..|r| - 1]) ==
        Some((te.targetRepsMin.value, if ShowsMax(te.targetRepsMin, te.targetRepsMax) then te.targetRepsMax else None))
  {
    var head := TemplateText(te.targetSets) + "s | ";
    var range := RangeText(te.targetRepsMin.value, te.targetRepsMax);
    var r := head + range + "r";
    assert RepLabel(te) == r;
    assert r[..|head|] == head;
    assert r[|head|..|r| - 1] == range;
    RangeRoundTrip(te.targetRepsMin.value, te.targetRepsMax);
  }

  /** The redirect effect: a (non-null) open session sends the page to the workout. */
  function Redirect(active: Option<Session>): (r: Option<string>)
    ensures r.Some? <==> active.Some?
    ensures r.Some? ==> r.value == "/workout"
  {
    if active.Some? then Some("/workout") else None
  }

  /** The Template button is disabled while the list is missing or empty. */
  predicate TemplateButtonDisabled(templates: Option<seq<Template>>) {
    templates.None? || templates.value == []
  }

  /** `createSession({ template_id })`: only the template id, absent for a freeform workout. */
  function StartRequest(templateId: Option<int>): CreateSession {
    CreateSession(templateId, None, None, None, None, None)
  }

  /**
   * The session the server creates for that request is open ("active"),
   * started now, of the chosen template and not yet paused, so the redirect
   * of the next visit finds it.
   */
  lemma StartedSessionIsOpen(templateId: Option<int>, id: int, now: string)
    ensures var row := Sessions.NewRow(id, StartRequest(templateId), now);
      row.status == "active" && IsOpen(row.status) && Sessions.IsOpenRow()(row) &&
      row.startedAt == now && row.endedAt == None && row.templateId == templateId && row.pausedDuration == 0
  {
  }

  datatype Mode = Choose | PickTemplate

  /** The page state: the view, the one expanded template, and the starting flag. */
  class HomePage {
    var mode: Mode
    var expandedId: Option<int>
    var starting: bool

    constructor()
      ensures mode == Choose && expandedId == None && !starting
    {
      mode := Choose;
      expandedId := None;
      starting := false;
    }

    /** The Template button: switches to the list unless it is disabled. */
    method PressTemplate(templates: Option<seq<Template>>)
      modifies this
      ensures mode == (if TemplateButtonDisabled(templates) then old(mode) else PickTemplate)
      ensures expandedId == old(expandedId) && starting == old(starting)
    {
      if !TemplateButtonDisabled(templates) {
        mode := PickTemplate;
      }
    }

    /** The back arrow of the template list. */
    method Back()
      modifies this
      ensures mode == Choose && expandedId == old(expandedId) && starting == old(starting)
    {
      mode := Choose;
    }

    /** A click on a template card: it opens (closing any other) or, when it was open, closes. */
    method Click(id: int)
      modifies this
      ensures expandedId == Toggle(old(expandedId), id)
      ensures expandedId == Some(id) <==> old(expandedId) != Some(id)
      ensures mode == old(mode) && starting == old(starting)
    {
      expandedId := Toggle(expandedId, id);
    }

    /**
     * `startWorkout` with the request's outcome: the request carries the
     * template id; the page navigates to the workout only on success; the
     * starting flag is reset either way.
     */
    method StartWorkout(templateId: Option<int>, outcome: Result<Session, string>)
      returns (request: CreateSession, navigate: Option<string>)
      modifies this
      ensures request == StartRequest(templateId)
      ensures navigate == (if outcome.Ok? then Some("/workout") else None)
      ensures !starting && mode == old(mode) && expandedId == old(expandedId)
    {
      starting := true;
      request := StartRequest(templateId);
      navigate := None;
      if outcome.Ok? {
        navigate := Some("/workout");
      }
      starting := false;
    }
  }
}
