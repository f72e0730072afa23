/**
 * The template editor page: the edited list of exercises with their targets,
 * kept with dense positions 1..N by add and remove, the defaults applied when
 * a template is loaded, the exercises the add dropdown offers, and the save
 * guard that sends a trimmed, non-empty name.
 */
module TemplateEditor {
  import opened Wrappers
  import opened Text
  import opened Js
  import opened Models
  import opened Tables

  const DefaultSets := 3
  const DefaultRepsMin := 8
  const DefaultRepsMax := 12

  /** `TemplateExerciseInput`: one row of the editor. */
  datatype Entry = Entry(
    exerciseId: int,
    exerciseName: string,
    position: int,
    targetSets: int,
    targetRepsMin: int,
    targetRepsMax: int)

  /** Positions are 1..N in list order. */
  predicate Dense(es: seq<Entry>) {
    forall i :: 0 <= i < |es| ==> es[i].position == i + 1
  }

  /** No exercise is listed twice. */
  predicate DistinctExercises(es: seq<Entry>) {
    forall i, j :: 0 <= i < j < |es| ==> es[i].exerciseId != es[j].exerciseId
  }

  // ---------------------------------------------------------------- list edits

  /** `addExercise`: appends the exercise at position length + 1 with targets 3 × 8-12. */
  function AddExercise(es: seq<Entry>, ex: Exercise): (r: seq<Entry>)
    ensures |r| == |es| + 1 && r[..|es|] == es
    ensures r[|es|] == Entry(ex.id, ex.name, |es| + 1, DefaultSets, DefaultRepsMin, DefaultRepsMax)
  {
    es + [Entry(ex.id, ex.name, |es| + 1, DefaultSets, DefaultRepsMin, DefaultRepsMax)]
  }

  lemma AddKeepsDense(es: seq<Entry>, ex: Exercise)
    requires Dense(es)
    ensures Dense(AddExercise(es, ex))
  {
  }

  /** `exercises.filter((_, i) => i !== idx)`: the entry at `idx` is dropped, if there is one. */
  function DropIndex(es: seq<Entry>, idx: int): (r: seq<Entry>)
    ensures |r| == (if 0 <= idx < |es| then |es| - 1 else |es|)
    ensures forall i :: 0 <= i < |r| ==> r[i] == (if 0 <= idx <= i then es[i + 1] else es[i])
  {
    if 0 <= idx < |es| then es[..idx] + es[idx + 1..] else es
  }

  /** `next.map((e, i) => ({ ...e, position: i + 1 }))`. */
  function Renumber(es: seq<Entry>): (r: seq<Entry>)
    ensures |r| == |es| && Dense(r)
    ensures forall i :: 0 <= i < |es| ==> r[i] == es[i].(position := i + 1)
  {
    seq(|es|, i requires 0 <= i < |es| => es[i].(position := i + 1))
  }

  /** `removeExercise`: drops the entry at `idx` and renumbers the rest 1..N in their order. */
  function RemoveExercise(es: seq<Entry>, idx: int): (r: seq<Entry>)
    ensures Dense(r)
    ensures |r| == (if 0 <= idx < |es| then |es| - 1 else |es|)
    ensures forall i :: 0 <= i < |r| ==> r[i] == (if 0 <= idx <= i then es[i + 1] else es[i]).(position := i + 1)
  {
    Renumber(DropIndex(es, idx))
  }

  /** Removing the entry just added gives the list back. */
  lemma RemoveUndoesAdd(es: seq<Entry>, ex: Exercise)
    requires Dense(es)
    ensures RemoveExercise(AddExercise(es, ex), |es|) == es
  {
    var r := RemoveExercise(AddExercise(es, ex), |es|);
    assert forall i :: 0 <= i < |es| ==> r[i] == es[i];
  }

  datatype Target = Sets | RepsMin | RepsMax

  /** A target input's `onChange`: `next[idx] = { ...next[idx], <field>: value }`. */
  function EditTarget(es: seq<Entry>, idx: int, field: Target, value: int): (r: seq<Entry>)
    requires 0 <= idx < |es|
    ensures |r| == |es|
    ensures forall i :: 0 <= i < |es| && i != idx ==> r[i] == es[i]
    ensures r[idx].exerciseId == es[idx].exerciseId && r[idx].position == es[idx].position
    ensures r[idx].targetSets == (if field == Sets then value else es[idx].targetSets)
    ensures r[idx].targetRepsMin == (if field == RepsMin then value else es[idx].targetRepsMin)
    ensures r[idx].targetRepsMax == (if field == RepsMax then value else es[idx].targetRepsMax)
  {
    var e := es[idx];
    es[idx := match field
              case Sets => e.(targetSets := value)
              case RepsMin => e.(targetRepsMin := value)
              case RepsMax => e.(targetRepsMax := value)]
  }

  lemma EditKeepsDense(es: seq<Entry>, idx: int, field: Target, value: int)
    requires 0 <= idx < |es| && Dense(es)
    ensures Dense(EditTarget(es, idx, field, value))
  {
  }

  // ---------------------------------------------------------------- loading

  /** `v || d`: a null or zero target takes the default. */
  function OrDefault(v: Option<int>, d: int): (r: int)
    ensures Truthy(v) ==> r == v.value
    ensures !Truthy(v) ==> r == d
  {
    if Truthy(v) then v.value else d
  }

  function Loaded(te: TemplateExercise): (e: Entry)
    ensures e.exerciseId == te.exerciseId && e.exerciseName == te.exerciseName && e.position == te.position
    ensures e.targetSets != 0 && e.targetRepsMin != 0 && e.targetRepsMax != 0
  {
    Entry(te.exerciseId, te.exerciseName, te.position,
          OrDefault(te.targetSets, DefaultSets),
          OrDefault(te.targetRepsMin, DefaultRepsMin),
          OrDefault(te.targetRepsMax, DefaultRepsMax))
  }

  /** The editor's list for a loaded template: server positions kept, every target non-zero. */
  function Load(t: Template): (r: seq<Entry>)
    ensures |r| == |t.exercises|
    ensures forall i :: 0 <= i < |r| ==> r[i] == Loaded(t.exercises[i])
  {
    seq(|t.exercises|, i requires 0 <= i < |t.exercises| => Loaded(t.exercises[i]))
  }

  // ---------------------------------------------------------------- the dropdown

  function NotListed(es: seq<Entry>): Exercise -> bool {
    (ex: Exercise) => forall i :: 0 <= i < |es| ==> es[i].exerciseId != ex.id
  }

  /** The add dropdown: the loaded exercises whose id is not in the list yet, in loaded order. */
  function Offered(all: seq<Exercise>, es: seq<Entry>): (r: seq<Exercise>)
    ensures forall ex :: ex in r <==> ex in all && forall i :: 0 <= i < |es| ==> es[i].exerciseId != ex.id
  {
    Filter(all, NotListed(es))
  }

  /** Adding an offered exercise keeps the list free of repeats. */
  lemma AddOfferedKeepsDistinct(all: seq<Exercise>, es: seq<Entry>, ex: Exercise)
    requires DistinctExercises(es) && ex in Offered(all, es)
    ensures DistinctExercises(AddExercise(es, ex))
  {
  }

  // ---------------------------------------------------------------- saving

  function Payload(e: Entry): CreateTemplateExercise {
    CreateTemplateExercise(e.exerciseId, e.position, Some(e.targetSets), Some(e.targetRepsMin),
                           Some(e.targetRepsMax), None, None)
  }

  /**
   * `handleSave`'s guard and body: nothing unless the trimmed name and the
   * list are non-empty; then the trimmed name and every entry's id, position
   * and targets, in list order.
   */
  function SaveRequest(name: string, es: seq<Entry>): (r: Option<CreateTemplate>)
    ensures r.None? <==> Trim(name) == "" || es == []
    ensures r.Some? ==> r.value.name == Trim(name) && r.value.notes == None
    ensures r.Some? ==> (|r.value.exercises| == |es| &&
      forall i :: 0 <= i < |es| ==> r.value.exercises[i] == Payload(es[i]))
  {
    if Trim(name) == "" || es == [] then None
    else Some(CreateTemplate(Trim(name), None, seq(|es|, i requires 0 <= i < |es| => Payload(es[i]))))
  }

  /** A name that was sent is non-blank and already trimmed; a dense list is sent with positions 1..N. */
  lemma SentNameIsClean(name: string, es: seq<Entry>)
    requires SaveRequest(name, es).Some?
    ensures !Blank(SaveRequest(name, es).value.name)
    ensures Trim(SaveRequest(name, es).value.name) == SaveRequest(name, es).value.name
    ensures Dense(es) ==> forall i :: 0 <= i < |es| ==> SaveRequest(name, es).value.exercises[i].position == i + 1
  {
    TrimEmptyIffBlank(Trim(name));
    TrimIdempotent(name);
  }

  /** The same data as an update: name and exercise list replaced, notes left alone. */
  function AsUpdate(c: CreateTemplate): UpdateTemplate {
    UpdateTemplate(Some(c.name), None, Some(c.exercises))
  }

  /** The save button is disabled while saving, with a blank name, or with an empty list. */
  predicate SaveDisabled(saving: bool, name: string, es: seq<Entry>) {
    saving || Trim(name) == "" || es == []
  }

  // ---------------------------------------------------------------- the page state

  /** The editor's state: the name field, the list, and the saving flag. */
  class EditorPage {
    var name: string
    var exercises: seq<Entry>
    var saving: bool

    constructor()
      ensures name == "" && exercises == [] && !saving
    {
      name := "";
      exercises := [];
      saving := false;
    }

    /** The template arrived: its name and its loaded list replace the state. */
    method Receive(t: Template)
      modifies this
      ensures name == t.name && exercises == Load(t) && saving == old(saving)
    {
      name := t.name;
      exercises := Load(t);
    }

    method Add(ex: Exercise)
      modifies this
      ensures exercises == AddExercise(old(exercises), ex)
      ensures name == old(name) && saving == old(saving)
      ensures Dense(old(exercises)) ==> Dense(exercises)
    {
      exercises := AddExercise(exercises, ex);
    }

    method Remove(idx: int)
      modifies this
      ensures exercises == RemoveExercise(old(exercises), idx) && Dense(exercises)
      ensures name == old(name) && saving == old(saving)
    {
      exercises := RemoveExercise(exercises, idx);
    }

    method Edit(idx: int, field: Target, value: int)
      requires 0 <= idx < |exercises|
      modifies this
      ensures exercises == EditTarget(old(exercises), idx, field, value)
      ensures name == old(name) && saving == old(saving)
    {
      exercises := EditTarget(exercises, idx, field, value);
    }

    /**
     * `handleSave` with the request's outcome: returns what was sent and
     * where the page navigates. Nothing is sent when the guard fails; on a
     * failed request the page stays; `saving` is reset in every case.
     */
    method Save(outcome: Result<Template, string>) returns (sent: Option<CreateTemplate>, navigate: Option<string>)
      modifies this
      ensures sent == SaveRequest(old(name), old(exercises))
      ensures navigate == (if sent.Some? && outcome.Ok? then Some("/templates") else None)
      ensures name == old(name) && exercises == old(exercises)
      ensures sent.Some? ==> !saving
      ensures sent.None? ==> saving == old(saving)
    {
      sent := SaveRequest(name, exercises);
      navigate := None;
      if sent.Some? {
        saving := true;
        if outcome.Ok? {
          navigate := Some("/templates");
        }
        saving := false;
      }
    }
  }
}
