/**
 * The template catalogue (`templates.rs`): templates with their ordered
 * exercise entries; list, get, create, update (partial, with whole-list
 * replacement of the entries) and archive.
 */
module Templates {
  import opened Wrappers
  import opened Order
  import opened Tables
  import opened Errors
  import opened Models
  import opened Db
  import Exercises

  function HasId(id: int): TemplateRow -> bool {
    (t: TemplateRow) => t.id == id
  }

  function ByName(): (TemplateRow, TemplateRow) -> bool {
    ByTextAsc((t: TemplateRow) => t.name)
  }

  function ByPosition(): (TemplateExercise, TemplateExercise) -> bool {
    ByIntAsc((te: TemplateExercise) => te.position)
  }

  // ---------------------------------------------------------------- entries of a template

  /** One entry joined with its exercise's current name; `None` when the exercise row is missing. */
  function JoinEntry(te: TemplateExerciseRow, exs: seq<Exercise>): (r: Option<TemplateExercise>)
    ensures r.Some? <==> Exercises.Lookup(exs, te.exerciseId).Ok?
    ensures r.Some? ==> && r.value.id == te.id && r.value.exerciseId == te.exerciseId
                        && r.value.position == te.position && r.value.targetSets == te.targetSets
                        && r.value.targetRepsMin == te.targetRepsMin && r.value.targetRepsMax == te.targetRepsMax
                        && r.value.restSeconds == te.restSeconds && r.value.notes == te.notes
                        && r.value.exerciseName == Exercises.Lookup(exs, te.exerciseId).value.name
  {
    match Exercises.Lookup(exs, te.exerciseId)
    case Ok(e) =>
      Some(TemplateExercise(te.id, te.exerciseId, e.name, te.position, te.targetSets,
                            te.targetRepsMin, te.targetRepsMax, te.restSeconds, te.notes))
    case Err(_) => None
  }

  /** A row of template `templateId` joined with its exercise; nothing for other templates' rows. */
  function EntryOf(exs: seq<Exercise>, templateId: int): TemplateExerciseRow -> Option<TemplateExercise> {
    (te: TemplateExerciseRow) => if te.templateId == templateId then JoinEntry(te, exs) else None
  }

  /** The rows of template `templateId` joined with `exercises`, in table order (an inner join). */
  function JoinEntries(tes: seq<TemplateExerciseRow>, exs: seq<Exercise>, templateId: int): seq<TemplateExercise> {
    FilterMap(tes, EntryOf(exs, templateId))
  }

  /** Rows of other templates contribute nothing. */
  lemma {:induction false} JoinEntriesOthers(tes: seq<TemplateExerciseRow>, exs: seq<Exercise>, templateId: int)
    requires forall te :: te in tes ==> te.templateId != templateId
    ensures JoinEntries(tes, exs, templateId) == []
    decreases |tes|
  {
    if tes != [] {
      assert tes[0] in tes;
      forall te | te in tes[1..] ensures te.templateId != templateId {
        assert te in tes;
      }
      JoinEntriesOthers(tes[1..], exs, templateId);
    }
  }

  /** Every joined entry comes from a row of that template whose exercise exists. */
  lemma {:induction false} JoinEntriesSource(tes: seq<TemplateExerciseRow>, exs: seq<Exercise>, templateId: int)
    ensures forall x :: x in JoinEntries(tes, exs, templateId) <==>
              exists te :: te in tes && te.templateId == templateId && JoinEntry(te, exs) == Some(x)
    decreases |tes|
  {
    if tes != [] {
      JoinEntriesSource(tes[1..], exs, templateId);
      forall x ensures x in JoinEntries(tes, exs, templateId) <==>
                       exists te :: te in tes && te.templateId == templateId && JoinEntry(te, exs) == Some(x)
      {
        if exists te :: te in tes && te.templateId == templateId && JoinEntry(te, exs) == Some(x) {
          var te :| te in tes && te.templateId == templateId && JoinEntry(te, exs) == Some(x);
          if te != tes[0] {
            assert te in tes[1..];
          }
        }
        if x in JoinEntries(tes[1..], exs, templateId) {
          var te :| te in tes[1..] && te.templateId == templateId && JoinEntry(te, exs) == Some(x);
          assert te in tes;
        }
      }
    }
  }

  /** `get_template_exercises`: the template's entries with exercise names, ordered by position. */
  function EntriesOf(tes: seq<TemplateExerciseRow>, exs: seq<Exercise>, templateId: int): seq<TemplateExercise> {
    Sort(JoinEntries(tes, exs, templateId), ByPosition())
  }

  /**
   * The entries of a template are ordered by position, and they are exactly
   * the template's rows whose exercise exists, joined with its name.
   */
  lemma EntriesOfSpec(tes: seq<TemplateExerciseRow>, exs: seq<Exercise>, templateId: int)
    ensures SortedBy(EntriesOf(tes, exs, templateId), ByPosition())
    ensures multiset(EntriesOf(tes, exs, templateId)) == multiset(JoinEntries(tes, exs, templateId))
    ensures forall x :: x in EntriesOf(tes, exs, templateId) <==>
              exists te :: te in tes && te.templateId == templateId && JoinEntry(te, exs) == Some(x)
  {
    ByIntAscPreorder((te: TemplateExercise) => te.position);
    SortCorrect(JoinEntries(tes, exs, templateId), ByPosition());
    JoinEntriesSource(tes, exs, templateId);
    forall x ensures x in EntriesOf(tes, exs, templateId) <==> x in JoinEntries(tes, exs, templateId) {
      SortMembers(JoinEntries(tes, exs, templateId), ByPosition(), x);
    }
  }

  /** The template as `get` and `list` return it. */
  function ToTemplate(row: TemplateRow, entries: seq<TemplateExercise>): Template {
    Template(row.id, row.name, row.notes, row.archived, row.createdAt, row.updatedAt, entries)
  }

  /** What `get` returns for the tables given. */
  function Lookup(ts: seq<TemplateRow>, tes: seq<TemplateExerciseRow>, exs: seq<Exercise>, id: int): Result<Template, AppError> {
    match FindRow(ts, TemplateKey(), id)
    case Some(row) => Ok(ToTemplate(row, EntriesOf(tes, exs, id)))
    case None => Err(NotFound)
  }

  /** `get` finds a template exactly when a row has the id, and returns it with its entries; otherwise NotFound. */
  lemma LookupSpec(ts: seq<TemplateRow>, tes: seq<TemplateExerciseRow>, exs: seq<Exercise>, id: int)
    ensures var r := Lookup(ts, tes, exs, id);
            && (r.Ok? <==> exists i :: 0 <= i < |ts| && ts[i].id == id)
            && (r.Err? ==> r.error == NotFound)
            && (r.Ok? ==> r.value.id == id && r.value.exercises == EntriesOf(tes, exs, id))
  {
  }

  // ---------------------------------------------------------------- queries

  /** The rows `list` selects: not archived, ordered by name. */
  function ListedRows(ts: seq<TemplateRow>): seq<TemplateRow> {
    Sort(Filter(ts, (t: TemplateRow) => !t.archived), ByName())
  }

  lemma ListedRowsSpec(ts: seq<TemplateRow>)
    ensures SortedBy(ListedRows(ts), ByName())
    ensures multiset(ListedRows(ts)) == multiset(Filter(ts, (t: TemplateRow) => !t.archived))
    ensures forall t :: t in ListedRows(ts) <==> t in ts && !t.archived
  {
    var rows := Filter(ts, (t: TemplateRow) => !t.archived);
    ByTextAscPreorder((t: TemplateRow) => t.name);
    SortCorrect(rows, ByName());
    forall t ensures t in ListedRows(ts) <==> t in rows {
      SortMembers(rows, ByName(), t);
    }
  }

  /** `list`: the non-archived templates by name, each with its entries by position. */
  method List(db: Database) returns (r: seq<Template>)
    ensures |r| == |ListedRows(db.templates)|
    ensures forall i :: 0 <= i < |r| ==>
              r[i] == ToTemplate(ListedRows(db.templates)[i], EntriesOf(db.templateExercises, db.exercises, ListedRows(db.templates)[i].id))
    ensures forall i :: 0 <= i < |r| ==> !r[i].archived
    ensures forall i, j :: 0 <= i < j < |r| ==> Order.LexLe(r[i].name, r[j].name)
  {
    var rows := ListedRows(db.templates);
    r := [];
    var i := 0;
    while i < |rows|
      invariant 0 <= i <= |rows| && |r| == i
      invariant forall k :: 0 <= k < i ==> r[k] == ToTemplate(rows[k], EntriesOf(db.templateExercises, db.exercises, rows[k].id))
    {
      var entries := GetTemplateExercises(db, rows[i].id);
      r := r + [ToTemplate(rows[i], entries)];
      i := i + 1;
    }
    ListedRowsSpec(db.templates);
    forall k | 0 <= k < |r| ensures !r[k].archived {
      assert rows[k] in rows;
    }
    forall k, j | 0 <= k < j < |r| ensures Order.LexLe(r[k].name, r[j].name) {
      assert ByName()(rows[k], rows[j]);
    }
  }

  /** `get_template_exercises` over the tables: the join loop, then the ordering by position. */
  method GetTemplateExercises(db: Database, templateId: int) returns (r: seq<TemplateExercise>)
    ensures r == EntriesOf(db.templateExercises, db.exercises, templateId)
    ensures SortedBy(r, ByPosition())
    ensures forall x :: x in r <==>
              exists te :: te in db.templateExercises && te.templateId == templateId && JoinEntry(te, db.exercises) == Some(x)
  {
    var joined: seq<TemplateExercise> := [];
    var i := |db.templateExercises|;
    while i > 0
      invariant 0 <= i <= |db.templateExercises|
      invariant joined == JoinEntries(db.templateExercises[i..], db.exercises, templateId)
    {
      i := i - 1;
      var te := db.templateExercises[i];
      assert db.templateExercises[i..][1..] == db.templateExercises[i + 1..];
      if te.templateId == templateId {
        var e := Exercises.Lookup(db.exercises, te.exerciseId);
        if e.Ok? {
          joined := [JoinEntry(te, db.exercises).value] + joined;
        }
      }
    }
    assert db.templateExercises[0..] == db.templateExercises;
    ByIntAscPreorder((te: TemplateExercise) => te.position);
    r := Sort(joined, ByPosition());
    EntriesOfSpec(db.templateExercises, db.exercises, templateId);
  }

  /** `get`: the template with `id` (archived ones included) with its entries, or NotFound. */
  method Get(db: Database, id: int) returns (r: Result<Template, AppError>)
    ensures r == Lookup(db.templates, db.templateExercises, db.exercises, id)
  {
    var row := FindRow(db.templates, TemplateKey(), id);
    if row.None? {
      return Err(NotFound);
    }
    var entries := GetTemplateExercises(db, id);
    r := Ok(ToTemplate(row.value, entries));
  }

  // ---------------------------------------------------------------- writes

  /** The entry rows inserted for `inputs`, with consecutive ids from `firstId`. */
  function NewEntries(templateId: int, inputs: seq<CreateTemplateExercise>, firstId: int): (r: seq<TemplateExerciseRow>)
    ensures |r| == |inputs|
    ensures forall i :: 0 <= i < |r| ==>
              && r[i].id == firstId + i && r[i].templateId == templateId
              && r[i].exerciseId == inputs[i].exerciseId && r[i].position == inputs[i].position
              && r[i].targetSets == inputs[i].targetSets && r[i].targetRepsMin == inputs[i].targetRepsMin
              && r[i].targetRepsMax == inputs[i].targetRepsMax && r[i].restSeconds == inputs[i].restSeconds
              && r[i].notes == inputs[i].notes
  {
    seq(|inputs|, i requires 0 <= i < |inputs| =>
      TemplateExerciseRow(firstId + i, templateId, inputs[i].exerciseId, inputs[i].position,
                          inputs[i].targetSets, inputs[i].targetRepsMin, inputs[i].targetRepsMax,
                          inputs[i].restSeconds, inputs[i].notes))
  }

  lemma NewEntriesSnoc(templateId: int, inputs: seq<CreateTemplateExercise>, k: int, firstId: int)
    requires 0 <= k < |inputs|
    ensures NewEntries(templateId, inputs[..k + 1], firstId)
         == NewEntries(templateId, inputs[..k], firstId)
            + [TemplateExerciseRow(firstId + k, templateId, inputs[k].exerciseId, inputs[k].position,
                                   inputs[k].targetSets, inputs[k].targetRepsMin, inputs[k].targetRepsMax,
                                   inputs[k].restSeconds, inputs[k].notes)]
  {
  }

  /** Inserts the entry rows for `inputs` one by one, as the insert loop of `create` and `update` does. */
  method InsertEntries(db: Database, templateId: int, inputs: seq<CreateTemplateExercise>)
    requires db.Valid() && templateId < db.nextId
    modifies db
    ensures db.Valid()
    ensures db.templateExercises == old(db.templateExercises) + NewEntries(templateId, inputs, old(db.nextId))
    ensures db.nextId == old(db.nextId) + |inputs|
    ensures db.State() == old(db.State()).(templateExercises := db.templateExercises, nextId := db.nextId)
  {
    var k := 0;
    while k < |inputs|
      invariant 0 <= k <= |inputs|
      invariant db.nextId == old(db.nextId) + k
      invariant db.templateExercises == old(db.templateExercises) + NewEntries(templateId, inputs[..k], old(db.nextId))
      invariant db.State() == old(db.State()).(templateExercises := db.templateExercises, nextId := db.nextId)
      invariant db.Valid()
    {
      var ex := inputs[k];
      var row := TemplateExerciseRow(db.nextId, templateId, ex.exerciseId, ex.position, ex.targetSets,
                                     ex.targetRepsMin, ex.targetRepsMax, ex.restSeconds, ex.notes);
      NewEntriesSnoc(templateId, inputs, k, old(db.nextId));
      AppendKeepsUnique(db.templateExercises, row, TemplateEntryKey());
      db.WriteTemplateEntries(db.templateExercises + [row], db.nextId + 1);
      k := k + 1;
    }
    assert inputs[..k] == inputs;
  }

  predicate NameTaken(ts: seq<TemplateRow>, name: string) {
    exists i :: 0 <= i < |ts| && ts[i].name == name
  }

  predicate NameClash(ts: seq<TemplateRow>, id: int, input: UpdateTemplate) {
    input.name.Some? && exists i :: 0 <= i < |ts| && ts[i].name == input.name.value && ts[i].id != id
  }

  /**
   * `create`: a name already in the table is AlreadyExists with nothing
   * written; otherwise the template row and one entry row per input entry
   * are stored and the template is returned as `get` reads it.
   */
  method Create(db: Database, input: CreateTemplate, now: string) returns (r: Result<Template, AppError>)
    requires db.Valid()
    modifies db
    ensures db.Valid()
    ensures NameTaken(old(db.templates), input.name) ==>
              r == Err(AlreadyExists) && db.State() == old(db.State())
    ensures !NameTaken(old(db.templates), input.name) ==>
              var id := old(db.nextId);
              && db.State() == old(db.State()).(
                   templates := old(db.templates) + [TemplateRow(id, input.name, input.notes, false, now, now)],
                   templateExercises := old(db.templateExercises) + NewEntries(id, input.exercises, id + 1),
                   nextId := id + 1 + |input.exercises|)
              && r == Ok(ToTemplate(TemplateRow(id, input.name, input.notes, false, now, now),
                                    EntriesOf(NewEntries(id, input.exercises, id + 1), db.exercises, id)))
  {
    if NameTaken(db.templates, input.name) {
      return Err(AlreadyExists);
    }
    var id := InsertTemplate(db, input, now);
    r := Get(db, id);
  }

  /** The inserts of `create`: the template row, then its entries; the new template is then found with exactly those entries. */
  method InsertTemplate(db: Database, input: CreateTemplate, now: string) returns (id: int)
    requires db.Valid() && !NameTaken(db.templates, input.name)
    modifies db
    ensures db.Valid()
    ensures id == old(db.nextId)
    ensures db.State() == old(db.State()).(
              templates := old(db.templates) + [TemplateRow(id, input.name, input.notes, false, now, now)],
              templateExercises := old(db.templateExercises) + NewEntries(id, input.exercises, id + 1),
              nextId := id + 1 + |input.exercises|)
    ensures Lookup(db.templates, db.templateExercises, db.exercises, id)
            == Ok(ToTemplate(TemplateRow(id, input.name, input.notes, false, now, now),
                             EntriesOf(NewEntries(id, input.exercises, id + 1), db.exercises, id)))
  {
    ghost var s0 := db.State();
    id := InsertTemplateRow(db, input.name, input.notes, now);
    ghost var s1 := db.State();
    assert s1.templateExercises == s0.templateExercises && s1.nextId == id + 1;
    ghost var added := NewEntries(id, input.exercises, id + 1);
    InsertEntries(db, id, input.exercises);
    assert db.templateExercises == s1.templateExercises + added;
    assert db.templates == s1.templates;
    CreatedTemplateFound(db.templates, |db.templates| - 1, s1.templateExercises, added, db.exercises);
  }

  /** The template row insert of `create`: a fresh id, not archived, created and updated now. */
  method InsertTemplateRow(db: Database, name: string, notes: Option<string>, now: string) returns (id: int)
    requires db.Valid() && !NameTaken(db.templates, name)
    modifies db
    ensures db.Valid()
    ensures id == old(db.nextId) && db.nextId == id + 1
    ensures db.templates == old(db.templates) + [TemplateRow(id, name, notes, false, now, now)]
    ensures db.State() == old(db.State()).(templates := db.templates, nextId := db.nextId)
    ensures forall te :: te in db.templateExercises ==> te.templateId != id
  {
    id := db.nextId;
    db.WriteTemplates(db.templates + [TemplateRow(id, name, notes, false, now, now)], db.nextId + 1);
  }

  /** A template just inserted is found with exactly the entries inserted with it. */
  lemma CreatedTemplateFound(ts: seq<TemplateRow>, k: int, prior: seq<TemplateExerciseRow>,
                             added: seq<TemplateExerciseRow>, exs: seq<Exercise>)
    requires UniqueTemplateIds(ts) && 0 <= k < |ts|
    requires forall te :: te in prior ==> te.templateId != ts[k].id
    ensures Lookup(ts, prior + added, exs, ts[k].id) == Ok(ToTemplate(ts[k], EntriesOf(added, exs, ts[k].id)))
  {
    FindRowUnique(ts, TemplateKey(), k);
    OnlyNewEntries(prior, added, exs, ts[k].id);
  }

  /** Entries of a template are exactly the `added` rows when no older row belongs to it. */
  lemma OnlyNewEntries(prior: seq<TemplateExerciseRow>, added: seq<TemplateExerciseRow>, exs: seq<Exercise>, id: int)
    requires forall te :: te in prior ==> te.templateId != id
    ensures EntriesOf(prior + added, exs, id) == EntriesOf(added, exs, id)
  {
    FilterMapAppend(prior, added, EntryOf(exs, id));
    JoinEntriesOthers(prior, exs, id);
    assert [] + JoinEntries(added, exs, id) == JoinEntries(added, exs, id);
  }

  /** The template row after `update`: supplied fields replaced, `updated_at` bumped when anything was written. */
  function ApplyUpdate(t: TemplateRow, u: UpdateTemplate, now: string): (r: TemplateRow)
    ensures r.id == t.id && r.archived == t.archived && r.createdAt == t.createdAt
    ensures r.name == (if u.name.Some? then u.name.value else t.name)
    ensures r.notes == (if u.notes.Some? then u.notes else t.notes)
    ensures r.updatedAt == (if u.name.Some? || u.notes.Some? || u.exercises.Some? then now else t.updatedAt)
  {
    t.(name := u.name.GetOr(t.name),
       notes := if u.notes.Some? then u.notes else t.notes,
       updatedAt := if u.name.Some? || u.notes.Some? || u.exercises.Some? then now else t.updatedAt)
  }

  function Updater(u: UpdateTemplate, now: string): TemplateRow -> TemplateRow {
    (t: TemplateRow) => ApplyUpdate(t, u, now)
  }

  function OtherTemplate(id: int): TemplateExerciseRow -> bool {
    (te: TemplateExerciseRow) => te.templateId != id
  }

  predicate Missing(ts: seq<TemplateRow>, id: int) {
    forall i :: 0 <= i < |ts| ==> ts[i].id != id
  }

  /**
   * `update`: NotFound for a missing id; a new name another template carries
   * fails the first write with nothing written; otherwise name and notes are
   * written when supplied, and a supplied entry list replaces the old one.
   */
  method Update(db: Database, id: int, input: UpdateTemplate, now: string) returns (r: Result<Template, AppError>)
    requires db.Valid()
    modifies db
    ensures db.Valid()
    ensures Missing(old(db.templates), id) ==> r == Err(NotFound) && db.State() == old(db.State())
    ensures !Missing(old(db.templates), id) && NameClash(old(db.templates), id, input) ==>
              r == Err(Database) && db.State() == old(db.State())
    ensures !Missing(old(db.templates), id) && !NameClash(old(db.templates), id, input) ==>
              && db.templates == UpdateWhere(old(db.templates), HasId(id), Updater(input, now))
              && (input.exercises.None? ==> db.templateExercises == old(db.templateExercises) && db.nextId == old(db.nextId))
              && (input.exercises.Some? ==>
                    && db.templateExercises == Filter(old(db.templateExercises), OtherTemplate(id))
                                               + NewEntries(id, input.exercises.value, old(db.nextId))
                    && db.nextId == old(db.nextId) + |input.exercises.value|)
              && db.State() == old(db.State()).(templates := db.templates, templateExercises := db.templateExercises,
                                                nextId := db.nextId)
              && r == Lookup(db.templates, db.templateExercises, db.exercises, id)
              && r.Ok? && r.value.name == (if input.name.Some? then input.name.value else FindRow(old(db.templates), TemplateKey(), id).value.name)
  {
    if Missing(db.templates, id) {
      return Err(NotFound);
    }
    if NameClash(db.templates, id, input) {
      return Err(Database);
    }
    ghost var k :| 0 <= k < |db.templates| && db.templates[k].id == id;
    ghost var row := db.templates[k];
    FindRowUnique(db.templates, TemplateKey(), k);
    WriteFields(db, id, input, now);
    if input.exercises.Some? {
      ReplaceEntries(db, id, input.exercises.value);
    }
    UpdatedTemplateFound(old(db.templates), db.templateExercises, db.exercises, k, input, now);
    r := Get(db, id);
  }

  /** After `update`, `get` returns the row with the supplied fields written and the current entries. */
  lemma UpdatedTemplateFound(ts: seq<TemplateRow>, tes: seq<TemplateExerciseRow>, exs: seq<Exercise>,
                             k: int, input: UpdateTemplate, now: string)
    requires UniqueTemplateIds(ts) && 0 <= k < |ts|
    ensures var after := UpdateWhere(ts, HasId(ts[k].id), Updater(input, now));
            Lookup(after, tes, exs, ts[k].id) == Ok(ToTemplate(ApplyUpdate(ts[k], input, now), EntriesOf(tes, exs, ts[k].id)))
  {
    var after := UpdateWhere(ts, HasId(ts[k].id), Updater(input, now));
    assert after[k] == ApplyUpdate(ts[k], input, now);
    assert UniqueTemplateIds(after) by {
      forall i, j | 0 <= i < j < |after| ensures after[i].id != after[j].id {
        assert after[i].id == ts[i].id && after[j].id == ts[j].id;
      }
    }
    FindRowUnique(after, TemplateKey(), k);
  }

  /** The name and notes writes of `update`, each bumping `updated_at`, and the final bump after new entries. */
  method WriteFields(db: Database, id: int, input: UpdateTemplate, now: string)
    requires db.Valid() && !NameClash(db.templates, id, input)
    modifies db
    ensures db.Valid()
    ensures db.templates == UpdateWhere(old(db.templates), HasId(id), Updater(input, now))
    ensures db.State() == old(db.State()).(templates := db.templates)
  {
    UpdateKeepsTemplates(db.templates, id, input, now, db.nextId);
    db.WriteTemplates(UpdateWhere(db.templates, HasId(id), Updater(input, now)), db.nextId);
  }

  /** The entry replacement of `update`: every entry of the template deleted, then the new ones inserted. */
  method ReplaceEntries(db: Database, id: int, inputs: seq<CreateTemplateExercise>)
    requires db.Valid() && id < db.nextId
    modifies db
    ensures db.Valid()
    ensures db.templateExercises == Filter(old(db.templateExercises), OtherTemplate(id))
                                    + NewEntries(id, inputs, old(db.nextId))
    ensures db.nextId == old(db.nextId) + |inputs|
    ensures db.State() == old(db.State()).(templateExercises := db.templateExercises, nextId := db.nextId)
  {
    FilterKeepsUnique(db.templateExercises, OtherTemplate(id), TemplateEntryKey());
    db.WriteTemplateEntries(Filter(db.templateExercises, OtherTemplate(id)), db.nextId);
    InsertEntries(db, id, inputs);
  }

  lemma UpdateKeepsTemplates(ts: seq<TemplateRow>, id: int, input: UpdateTemplate, now: string, nextId: int)
    requires TemplatesOk(ts, nextId) && !NameClash(ts, id, input)
    ensures TemplatesOk(UpdateWhere(ts, HasId(id), Updater(input, now)), nextId)
  {
    var after := UpdateWhere(ts, HasId(id), Updater(input, now));
    forall i, j | 0 <= i < j < |after| ensures after[i].name != after[j].name {
      if ts[i].id == id || ts[j].id == id {
        assert ts[i].id != ts[j].id;
      }
    }
    forall t | t in after ensures t.id < nextId {
      var i :| 0 <= i < |after| && after[i] == t;
      assert ts[i] in ts;
    }
  }

  /** After an update with an entry list, the template's entries are exactly the supplied ones. */
  lemma UpdateReplacesEntries(tes: seq<TemplateExerciseRow>, exs: seq<Exercise>, id: int,
                              inputs: seq<CreateTemplateExercise>, firstId: int)
    ensures EntriesOf(Filter(tes, OtherTemplate(id)) + NewEntries(id, inputs, firstId), exs, id)
         == EntriesOf(NewEntries(id, inputs, firstId), exs, id)
  {
    OnlyNewEntries(Filter(tes, OtherTemplate(id)), NewEntries(id, inputs, firstId), exs, id);
  }

  /** The entries a create or a replacing update stores: one per input entry, carrying its fields. */
  lemma NewEntriesJoined(inputs: seq<CreateTemplateExercise>, exs: seq<Exercise>, id: int, firstId: int)
    requires forall i :: 0 <= i < |inputs| ==> Exercises.Lookup(exs, inputs[i].exerciseId).Ok?
    ensures |EntriesOf(NewEntries(id, inputs, firstId), exs, id)| == |inputs|
    ensures forall x :: x in EntriesOf(NewEntries(id, inputs, firstId), exs, id) ==>
              exists i :: 0 <= i < |inputs| && x.id == firstId + i && x.exerciseId == inputs[i].exerciseId
                          && x.position == inputs[i].position && x.targetSets == inputs[i].targetSets
                          && x.targetRepsMin == inputs[i].targetRepsMin && x.targetRepsMax == inputs[i].targetRepsMax
                          && x.restSeconds == inputs[i].restSeconds && x.notes == inputs[i].notes
  {
    var rows := NewEntries(id, inputs, firstId);
    JoinAll(rows, exs, id);
    var r := EntriesOf(rows, exs, id);
    EntriesOfSpec(rows, exs, id);
    assert |r| == |multiset(r)| == |multiset(JoinEntries(rows, exs, id))|;
    forall x | x in r
      ensures exists i :: 0 <= i < |inputs| && x.id == firstId + i && x.exerciseId == inputs[i].exerciseId
                          && x.position == inputs[i].position && x.targetSets == inputs[i].targetSets
                          && x.targetRepsMin == inputs[i].targetRepsMin && x.targetRepsMax == inputs[i].targetRepsMax
                          && x.restSeconds == inputs[i].restSeconds && x.notes == inputs[i].notes
    {
      var te :| te in rows && te.templateId == id && JoinEntry(te, exs) == Some(x);
      var i :| 0 <= i < |rows| && rows[i] == te;
    }
  }

  lemma {:induction false} JoinAll(rows: seq<TemplateExerciseRow>, exs: seq<Exercise>, id: int)
    requires forall te :: te in rows ==> te.templateId == id && Exercises.Lookup(exs, te.exerciseId).Ok?
    ensures |JoinEntries(rows, exs, id)| == |rows|
    decreases |rows|
  {
    if rows != [] {
      assert rows[0] in rows;
      forall te | te in rows[1..] ensures te.templateId == id && Exercises.Lookup(exs, te.exerciseId).Ok? {
        assert te in rows;
      }
      JoinAll(rows[1..], exs, id);
    }
  }

  /** `archive`: sets the flag on the template with `id`, NotFound when no row matched. */
  method Archive(db: Database, id: int) returns (r: Result<(), AppError>)
    requires db.Valid()
    modifies db
    ensures db.Valid()
    ensures Missing(old(db.templates), id) ==> r == Err(NotFound) && db.State() == old(db.State())
    ensures !Missing(old(db.templates), id) ==>
              && r == Ok(())
              && db.templates == UpdateWhere(old(db.templates), HasId(id), SetArchived())
              && db.State() == old(db.State()).(templates := db.templates)
  {
    var rows := Count(db.templates, HasId(id));
    if rows == 0 {
      return Err(NotFound);
    }
    ArchiveKeepsTemplates(db.templates, id, db.nextId);
    db.WriteTemplates(UpdateWhere(db.templates, HasId(id), SetArchived()), db.nextId);
    r := Ok(());
  }

  function SetArchived(): TemplateRow -> TemplateRow {
    (t: TemplateRow) => t.(archived := true)
  }

  lemma ArchiveKeepsTemplates(ts: seq<TemplateRow>, id: int, nextId: int)
    requires TemplatesOk(ts, nextId)
    ensures TemplatesOk(UpdateWhere(ts, HasId(id), SetArchived()), nextId)
  {
    var after := UpdateWhere(ts, HasId(id), SetArchived());
    forall t | t in after ensures t.id < nextId {
      var i :| 0 <= i < |after| && after[i] == t;
      assert ts[i] in ts;
    }
  }

  /** An archived template is no longer listed but `get` still returns it, flagged. */
  lemma ArchivedTemplate(ts: seq<TemplateRow>, tes: seq<TemplateExerciseRow>, exs: seq<Exercise>, id: int)
    requires UniqueTemplateIds(ts) && !Missing(ts, id)
    ensures var after := UpdateWhere(ts, HasId(id), SetArchived());
            && Lookup(after, tes, exs, id).Ok? && Lookup(after, tes, exs, id).value.archived
            && forall t :: t in ListedRows(after) ==> t.id != id
  {
    var after := UpdateWhere(ts, HasId(id), SetArchived());
    var k :| 0 <= k < |ts| && ts[k].id == id;
    FindRowUnique(after, TemplateKey(), k);
    ListedRowsSpec(after);
    forall t | t in ListedRows(after) ensures t.id != id {
      var i :| 0 <= i < |after| && after[i] == t;
    }
  }
}
