/** The exercise catalogue (`exercises.rs`): list, get, create, partial update, archive. */
module Exercises {
  import opened Wrappers
  import opened Order
  import opened Tables
  import opened Errors
  import opened Models
  import opened Db

  function HasId(id: int): Exercise -> bool {
    (e: Exercise) => e.id == id
  }

  function ByName(): (Exercise, Exercise) -> bool {
    ByTextAsc((e: Exercise) => e.name)
  }

  /** The row `get` reads: the exercise with `id`, archived or not, or NotFound. */
  function Lookup(exs: seq<Exercise>, id: int): (r: Result<Exercise, AppError>)
    ensures r.Ok? <==> exists i :: 0 <= i < |exs| && exs[i].id == id
    ensures r.Ok? ==> r.value in exs && r.value.id == id
    ensures r.Err? ==> r.error == NotFound
  {
    match First(exs, HasId(id))
    case Some(e) => Ok(e)
    case None => Err(NotFound)
  }

  /** With unique ids, the row found is the row with that id. */
  lemma LookupRow(exs: seq<Exercise>, i: int)
    requires UniqueExerciseIds(exs) && 0 <= i < |exs|
    ensures Lookup(exs, exs[i].id) == Ok(exs[i])
  {
    FirstUnique(exs, HasId(exs[i].id), i);
  }

  /** Some row already carries `name`. */
  predicate NameTaken(exs: seq<Exercise>, name: string) {
    exists i :: 0 <= i < |exs| && exs[i].name == name
  }

  /** A row other than the one with `id` already carries `name`. */
  predicate NameTakenByOther(exs: seq<Exercise>, name: string, id: int) {
    exists i :: 0 <= i < |exs| && exs[i].name == name && exs[i].id != id
  }

  /** The write of `update` that fails: a new name that another row carries. */
  predicate NameClash(exs: seq<Exercise>, id: int, input: UpdateExercise) {
    input.name.Some? && NameTakenByOther(exs, input.name.value, id)
  }

  /** `list`: the non-archived exercises ordered by name. */
  method List(db: Database) returns (r: seq<Exercise>)
    ensures forall e :: e in r <==> e in db.exercises && !e.archived
    ensures multiset(r) == multiset(Filter(db.exercises, (e: Exercise) => !e.archived))
    ensures SortedBy(r, ByName())
  {
    var rows: seq<Exercise> := [];
    var i := 0;
    while i < |db.exercises|
      invariant 0 <= i <= |db.exercises|
      invariant rows == Filter(db.exercises[..i], (e: Exercise) => !e.archived)
    {
      FilterSnoc(db.exercises[..i], db.exercises[i], (e: Exercise) => !e.archived);
      assert db.exercises[..i + 1] == db.exercises[..i] + [db.exercises[i]];
      if !db.exercises[i].archived {
        rows := rows + [db.exercises[i]];
      }
      i := i + 1;
    }
    assert db.exercises[..i] == db.exercises;
    ByTextAscPreorder((e: Exercise) => e.name);
    SortCorrect(rows, ByName());
    r := Sort(rows, ByName());
    forall e ensures e in r <==> e in rows {
      SortMembers(rows, ByName(), e);
    }
  }

  /** `get`: the exercise with `id`, or NotFound. */
  method Get(db: Database, id: int) returns (r: Result<Exercise, AppError>)
    ensures r.Ok? <==> exists i :: 0 <= i < |db.exercises| && db.exercises[i].id == id
    ensures r.Ok? ==> r.value in db.exercises && r.value.id == id
    ensures r.Err? ==> r.error == NotFound
    ensures r == Lookup(db.exercises, id)
  {
    r := Lookup(db.exercises, id);
  }

  /** The row `create` inserts: not archived, created now. */
  function NewExercise(id: int, input: CreateExercise, now: string): Exercise {
    Exercise(id, input.name, input.muscleGroup, input.equipment, input.notes, false, now)
  }

  /**
   * `create`: a name already in the table makes the insert fail, reported as
   * AlreadyExists; otherwise the new row is stored and returned as `get` reads it.
   */
  method Create(db: Database, input: CreateExercise, now: string) returns (r: Result<Exercise, AppError>)
    requires db.Valid()
    modifies db
    ensures db.Valid()
    ensures NameTaken(old(db.exercises), input.name) ==>
              r == Err(AlreadyExists) && db.State() == old(db.State())
    ensures !NameTaken(old(db.exercises), input.name) ==>
              && r == Ok(NewExercise(old(db.nextId), input, now))
              && db.State() == old(db.State()).(exercises := old(db.exercises) + [r.value],
                                                nextId := old(db.nextId) + 1)
    ensures r.Ok? ==> Lookup(db.exercises, r.value.id) == r
  {
    if NameTaken(db.exercises, input.name) {
      return Err(AlreadyExists);
    }
    var row := NewExercise(db.nextId, input, now);
    NewRowKeepsInvariant(db.exercises, row, db.nextId);
    db.WriteExercises(db.exercises + [row], db.nextId + 1);
    LookupRow(db.exercises, |db.exercises| - 1);
    r := Lookup(db.exercises, row.id);
  }

  lemma NewRowKeepsInvariant(exs: seq<Exercise>, row: Exercise, nextId: int)
    requires ExercisesOk(exs, nextId) && row.id == nextId && !NameTaken(exs, row.name)
    ensures ExercisesOk(exs + [row], nextId + 1)
  {
    forall i, j | 0 <= i < j < |exs + [row]| ensures (exs + [row])[i].id != (exs + [row])[j].id {
      assert exs[i] in exs;
    }
  }

  /** The row after `update`: each supplied field replaced, every other column kept. */
  function ApplyUpdate(e: Exercise, u: UpdateExercise): (r: Exercise)
    ensures r.id == e.id && r.archived == e.archived && r.createdAt == e.createdAt
    ensures r.name == (if u.name.Some? then u.name.value else e.name)
    ensures r.muscleGroup == (if u.muscleGroup.Some? then u.muscleGroup else e.muscleGroup)
    ensures r.equipment == (if u.equipment.Some? then u.equipment else e.equipment)
    ensures r.notes == (if u.notes.Some? then u.notes else e.notes)
  {
    e.(name := u.name.GetOr(e.name),
       muscleGroup := if u.muscleGroup.Some? then u.muscleGroup else e.muscleGroup,
       equipment := if u.equipment.Some? then u.equipment else e.equipment,
       notes := if u.notes.Some? then u.notes else e.notes)
  }

  function Updater(u: UpdateExercise): Exercise -> Exercise {
    (e: Exercise) => ApplyUpdate(e, u)
  }

  /** A missing id is NotFound before any write. */
  predicate UpdateMissing(exs: seq<Exercise>, id: int) {
    forall i :: 0 <= i < |exs| ==> exs[i].id != id
  }

  /**
   * `update`: NotFound for a missing id; a new name another row carries makes
   * the first write fail with a database error and nothing written;
   * otherwise the supplied fields are written one by one and the row is returned.
   */
  method Update(db: Database, id: int, input: UpdateExercise) returns (r: Result<Exercise, AppError>)
    requires db.Valid()
    modifies db
    ensures db.Valid()
    ensures UpdateMissing(old(db.exercises), id) ==>
              r == Err(NotFound) && db.State() == old(db.State())
    ensures !UpdateMissing(old(db.exercises), id) && NameClash(old(db.exercises), id, input) ==>
              r == Err(Database) && db.State() == old(db.State())
    ensures !UpdateMissing(old(db.exercises), id) && !NameClash(old(db.exercises), id, input) ==>
              && db.State() == old(db.State()).(exercises := db.exercises)
              && db.exercises == UpdateWhere(old(db.exercises), HasId(id), Updater(input))
              && r.Ok? && r.value == ApplyUpdate(Lookup(old(db.exercises), id).value, input)
  {
    if !exists i :: 0 <= i < |db.exercises| && db.exercises[i].id == id {
      return Err(NotFound);
    }
    if NameClash(db.exercises, id, input) {
      return Err(Database);
    }
    ghost var k :| 0 <= k < |db.exercises| && db.exercises[k].id == id;
    ghost var row := db.exercises[k];
    LookupRow(db.exercises, k);
    assert Lookup(db.exercises, id).value == row;
    UpdateKeepsUnique(db.exercises, id, input, db.nextId);
    db.WriteExercises(UpdateWhere(db.exercises, HasId(id), Updater(input)), db.nextId);
    assert db.exercises[k] == ApplyUpdate(row, input);
    LookupRow(db.exercises, k);
    r := Lookup(db.exercises, id);
    assert r == Ok(ApplyUpdate(row, input));
  }

  /** A partial update that does not clash on the name keeps the table's invariant. */
  lemma UpdateKeepsUnique(exs: seq<Exercise>, id: int, input: UpdateExercise, nextId: int)
    requires ExercisesOk(exs, nextId)
    requires !NameClash(exs, id, input)
    ensures ExercisesOk(UpdateWhere(exs, HasId(id), Updater(input)), nextId)
  {
    var after := UpdateWhere(exs, HasId(id), Updater(input));
    forall i, j | 0 <= i < j < |after| ensures after[i].name != after[j].name {
      if exs[i].id == id || exs[j].id == id {
        assert exs[i].id != exs[j].id;
      }
    }
    forall e | e in after ensures e.id < nextId {
      var i :| 0 <= i < |after| && after[i] == e;
      assert exs[i] in exs;
    }
  }

  function SetArchived(): Exercise -> Exercise {
    (e: Exercise) => e.(archived := true)
  }

  /** `archive`: sets the flag on the row with `id`, NotFound when no row matched. */
  method Archive(db: Database, id: int) returns (r: Result<(), AppError>)
    requires db.Valid()
    modifies db
    ensures db.Valid()
    ensures UpdateMissing(old(db.exercises), id) ==>
              r == Err(NotFound) && db.State() == old(db.State())
    ensures !UpdateMissing(old(db.exercises), id) ==>
              && r == Ok(())
              && db.State() == old(db.State()).(exercises := db.exercises)
              && db.exercises == UpdateWhere(old(db.exercises), HasId(id), SetArchived())
  {
    var rows := Count(db.exercises, HasId(id));
    if rows == 0 {
      return Err(NotFound);
    }
    db.WriteExercises(UpdateWhere(db.exercises, HasId(id), SetArchived()), db.nextId);
    r := Ok(());
  }

  // ---------------------------------------------------------------- properties

  /** An archived exercise is still returned by `get`, with the flag set and nothing else changed. */
  lemma ArchivedStillRetrievable(exs: seq<Exercise>, id: int)
    requires UniqueExerciseIds(exs) && Lookup(exs, id).Ok?
    ensures var after := UpdateWhere(exs, HasId(id), SetArchived());
            Lookup(after, id) == Ok(Lookup(exs, id).value.(archived := true))
  {
    var k :| 0 <= k < |exs| && exs[k].id == id;
    LookupRow(exs, k);
    var after := UpdateWhere(exs, HasId(id), SetArchived());
    LookupRow(after, k);
  }
}
