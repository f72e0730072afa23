/**
 * The exercises logged in a session, their sets, and an exercise's history
 * across sessions (`sessions.rs`, second part).
 */
module SessionEntries {
  import opened Wrappers
  import opened Order
  import opened Tables
  import opened Errors
  import opened Models
  import opened Db
  import Exercises
  import Sessions

  function HasId(id: int): SessionExerciseRow -> bool {
    (se: SessionExerciseRow) => se.id == id
  }

  function NotId(id: int): SessionExerciseRow -> bool {
    (se: SessionExerciseRow) => se.id != id
  }

  function OfSession(sessionId: int): SessionExerciseRow -> bool {
    (se: SessionExerciseRow) => se.sessionId == sessionId
  }

  function Position(): SessionExerciseRow -> int {
    (se: SessionExerciseRow) => se.position
  }

  function SetHasId(id: int): WorkoutSet -> bool {
    (st: WorkoutSet) => st.id == id
  }

  function SetNotId(id: int): WorkoutSet -> bool {
    (st: WorkoutSet) => st.id != id
  }

  function SetNumber(): WorkoutSet -> int {
    (st: WorkoutSet) => st.setNumber
  }

  /** The next id: above the counter and above the row the new row refers to. */
  function FreshId(nextId: int, ref: int): (r: int)
    ensures r >= nextId && r > ref
    ensures r == nextId || r == ref + 1
  {
    if nextId > ref then nextId else ref + 1
  }

  // ---------------------------------------------------------------- session exercises

  /** One more than the highest position among the session's exercises, 1 for a session without any. */
  function NextPosition(ses: seq<SessionExerciseRow>, sessionId: int): (r: int)
    ensures forall se :: se in ses && se.sessionId == sessionId ==> se.position < r
    ensures (forall se :: se in ses ==> se.sessionId != sessionId) ==> r == 1
    ensures (exists se :: se in ses && se.sessionId == sessionId) ==>
              exists se :: se in ses && se.sessionId == sessionId && se.position == r - 1
  {
    var rows := Filter(ses, OfSession(sessionId));
    assert forall se :: se in ses && se.sessionId == sessionId ==> se in rows;
    match MaxKey(rows, Position())
    case None => 1
    case Some(m) => m + 1
  }

  /**
   * `add_exercise`: the row is inserted at the given position, or after
   * the session's last one; then the exercise's name is read, and a
   * missing exercise is a database error (with the row already inserted).
   * The returned exercise has no notes and no sets.
   */
  method AddExercise(db: Database, sessionId: int, input: AddSessionExercise) returns (r: Result<SessionExercise, AppError>)
    requires db.Valid()
    modifies db
    ensures db.Valid()
    ensures var position := if input.position.Some? then input.position.value
                            else NextPosition(old(db.sessionExercises), sessionId);
            var id := FreshId(old(db.nextId), sessionId);
            && db.State() == old(db.State()).(
                 sessionExercises := old(db.sessionExercises) + [SessionExerciseRow(id, sessionId, input.exerciseId, position, input.notes)],
                 nextId := id + 1)
            && (Exercises.Lookup(db.exercises, input.exerciseId).Err? ==> r == Err(Database))
            && (Exercises.Lookup(db.exercises, input.exerciseId).Ok? ==>
                  r == Ok(SessionExercise(id, input.exerciseId, Exercises.Lookup(db.exercises, input.exerciseId).value.name,
                                          position, None, [])))
  {
    var position;
    if input.position.Some? {
      position := input.position.value;
    } else {
      position := NextPosition(db.sessionExercises, sessionId);
    }
    var id := FreshId(db.nextId, sessionId);
    var row := SessionExerciseRow(id, sessionId, input.exerciseId, position, input.notes);
    AppendKeepsUnique(db.sessionExercises, row, SessionEntryKey());
    db.WriteSessionEntries(db.sessionExercises + [row], id + 1);
    var e := Exercises.Lookup(db.exercises, input.exerciseId);
    if e.Err? {
      return Err(Database);
    }
    r := Ok(SessionExercise(id, input.exerciseId, e.value.name, position, None, []));
  }

  /** The session-exercise row after `update_exercise`: position and notes written when supplied. */
  function ApplyUpdate(se: SessionExerciseRow, u: UpdateSessionExercise): (r: SessionExerciseRow)
    ensures r.id == se.id && r.sessionId == se.sessionId && r.exerciseId == se.exerciseId
    ensures r.position == (if u.position.Some? then u.position.value else se.position)
    ensures r.notes == (if u.notes.Some? then u.notes else se.notes)
  {
    se.(position := u.position.GetOr(se.position), notes := if u.notes.Some? then u.notes else se.notes)
  }

  function Updater(u: UpdateSessionExercise): SessionExerciseRow -> SessionExerciseRow {
    (se: SessionExerciseRow) => ApplyUpdate(se, u)
  }

  /**
   * `update_exercise`: writes the supplied fields to the row with `seId`
   * (the session id is not consulted) and succeeds even when no row matched.
   */
  method UpdateExercise(db: Database, sessionId: int, seId: int, input: UpdateSessionExercise) returns (r: Result<(), AppError>)
    requires db.Valid()
    modifies db
    ensures db.Valid()
    ensures r == Ok(())
    ensures db.State() == old(db.State()).(sessionExercises := UpdateWhere(old(db.sessionExercises), HasId(seId), Updater(input)))
  {
    var rows := UpdateWhere(db.sessionExercises, HasId(seId), Updater(input));
    UpdateKeepsUnique(db.sessionExercises, HasId(seId), Updater(input), SessionEntryKey());
    assert forall k :: 0 <= k < |rows| ==> rows[k] == ApplyUpdate(db.sessionExercises[k], input) || rows[k] == db.sessionExercises[k];
    db.WriteSessionEntries(rows, db.nextId);
    r := Ok(());
  }

  /** `remove_exercise`: deletes the row with `seId`; NotFound when none was deleted. */
  method RemoveExercise(db: Database, sessionId: int, seId: int) returns (r: Result<(), AppError>)
    requires db.Valid()
    modifies db
    ensures db.Valid()
    ensures (forall i :: 0 <= i < |old(db.sessionExercises)| ==> old(db.sessionExercises)[i].id != seId) ==>
              r == Err(NotFound) && db.State() == old(db.State())
    ensures (exists i :: 0 <= i < |old(db.sessionExercises)| && old(db.sessionExercises)[i].id == seId) ==>
              r == Ok(()) && db.State() == old(db.State()).(sessionExercises := Filter(old(db.sessionExercises), NotId(seId)))
  {
    var rows := Count(db.sessionExercises, HasId(seId));
    if rows == 0 {
      return Err(NotFound);
    }
    FilterKeepsUnique(db.sessionExercises, NotId(seId), SessionEntryKey());
    db.WriteSessionEntries(Filter(db.sessionExercises, NotId(seId)), db.nextId);
    r := Ok(());
  }

  // ---------------------------------------------------------------- sets

  /** One more than the highest set number of the session exercise, 1 for its first set. */
  function NextSetNumber(sets: seq<WorkoutSet>, seId: int): (r: int)
    ensures forall st :: st in sets && st.sessionExerciseId == seId ==> st.setNumber < r
    ensures (forall st :: st in sets ==> st.sessionExerciseId != seId) ==> r == 1
    ensures (exists st :: st in sets && st.sessionExerciseId == seId) ==>
              exists st :: st in sets && st.sessionExerciseId == seId && st.setNumber == r - 1
  {
    var rows := Filter(sets, Sessions.OfEntry(seId));
    assert forall st :: st in sets && st.sessionExerciseId == seId ==> st in rows;
    match MaxKey(rows, SetNumber())
    case None => 1
    case Some(m) => m + 1
  }

  /** The set `add_set` inserts: numbered after the last one, "working" unless a type is given, completed now. */
  function NewSet(id: int, seId: int, sets: seq<WorkoutSet>, input: CreateSet, now: string): WorkoutSet {
    WorkoutSet(id, seId, NextSetNumber(sets, seId), input.weightKg, input.reps, input.setType.GetOr("working"), now)
  }

  /** `add_set`: inserts the set and returns it as stored. */
  method AddSet(db: Database, seId: int, input: CreateSet, now: string) returns (r: Result<WorkoutSet, AppError>)
    requires db.Valid()
    modifies db
    ensures db.Valid()
    ensures var id := FreshId(old(db.nextId), seId);
            && r == Ok(NewSet(id, seId, old(db.sets), input, now))
            && db.State() == old(db.State()).(sets := old(db.sets) + [r.value], nextId := id + 1)
  {
    var setNumber := NextSetNumber(db.sets, seId);
    var setType := input.setType.GetOr("working");
    var id := FreshId(db.nextId, seId);
    var row := WorkoutSet(id, seId, setNumber, input.weightKg, input.reps, setType, now);
    AppendKeepsUnique(db.sets, row, SetKey());
    db.WriteSets(db.sets + [row], id + 1);
    r := Ok(row);
  }

  /** A new set is numbered after every set of its session exercise, is "working" by default, and is found by its id. */
  lemma AddedSetIsLast(sets: seq<WorkoutSet>, id: int, seId: int, input: CreateSet, now: string)
    requires forall st :: st in sets ==> st.id < id
    ensures var s := NewSet(id, seId, sets, input, now);
            && (forall st :: st in sets && st.sessionExerciseId == seId ==> st.setNumber < s.setNumber)
            && (input.setType.None? ==> s.setType == "working")
            && First(sets + [s], SetHasId(id)) == Some(s)
  {
    var s := NewSet(id, seId, sets, input, now);
    forall j | 0 <= j < |sets + [s]| && j != |sets| ensures !SetHasId(id)((sets + [s])[j]) {
      assert sets[j] in sets;
    }
    FirstUnique(sets + [s], SetHasId(id), |sets|);
  }

  /** The set after `update_set`: weight, reps and type written when supplied. */
  function ApplySetUpdate(st: WorkoutSet, u: UpdateSet): (r: WorkoutSet)
    ensures r.id == st.id && r.sessionExerciseId == st.sessionExerciseId && r.setNumber == st.setNumber
    ensures r.completedAt == st.completedAt
    ensures r.weightKg == (if u.weightKg.Some? then u.weightKg else st.weightKg)
    ensures r.reps == (if u.reps.Some? then u.reps.value else st.reps)
    ensures r.setType == (if u.setType.Some? then u.setType.value else st.setType)
  {
    st.(weightKg := if u.weightKg.Some? then u.weightKg else st.weightKg,
        reps := u.reps.GetOr(st.reps),
        setType := u.setType.GetOr(st.setType))
  }

  function SetUpdater(u: UpdateSet): WorkoutSet -> WorkoutSet {
    (st: WorkoutSet) => ApplySetUpdate(st, u)
  }

  /** `update_set`: writes the supplied fields, then reads the set back; NotFound when it does not exist. */
  method UpdateSet(db: Database, setId: int, input: UpdateSet) returns (r: Result<WorkoutSet, AppError>)
    requires db.Valid()
    modifies db
    ensures db.Valid()
    ensures db.State() == old(db.State()).(sets := UpdateWhere(old(db.sets), SetHasId(setId), SetUpdater(input)))
    ensures (forall i :: 0 <= i < |old(db.sets)| ==> old(db.sets)[i].id != setId) ==> r == Err(NotFound)
    ensures forall i :: 0 <= i < |old(db.sets)| && old(db.sets)[i].id == setId ==>
              r == Ok(ApplySetUpdate(old(db.sets)[i], input))
  {
    ghost var prior := db.sets;
    var rows := UpdateWhere(db.sets, SetHasId(setId), SetUpdater(input));
    UpdateKeepsUnique(db.sets, SetHasId(setId), SetUpdater(input), SetKey());
    assert forall k :: 0 <= k < |rows| ==> rows[k].id == prior[k].id && rows[k].sessionExerciseId == prior[k].sessionExerciseId;
    db.WriteSets(rows, db.nextId);
    var found := First(db.sets, SetHasId(setId));
    if found.None? {
      return Err(NotFound);
    }
    r := Ok(found.value);
    forall i | 0 <= i < |prior| && prior[i].id == setId ensures r == Ok(ApplySetUpdate(prior[i], input)) {
      forall j | 0 <= j < |rows| && j != i ensures !SetHasId(setId)(rows[j]) {
        if j < i {
          assert SetKey()(prior[j]) != SetKey()(prior[i]);
        } else {
          assert SetKey()(prior[i]) != SetKey()(prior[j]);
        }
      }
      FirstUnique(rows, SetHasId(setId), i);
    }
  }

  /** `delete_set`: deletes the set with `setId`; NotFound when none was deleted. */
  method DeleteSet(db: Database, setId: int) returns (r: Result<(), AppError>)
    requires db.Valid()
    modifies db
    ensures db.Valid()
    ensures (forall i :: 0 <= i < |old(db.sets)| ==> old(db.sets)[i].id != setId) ==>
              r == Err(NotFound) && db.State() == old(db.State())
    ensures (exists i :: 0 <= i < |old(db.sets)| && old(db.sets)[i].id == setId) ==>
              r == Ok(()) && db.State() == old(db.State()).(sets := Filter(old(db.sets), SetNotId(setId)))
  {
    var rows := Count(db.sets, SetHasId(setId));
    if rows == 0 {
      return Err(NotFound);
    }
    FilterKeepsUnique(db.sets, SetNotId(setId), SetKey());
    db.WriteSets(Filter(db.sets, SetNotId(setId)), db.nextId);
    r := Ok(());
  }

  // ---------------------------------------------------------------- history

  /** A completed session that logged the exercise. */
  function LoggedIn(ses: seq<SessionExerciseRow>, exerciseId: int): SessionRow -> bool {
    (s: SessionRow) => s.status == "completed" &&
                       exists se :: se in ses && se.sessionId == s.id && se.exerciseId == exerciseId
  }

  /** The sessions `exercise_history` lists: completed ones with the exercise, newest first, at most `limit` (none when negative). */
  function HistoryRows(ss: seq<SessionRow>, ses: seq<SessionExerciseRow>, exerciseId: int, limit: int): seq<SessionRow> {
    Page(Sort(Filter(ss, LoggedIn(ses, exerciseId)), Sessions.ByStartedDesc()), limit, 0)
  }

  /** A set logged for the exercise in the session. */
  function LoggedSet(ses: seq<SessionExerciseRow>, sessionId: int, exerciseId: int): WorkoutSet -> bool {
    (st: WorkoutSet) => exists se :: se in ses && se.id == st.sessionExerciseId && se.sessionId == sessionId
                                     && se.exerciseId == exerciseId
  }

  /** The sets of the exercise in one session, by set number. */
  function HistorySets(sets: seq<WorkoutSet>, ses: seq<SessionExerciseRow>, sessionId: int, exerciseId: int): seq<WorkoutSet> {
    Sort(Filter(sets, LoggedSet(ses, sessionId, exerciseId)), Sessions.BySetNumber())
  }

  function HistoryEntry(s: SessionRow, st: Snapshot, exerciseId: int): ExerciseHistoryEntry {
    ExerciseHistoryEntry(s.id, s.name, s.startedAt, HistorySets(st.sets, st.sessionExercises, s.id, exerciseId))
  }

  /** `exercise_history`: NotFound for a missing exercise; otherwise one entry per listed session with the exercise's sets there. */
  method History(db: Database, exerciseId: int, limit: int) returns (r: Result<ExerciseHistory, AppError>)
    ensures Exercises.Lookup(db.exercises, exerciseId).Err? ==> r == Err(NotFound)
    ensures Exercises.Lookup(db.exercises, exerciseId).Ok? ==>
              && r.Ok? && r.value.exerciseId == exerciseId
              && r.value.exerciseName == Exercises.Lookup(db.exercises, exerciseId).value.name
              && |r.value.sessions| == |HistoryRows(db.sessions, db.sessionExercises, exerciseId, limit)|
              && forall i :: 0 <= i < |r.value.sessions| ==>
                   r.value.sessions[i] == HistoryEntry(HistoryRows(db.sessions, db.sessionExercises, exerciseId, limit)[i],
                                                       db.State(), exerciseId)
  {
    var e := Exercises.Lookup(db.exercises, exerciseId);
    if e.Err? {
      return Err(NotFound);
    }
    var rows := HistoryRows(db.sessions, db.sessionExercises, exerciseId, limit);
    var entries: seq<ExerciseHistoryEntry> := [];
    var i := 0;
    while i < |rows|
      invariant 0 <= i <= |rows| && |entries| == i
      invariant forall k :: 0 <= k < i ==>
                  entries[k] == ExerciseHistoryEntry(rows[k].id, rows[k].name, rows[k].startedAt,
                                                     HistorySets(db.sets, db.sessionExercises, rows[k].id, exerciseId))
    {
      var sets := HistorySets(db.sets, db.sessionExercises, rows[i].id, exerciseId);
      entries := entries + [ExerciseHistoryEntry(rows[i].id, rows[i].name, rows[i].startedAt, sets)];
      i := i + 1;
    }
    r := Ok(Models.ExerciseHistory(exerciseId, e.value.name, entries));
  }

  /**
   * The history lists only completed sessions that logged the exercise,
   * newest first and no more than a non-negative limit; every set shown was
   * logged for that exercise in that session, in set-number order.
   */
  lemma HistorySpec(st: Snapshot, exerciseId: int, limit: int)
    ensures var rows := HistoryRows(st.sessions, st.sessionExercises, exerciseId, limit);
            && SortedBy(rows, Sessions.ByStartedDesc())
            && (limit >= 0 ==> |rows| <= limit)
            && forall s :: s in rows ==> s in st.sessions && LoggedIn(st.sessionExercises, exerciseId)(s)
    ensures forall s: SessionRow ::
              var shown := HistorySets(st.sets, st.sessionExercises, s.id, exerciseId);
              && SortedBy(shown, Sessions.BySetNumber())
              && forall x :: x in shown <==> x in st.sets && LoggedSet(st.sessionExercises, s.id, exerciseId)(x)
  {
    var selected := Filter(st.sessions, LoggedIn(st.sessionExercises, exerciseId));
    var sorted := Sort(selected, Sessions.ByStartedDesc());
    ByTextDescPreorder((s: SessionRow) => s.startedAt);
    SortCorrect(selected, Sessions.ByStartedDesc());
    PageOfSorted(sorted, Sessions.ByStartedDesc(), limit, 0);
    forall s | s in sorted ensures s in selected {
      SortMembers(selected, Sessions.ByStartedDesc(), s);
    }
    ByIntAscPreorder((x: WorkoutSet) => x.setNumber);
    forall s: SessionRow
      ensures var shown := HistorySets(st.sets, st.sessionExercises, s.id, exerciseId);
              && SortedBy(shown, Sessions.BySetNumber())
              && forall x :: x in shown <==> x in st.sets && LoggedSet(st.sessionExercises, s.id, exerciseId)(x)
    {
      var matching := Filter(st.sets, LoggedSet(st.sessionExercises, s.id, exerciseId));
      SortCorrect(matching, Sessions.BySetNumber());
      forall x ensures x in Sort(matching, Sessions.BySetNumber()) <==> x in matching {
        SortMembers(matching, Sessions.BySetNumber(), x);
      }
    }
  }

  /**
   * No qualifying session is missed: every completed session that logged the
   * exercise and is not listed started no later than every listed one, the
   * history holds as many as the limit allows, and a limit that covers them
   * (or none) lists every one.
   */
  lemma HistoryComplete(st: Snapshot, exerciseId: int, limit: int)
    ensures var rows := HistoryRows(st.sessions, st.sessionExercises, exerciseId, limit);
            var qualifying := Filter(st.sessions, LoggedIn(st.sessionExercises, exerciseId));
            && |rows| == (if limit < 0 || |qualifying| < limit then |qualifying| else limit)
            && (forall s :: s in st.sessions && LoggedIn(st.sessionExercises, exerciseId)(s) && s !in rows ==>
                  forall i :: 0 <= i < |rows| ==> LexLe(s.startedAt, rows[i].startedAt))
            && (limit < 0 || |qualifying| <= limit ==> multiset(rows) == multiset(qualifying))
  {
    var selected := Filter(st.sessions, LoggedIn(st.sessionExercises, exerciseId));
    var sorted := Sort(selected, Sessions.ByStartedDesc());
    ByTextDescPreorder((s: SessionRow) => s.startedAt);
    SortCorrect(selected, Sessions.ByStartedDesc());
    PageWindow(sorted, Sessions.ByStartedDesc(), limit, 0);
    forall s ensures s in sorted <==> s in selected {
      SortMembers(selected, Sessions.ByStartedDesc(), s);
    }
  }
}
