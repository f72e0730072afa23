/**
 * Workout sessions (`sessions.rs`, first part): list, get, get-active,
 * template-previous, create (seeded from a template), update and delete,
 * and the `get_session_exercises` helper that every read goes through.
 */
module Sessions {
  import opened Wrappers
  import opened Order
  import opened Tables
  import opened Errors
  import opened Models
  import opened Db
  import Exercises

  function HasId(id: int): SessionRow -> bool {
    (s: SessionRow) => s.id == id
  }

  function ByStartedDesc(): (SessionRow, SessionRow) -> bool {
    ByTextDesc((s: SessionRow) => s.startedAt)
  }

  function ByPosition(): (SessionExercise, SessionExercise) -> bool {
    ByIntAsc((se: SessionExercise) => se.position)
  }

  function BySetNumber(): (WorkoutSet, WorkoutSet) -> bool {
    ByIntAsc((st: WorkoutSet) => st.setNumber)
  }

  function OfEntry(seId: int): WorkoutSet -> bool {
    (st: WorkoutSet) => st.sessionExerciseId == seId
  }

  // ---------------------------------------------------------------- entries of a session

  /** The sets of one session exercise, by set number. */
  function SetsOf(sets: seq<WorkoutSet>, seId: int): seq<WorkoutSet> {
    Sort(Filter(sets, OfEntry(seId)), BySetNumber())
  }

  lemma SetsOfSpec(sets: seq<WorkoutSet>, seId: int)
    ensures SortedBy(SetsOf(sets, seId), BySetNumber())
    ensures multiset(SetsOf(sets, seId)) == multiset(Filter(sets, OfEntry(seId)))
    ensures forall st :: st in SetsOf(sets, seId) <==> st in sets && st.sessionExerciseId == seId
  {
    ByIntAscPreorder((st: WorkoutSet) => st.setNumber);
    SortCorrect(Filter(sets, OfEntry(seId)), BySetNumber());
    forall st ensures st in SetsOf(sets, seId) <==> st in Filter(sets, OfEntry(seId)) {
      SortMembers(Filter(sets, OfEntry(seId)), BySetNumber(), st);
    }
  }

  /** A session exercise that no set refers to has no sets. */
  lemma NoSets(sets: seq<WorkoutSet>, seId: int)
    requires forall st :: st in sets ==> st.sessionExerciseId != seId
    ensures SetsOf(sets, seId) == []
  {
    assert Filter(sets, OfEntry(seId)) == [] by {
      if Filter(sets, OfEntry(seId)) != [] {
        assert Filter(sets, OfEntry(seId))[0] in Filter(sets, OfEntry(seId));
      }
    }
  }

  /** One session-exercise row joined with its exercise's name (no sets yet); `None` when the exercise is missing. */
  function JoinEntry(se: SessionExerciseRow, exs: seq<Exercise>): (r: Option<SessionExercise>)
    ensures r.Some? <==> Exercises.Lookup(exs, se.exerciseId).Ok?
    ensures r.Some? ==> && r.value.id == se.id && r.value.exerciseId == se.exerciseId
                        && r.value.position == se.position && r.value.notes == se.notes && r.value.sets == []
                        && r.value.exerciseName == Exercises.Lookup(exs, se.exerciseId).value.name
  {
    match Exercises.Lookup(exs, se.exerciseId)
    case Ok(e) => Some(SessionExercise(se.id, se.exerciseId, e.name, se.position, se.notes, []))
    case Err(_) => None
  }

  /** A row of session `sessionId` joined with its exercise; nothing for other sessions' rows. */
  function EntryOf(exs: seq<Exercise>, sessionId: int): SessionExerciseRow -> Option<SessionExercise> {
    (se: SessionExerciseRow) => if se.sessionId == sessionId then JoinEntry(se, exs) else None
  }

  /** The rows of session `sessionId` joined with `exercises`, in table order (an inner join). */
  function JoinEntries(ses: seq<SessionExerciseRow>, exs: seq<Exercise>, sessionId: int): seq<SessionExercise> {
    FilterMap(ses, EntryOf(exs, sessionId))
  }

  /** Rows of other sessions contribute nothing. */
  lemma {:induction false} JoinEntriesOthers(ses: seq<SessionExerciseRow>, exs: seq<Exercise>, sessionId: int)
    requires forall se :: se in ses ==> se.sessionId != sessionId
    ensures JoinEntries(ses, exs, sessionId) == []
    decreases |ses|
  {
    if ses != [] {
      assert ses[0] in ses;
      forall se | se in ses[1..] ensures se.sessionId != sessionId {
        assert se in ses;
      }
      JoinEntriesOthers(ses[1..], exs, sessionId);
    }
  }

  /** Every joined entry comes from a row of that session whose exercise exists, and every such row gives one. */
  lemma {:induction false} JoinEntriesSource(ses: seq<SessionExerciseRow>, exs: seq<Exercise>, sessionId: int)
    ensures forall x :: x in JoinEntries(ses, exs, sessionId) <==>
              exists se :: se in ses && se.sessionId == sessionId && JoinEntry(se, exs) == Some(x)
    decreases |ses|
  {
    if ses != [] {
      JoinEntriesSource(ses[1..], exs, sessionId);
      forall x ensures x in JoinEntries(ses, exs, sessionId) <==>
                       exists se :: se in ses && se.sessionId == sessionId && JoinEntry(se, exs) == Some(x)
      {
        if exists se :: se in ses && se.sessionId == sessionId && JoinEntry(se, exs) == Some(x) {
          var se :| se in ses && se.sessionId == sessionId && JoinEntry(se, exs) == Some(x);
          if se != ses[0] {
            assert se in ses[1..];
          }
        }
        if x in JoinEntries(ses[1..], exs, sessionId) {
          var se :| se in ses[1..] && se.sessionId == sessionId && JoinEntry(se, exs) == Some(x);
          assert se in ses;
        }
      }
    }
  }

  /** The rows of the `get_session_exercises` query: joined with exercise names, ordered by position. */
  function EntryRows(ses: seq<SessionExerciseRow>, exs: seq<Exercise>, sessionId: int): seq<SessionExercise> {
    Sort(JoinEntries(ses, exs, sessionId), ByPosition())
  }

  /** Each row with its sets attached. */
  function WithSets(rows: seq<SessionExercise>, sets: seq<WorkoutSet>): (r: seq<SessionExercise>)
    ensures |r| == |rows|
    ensures forall i :: 0 <= i < |rows| ==> r[i] == rows[i].(sets := SetsOf(sets, rows[i].id))
  {
    seq(|rows|, i requires 0 <= i < |rows| => rows[i].(sets := SetsOf(sets, rows[i].id)))
  }

  /** `get_session_exercises`: the session's exercises by position, each with its sets by set number. */
  function EntriesOf(ses: seq<SessionExerciseRow>, exs: seq<Exercise>, sets: seq<WorkoutSet>, sessionId: int): seq<SessionExercise> {
    WithSets(EntryRows(ses, exs, sessionId), sets)
  }

  /**
   * The exercises of a session are ordered by position; each is a row of
   * that session whose exercise exists, joined with the exercise's name and
   * carrying exactly its own sets; and every such row is there.
   */
  lemma EntriesOfSpec(ses: seq<SessionExerciseRow>, exs: seq<Exercise>, sets: seq<WorkoutSet>, sessionId: int)
    ensures SortedBy(EntriesOf(ses, exs, sets, sessionId), ByPosition())
    ensures |EntriesOf(ses, exs, sets, sessionId)| == |JoinEntries(ses, exs, sessionId)|
    ensures forall x :: x in EntriesOf(ses, exs, sets, sessionId) <==>
              && x.sets == SetsOf(sets, x.id)
              && exists se :: se in ses && se.sessionId == sessionId && JoinEntry(se, exs) == Some(x.(sets := []))
  {
    var joined := JoinEntries(ses, exs, sessionId);
    var rows := EntryRows(ses, exs, sessionId);
    var r := EntriesOf(ses, exs, sets, sessionId);
    ByIntAscPreorder((se: SessionExercise) => se.position);
    SortCorrect(joined, ByPosition());
    SortMembers(joined, ByPosition(), SessionExercise(0, 0, [], 0, None, []));
    JoinEntriesSource(ses, exs, sessionId);
    forall i, j | 0 <= i < j < |r| ensures ByPosition()(r[i], r[j]) {
      assert ByPosition()(rows[i], rows[j]);
    }
    forall x ensures x in r <==>
                     && x.sets == SetsOf(sets, x.id)
                     && exists se :: se in ses && se.sessionId == sessionId && JoinEntry(se, exs) == Some(x.(sets := []))
    {
      if x in r {
        var i :| 0 <= i < |r| && r[i] == x;
        SortMembers(joined, ByPosition(), rows[i]);
        assert rows[i] in joined;
        assert rows[i].sets == [];
        assert x.(sets := []) == rows[i];
      }
      if && x.sets == SetsOf(sets, x.id)
         && exists se :: se in ses && se.sessionId == sessionId && JoinEntry(se, exs) == Some(x.(sets := []))
      {
        SortMembers(joined, ByPosition(), x.(sets := []));
        var i :| 0 <= i < |rows| && rows[i] == x.(sets := []);
        assert r[i] == x;
      }
    }
  }

  /** `get_session_exercises` over the tables: one pass over the ordered rows, attaching each row's sets. */
  method GetSessionExercises(db: Database, sessionId: int) returns (r: seq<SessionExercise>)
    ensures r == EntriesOf(db.sessionExercises, db.exercises, db.sets, sessionId)
  {
    var rows := EntryRows(db.sessionExercises, db.exercises, sessionId);
    r := [];
    var i := 0;
    while i < |rows|
      invariant 0 <= i <= |rows| && |r| == i
      invariant forall k :: 0 <= k < i ==> r[k] == rows[k].(sets := SetsOf(db.sets, rows[k].id))
    {
      var sets := SetsOf(db.sets, rows[i].id);
      r := r + [rows[i].(sets := sets)];
      i := i + 1;
    }
  }

  // ---------------------------------------------------------------- get

  /** The name of the session's template, when it has one and that template row exists (a LEFT JOIN). */
  function TemplateName(ts: seq<TemplateRow>, templateId: Option<int>): (r: Option<string>)
    ensures r.Some? <==> templateId.Some? && exists t :: t in ts && t.id == templateId.value
    ensures r.Some? ==> exists t :: t in ts && t.id == templateId.value && t.name == r.value
  {
    if templateId.None? then None
    else match First(ts, (t: TemplateRow) => t.id == templateId.value)
      case Some(t) => Some(t.name)
      case None => None
  }



  function ToSession(row: SessionRow, templateName: Option<string>, entries: seq<SessionExercise>): Session {
    Session(row.id, row.templateId, templateName, row.name, row.startedAt, row.endedAt,
            row.pausedDuration, row.notes, row.status, entries)
  }

  /** What `get` returns for the database state `st`. */
  function Find(st: Snapshot, id: int): Result<Session, AppError> {
    match FindRow(st.sessions, SessionKey(), id)
    case Some(row) =>
      Ok(ToSession(row, TemplateName(st.templates, row.templateId),
                   EntriesOf(st.sessionExercises, st.exercises, st.sets, id)))
    case None => Err(NotFound)
  }

  /** `get` finds a session exactly when a row has the id, and returns that row with its template name and exercises. */
  lemma FindSpec(st: Snapshot, i: int)
    requires UniqueKeys(st.sessions, SessionKey()) && 0 <= i < |st.sessions|
    ensures var row := st.sessions[i];
            Find(st, row.id) == Ok(ToSession(row, TemplateName(st.templates, row.templateId),
                                             EntriesOf(st.sessionExercises, st.exercises, st.sets, row.id)))
  {
    FindRowUnique(st.sessions, SessionKey(), i);
  }

  /** `get`: NotFound for a missing id. */
  method Get(db: Database, id: int) returns (r: Result<Session, AppError>)
    ensures r == Find(db.State(), id)
    ensures r.Err? <==> forall i :: 0 <= i < |db.sessions| ==> db.sessions[i].id != id
    ensures r.Err? ==> r.error == NotFound
  {
    var row := FindRow(db.sessions, SessionKey(), id);
    if row.None? {
      return Err(NotFound);
    }
    var entries := GetSessionExercises(db, id);
    r := Ok(ToSession(row.value, TemplateName(db.templates, row.value.templateId), entries));
  }

  // ---------------------------------------------------------------- list

  function OfTemplate(templateId: int): SessionRow -> bool {
    (s: SessionRow) => s.templateId == Some(templateId)
  }

  /** The rows `list` filters to: those of the template when one is given, else all. */
  function Selected(ss: seq<SessionRow>, params: SessionListParams): seq<SessionRow> {
    if params.templateId.Some? then Filter(ss, OfTemplate(params.templateId.value)) else ss
  }

  /** The rows `list` selects: of the template when one is given, newest first, paged (20 from 0 by default). */
  function ListedRows(ss: seq<SessionRow>, params: SessionListParams): seq<SessionRow> {
    Page(Sort(Selected(ss, params), ByStartedDesc()), params.limit.GetOr(20), params.offset.GetOr(0))
  }

  /**
   * The listed sessions are newest first and each is a session of the table
   * (of the requested template when one is given). They are a window of all
   * such sessions in that order: as many as the limit allows after skipping
   * `offset` of them; a session left out started no earlier than every listed
   * one or no later than every listed one; from offset 0 every session left
   * out is no newer than the listed ones; and from offset 0 a limit that
   * covers them all lists every one.
   */
  lemma ListedRowsSpec(ss: seq<SessionRow>, params: SessionListParams)
    ensures var r := ListedRows(ss, params);
            && SortedBy(r, ByStartedDesc())
            && (params.limit.GetOr(20) >= 0 ==> |r| <= params.limit.GetOr(20))
            && (forall s :: s in r ==> s in ss)
            && (params.templateId.Some? ==> forall s :: s in r ==> s.templateId == params.templateId)
    ensures forall s :: s in Selected(ss, params) <==>
              s in ss && (params.templateId.Some? ==> s.templateId == params.templateId)
    ensures var r := ListedRows(ss, params);
            var sel := Selected(ss, params);
            var limit, offset := params.limit.GetOr(20), params.offset.GetOr(0);
            var from := if offset < 0 then 0 else if offset > |sel| then |sel| else offset;
            && |r| == (if limit < 0 || |sel| - from < limit then |sel| - from else limit)
            && (forall s :: s in sel && s !in r ==>
                  (forall i :: 0 <= i < |r| ==> LexLe(r[i].startedAt, s.startedAt)) ||
                  (forall i :: 0 <= i < |r| ==> LexLe(s.startedAt, r[i].startedAt)))
            && (offset <= 0 ==> forall s :: s in sel && s !in r ==>
                  forall i :: 0 <= i < |r| ==> LexLe(s.startedAt, r[i].startedAt))
            && (offset <= 0 && (limit < 0 || |sel| <= limit) ==> multiset(r) == multiset(sel))
  {
    var selected := Selected(ss, params);
    var sorted := Sort(selected, ByStartedDesc());
    var limit, offset := params.limit.GetOr(20), params.offset.GetOr(0);
    ByTextDescPreorder((s: SessionRow) => s.startedAt);
    SortCorrect(selected, ByStartedDesc());
    PageOfSorted(sorted, ByStartedDesc(), limit, offset);
    PageWindow(sorted, ByStartedDesc(), limit, offset);
    forall s ensures s in sorted <==> s in selected {
      SortMembers(selected, ByStartedDesc(), s);
    }
  }

  function Summary(row: SessionRow, ts: seq<TemplateRow>): SessionSummary {
    SessionSummary(row.id, row.templateId, TemplateName(ts, row.templateId), row.name,
                   row.startedAt, row.endedAt, row.status)
  }

  /** `list`: one summary per selected row, in the query's order. */
  method List(db: Database, params: SessionListParams) returns (r: seq<SessionSummary>)
    ensures |r| == |ListedRows(db.sessions, params)|
    ensures forall i :: 0 <= i < |r| ==> r[i] == Summary(ListedRows(db.sessions, params)[i], db.templates)
  {
    var rows := ListedRows(db.sessions, params);
    r := [];
    var i := 0;
    while i < |rows|
      invariant 0 <= i <= |rows| && |r| == i
      invariant forall k :: 0 <= k < i ==> r[k] == Summary(rows[k], db.templates)
    {
      r := r + [Summary(rows[i], db.templates)];
      i := i + 1;
    }
  }

  // ---------------------------------------------------------------- latest session of a kind

  /** The newest row satisfying `p` (`WHERE p ORDER BY started_at DESC LIMIT 1`). */
  function Latest(ss: seq<SessionRow>, p: SessionRow -> bool): Option<SessionRow> {
    var rows := Sort(Filter(ss, p), ByStartedDesc());
    if rows == [] then None else Some(rows[0])
  }

  /** `Latest` finds a row exactly when one satisfies `p`, and no such row started later than it. */
  lemma LatestSpec(ss: seq<SessionRow>, p: SessionRow -> bool)
    ensures Latest(ss, p).None? <==> forall s :: s in ss ==> !p(s)
    ensures Latest(ss, p).Some? ==>
              && Latest(ss, p).value in ss && p(Latest(ss, p).value)
              && forall s :: s in ss && p(s) ==> LexLe(s.startedAt, Latest(ss, p).value.startedAt)
  {
    var rows := Filter(ss, p);
    ByTextDescPreorder((s: SessionRow) => s.startedAt);
    SortMembers(rows, ByStartedDesc(), SessionRow(0, None, None, [], None, 0, None, []));
    if rows != [] {
      SortFirst(rows, ByStartedDesc());
      assert rows[0] in rows;
    }
  }

  function IsOpenRow(): SessionRow -> bool {
    (s: SessionRow) => IsOpen(s.status)
  }

  function CompletedOf(templateId: int): SessionRow -> bool {
    (s: SessionRow) => s.templateId == Some(templateId) && s.status == "completed"
  }

  /** The session the latest-row query found, read back with `get`. */
  method GetLatest(db: Database, p: SessionRow -> bool) returns (r: Result<Option<Session>, AppError>)
    requires db.Valid()
    ensures Latest(db.sessions, p).None? ==> r == Ok(None)
    ensures Latest(db.sessions, p).Some? ==>
              var row := Latest(db.sessions, p).value;
              r == Ok(Some(ToSession(row, TemplateName(db.templates, row.templateId),
                                     EntriesOf(db.sessionExercises, db.exercises, db.sets, row.id))))
  {
    var row := Latest(db.sessions, p);
    if row.None? {
      return Ok(None);
    }
    LatestSpec(db.sessions, p);
    var i :| 0 <= i < |db.sessions| && db.sessions[i] == row.value;
    FindSpec(db.State(), i);
    var s := Get(db, row.value.id);
    r := Ok(Some(s.value));
  }

  /** `get_active`: the newest active or paused session, if any. */
  method GetActive(db: Database) returns (r: Result<Option<Session>, AppError>)
    requires db.Valid()
    ensures Latest(db.sessions, IsOpenRow()).None? ==> r == Ok(None)
    ensures Latest(db.sessions, IsOpenRow()).Some? ==>
              var row := Latest(db.sessions, IsOpenRow()).value;
              r == Ok(Some(ToSession(row, TemplateName(db.templates, row.templateId),
                                     EntriesOf(db.sessionExercises, db.exercises, db.sets, row.id))))
  {
    r := GetLatest(db, IsOpenRow());
  }

  /** `template_previous`: the newest completed session of the template, if any. */
  method TemplatePrevious(db: Database, templateId: int) returns (r: Result<Option<Session>, AppError>)
    requires db.Valid()
    ensures Latest(db.sessions, CompletedOf(templateId)).None? ==> r == Ok(None)
    ensures Latest(db.sessions, CompletedOf(templateId)).Some? ==>
              var row := Latest(db.sessions, CompletedOf(templateId)).value;
              r == Ok(Some(ToSession(row, TemplateName(db.templates, row.templateId),
                                     EntriesOf(db.sessionExercises, db.exercises, db.sets, row.id))))
  {
    r := GetLatest(db, CompletedOf(templateId));
  }

  /** The active session is open and no open session started after it; it is missing only when no session is open. */
  lemma ActiveIsLatestOpen(ss: seq<SessionRow>)
    ensures Latest(ss, IsOpenRow()).None? <==> forall s :: s in ss ==> !IsOpen(s.status)
    ensures Latest(ss, IsOpenRow()).Some? ==>
              && IsOpen(Latest(ss, IsOpenRow()).value.status)
              && forall s :: s in ss && IsOpen(s.status) ==> LexLe(s.startedAt, Latest(ss, IsOpenRow()).value.startedAt)
  {
    LatestSpec(ss, IsOpenRow());
  }

  // ---------------------------------------------------------------- create

  /** The session row `create` inserts: status "active" and start time now unless given. */
  function NewRow(id: int, input: CreateSession, now: string): (r: SessionRow)
    ensures r.id == id && r.templateId == input.templateId && r.name == input.name && r.notes == input.notes
    ensures r.startedAt == (if input.startedAt.Some? then input.startedAt.value else now)
    ensures r.endedAt == input.endedAt && r.pausedDuration == 0
    ensures r.status == (if input.status.Some? then input.status.value else "active")
  {
    SessionRow(id, input.templateId, input.name, input.startedAt.GetOr(now), input.endedAt, 0,
               input.notes, input.status.GetOr("active"))
  }

  function OfTemplateEntry(templateId: int): TemplateExerciseRow -> bool {
    (te: TemplateExerciseRow) => te.templateId == templateId
  }

  function ByEntryPosition(): (TemplateExerciseRow, TemplateExerciseRow) -> bool {
    ByIntAsc((te: TemplateExerciseRow) => te.position)
  }

  /** The entries of a template in position order: what a new session is seeded from. */
  function TemplateRows(tes: seq<TemplateExerciseRow>, templateId: int): seq<TemplateExerciseRow> {
    Sort(Filter(tes, OfTemplateEntry(templateId)), ByEntryPosition())
  }

  /** One session-exercise row per template entry, copying exercise, position and notes, with consecutive ids. */
  function SeedRows(sessionId: int, rows: seq<TemplateExerciseRow>, firstId: int): (r: seq<SessionExerciseRow>)
    ensures |r| == |rows|
    ensures forall i :: 0 <= i < |r| ==>
              r[i] == SessionExerciseRow(firstId + i, sessionId, rows[i].exerciseId, rows[i].position, rows[i].notes)
  {
    seq(|rows|, i requires 0 <= i < |rows| =>
      SessionExerciseRow(firstId + i, sessionId, rows[i].exerciseId, rows[i].position, rows[i].notes))
  }

  /** The rows `create` seeds for a new session `id` whose rows start at `firstId`. */
  function Seeds(tes: seq<TemplateExerciseRow>, input: CreateSession, id: int, firstId: int): seq<SessionExerciseRow> {
    if input.templateId.Some? then SeedRows(id, TemplateRows(tes, input.templateId.value), firstId) else []
  }

  /** The session-exercise inserts of `create`, one per template entry, in position order. */
  method SeedEntries(db: Database, sessionId: int, rows: seq<TemplateExerciseRow>)
    requires db.Valid() && sessionId < db.nextId
    modifies db
    ensures db.Valid()
    ensures db.State() == old(db.State()).(
              sessionExercises := old(db.sessionExercises) + SeedRows(sessionId, rows, old(db.nextId)),
              nextId := old(db.nextId) + |rows|)
  {
    var k := 0;
    while k < |rows|
      invariant 0 <= k <= |rows|
      invariant db.Valid()
      invariant db.State() == old(db.State()).(
                  sessionExercises := old(db.sessionExercises) + SeedRows(sessionId, rows[..k], old(db.nextId)),
                  nextId := old(db.nextId) + k)
    {
      var row := SessionExerciseRow(db.nextId, sessionId, rows[k].exerciseId, rows[k].position, rows[k].notes);
      assert SeedRows(sessionId, rows[..k + 1], old(db.nextId)) == SeedRows(sessionId, rows[..k], old(db.nextId)) + [row];
      AppendKeepsUnique(db.sessionExercises, row, SessionEntryKey());
      db.WriteSessionEntries(db.sessionExercises + [row], db.nextId + 1);
      k := k + 1;
    }
    assert rows[..k] == rows;
  }

  /** The session row insert of `create`: both insert forms store the same row. */
  method InsertRow(db: Database, input: CreateSession, now: string) returns (id: int)
    requires db.Valid()
    modifies db
    ensures db.Valid() && id == old(db.nextId)
    ensures db.State() == old(db.State()).(sessions := old(db.sessions) + [NewRow(id, input, now)], nextId := id + 1)
  {
    id := db.nextId;
    var status := input.status.GetOr("active");
    var row;
    if input.startedAt.Some? || input.endedAt.Some? {
      row := SessionRow(id, input.templateId, input.name, input.startedAt.GetOr(now), input.endedAt, 0, input.notes, status);
    } else {
      row := SessionRow(id, input.templateId, input.name, now, None, 0, input.notes, status);
    }
    AppendKeepsUnique(db.sessions, row, SessionKey());
    db.WriteSessions(db.sessions + [row], id + 1);
  }

  /**
   * `create`: the session row, then (when a template is given) one
   * session exercise per template entry in position order; the new session
   * is returned as `get` reads it.
   */
  method Create(db: Database, input: CreateSession, now: string) returns (r: Result<Session, AppError>)
    requires db.Valid()
    modifies db
    ensures db.Valid()
    ensures var id := old(db.nextId);
            var seeds := Seeds(old(db.templateExercises), input, id, id + 1);
            && db.State() == old(db.State()).(sessions := old(db.sessions) + [NewRow(id, input, now)],
                                              sessionExercises := old(db.sessionExercises) + seeds,
                                              nextId := id + 1 + |seeds|)
            && r == Find(db.State(), id)
  {
    var id := InsertRow(db, input, now);
    if input.templateId.Some? {
      var rows := TemplateRows(db.templateExercises, input.templateId.value);
      SeedEntries(db, id, rows);
    }
    r := Get(db, id);
  }

  /**
   * A new session's exercises are exactly its seeded rows whose exercise
   * exists, in position order, none with any set yet.
   */
  lemma CreatedSessionEntries(prior: seq<SessionExerciseRow>, seeds: seq<SessionExerciseRow>, exs: seq<Exercise>,
                              sets: seq<WorkoutSet>, id: int)
    requires forall se :: se in prior ==> se.sessionId != id
    requires forall st :: st in sets ==> forall se :: se in seeds ==> st.sessionExerciseId != se.id
    ensures EntriesOf(prior + seeds, exs, sets, id) == EntryRows(seeds, exs, id)
  {
    FilterMapAppend(prior, seeds, EntryOf(exs, id));
    JoinEntriesOthers(prior, exs, id);
    assert [] + JoinEntries(seeds, exs, id) == JoinEntries(seeds, exs, id);
    var rows := EntryRows(seeds, exs, id);
    var r := EntriesOf(prior + seeds, exs, sets, id);
    assert r == WithSets(rows, sets);
    ByIntAscPreorder((se: SessionExercise) => se.position);
    JoinEntriesSource(seeds, exs, id);
    forall i | 0 <= i < |rows| ensures r[i] == rows[i] {
      SortMembers(JoinEntries(seeds, exs, id), ByPosition(), rows[i]);
      var se :| se in seeds && se.sessionId == id && JoinEntry(se, exs) == Some(rows[i]);
      NoSets(sets, se.id);
    }
  }

  /** The seeded exercises of a session created from a template copy each entry's exercise, position and notes. */
  lemma SeededFromTemplate(rows: seq<TemplateExerciseRow>, exs: seq<Exercise>, id: int, firstId: int)
    ensures forall x :: x in EntryRows(SeedRows(id, rows, firstId), exs, id) ==>
              && x.sets == []
              && exists i :: 0 <= i < |rows| && x.id == firstId + i && x.exerciseId == rows[i].exerciseId
                             && x.position == rows[i].position && x.notes == rows[i].notes
  {
    var seeds := SeedRows(id, rows, firstId);
    ByIntAscPreorder((se: SessionExercise) => se.position);
    JoinEntriesSource(seeds, exs, id);
    forall x | x in EntryRows(seeds, exs, id)
      ensures && x.sets == []
              && exists i :: 0 <= i < |rows| && x.id == firstId + i && x.exerciseId == rows[i].exerciseId
                             && x.position == rows[i].position && x.notes == rows[i].notes
    {
      SortMembers(JoinEntries(seeds, exs, id), ByPosition(), x);
      var se :| se in seeds && se.sessionId == id && JoinEntry(se, exs) == Some(x);
      var i :| 0 <= i < |seeds| && seeds[i] == se;
      assert x.id == firstId + i;
    }
  }

  // ---------------------------------------------------------------- update

  /** The statuses whose write also stamps `ended_at`. */
  predicate Terminal(status: string) {
    status == "completed" || status == "abandoned"
  }

  /**
   * The session row after `update`: a supplied status is written (a
   * terminal one also stamps the end time now), then each other supplied
   * field is written; a supplied end time is written last and wins.
   */
  function ApplyUpdate(row: SessionRow, u: UpdateSession, now: string): (r: SessionRow)
    ensures r.id == row.id && r.templateId == row.templateId && r.name == row.name
    ensures r.status == (if u.status.Some? then u.status.value else row.status)
    ensures r.notes == (if u.notes.Some? then u.notes else row.notes)
    ensures r.pausedDuration == (if u.pausedDuration.Some? then u.pausedDuration.value else row.pausedDuration)
    ensures r.startedAt == (if u.startedAt.Some? then u.startedAt.value else row.startedAt)
    ensures r.endedAt == (if u.endedAt.Some? then u.endedAt
                          else if u.status.Some? && Terminal(u.status.value) then Some(now)
                          else row.endedAt)
  {
    var afterStatus :=
      if u.status.None? then row
      else if Terminal(u.status.value) then row.(status := u.status.value, endedAt := Some(now))
      else row.(status := u.status.value);
    afterStatus.(notes := if u.notes.Some? then u.notes else afterStatus.notes,
                 pausedDuration := u.pausedDuration.GetOr(afterStatus.pausedDuration),
                 startedAt := u.startedAt.GetOr(afterStatus.startedAt),
                 endedAt := if u.endedAt.Some? then u.endedAt else afterStatus.endedAt)
  }

  function Updater(u: UpdateSession, now: string): SessionRow -> SessionRow {
    (s: SessionRow) => ApplyUpdate(s, u, now)
  }

  /** A supplied status that is not one of the four. */
  predicate InvalidStatus(u: UpdateSession) {
    u.status.Some? && !ValidStatus(u.status.value)
  }

  /**
   * `update`: an unknown status is a BadRequest before any write; otherwise
   * the writes are applied to the row with `id` (to none when it is missing)
   * and the session is read back with `get`, which is NotFound for a missing id.
   */
  method Update(db: Database, id: int, input: UpdateSession, now: string) returns (r: Result<Session, AppError>)
    requires db.Valid()
    modifies db
    ensures db.Valid()
    ensures InvalidStatus(input) ==>
              r == Err(BadRequest("Invalid status: " + input.status.value)) && db.State() == old(db.State())
    ensures !InvalidStatus(input) ==>
              && db.State() == old(db.State()).(sessions := UpdateWhere(old(db.sessions), HasId(id), Updater(input, now)))
              && r == Find(db.State(), id)
  {
    if input.status.Some? && !ValidStatus(input.status.value) {
      return Err(BadRequest("Invalid status: " + input.status.value));
    }
    var rows := UpdateWhere(db.sessions, HasId(id), Updater(input, now));
    UpdateKeepsUnique(db.sessions, HasId(id), Updater(input, now), SessionKey());
    assert forall k :: 0 <= k < |rows| ==> rows[k].id == db.sessions[k].id;
    db.WriteSessions(rows, db.nextId);
    r := Get(db, id);
  }

  /**
   * Any valid status may be written over any other: `update` of an existing
   * session with a valid status succeeds and the session then has that status.
   */
  lemma AnyTransitionAllowed(st: Snapshot, i: int, input: UpdateSession, now: string)
    requires UniqueKeys(st.sessions, SessionKey()) && 0 <= i < |st.sessions|
    ensures var id := st.sessions[i].id;
            var after := st.(sessions := UpdateWhere(st.sessions, HasId(id), Updater(input, now)));
            && Find(after, id).Ok?
            && Find(after, id).value.status == (if input.status.Some? then input.status.value else st.sessions[i].status)
            && Find(after, id).value.exercises == Find(st, id).value.exercises
  {
    var id := st.sessions[i].id;
    var rows := UpdateWhere(st.sessions, HasId(id), Updater(input, now));
    UpdateKeepsUnique(st.sessions, HasId(id), Updater(input, now), SessionKey());
    FindSpec(st, i);
    FindSpec(st.(sessions := rows), i);
  }

  // ---------------------------------------------------------------- delete

  function NotId(id: int): SessionRow -> bool {
    (s: SessionRow) => s.id != id
  }

  /** `delete`: removes the row with `id`; NotFound when no row was deleted. */
  method Delete(db: Database, id: int) returns (r: Result<(), AppError>)
    requires db.Valid()
    modifies db
    ensures db.Valid()
    ensures (forall i :: 0 <= i < |old(db.sessions)| ==> old(db.sessions)[i].id != id) ==>
              r == Err(NotFound) && db.State() == old(db.State())
    ensures (exists i :: 0 <= i < |old(db.sessions)| && old(db.sessions)[i].id == id) ==>
              r == Ok(()) && db.State() == old(db.State()).(sessions := Filter(old(db.sessions), NotId(id)))
  {
    var rows := Count(db.sessions, HasId(id));
    if rows == 0 {
      return Err(NotFound);
    }
    FilterKeepsUnique(db.sessions, NotId(id), SessionKey());
    db.WriteSessions(Filter(db.sessions, NotId(id)), db.nextId);
    r := Ok(());
  }

  /** After `delete` the session is gone and every other session is kept. */
  lemma DeleteRemovesOnlyIt(ss: seq<SessionRow>, id: int)
    ensures FindRow(Filter(ss, NotId(id)), SessionKey(), id).None?
    ensures forall s :: s in ss && s.id != id ==> s in Filter(ss, NotId(id))
  {
    var r := Filter(ss, NotId(id));
    forall i | 0 <= i < |r| ensures r[i].id != id {
      assert r[i] in r;
    }
  }
}
