/**
 * The SQLite database of the core crate as one in-memory object: every table
 * is a sequence of rows in insertion order, and one counter hands out fresh
 * row ids. The migration runner and the migrations-directory lookup of
 * `db.rs` live here too.
 */
module Db {
  import opened Wrappers
  import opened Text
  import opened Order
  import opened Errors
  import opened Models
  import opened Tables

  datatype TemplateRow = TemplateRow(
    id: int,
    name: string,
    notes: Option<string>,
    archived: bool,
    createdAt: string,
    updatedAt: string)

  datatype TemplateExerciseRow = TemplateExerciseRow(
    id: int,
    templateId: int,
    exerciseId: int,
    position: int,
    targetSets: Option<int>,
    targetRepsMin: Option<int>,
    targetRepsMax: Option<int>,
    restSeconds: Option<int>,
    notes: Option<string>)

  datatype SessionRow = SessionRow(
    id: int,
    templateId: Option<int>,
    name: Option<string>,
    startedAt: string,
    endedAt: Option<string>,
    pausedDuration: int,
    notes: Option<string>,
    status: string)

  datatype SessionExerciseRow = SessionExerciseRow(
    id: int,
    sessionId: int,
    exerciseId: int,
    position: int,
    notes: Option<string>)

  datatype AuthRow = AuthRow(id: int, passwordHash: string, token: string)

  /** No two rows of the table share a name (the `UNIQUE` name column). */
  predicate UniqueExerciseNames(s: seq<Exercise>) {
    forall i, j :: 0 <= i < j < |s| ==> s[i].name != s[j].name
  }

  predicate UniqueTemplateNames(s: seq<TemplateRow>) {
    forall i, j :: 0 <= i < j < |s| ==> s[i].name != s[j].name
  }

  predicate UniqueExerciseIds(s: seq<Exercise>) {
    forall i, j :: 0 <= i < j < |s| ==> s[i].id != s[j].id
  }

  predicate UniqueTemplateIds(s: seq<TemplateRow>) {
    forall i, j :: 0 <= i < j < |s| ==> s[i].id != s[j].id
  }

  // The primary keys of the tables that rows are deleted from.

  function TemplateKey(): TemplateRow -> int { (t: TemplateRow) => t.id }

  function TemplateEntryKey(): TemplateExerciseRow -> int { (te: TemplateExerciseRow) => te.id }

  function SessionKey(): SessionRow -> int { (r: SessionRow) => r.id }

  function SessionEntryKey(): SessionExerciseRow -> int { (se: SessionExerciseRow) => se.id }

  function SetKey(): WorkoutSet -> int { (st: WorkoutSet) => st.id }

  // Each table's part of the database invariant: ids below the counter, and
  // references that a later insert could capture below it as well.

  predicate ExercisesOk(s: seq<Exercise>, nextId: int) {
    (forall e :: e in s ==> e.id < nextId) && UniqueExerciseNames(s) && UniqueExerciseIds(s)
  }

  predicate TemplatesOk(s: seq<TemplateRow>, nextId: int) {
    (forall t :: t in s ==> t.id < nextId) && UniqueTemplateNames(s) && UniqueTemplateIds(s)
  }

  predicate TemplateEntriesOk(s: seq<TemplateExerciseRow>, nextId: int) {
    && (forall te :: te in s ==> te.id < nextId && te.templateId < nextId)
    && UniqueKeys(s, TemplateEntryKey())
  }

  predicate SessionsOk(s: seq<SessionRow>, nextId: int) {
    && (forall r :: r in s ==> r.id < nextId)
    && UniqueKeys(s, SessionKey())
  }

  predicate SessionEntriesOk(s: seq<SessionExerciseRow>, nextId: int) {
    && (forall se :: se in s ==> se.id < nextId && se.sessionId < nextId)
    && UniqueKeys(s, SessionEntryKey())
  }

  predicate SetsOk(s: seq<WorkoutSet>, nextId: int) {
    && (forall st :: st in s ==> st.id < nextId && st.sessionExerciseId < nextId)
    && UniqueKeys(s, SetKey())
  }

  /** At most one credential row, and it has id 1. */
  predicate AuthOk(s: seq<AuthRow>) {
    |s| <= 1 && forall a :: a in s ==> a.id == 1
  }

  /** Every table of the database at one moment. */
  datatype Snapshot = Snapshot(
    exercises: seq<Exercise>,
    templates: seq<TemplateRow>,
    templateExercises: seq<TemplateExerciseRow>,
    sessions: seq<SessionRow>,
    sessionExercises: seq<SessionExerciseRow>,
    sets: seq<WorkoutSet>,
    auth: seq<AuthRow>,
    migrations: seq<string>,
    executed: seq<string>,
    nextId: int)

  class Database {
    var exercises: seq<Exercise>
    var templates: seq<TemplateRow>
    var templateExercises: seq<TemplateExerciseRow>
    var sessions: seq<SessionRow>
    var sessionExercises: seq<SessionExerciseRow>
    var sets: seq<WorkoutSet>
    var auth: seq<AuthRow>
    /** The names recorded in `_migrations`, in the order they were applied. */
    var migrations: seq<string>
    /** The migration scripts executed against this database, in order. */
    var executed: seq<string>
    /** The next row id: above every id in use and every id a row refers to. */
    var nextId: int

    ghost predicate Valid()
      reads this
    {
      && 1 <= nextId
      && ExercisesOk(exercises, nextId)
      && TemplatesOk(templates, nextId)
      && TemplateEntriesOk(templateExercises, nextId)
      && SessionsOk(sessions, nextId)
      && SessionEntriesOk(sessionExercises, nextId)
      && SetsOk(sets, nextId)
      && AuthOk(auth)
    }

    ghost function State(): Snapshot
      reads this
    {
      Snapshot(exercises, templates, templateExercises, sessions, sessionExercises, sets, auth,
               migrations, executed, nextId)
    }

    /** A freshly opened database: every table created and empty. */
    constructor ()
      ensures Valid()
      ensures exercises == [] && templates == [] && templateExercises == []
      ensures sessions == [] && sessionExercises == [] && sets == [] && auth == []
      ensures migrations == [] && executed == []
    {
      exercises := [];
      templates := [];
      templateExercises := [];
      sessions := [];
      sessionExercises := [];
      sets := [];
      auth := [];
      migrations := [];
      executed := [];
      nextId := 1;
    }

    // Table writers: each replaces one table (and possibly moves the
    // counter), given that the new table keeps that table's invariant.

    method WriteExercises(exs: seq<Exercise>, next: int)
      requires Valid() && nextId <= next && ExercisesOk(exs, next)
      modifies this
      ensures Valid() && State() == old(State()).(exercises := exs, nextId := next)
    {
      exercises := exs;
      nextId := next;
    }

    method WriteTemplates(rows: seq<TemplateRow>, next: int)
      requires Valid() && nextId <= next && TemplatesOk(rows, next)
      modifies this
      ensures Valid() && State() == old(State()).(templates := rows, nextId := next)
    {
      templates := rows;
      nextId := next;
    }

    method WriteTemplateEntries(rows: seq<TemplateExerciseRow>, next: int)
      requires Valid() && nextId <= next && TemplateEntriesOk(rows, next)
      modifies this
      ensures Valid() && State() == old(State()).(templateExercises := rows, nextId := next)
    {
      templateExercises := rows;
      nextId := next;
    }

    method WriteSessions(rows: seq<SessionRow>, next: int)
      requires Valid() && nextId <= next && SessionsOk(rows, next)
      modifies this
      ensures Valid() && State() == old(State()).(sessions := rows, nextId := next)
    {
      sessions := rows;
      nextId := next;
    }

    method WriteSessionEntries(rows: seq<SessionExerciseRow>, next: int)
      requires Valid() && nextId <= next && SessionEntriesOk(rows, next)
      modifies this
      ensures Valid() && State() == old(State()).(sessionExercises := rows, nextId := next)
    {
      sessionExercises := rows;
      nextId := next;
    }

    method WriteAuth(rows: seq<AuthRow>)
      requires Valid() && AuthOk(rows)
      modifies this
      ensures Valid() && State() == old(State()).(auth := rows)
    {
      auth := rows;
    }

    method WriteSets(rows: seq<WorkoutSet>, next: int)
      requires Valid() && nextId <= next && SetsOk(rows, next)
      modifies this
      ensures Valid() && State() == old(State()).(sets := rows, nextId := next)
    {
      sets := rows;
      nextId := next;
    }
  }

  // ---------------------------------------------------------------- migrations

  /** One entry of the migrations directory; `contents` is `None` when the file cannot be read. */
  datatype DirEntry = DirEntry(fileName: string, contents: Option<string>)

  /** What a run of the migration runner returns and which entries it applied. */
  datatype RunOutcome = RunOutcome(result: Result<(), AppError>, applied: seq<DirEntry>)

  function Names(es: seq<DirEntry>): (r: seq<string>)
    ensures |r| == |es| && forall i :: 0 <= i < |es| ==> r[i] == es[i].fileName
  {
    seq(|es|, i requires 0 <= i < |es| => es[i].fileName)
  }

  function Scripts(es: seq<DirEntry>): (r: seq<string>)
    requires forall e :: e in es ==> e.contents.Some?
    ensures |r| == |es| && forall i :: 0 <= i < |es| ==> r[i] == es[i].contents.value
  {
    seq(|es|, i requires 0 <= i < |es| => es[i].contents.value)
  }

  /** A directory entry the runner would apply given the names already recorded. */
  predicate Pending(e: DirEntry, recorded: seq<string>) {
    EndsWith(e.fileName, ".sql") && e.fileName !in recorded
  }

  /**
   * One step of the runner: what processing entry `e` does after `prev`,
   * given the names recorded before the run. `executes(sql)` says whether a
   * script runs without a database error.
   */
  function Step(prev: RunOutcome, e: DirEntry, recorded: seq<string>, executes: string -> bool): (out: RunOutcome)
  {
    if prev.result.Err? || !Pending(e, recorded + Names(prev.applied)) then prev
    else match e.contents
      case None => RunOutcome(Err(BadRequest("Cannot read migration: " + e.fileName)), prev.applied)
      case Some(sql) =>
        if executes(sql) then RunOutcome(Ok(()), prev.applied + [e])
        else RunOutcome(Err(Database), prev.applied)
  }

  /**
   * The runner over the entries `es` (already in processing order), starting
   * from the recorded names `recorded`. Defined on prefixes, so the last
   * entry is the one processed last.
   */
  function Run(es: seq<DirEntry>, recorded: seq<string>, executes: string -> bool): (out: RunOutcome)
    ensures forall e :: e in out.applied ==> e.contents.Some?
    decreases |es|
  {
    if es == [] then RunOutcome(Ok(()), [])
    else Step(Run(es[..|es| - 1], recorded, executes), es[|es| - 1], recorded, executes)
  }

  /** Directory entries sorted by file name, as `sort_by_key(|e| e.file_name())` does. */
  function SortByName(es: seq<DirEntry>): seq<DirEntry> {
    Sort(es, ByTextAsc((e: DirEntry) => e.fileName))
  }

  /** Once the runner has failed, later entries change nothing. */
  lemma {:induction false} RunStopsAtError(es: seq<DirEntry>, k: nat, recorded: seq<string>, executes: string -> bool)
    requires k <= |es| && Run(es[..k], recorded, executes).result.Err?
    ensures Run(es, recorded, executes) == Run(es[..k], recorded, executes)
    decreases |es| - k
  {
    if k < |es| {
      assert es[..k + 1][..k] == es[..k];
      if k + 1 < |es| {
        RunStopsAtError(es, k + 1, recorded, executes);
      } else {
        assert es[..k + 1] == es;
      }
    } else {
      assert es[..k] == es;
    }
  }

  /** The run over one more entry is one more step. */
  lemma RunPrefixStep(es: seq<DirEntry>, i: int, recorded: seq<string>, executes: string -> bool)
    requires 0 <= i < |es|
    ensures Run(es[..i + 1], recorded, executes) == Step(Run(es[..i], recorded, executes), es[i], recorded, executes)
  {
    assert es[..i + 1][..i] == es[..i];
  }

  /** A step over an entry that is not pending changes nothing. */
  lemma StepSkips(prev: RunOutcome, e: DirEntry, recorded: seq<string>, executes: string -> bool)
    requires !Pending(e, recorded + Names(prev.applied))
    ensures Step(prev, e, recorded, executes) == prev
  {
  }

  /** A step that runs a pending script records it. */
  lemma StepApplies(prev: RunOutcome, e: DirEntry, recorded: seq<string>, executes: string -> bool)
    requires prev.result.Ok? && Pending(e, recorded + Names(prev.applied))
    requires e.contents.Some? && executes(e.contents.value)
    requires forall x :: x in prev.applied ==> x.contents.Some?
    ensures Step(prev, e, recorded, executes) == RunOutcome(Ok(()), prev.applied + [e])
    ensures Names(prev.applied + [e]) == Names(prev.applied) + [e.fileName]
    ensures Scripts(prev.applied + [e]) == Scripts(prev.applied) + [e.contents.value]
  {
    assert Names(prev.applied + [e])[|prev.applied|] == e.fileName;
  }

  /**
   * `listing` is the directory listing, `None` when the directory cannot be
   * read. Pending `.sql` files run in file-name order and are recorded in
   * `_migrations` one by one; an unreadable file or a failing script stops
   * the run with the migrations before it kept.
   */
  method RunMigrations(db: Database, listing: Option<seq<DirEntry>>, executes: string -> bool)
    returns (r: Result<(), AppError>)
    modifies db
    ensures var out := Run(SortByName(listing.GetOr([])), old(db.migrations), executes);
            && r == out.result
            && db.migrations == old(db.migrations) + Names(out.applied)
            && db.executed == old(db.executed) + Scripts(out.applied)
    ensures listing.None? ==> r.Ok? && db.migrations == old(db.migrations)
    ensures db.State() == old(db.State()).(migrations := db.migrations, executed := db.executed)
  {
    var entries := SortByName(listing.GetOr([]));
    ghost var recorded := db.migrations;
    ghost var out := RunOutcome(Ok(()), []);
    var i := 0;
    while i < |entries|
      invariant 0 <= i <= |entries|
      invariant out == Run(entries[..i], recorded, executes) && out.result == Ok(())
      invariant db.migrations == recorded + Names(out.applied)
      invariant db.executed == old(db.executed) + Scripts(out.applied)
      invariant db.State() == old(db.State()).(migrations := db.migrations, executed := db.executed)
    {
      var name := entries[i].fileName;
      RunPrefixStep(entries, i, recorded, executes);
      if !EndsWith(name, ".sql") || name in db.migrations {
        StepSkips(out, entries[i], recorded, executes);
        i := i + 1;
        continue;
      }
      match entries[i].contents {
        case None =>
          r := Err(BadRequest("Cannot read migration: " + name));
          assert Run(entries[..i + 1], recorded, executes).result == r;
          RunStopsAtError(entries, i + 1, recorded, executes);
          return;
        case Some(sql) =>
          if !executes(sql) {
            r := Err(Database);
            assert Run(entries[..i + 1], recorded, executes).result == r;
            RunStopsAtError(entries, i + 1, recorded, executes);
            return;
          }
          StepApplies(out, entries[i], recorded, executes);
          out := RunOutcome(Ok(()), out.applied + [entries[i]]);
          db.executed := db.executed + [sql];
          db.migrations := db.migrations + [name];
      }
      i := i + 1;
    }
    assert entries[..i] == entries;
    r := Ok(());
  }

  // ---------------------------------------------------------------- migration properties

  /** Every applied entry is a readable `.sql` file of the listing that was not recorded before. */
  lemma {:induction false} RunAppliesPendingOnly(es: seq<DirEntry>, recorded: seq<string>, executes: string -> bool)
    ensures forall e :: e in Run(es, recorded, executes).applied ==>
              e in es && EndsWith(e.fileName, ".sql") && e.fileName !in recorded
    ensures forall i, j :: 0 <= i < j < |Run(es, recorded, executes).applied| ==>
              Run(es, recorded, executes).applied[i].fileName != Run(es, recorded, executes).applied[j].fileName
    decreases |es|
  {
    if es != [] {
      var pre := es[..|es| - 1];
      RunAppliesPendingOnly(pre, recorded, executes);
      var prev := Run(pre, recorded, executes);
      forall e | e in prev.applied ensures e in es {
        assert e in pre;
      }
      var last := es[|es| - 1];
      if prev.result.Ok? && Pending(last, recorded + Names(prev.applied)) {
        forall i | 0 <= i < |prev.applied| ensures prev.applied[i].fileName != last.fileName {
          assert Names(prev.applied)[i] == prev.applied[i].fileName;
          assert (recorded + Names(prev.applied))[|recorded| + i] == prev.applied[i].fileName;
        }
      }
    }
  }

  /** Entries come out in the order they went in: a sorted listing gives sorted applied names. */
  lemma {:induction false} RunKeepsOrder(es: seq<DirEntry>, recorded: seq<string>, executes: string -> bool)
    requires SortedBy(es, ByTextAsc((e: DirEntry) => e.fileName))
    ensures SortedBy(Run(es, recorded, executes).applied, ByTextAsc((e: DirEntry) => e.fileName))
    decreases |es|
  {
    if es != [] {
      var pre := es[..|es| - 1];
      var last := es[|es| - 1];
      RunKeepsOrder(pre, recorded, executes);
      RunAppliesPendingOnly(pre, recorded, executes);
      var prev := Run(pre, recorded, executes);
      forall i | 0 <= i < |prev.applied| ensures LexLe(prev.applied[i].fileName, last.fileName) {
        var x := prev.applied[i];
        assert x in pre;
        var k :| 0 <= k < |pre| && pre[k] == x;
        assert es[k] == x;
      }
    }
  }

  /** After a successful run, every `.sql` entry of the listing is recorded. */
  lemma {:induction false} RunCoversListing(es: seq<DirEntry>, recorded: seq<string>, executes: string -> bool)
    requires Run(es, recorded, executes).result.Ok?
    ensures forall e :: e in es && EndsWith(e.fileName, ".sql") ==>
              e.fileName in recorded + Names(Run(es, recorded, executes).applied)
    decreases |es|
  {
    if es != [] {
      var pre := es[..|es| - 1];
      var prev := Run(pre, recorded, executes);
      assert prev.result.Ok?;
      RunCoversListing(pre, recorded, executes);
      var out := Run(es, recorded, executes);
      assert Names(prev.applied) <= Names(out.applied);
      forall e | e in es && EndsWith(e.fileName, ".sql")
        ensures e.fileName in recorded + Names(out.applied)
      {
        if e in pre {
          assert e.fileName in recorded + Names(prev.applied);
        } else {
          assert e == es[|es| - 1];
          if e.fileName !in recorded + Names(prev.applied) {
            assert out.applied == prev.applied + [e];
            assert Names(out.applied)[|prev.applied|] == e.fileName;
          }
        }
      }
    }
  }

  /** A run over entries that are all recorded (or not `.sql`) applies nothing. */
  lemma {:induction false} RunNothingPending(es: seq<DirEntry>, recorded: seq<string>, executes: string -> bool)
    requires forall e :: e in es && EndsWith(e.fileName, ".sql") ==> e.fileName in recorded
    ensures Run(es, recorded, executes) == RunOutcome(Ok(()), [])
    decreases |es|
  {
    if es != [] {
      var pre := es[..|es| - 1];
      forall e | e in pre ensures e in es { }
      RunNothingPending(pre, recorded, executes);
      assert Names([]) == [];
      assert recorded + [] == recorded;
    }
  }

  /** Running the migrations a second time, on the names the first run recorded, applies nothing. */
  lemma SecondRunAppliesNothing(es: seq<DirEntry>, recorded: seq<string>, executes: string -> bool)
    requires Run(es, recorded, executes).result.Ok?
    ensures Run(es, recorded + Names(Run(es, recorded, executes).applied), executes) == RunOutcome(Ok(()), [])
  {
    RunCoversListing(es, recorded, executes);
    RunNothingPending(es, recorded + Names(Run(es, recorded, executes).applied), executes);
  }

  /** A failed run names its cause: an unreadable `.sql` file of the listing, or a database error. */
  lemma {:induction false} RunErrorNamesFile(es: seq<DirEntry>, recorded: seq<string>, executes: string -> bool)
    requires Run(es, recorded, executes).result.Err?
    ensures Run(es, recorded, executes).result.error == Database
         || exists e :: e in es && EndsWith(e.fileName, ".sql") && e.contents.None?
                        && Run(es, recorded, executes).result.error == BadRequest("Cannot read migration: " + e.fileName)
    decreases |es|
  {
    var pre := es[..|es| - 1];
    var prev := Run(pre, recorded, executes);
    if prev.result.Err? {
      RunErrorNamesFile(pre, recorded, executes);
      forall e | e in pre ensures e in es { }
    } else {
      assert es[|es| - 1] in es;
    }
  }

  // ---------------------------------------------------------------- migrations directory

  /** Where the migrations directory is looked for, nearest first. */
  const MigrationDirCandidates: seq<string> :=
    ["migrations", "../migrations", "../../migrations", "../../../migrations"]

  /**
   * The first candidate that is a directory, or "migrations" when none is;
   * `isDir` stands for the file system.
   */
  method FindMigrationsDir(isDir: string -> bool) returns (dir: string)
    ensures dir in MigrationDirCandidates
    ensures (exists i :: 0 <= i < |MigrationDirCandidates| && isDir(MigrationDirCandidates[i])) ==>
              exists i :: 0 <= i < |MigrationDirCandidates| && MigrationDirCandidates[i] == dir && isDir(dir)
                          && forall j :: 0 <= j < i ==> !isDir(MigrationDirCandidates[j])
    ensures (forall i :: 0 <= i < |MigrationDirCandidates| ==> !isDir(MigrationDirCandidates[i])) ==>
              dir == "migrations"
  {
    var i := 0;
    while i < |MigrationDirCandidates|
      invariant 0 <= i <= |MigrationDirCandidates|
      invariant forall j :: 0 <= j < i ==> !isDir(MigrationDirCandidates[j])
    {
      var candidate := MigrationDirCandidates[i];
      if isDir(candidate) {
        return candidate;
      }
      i := i + 1;
    }
    return "migrations";
  }
}
