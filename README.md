# Lightweight: a verified model of the workout tracker's core

Lightweight is a self-hosted workout tracker. It has three parts:

- a Rust core (`crates/core`) over SQLite, which holds the exercise catalogue, workout templates, workout sessions with their exercises and sets, a single-user credential, and the migration runner;
- an axum server (`crates/server`), whose bearer-token middleware guards the API;
- a React single-page frontend (`frontend/src`).

This project models, in Dafny:

- **The store.** `Db.Database` is a class holding every table as a sequence of rows, the `_migrations` record, and a fresh-id counter. Each Rust function of `sessions.rs`, `templates.rs`, `exercises.rs` and `auth.rs` becomes a method that changes the database in place. Each method's `ensures` states the new table contents and the result, including every error path (NotFound, AlreadyExists, BadRequest, Unauthorized, database errors). Companion specification functions and lemmas state what the queries return:
  - ordering by name, position, set number or start time;
  - archive filters;
  - joins with exercise names;
  - the latest-row selections.
- **The migration runner.** It is a fold over the directory listing, with file reading and SQL execution passed in as data.
- **The middleware.** Its bearer-header parse and accept/reject decision, linked end to end to `verify_token`.
- **The frontend's computations:**
  - the workout timer (a class for the hook's interval state);
  - durations and date normalisation;
  - the template editor's list edits;
  - set-logger defaults and the bodyweight rule;
  - the previous-sets map (built by a loop, as the page does);
  - rep-target labels;
  - grouping and filtering of exercises;
  - page titles;
  - the API client's query builder, headers and status dispatch.

  React state that handlers update in place is modelled as classes whose methods change their fields.

JavaScript semantics are modelled explicitly in module `Js`:

- truthiness (`0`, `""` and `null` are falsy);
- the text of `${v}` and of a JSX child;
- the truncating `%`.

Timestamps are strings; SQLite compares them as text, and the model orders them lexicographically. `now`, random bytes, the password hash's verdict and the browser's answers are parameters.

## Model

| member | source | states |
|---|---|---|
| Db.Database.constructor | crates/core/src/db.rs:16-21 | a freshly opened in-memory database has every table empty and satisfies the store invariant (unique ids and names, ids below the counter) |
| Db.Run | crates/core/src/db.rs:38-62 | the runner's fold: every entry it reports as applied had readable contents |
| Db.RunMigrations | crates/core/src/db.rs:23-65 | the entries are sorted by file name and folded with `Run`; applied names are appended to `_migrations` and their scripts executed in that order; an unreadable directory is an empty listing and success; no other table changes |
| Db.RunStopsAtError | crates/core/src/db.rs:54-58 | once a file read or a script fails (`?`), later entries change neither the result nor the applied list |
| Db.RunAppliesPendingOnly | crates/core/src/db.rs:39-52 | every applied entry is a readable `.sql` file whose name was not recorded before, and no name is applied twice |
| Db.RunKeepsOrder | crates/core/src/db.rs:36-38 | a listing sorted by file name yields applied migrations sorted by file name |
| Db.RunCoversListing | crates/core/src/db.rs:38-64 | after a successful run every `.sql` entry of the listing is recorded |
| Db.RunNothingPending | crates/core/src/db.rs:39-52 | a listing whose `.sql` files are all recorded applies nothing and succeeds |
| Db.SecondRunAppliesNothing | crates/core/src/db.rs:57-61 | running the migrations again on the names the first successful run recorded applies nothing |
| Db.RunErrorNamesFile | crates/core/src/db.rs:54-58 | a failed run is a database error or the BadRequest "Cannot read migration: <name>" for an unreadable `.sql` entry of the listing |
| Db.FindMigrationsDir | crates/core/src/db.rs:67-83 | the first candidate in the fixed order that is a directory; "migrations" when none is |
| Auth.HexEncode | crates/core/src/auth.rs:14 | two lower-case hex digits per byte |
| Auth.HexRoundTrip | crates/core/src/auth.rs:14 | decoding the hex text gives the bytes back |
| Auth.GenerateToken | crates/core/src/auth.rs:11-15 | the token of 32 random bytes has 64 hex characters and decodes to those bytes |
| Auth.TokensDistinct | crates/core/src/auth.rs:11-15 | different random draws give different tokens |
| Auth.StoredToken | crates/core/src/auth.rs:80-92 | a token is found exactly when a row with id 1 exists |
| Auth.Setup | crates/core/src/auth.rs:34-56 | with a credential already present: AuthAlreadyConfigured, nothing written; a hashing error is reported with nothing written; otherwise row 1 holds the hash and the fresh token, which is returned |
| Auth.Login | crates/core/src/auth.rs:58-78 | no credential: Unauthorized; unparsable hash: BadRequest; wrong password: Unauthorized with the token unchanged; otherwise the fresh token replaces the stored one and is returned |
| Auth.VerifyToken | crates/core/src/auth.rs:80-92 | true exactly when a credential exists and its token equals the argument; never an error |
| Auth.IsSetup | crates/core/src/auth.rs:94-98 | true exactly when the credential table has a row |
| Auth.SetupTokenVerifies | crates/core/src/auth.rs:47-55 | after setup exactly the returned token verifies |
| Auth.LoginRotatesToken | crates/core/src/auth.rs:71-77 | after a login exactly the new token verifies; the old one stops working |
| Auth.NothingVerifiesBeforeSetup | crates/core/src/auth.rs:80-92 | with no credential no token verifies |
| Middleware.BearerToken | crates/server/src/auth.rs:16-23 | a token exactly when the header is present and starts with "Bearer " (case-sensitive); the header is "Bearer " followed by the token, which may be empty |
| Middleware.BearerRoundTrip | crates/server/src/auth.rs:22 | the header "Bearer <t>" yields exactly `t` |
| Middleware.Decide | crates/server/src/auth.rs:11-30 | forwarded exactly when a bearer token is present and verification answers Ok(true); Ok(false) and errors are 401 |
| Middleware.ForwardIffStoredToken | crates/server/src/auth.rs:11-30 | end to end: a request passes exactly when its header is "Bearer " followed by the stored token |
| Exercises.Lookup | crates/core/src/exercises.rs:31-50 | found exactly when a row has the id (archived or not); otherwise NotFound |
| Exercises.LookupRow | crates/core/src/exercises.rs:31-50 | with unique ids the row found is the row with that id |
| Exercises.List | crates/core/src/exercises.rs:5-29 | exactly the non-archived exercises, each once (a permutation of the filtered table), ordered by name |
| Exercises.Get | crates/core/src/exercises.rs:31-50 | the row with the id, or NotFound |
| Exercises.Create | crates/core/src/exercises.rs:52-66 | a taken name is AlreadyExists with nothing written; otherwise a fresh, not archived row created now is appended and returned as `get` reads it |
| Exercises.NewRowKeepsInvariant | crates/core/src/exercises.rs:52-66 | appending a row with a fresh id and an unused name keeps ids and names unique |
| Exercises.ApplyUpdate | crates/core/src/exercises.rs:82-93 | each supplied field is replaced and every other column is kept |
| Exercises.Update | crates/core/src/exercises.rs:68-97 | a missing id is NotFound with nothing written; a new name another row carries is a database error with nothing written; otherwise only the row with the id is updated and returned |
| Exercises.UpdateKeepsUnique | crates/core/src/exercises.rs:82-93 | an update that does not clash on the name keeps ids and names unique |
| Exercises.Archive | crates/core/src/exercises.rs:99-106 | NotFound when no row has the id; otherwise only that row's flag is set |
| Exercises.ArchivedStillRetrievable | crates/core/src/exercises.rs:31-50 | an archived exercise is still returned by `get`, flagged and otherwise unchanged |
| Templates.JoinEntry | crates/core/src/templates.rs:148-177 | an entry joins with its exercise's current name exactly when that exercise exists |
| Templates.JoinEntriesSource | crates/core/src/templates.rs:148-177 | every joined entry comes from a row of that template whose exercise exists, and every such row yields one |
| Templates.EntriesOfSpec | crates/core/src/templates.rs:148-177 | a template's entries are ordered by position and are exactly its rows whose exercise exists, joined with the name |
| Tables.FindRow | crates/core/src/templates.rs:44-47 | the row whose key is the id, found exactly when one carries it; used for the template lookup of `get` here and the session lookup of sessions.rs:68-72 |
| Tables.FindRowUnique | crates/core/src/templates.rs:44-47 | with unique keys the row found for a key is the row carrying it |
| Templates.LookupSpec | crates/core/src/templates.rs:42-71 | `get` finds a template exactly when a row has the id and returns it with its entries; otherwise NotFound |
| Templates.ListedRowsSpec | crates/core/src/templates.rs:7-10 | the listed rows are exactly the non-archived templates, each once, ordered by name |
| Templates.List | crates/core/src/templates.rs:5-40 | one template per listed row, in order, each with its entries by position |
| Templates.GetTemplateExercises | crates/core/src/templates.rs:148-177 | the loop's result equals `EntriesOf`: the template's joinable entries ordered by position |
| Templates.Get | crates/core/src/templates.rs:42-71 | the template with the id, with its entries, or NotFound |
| Templates.NewEntries | crates/core/src/templates.rs:87-96 | one entry row per input, carrying its exercise, position and targets, with consecutive fresh ids |
| Templates.InsertEntries | crates/core/src/templates.rs:87-96 | the insert loop appends exactly those entry rows |
| Templates.Create | crates/core/src/templates.rs:73-99 | a taken name is AlreadyExists with nothing written; otherwise the template row and one entry per input are stored and the template is returned as `get` reads it |
| Templates.InsertTemplate | crates/core/src/templates.rs:75-96 | after the inserts the new template is found with exactly the inserted entries |
| Templates.InsertTemplateRow | crates/core/src/templates.rs:75-85 | a fresh id, not archived, created and updated now |
| Templates.CreatedTemplateFound | crates/core/src/templates.rs:73-99 | a template just inserted is found with exactly the entries inserted with it |
| Templates.OnlyNewEntries | crates/core/src/templates.rs:148-177 | a fresh template's entries are exactly the rows added for it |
| Templates.ApplyUpdate | crates/core/src/templates.rs:113-133 | name and notes are replaced when supplied, and `updated_at` is bumped when anything was written |
| Templates.Update | crates/core/src/templates.rs:101-137 | a missing id is NotFound before any write; a new name another template carries is a database error with nothing written; otherwise the supplied fields are written and a supplied list replaces the entries |
| Templates.UpdatedTemplateFound | crates/core/src/templates.rs:101-137 | after the update `get` returns the row with the supplied fields and the current entries |
| Templates.WriteFields | crates/core/src/templates.rs:113-132 | the name and notes writes, each bumping `updated_at` |
| Templates.ReplaceEntries | crates/core/src/templates.rs:120-133 | every entry of the template is deleted, then the new ones are inserted; other templates' entries are kept |
| Templates.UpdateKeepsTemplates | crates/core/src/templates.rs:101-137 | an update that does not clash keeps template ids and names unique |
| Templates.UpdateReplacesEntries | crates/core/src/templates.rs:120-133 | after an update with an entry list, the template's entries are exactly the supplied ones |
| Templates.NewEntriesJoined | crates/core/src/templates.rs:87-96 | the stored entries, read back, carry each input's fields in input order |
| Templates.Archive | crates/core/src/templates.rs:139-146 | NotFound when no row has the id; otherwise only that row's flag is set |
| Templates.ArchiveKeepsTemplates | crates/core/src/templates.rs:139-146 | archiving keeps the template table's invariant |
| Templates.ArchivedTemplate | crates/core/src/templates.rs:42-58 | an archived template is no longer listed but `get` still returns it, flagged |
| Sessions.SetsOfSpec | crates/core/src/sessions.rs:464-482 | a session exercise's sets are exactly its own rows, ordered by set number |
| Sessions.NoSets | crates/core/src/sessions.rs:464-482 | an entry that no set refers to has no sets |
| Sessions.JoinEntry | crates/core/src/sessions.rs:447-460 | a row joins with its exercise's name exactly when that exercise exists |
| Sessions.JoinEntriesSource | crates/core/src/sessions.rs:447-460 | every joined entry comes from a row of that session whose exercise exists, and every such row yields one |
| Sessions.WithSets | crates/core/src/sessions.rs:462-492 | each row carries exactly its own sets |
| Sessions.EntriesOfSpec | crates/core/src/sessions.rs:446-495 | a session's exercises are ordered by position, each from a row of that session with an existing exercise and carrying exactly its sets; every such row is there |
| Sessions.GetSessionExercises | crates/core/src/sessions.rs:446-495 | the push loop's result equals `EntriesOf`: the session's joinable entries with their sets |
| Sessions.TemplateName | crates/core/src/sessions.rs:65-102 | the template's name when the session has a template id and that row exists (a LEFT JOIN), otherwise none |
| Sessions.FindSpec | crates/core/src/sessions.rs:65-102 | `get` finds a session exactly when a row has the id and returns that row with its template name and exercises; a missing id is NotFound |
| Sessions.Get | crates/core/src/sessions.rs:65-102 | the result is `FindSpec`'s: the session with its template name and entries, or NotFound for a missing id |
| Sessions.ListedRowsSpec | crates/core/src/sessions.rs:5-45 | listed sessions are newest first, each from the table and of the requested template when one is given; they are the LIMIT/OFFSET window of all such sessions (20 from 0 by default): exactly as many as the limit allows after the offset, every session left out sorting wholly before or after them (after them from offset 0), and all of them when the limit covers them |
| Sessions.List | crates/core/src/sessions.rs:5-45 | one summary per listed row, in order |
| Sessions.LatestSpec | crates/core/src/sessions.rs:47-63 | the latest-row query finds a row exactly when one matches, and no matching row started later |
| Sessions.GetLatest | crates/core/src/sessions.rs:47-63 | the row the query found, read back with `get` |
| Sessions.GetActive | crates/core/src/sessions.rs:47-63 | the newest active or paused session, or none |
| Sessions.TemplatePrevious | crates/core/src/sessions.rs:424-442 | the newest completed session of the template, or none |
| Sessions.ActiveIsLatestOpen | crates/core/src/sessions.rs:47-63 | the active session is open and no open session started after it; it is missing only when no session is open |
| Sessions.NewRow | crates/core/src/sessions.rs:107-124 | the status is "active" unless one is supplied; the start time is now unless supplied; the end time is empty; the paused duration is 0 |
| Sessions.SeedRows | crates/core/src/sessions.rs:129-149 | one row per template entry, copying exercise, position and notes, with consecutive ids |
| Sessions.SeedEntries | crates/core/src/sessions.rs:129-149 | the insert loop appends exactly the seeded rows |
| Sessions.InsertRow | crates/core/src/sessions.rs:107-124 | both insert forms store the same new row under a fresh id |
| Sessions.Create | crates/core/src/sessions.rs:104-153 | the session row is stored, then with a template one entry per template exercise in position order; an existing open session does not stop it; the new session is returned as `get` reads it |
| Sessions.CreatedSessionEntries | crates/core/src/sessions.rs:129-153 | a new session's exercises are exactly its seeded rows whose exercise exists, in position order, each with no sets |
| Sessions.SeededFromTemplate | crates/core/src/sessions.rs:129-149 | the seeded exercises copy each template entry's exercise, position and notes, and no targets |
| Sessions.ApplyUpdate | crates/core/src/sessions.rs:163-195 | a supplied status is written and a terminal one stamps `ended_at` now; notes, paused duration and start time change only when supplied; a supplied end time wins |
| Sessions.Update | crates/core/src/sessions.rs:155-199 | a status outside the four is BadRequest with nothing written; otherwise the writes go to the row with the id and the session is read back (NotFound when missing) |
| Sessions.AnyTransitionAllowed | crates/core/src/sessions.rs:158-173 | any valid status may replace any other, including leaving completed or abandoned |
| Sessions.Delete | crates/core/src/sessions.rs:201-208 | NotFound when no row has the id; otherwise the row is removed |
| Sessions.DeleteRemovesOnlyIt | crates/core/src/sessions.rs:201-208 | after deleting, the session is gone and every other session is kept in order |
| SessionEntries.FreshId | crates/core/src/sessions.rs:228-232 | the new rowid is at or above the counter and above the row it refers to |
| SessionEntries.NextPosition | crates/core/src/sessions.rs:215-226 | one more than the session's highest position, 1 for a session without exercises |
| SessionEntries.AddExercise | crates/core/src/sessions.rs:212-249 | the supplied position is used verbatim, otherwise the next position; the supplied notes are stored; a missing exercise is a database error after the insert; the result has no notes and no sets |
| SessionEntries.ApplyUpdate | crates/core/src/sessions.rs:251-268 | position and notes are written when supplied; the other columns are kept |
| SessionEntries.UpdateExercise | crates/core/src/sessions.rs:251-268 | only the row with the id changes; it succeeds even when no row matched |
| SessionEntries.RemoveExercise | crates/core/src/sessions.rs:270-277 | NotFound when no row has the id; otherwise the row is removed |
| SessionEntries.NextSetNumber | crates/core/src/sessions.rs:284-288 | one more than the highest set number of the entry, 1 for its first set |
| SessionEntries.AddSet | crates/core/src/sessions.rs:281-317 | the set is stored with the next set number, type "working" unless given, completed now, and returned as stored |
| SessionEntries.AddedSetIsLast | crates/core/src/sessions.rs:284-293 | a new set's number exceeds every existing one of its entry, gaps included, and it is found by its id |
| SessionEntries.ApplySetUpdate | crates/core/src/sessions.rs:319-340 | weight, reps and type are written when supplied; the other columns are kept |
| SessionEntries.UpdateSet | crates/core/src/sessions.rs:319-349 | the supplied fields are written to the set with the id, which is read back; NotFound when it does not exist |
| SessionEntries.DeleteSet | crates/core/src/sessions.rs:351-358 | NotFound when no set has the id; otherwise the set is removed |
| SessionEntries.History | crates/core/src/sessions.rs:362-422 | a missing exercise is NotFound; otherwise there is one entry per listed session, holding the exercise's sets there |
| SessionEntries.HistorySpec | crates/core/src/sessions.rs:362-422 | only completed sessions that logged the exercise are listed, newest first, at most a non-negative limit; each shown set was logged for that exercise in that session, in set-number order |
| SessionEntries.HistoryComplete | crates/core/src/sessions.rs:362-422 | no qualifying session is missed: as many as the limit allows are listed, every unlisted completed session that logged the exercise started no later than the listed ones, and with no limit or a limit that covers them every one is listed |
| Timer.Elapsed | frontend/src/hooks/useTimer.ts:11-15 | never negative; equals whole seconds since the start less the paused seconds whenever that is positive |
| Timer.ElapsedMonotone | frontend/src/hooks/useTimer.ts:11-15 | the shown value never decreases as the clock advances |
| Timer.ElapsedTicks | frontend/src/hooks/useTimer.ts:11-21 | once counting has started, each further 1000 ms adds exactly one second |
| Timer.ElapsedNeverNegativeForFutureStart | frontend/src/hooks/useTimer.ts:13-14 | a future start or an oversized pause shows 0 |
| Timer.Split | frontend/src/hooks/useTimer.ts:30-32 | hours·3600 + minutes·60 + seconds is the elapsed count, with minutes and seconds below 60 |
| Timer.SplitUnique | frontend/src/hooks/useTimer.ts:30-32 | that split is the only one with minutes and seconds below 60 |
| Timer.FormatFields | frontend/src/hooks/useTimer.ts:34-36 | "H:MM:SS" with at least one hour, else "M:SS"; the leading unit is unpadded and the rest are two digits |
| Timer.FormatRoundTrip | frontend/src/hooks/useTimer.ts:30-36 | reading the text back gives the elapsed seconds |
| Timer.TimerHook.constructor | frontend/src/hooks/useTimer.ts:5-6 | elapsed 0, no interval started |
| Timer.TimerHook.Tick | frontend/src/hooks/useTimer.ts:11-15 | the state becomes the elapsed value of the inputs the interval closed over |
| Timer.TimerHook.Run | frontend/src/hooks/useTimer.ts:8-21 | the value is computed at once; an interval is started and recorded only when not paused, so at most one is live |
| Timer.TimerHook.Cleanup | frontend/src/hooks/useTimer.ts:23-27 | every started interval is cleared; the value is kept |
| Timer.TimerHook.Rerun | frontend/src/hooks/useTimer.ts:8-28 | changed inputs: cleanup, then a fresh run; only the new interval is live |
| SessionDetail.Duration | frontend/src/pages/SessionDetailPage.tsx:13-18 | none exactly when the end time is missing or empty |
| SessionDetail.DurationIsFinalTimerValue | frontend/src/pages/SessionDetailPage.tsx:13-18 | a non-negative duration is the value the workout timer shows at the end time |
| SessionDetail.DurationNotClamped | frontend/src/pages/SessionDetailPage.tsx:14-17 | unlike the timer, the duration goes negative when the pause exceeds the wall time |
| SessionDetail.DurationParts | frontend/src/pages/SessionDetailPage.tsx:20-24 | for a non-negative count, minutes are in 0..59 and the parts cover the count to within a minute |
| SessionDetail.DurationPartsAreTimerParts | frontend/src/pages/SessionDetailPage.tsx:20-24 | the hours and minutes are the timer's; only the seconds are dropped |
| SessionDetail.FormatDurationDropsSeconds | frontend/src/pages/SessionDetailPage.tsx:20-24 | the seconds below a minute do not change the text |
| SessionDetail.FormatDurationNegative | frontend/src/pages/SessionDetailPage.tsx:20-24 | a negative count shows negative units: -90 s reads "-2m" |
| Display.SessionTitle | frontend/src/pages/SessionDetailPage.tsx:53 | the template name when non-empty, else the name when non-empty, else "Freeform"; never empty |
| Display.WeightText | frontend/src/pages/SessionDetailPage.tsx:113 | "BW" exactly for a null weight; otherwise the number's text followed by "kg" |
| Display.Toggle | frontend/src/pages/HomePage.tsx:77 | the clicked card opens unless it was the open one, which closes; at most one is open |
| Display.RangeRoundTrip | frontend/src/pages/HomePage.tsx:108-112 | the range text reads back as the minimum and the maximum exactly when the maximum is shown |
| Dates.ReplaceFirst | frontend/src/utils/date.ts:4 | only the first occurrence of the character is replaced |
| Dates.Normalize | frontend/src/utils/date.ts:6 | a text the pattern rejects is passed on unchanged |
| Dates.NormalizeShape | frontend/src/utils/date.ts:3-4 | a SQLite timestamp becomes 20 characters, with 'T' at index 10, 'Z' last and the rest unchanged |
| Dates.NormalizeIdempotent | frontend/src/utils/date.ts:3-6 | normalising twice is normalising once |
| TemplateEditor.AddExercise | frontend/src/pages/TemplatePage.tsx:46-55 | the list is extended at the end with position length + 1 and targets 3 × 8-12 |
| TemplateEditor.AddKeepsDense | frontend/src/pages/TemplatePage.tsx:50 | positions 1..N before an add are 1..N after it |
| TemplateEditor.DropIndex | frontend/src/pages/TemplatePage.tsx:58 | the entry at the index is dropped and the rest keep their order |
| TemplateEditor.Renumber | frontend/src/pages/TemplatePage.tsx:59 | positions become 1..N in list order, nothing else changes |
| TemplateEditor.RemoveExercise | frontend/src/pages/TemplatePage.tsx:57-60 | the entry is dropped and the rest are renumbered 1..N in their original order |
| TemplateEditor.RemoveUndoesAdd | frontend/src/pages/TemplatePage.tsx:46-60 | removing the entry just added gives a dense list back |
| TemplateEditor.EditTarget | frontend/src/pages/TemplatePage.tsx:144-147 | only the edited field of the edited index changes |
| TemplateEditor.EditKeepsDense | frontend/src/pages/TemplatePage.tsx:144-147 | editing a target keeps the positions dense |
| TemplateEditor.OrDefault | frontend/src/pages/TemplatePage.tsx:37-39 | a null or zero target takes the default |
| TemplateEditor.Loaded | frontend/src/pages/TemplatePage.tsx:34-41 | a loaded entry keeps exercise, name and position, and every target is non-zero |
| TemplateEditor.Load | frontend/src/pages/TemplatePage.tsx:34-41 | one loaded entry per template exercise, in order |
| TemplateEditor.Offered | frontend/src/pages/TemplatePage.tsx:196-197 | the dropdown offers exactly the loaded exercises not yet in the list |
| TemplateEditor.AddOfferedKeepsDistinct | frontend/src/pages/TemplatePage.tsx:196-197 | adding an offered exercise keeps the list free of repeats |
| TemplateEditor.SaveRequest | frontend/src/pages/TemplatePage.tsx:68-95 | nothing is sent unless the trimmed name and the list are non-empty; then the trimmed name and each entry's id, position and targets, in order |
| TemplateEditor.SentNameIsClean | frontend/src/pages/TemplatePage.tsx:69-81 | a sent name is non-blank and already trimmed; a dense list is sent with positions 1..N |
| TemplateEditor.EditorPage.constructor | frontend/src/pages/TemplatePage.tsx:21-24 | empty name and list, not saving |
| TemplateEditor.EditorPage.Receive | frontend/src/pages/TemplatePage.tsx:34-41 | the template's name and its loaded list replace the state |
| TemplateEditor.EditorPage.Add | frontend/src/pages/TemplatePage.tsx:46-55 | the list becomes the extended list and stays dense |
| TemplateEditor.EditorPage.Remove | frontend/src/pages/TemplatePage.tsx:57-60 | the list becomes the renumbered list, which is dense |
| TemplateEditor.EditorPage.Edit | frontend/src/pages/TemplatePage.tsx:144-147 | the list becomes the edited list |
| TemplateEditor.EditorPage.Save | frontend/src/pages/TemplatePage.tsx:68-95 | sends the save request; navigates to "/templates" only on success; `saving` is reset whenever a request was sent |
| ActiveWorkout.PreviousOf | frontend/src/pages/ActiveWorkoutPage.tsx:28-35 | the map's keys are exactly the previous session's exercise ids |
| ActiveWorkout.PreviousOfLast | frontend/src/pages/ActiveWorkoutPage.tsx:28-35 | each exercise maps to the sets of its last entry: later entries overwrite earlier ones |
| ActiveWorkout.BuildPreviousData | frontend/src/pages/ActiveWorkoutPage.tsx:28-35 | the loop builds exactly that map |
| ActiveWorkout.PreviousSets | frontend/src/pages/ActiveWorkoutPage.tsx:145 | looked up by exercise id; empty when absent |
| ActiveWorkout.PreviousSetsByExercise | frontend/src/pages/ActiveWorkoutPage.tsx:145 | a card sees the previous sets of the same exercise wherever it stood before |
| ActiveWorkout.TargetFor | frontend/src/pages/ActiveWorkoutPage.tsx:135 | the first template exercise with the same exercise id; none exactly when there is none |
| ActiveWorkout.PauseTarget | frontend/src/pages/ActiveWorkoutPage.tsx:78-80 | "paused" exactly when the status is not "paused"; always a valid open status |
| ActiveWorkout.EndAction | frontend/src/pages/ActiveWorkoutPage.tsx:84-89 | a request exactly when confirmed |
| ActiveWorkout.PauseKeepsPausedDuration | frontend/src/pages/ActiveWorkoutPage.tsx:78-80 | as the server applies it, pausing or resuming changes only the status and flips the timer's paused flag; paused time is never accumulated |
| ActiveWorkout.EndStampsEndTime | frontend/src/pages/ActiveWorkoutPage.tsx:84-89 | ending completes the session and stamps the end time now |
| ActiveWorkout.WorkoutPage.constructor | frontend/src/pages/ActiveWorkoutPage.tsx:11-16 | no session, loading, empty map and targets |
| ActiveWorkout.WorkoutPage.Fetched | frontend/src/pages/ActiveWorkoutPage.tsx:18-47 | without an open session the page navigates to "/"; the map is replaced only for a template session with a previous session, and the targets only for a template session; loading ends |
| ExerciseCard.LastSet | frontend/src/components/ExerciseCard.tsx:27 | the final set, none exactly for an empty list |
| ExerciseCard.DefaultWeight | frontend/src/components/ExerciseCard.tsx:28 | a non-null last weight wins; with no set logged or a bodyweight last set, the previous session's first weight, or none without a previous session; any weight comes from one of those two |
| ExerciseCard.BodyweightLastSetFallsThrough | frontend/src/components/ExerciseCard.tsx:28 | a bodyweight last set falls through to the previous session's first weight |
| ExerciseCard.DefaultReps | frontend/src/components/ExerciseCard.tsx:29 | the last set's reps, else the previous first set's, else 8 |
| ExerciseCard.SetsSummary | frontend/src/components/ExerciseCard.tsx:32-37 | none exactly when there are no sets |
| ExerciseCard.SummaryListsEverySet | frontend/src/components/ExerciseCard.tsx:32-37 | the summary splits back into one "<w>kg×<r>" or "BW×<r>" text per set, in order |
| ExerciseCard.TargetSuffix | frontend/src/components/ExerciseCard.tsx:80-83 | empty exactly when the maximum is not shown |
| ExerciseCard.TargetLine | frontend/src/components/ExerciseCard.tsx:80-83 | the line starts with "Target: " |
| ExerciseCard.TargetLineShowsMax | frontend/src/components/ExerciseCard.tsx:80-83 | "-max" ends the line exactly when the maximum is truthy and differs from the minimum |
| ExerciseCard.RepeatLast | frontend/src/components/ExerciseCard.tsx:121-122 | exists exactly with a last set and repeats its weight and reps |
| ExerciseCard.RepeatShownIffSetLogged | frontend/src/components/ExerciseCard.tsx:121-122 | the repeat button shows exactly when a set is logged |
| PreviousData.Summary | frontend/src/components/PreviousData.tsx:8-21 | nothing for no sets; otherwise "Last: " with the first set's weight, then " × ", then a text that splits at ", " into every set's reps in order |
| PreviousData.RepsRoundTrip | frontend/src/components/PreviousData.tsx:12 | the reps part splits back into every set's reps in order, each parsing to its count |
| SetLogger.Logged | frontend/src/components/SetLogger.tsx:15-36 | null exactly when there is no default and the weight is 0; otherwise the current weight |
| SetLogger.ZeroWithDefaultIsNotBodyweight | frontend/src/components/SetLogger.tsx:15-36 | with a default weight, 0 is logged as 0 |
| SetLogger.Logger.constructor | frontend/src/components/SetLogger.tsx:13-14 | the weight starts at the default, or 0 when null; the reps start at the default |
| SetLogger.Logger.Rerender | frontend/src/components/SetLogger.tsx:13-15 | new props do not reset the state |
| SetLogger.Logger.WeightDown | frontend/src/components/SetLogger.tsx:19-24 | the weight steps down by 2.5, never below 0 |
| SetLogger.Logger.WeightUp | frontend/src/components/SetLogger.tsx:19-24 | the weight steps up by 2.5 |
| SetLogger.Logger.RepsDown | frontend/src/components/SetLogger.tsx:26-32 | the reps step down by 1, never below 1 |
| SetLogger.Logger.RepsUp | frontend/src/components/SetLogger.tsx:26-32 | the reps step up by 1 |
| SetLogger.Logger.Log | frontend/src/components/SetLogger.tsx:36 | null weight exactly in the bodyweight case; the current reps |
| Increment.Decrement | frontend/src/components/IncrementButton.tsx:19 | never below the floor nor below value − step, and one of the two |
| Increment.StaysAboveFloor | frontend/src/components/IncrementButton.tsx:19-50 | a value at or above the floor stays there whichever button is pressed |
| Increment.IncrementUndoesDecrement | frontend/src/components/IncrementButton.tsx:19-50 | when value − step ≥ floor, the plus button undoes the minus button |
| Increment.DecrementUndoesIncrement | frontend/src/components/IncrementButton.tsx:19-50 | from at or above the floor, minus undoes plus |
| Js.TemplateText | frontend/src/pages/HomePage.tsx:110-111 | `${v}`: "null" exactly for null; a number's text parses back to it |
| Js.JsxText | frontend/src/components/ExerciseCard.tsx:81 | a JSX child: empty exactly for null; a number's text parses back to it |
| Js.Rem | frontend/src/pages/SessionDetailPage.tsx:22 | JavaScript's `%`: the remainder completes the truncated quotient and has the sign of the dividend |
| Home.RepLabel | frontend/src/pages/HomePage.tsx:108-112 | empty exactly when the minimum is null or 0 |
| Home.RepLabelReadsBack | frontend/src/pages/HomePage.tsx:108-112 | a label is "<sets>s \| " then a range that reads back as the minimum and the shown maximum, then "r" |
| Home.Redirect | frontend/src/pages/HomePage.tsx:17-21 | navigates to "/workout" exactly when a session is open |
| Home.StartedSessionIsOpen | frontend/src/pages/HomePage.tsx:23-27 | the session started by the home page is active, open, started now and has the chosen template |
| Home.HomePage.constructor | frontend/src/pages/HomePage.tsx:13-15 | mode "choose", nothing expanded, not starting |
| Home.HomePage.PressTemplate | frontend/src/pages/HomePage.tsx:197-198 | switches to the template list only when the button is enabled (templates exist) |
| Home.HomePage.Back | frontend/src/pages/HomePage.tsx:52 | back to "choose" |
| Home.HomePage.Click | frontend/src/pages/HomePage.tsx:77 | the single-expanded toggle |
| Home.HomePage.StartWorkout | frontend/src/pages/HomePage.tsx:23-33 | sends the create request; navigates to "/workout" only on success; `starting` is reset in every case |
| TemplatesPage.Label | frontend/src/pages/TemplatesPage.tsx:68-72 | empty exactly when the minimum is null or 0 |
| TemplatesPage.LabelReadsBack | frontend/src/pages/TemplatesPage.tsx:68-72 | "<sets>×" then a range that reads back as the minimum and the shown maximum; empty exactly when the home label is |
| TemplatesPage.ListPage.constructor | frontend/src/pages/TemplatesPage.tsx:8 | nothing expanded |
| TemplatesPage.ListPage.Click | frontend/src/pages/TemplatesPage.tsx:37 | the single-expanded toggle |
| History.RequestPath | frontend/src/pages/HistoryPage.tsx:6 | the request path is "/sessions?limit=50" |
| History.RequestsFifty | frontend/src/pages/HistoryPage.tsx:6 | the server reads the query back as limit 50 and returns at most 50 sessions, newest first |
| History.StatusColour | frontend/src/pages/HistoryPage.tsx:21-25 | green exactly for "completed", red exactly for "abandoned", amber otherwise |
| History.OpenIsAmber | frontend/src/pages/HistoryPage.tsx:21-25 | active and paused sessions are amber |
| History.DateText | frontend/src/pages/HistoryPage.tsx:16 | 'Z' is appended to the start time, whatever its form |
| History.DateTextKeepsTheSpace | frontend/src/pages/HistoryPage.tsx:16 | for a SQLite timestamp the text keeps the space where the date normaliser puts 'T' |
| History.DateTextDoublesAZone | frontend/src/pages/HistoryPage.tsx:16 | a start time already ending in 'Z' gets a second one, unlike with the date normaliser |
| ExercisesPage.GroupKey | frontend/src/pages/ExercisesPage.tsx:39 | the muscle group when non-empty, else "Other" |
| ExercisesPage.KeysOf | frontend/src/pages/ExercisesPage.tsx:36-43 | the keys are exactly those of the exercises, each once |
| ExercisesPage.Group | frontend/src/pages/ExercisesPage.tsx:36-43 | the loop throws exactly when some exercise's key is a property name `{}` inherits from `Object.prototype` (its `push` is a TypeError); otherwise the dictionary has exactly the keys of the exercises, and each key holds its members in list order |
| ExercisesPage.InheritedGroupThrows | frontend/src/pages/ExercisesPage.tsx:40-41 | an exercise in the muscle group "constructor" stops the page from grouping; one in "Chest" does not |
| ExercisesPage.MemberIffKey | frontend/src/pages/ExercisesPage.tsx:36-43 | an exercise is a member of a group exactly when it has that key |
| ExercisesPage.ExactlyOneGroup | frontend/src/pages/ExercisesPage.tsx:36-43 | every exercise lands in exactly one group; a key is listed exactly when its group is non-empty; a group keeps list order |
| ExercisesPage.SectionsOrdered | frontend/src/pages/ExercisesPage.tsx:84-85 | the sections are the keys sorted, each once |
| ExercisesPage.Optional | frontend/src/pages/ExercisesPage.tsx:19-20 | empty text is sent as undefined |
| ExercisesPage.CreateRequest | frontend/src/pages/ExercisesPage.tsx:14-21 | nothing is sent exactly when the trimmed name is empty; otherwise the trimmed name with the optional fields |
| ExercisesPage.CreatedLandsInGroup | frontend/src/pages/ExercisesPage.tsx:14-43 | a created exercise lands in the group of its muscle group, and a list holding it alone groups exactly when that group is not an inherited property name |
| ExercisesPage.Page.constructor | frontend/src/pages/ExercisesPage.tsx:8-12 | form hidden, nothing expanded, empty fields |
| ExercisesPage.Page.ToggleForm | frontend/src/pages/ExercisesPage.tsx:51 | the form's visibility flips |
| ExercisesPage.Page.Click | frontend/src/pages/ExercisesPage.tsx:100 | the single-expanded toggle |
| ExercisesPage.Page.Submit | frontend/src/pages/ExercisesPage.tsx:14-27 | sends the create request; only after it succeeds are the fields cleared and the form hidden; a blank name or a failed request changes nothing |
| ExercisesPage.DeleteRequest | frontend/src/pages/ExercisesPage.tsx:29-33 | the archive request is sent exactly when confirmed |
| Picker.Filtered | frontend/src/components/ExercisePicker.tsx:18-21 | an exercise is shown exactly when it matches, in loaded order |
| Picker.EmptyFilterShowsAll | frontend/src/components/ExercisePicker.tsx:19 | an empty filter shows every exercise |
| Picker.FilterIgnoresCase | frontend/src/components/ExercisePicker.tsx:18-21 | lowering the filter changes nothing |
| Picker.Message | frontend/src/components/ExercisePicker.tsx:78-80 | "No exercises found" exactly when nothing matches |
| Picker.PickerState.constructor | frontend/src/components/ExercisePicker.tsx:11-12 | no exercises, empty filter |
| Picker.PickerState.Loaded | frontend/src/components/ExercisePicker.tsx:14-16 | the loaded list replaces the state |
| Picker.PickerState.Type | frontend/src/components/ExercisePicker.tsx:12 | the typed text replaces the filter |
| Layout.PageTitle | frontend/src/components/Layout.tsx:12-17 | never empty; an exact table match wins; otherwise "WORKOUT", "SESSION" or "LIGHTWEIGHT", and "LIGHTWEIGHT" for every path outside the table and both prefixes |
| Layout.EditorIsWorkout | frontend/src/components/Layout.tsx:14 | a "/templates/" path gives "WORKOUT" |
| Layout.SessionIsSession | frontend/src/components/Layout.tsx:15 | a "/sessions/" path gives "SESSION" |
| Layout.OneActiveItem | frontend/src/components/Layout.tsx:76 | at most one nav item is active, and the page title is its caption |
| Layout.SubpagesActivateNothing | frontend/src/components/Layout.tsx:190 | an editor or session sub-page activates no nav item |
| Layout.Menu.constructor | frontend/src/components/Layout.tsx:21 | the menu starts closed |
| Layout.Menu.Toggle | frontend/src/components/Layout.tsx:101 | the hamburger flips the menu |
| Layout.Menu.Choose | frontend/src/components/Layout.tsx:195 | choosing a link closes the menu and navigates to its path |
| Client.QueryPairs | frontend/src/api/client.ts:100-104 | at most three pairs; none exactly when no parameter is truthy |
| Client.ListSessionsPath | frontend/src/api/client.ts:100-107 | "/sessions" exactly when no parameter is truthy; otherwise "?" and the encoded query |
| Client.QueryRoundTrip | frontend/src/api/client.ts:100-106 | parsing the query gives back each truthy parameter and drops 0 and null |
| Client.Headers | frontend/src/api/client.ts:21-28 | Content-Type defaults to JSON and the caller can override it; "Bearer <token>" is set only with a stored token |
| Client.SentTokenIsChecked | frontend/src/api/client.ts:26-28 | the token the client sends is the one the middleware checks; the request passes exactly when it is the stored token |
| Client.OutcomeOf | frontend/src/api/client.ts:35-51 | 401 throws "Unauthorized"; 204 returns no body; another non-OK status throws; an OK status parses JSON |
| Client.ErrorNamesStatus | frontend/src/api/client.ts:47-49 | the error reads "HTTP " followed by the status, which parses back |
| Client.Browser.constructor | frontend/src/api/client.ts:3-5 | the stored token and the location are the ones given |
| Client.Browser.SetToken | frontend/src/api/client.ts:7-9 | stores the token |
| Client.Browser.ClearToken | frontend/src/api/client.ts:11-13 | removes the token |
| Client.Browser.Respond | frontend/src/api/client.ts:33-51 | the dispatch's outcome; a 401 clears the token and moves to "/login"; other statuses change nothing |
| Client.EmptyTokenIsLoggedInButUnsent | frontend/src/api/client.ts:15-28 | an empty stored token counts as logged in but is never sent |

## Left out

- Foreign keys, cascading deletes and the schema: the schema is not shown. No cascade is claimed. The `UNIQUE` name columns of exercises and templates are assumed, because the AlreadyExists mapping relies on them. The column defaults (`datetime('now')`, `paused_duration` 0) are taken from the code paths.
- SQLite rowid allocation: it is abstracted by one counter `nextId`, kept above every id and every referenced id. An insert that refers to a future row moves the counter past that row (`SessionEntries.FreshId`).
- Integer widths: ids, positions, reps and durations are unbounded integers. The source's `i64`/`i32` overflow is not modelled.
- `weight_kg`: an optional real, with no floating-point rounding. Its JavaScript rendering is a parameter `num`.
- Password hashing, token randomness and the clock: the argon2 hash and verifier outcomes, the 32 random bytes and `now` are parameters.
- Concurrency: the r2d2/mutex pool is not modelled. Every operation is one atomic step.
- Exercises.Update: modelled as one write after the name-clash check. The source issues up to four UPDATEs, but once the name write succeeds the later writes cannot fail, so the end state is the same.
- Migrations: the file system (`read_dir`, `read_to_string`, `is_dir`) and script execution are parameters. `init_db` and the pool set-up are not modelled.
- The HTTP routes, `app.rs`, `main.rs` and `static_files.rs` are not part of this model. They are framework glue whose only logic is mapping errors to statuses.
- The CLI crate is not part of this model. It is a network client.
- Dates:
  - `Date` parsing, `getTime` and `toLocaleDateString` are parameters or not modelled;
  - `localeCompare` is ordinal (lexicographic) ordering;
  - `toLowerCase` is ASCII lowering.
- The order of `Object.entries`: not modelled. The sections are sorted afterwards.
- Query encoding and parsing:
  - `URLSearchParams` escaping: the values are decimal numbers, which need none;
  - `Client.ParseQuery` stands in for the server's query parsing.
- `Number()` of a non-numeric input: in the template editor this gives NaN, which is not modelled. Targets are integers.
- Failed fetches, JSON parse errors and the `catch` branches: they only log to the console. The request outcome is a parameter.
- `window.confirm`, `localStorage` and `window.location`: confirmation is a parameter, and the other two are the fields of `Client.Browser`.
- React rendering, styles, routing, `useApi`, and the `Timer`, `NoteInput`, `LoginPage` and `App` components: not modelled. They are rendering and wiring with no computation beyond what is modelled here.
- Timer.TimerHook.Tick: the browser scheduling the interval every 1000 ms is not modelled. Each tick is one call with the current time.
- SessionDetail.Duration: its contract states only when a duration exists. Its value is related to the timer by `SessionDetail.DurationIsFinalTimerValue` and `SessionDetail.DurationNotClamped`, with the clock conversion `ms` as a parameter.
- ExerciseCard.SetsSummary: its contract states only when a summary exists. `ExerciseCard.SummaryListsEverySet` states its contents, for number renderings without commas.
- Behaviour the code does not enforce, and the model therefore does not either:
  - exercise and template names are joined live from their tables, not stored with the session rows;
  - `update` allows every status transition;
  - `create` does not refuse a second open session.
