/**
 * The records exchanged by the server and the web client: the Rust structs of
 * the core crate and the TypeScript interfaces that mirror them. Optional
 * columns and JSON `null` are `Option`; `weight_kg` is a `real` that the
 * model never computes with except in the increment control.
 */
module Models {
  import opened Wrappers

  // ---------------------------------------------------------------- exercises

  datatype Exercise = Exercise(
    id: int,
    name: string,
    muscleGroup: Option<string>,
    equipment: Option<string>,
    notes: Option<string>,
    archived: bool,
    createdAt: string)

  datatype CreateExercise = CreateExercise(
    name: string,
    muscleGroup: Option<string>,
    equipment: Option<string>,
    notes: Option<string>)

  datatype UpdateExercise = UpdateExercise(
    name: Option<string>,
    muscleGroup: Option<string>,
    equipment: Option<string>,
    notes: Option<string>)

  // ---------------------------------------------------------------- templates

  datatype TemplateExercise = TemplateExercise(
    id: int,
    exerciseId: int,
    exerciseName: string,
    position: int,
    targetSets: Option<int>,
    targetRepsMin: Option<int>,
    targetRepsMax: Option<int>,
    restSeconds: Option<int>,
    notes: Option<string>)

  datatype Template = Template(
    id: int,
    name: string,
    notes: Option<string>,
    archived: bool,
    createdAt: string,
    updatedAt: string,
    exercises: seq<TemplateExercise>)

  datatype CreateTemplateExercise = CreateTemplateExercise(
    exerciseId: int,
    position: int,
    targetSets: Option<int>,
    targetRepsMin: Option<int>,
    targetRepsMax: Option<int>,
    restSeconds: Option<int>,
    notes: Option<string>)

  datatype CreateTemplate = CreateTemplate(
    name: string,
    notes: Option<string>,
    exercises: seq<CreateTemplateExercise>)

  datatype UpdateTemplate = UpdateTemplate(
    name: Option<string>,
    notes: Option<string>,
    exercises: Option<seq<CreateTemplateExercise>>)

  // ---------------------------------------------------------------- sessions

  datatype WorkoutSet = WorkoutSet(
    id: int,
    sessionExerciseId: int,
    setNumber: int,
    weightKg: Option<real>,
    reps: int,
    setType: string,
    completedAt: string)

  /** `SessionExerciseWithSets` of the server, `SessionExercise` of the client. */
  datatype SessionExercise = SessionExercise(
    id: int,
    exerciseId: int,
    exerciseName: string,
    position: int,
    notes: Option<string>,
    sets: seq<WorkoutSet>)

  datatype Session = Session(
    id: int,
    templateId: Option<int>,
    templateName: Option<string>,
    name: Option<string>,
    startedAt: string,
    endedAt: Option<string>,
    pausedDuration: int,
    notes: Option<string>,
    status: string,
    exercises: seq<SessionExercise>)

  datatype SessionSummary = SessionSummary(
    id: int,
    templateId: Option<int>,
    templateName: Option<string>,
    name: Option<string>,
    startedAt: string,
    endedAt: Option<string>,
    status: string)

  datatype CreateSession = CreateSession(
    templateId: Option<int>,
    name: Option<string>,
    startedAt: Option<string>,
    endedAt: Option<string>,
    status: Option<string>,
    notes: Option<string>)

  datatype UpdateSession = UpdateSession(
    status: Option<string>,
    notes: Option<string>,
    pausedDuration: Option<int>,
    startedAt: Option<string>,
    endedAt: Option<string>)

  datatype AddSessionExercise = AddSessionExercise(
    exerciseId: int,
    position: Option<int>,
    notes: Option<string>)

  datatype UpdateSessionExercise = UpdateSessionExercise(
    position: Option<int>,
    notes: Option<string>)

  datatype CreateSet = CreateSet(
    weightKg: Option<real>,
    reps: int,
    setType: Option<string>)

  datatype UpdateSet = UpdateSet(
    weightKg: Option<real>,
    reps: Option<int>,
    setType: Option<string>)

  datatype SessionListParams = SessionListParams(
    limit: Option<int>,
    offset: Option<int>,
    templateId: Option<int>)

  datatype ExerciseHistoryEntry = ExerciseHistoryEntry(
    sessionId: int,
    sessionName: Option<string>,
    date: string,
    sets: seq<WorkoutSet>)

  datatype ExerciseHistory = ExerciseHistory(
    exerciseId: int,
    exerciseName: string,
    sessions: seq<ExerciseHistoryEntry>)

  datatype AuthResponse = AuthResponse(token: string)

  /** The session statuses the server accepts. */
  predicate ValidStatus(status: string) {
    status == "active" || status == "paused" || status == "completed" || status == "abandoned"
  }

  /** An open session: one that is neither completed nor abandoned. */
  predicate IsOpen(status: string) {
    status == "active" || status == "paused"
  }
}
