/**
 * The active workout page: the map of the previous session's sets by
 * exercise, the lookups each exercise card makes (previous sets by exercise
 * id, the first matching template target), the pause/resume toggle and the
 * end action, and the state `fetchSession` leaves behind. The requests'
 * answers are parameters.
 */
module ActiveWorkout {
  import opened Wrappers
  import opened Js
  import opened Models
  import Sessions
  import Db

  // ---------------------------------------------------------------- previous sets

  /**
   * The map `for (const ex of prev.exercises) map[ex.exercise_id] = ex.sets`
   * builds: keyed by exercise id, a later entry of the same exercise
   * overwriting an earlier one.
   */
  function PreviousOf(prev: seq<SessionExercise>): (m: map<int, seq<WorkoutSet>>)
    ensures forall k :: k in m <==> exists i :: 0 <= i < |prev| && prev[i].exerciseId == k
    decreases |prev|
  {
    if prev == [] then map[]
    else
      var last := prev[|prev| - 1];
      var m0 := PreviousOf(prev[..|prev| - 1]);
      assert forall i :: 0 <= i < |prev| - 1 ==> prev[..|prev| - 1][i] == prev[i];
      m0[last.exerciseId := last.sets]
  }

  /** Each exercise maps to the sets of its last entry in the previous session. */
  lemma {:induction false} PreviousOfLast(prev: seq<SessionExercise>, j: int)
    requires 0 <= j < |prev|
    requires forall l :: j < l < |prev| ==> prev[l].exerciseId != prev[j].exerciseId
    ensures PreviousOf(prev)[prev[j].exerciseId] == prev[j].sets
    decreases |prev|
  {
    if j < |prev| - 1 {
      var init := prev[..|prev| - 1];
      assert init[j] == prev[j];
      forall l | j < l < |init| ensures init[l].exerciseId != init[j].exerciseId {
        assert init[l] == prev[l];
      }
      PreviousOfLast(init, j);
    }
  }

  /** `fetchSession`'s loop, building the map in place. */
  method BuildPreviousData(prev: seq<SessionExercise>) returns (m: map<int, seq<WorkoutSet>>)
    ensures m == PreviousOf(prev)
  {
    m := map[];
    var i := 0;
    while i < |prev|
      invariant 0 <= i <= |prev|
      invariant m == PreviousOf(prev[..i])
    {
      assert prev[..i + 1][..i] == prev[..i];
      m := m[prev[i].exerciseId := prev[i].sets];
      i := i + 1;
    }
    assert prev[..|prev|] == prev;
  }

  /** `previousData[exercise.exercise_id] || []`: looked up by exercise id, empty when absent. */
  function PreviousSets(m: map<int, seq<WorkoutSet>>, exerciseId: int): (r: seq<WorkoutSet>)
    ensures exerciseId in m ==> r == m[exerciseId]
    ensures exerciseId !in m ==> r == []
  {
    if exerciseId in m then m[exerciseId] else []
  }

  /**
   * A card sees the previous sets of the same exercise, wherever it stood in
   * the previous session: positions play no part.
   */
  lemma PreviousSetsByExercise(prev: seq<SessionExercise>, j: int)
    requires 0 <= j < |prev|
    requires forall l :: 0 <= l < |prev| && l != j ==> prev[l].exerciseId != prev[j].exerciseId
    ensures PreviousSets(PreviousOf(prev), prev[j].exerciseId) == prev[j].sets
  {
    PreviousOfLast(prev, j);
  }

  // ---------------------------------------------------------------- template targets

  /** `templateExercises.find(t => t.exercise_id === exercise.exercise_id)`. */
  function TargetFor(tes: seq<TemplateExercise>, exerciseId: int): (r: Option<TemplateExercise>)
    ensures r.None? <==> forall i :: 0 <= i < |tes| ==> tes[i].exerciseId != exerciseId
    ensures r.Some? ==> exists i :: 0 <= i < |tes| && tes[i] == r.value && tes[i].exerciseId == exerciseId &&
                                    forall k :: 0 <= k < i ==> tes[k].exerciseId != exerciseId
    decreases |tes|
  {
    if tes == [] then None
    else if tes[0].exerciseId == exerciseId then Some(tes[0])
    else
      var r := TargetFor(tes[1..], exerciseId);
      assert forall i :: 1 <= i < |tes| ==> tes[1..][i - 1] == tes[i];
      if r.Some? then
        var i :| 0 <= i < |tes[1..]| && tes[1..][i] == r.value && tes[1..][i].exerciseId == exerciseId &&
                 forall k :: 0 <= k < i ==> tes[1..][k].exerciseId != exerciseId;
        assert tes[i + 1] == r.value;
        assert forall k :: 1 <= k < i + 1 ==> tes[k].exerciseId != exerciseId by {
          forall k | 1 <= k < i + 1 ensures tes[k].exerciseId != exerciseId {
            assert tes[1..][k - 1] == tes[k];
          }
        }
        r
      else r
  }

  // ---------------------------------------------------------------- status changes

  /** The pause button: "active" from "paused", "paused" from any other status. */
  function PauseTarget(status: string): (r: string)
    ensures ValidStatus(r) && IsOpen(r)
    ensures r == "paused" <==> status != "paused"
  {
    if status == "paused" then "active" else "paused"
  }

  /** The timer on the page runs paused exactly when the status is "paused". */
  predicate TimerPaused(status: string) {
    status == "paused"
  }

  /** The request body the pause button sends: only a status. */
  function PauseRequest(status: string): UpdateSession {
    UpdateSession(Some(PauseTarget(status)), None, None, None, None)
  }

  /** The end button: after confirmation it sends status "completed" and navigates home; otherwise nothing. */
  function EndAction(confirmed: bool): (r: Option<(UpdateSession, string)>)
    ensures r.Some? <==> confirmed
  {
    if confirmed then Some((UpdateSession(Some("completed"), None, None, None, None), "/")) else None
  }

  /**
   * Pausing or resuming, as the server applies it, changes only the status:
   * the paused time is never accumulated and no end time is stamped.
   */
  lemma PauseKeepsPausedDuration(row: Db.SessionRow, now: string)
    ensures var r := Sessions.ApplyUpdate(row, PauseRequest(row.status), now);
      r == row.(status := PauseTarget(row.status))
    ensures !Sessions.InvalidStatus(PauseRequest(row.status))
    ensures TimerPaused(Sessions.ApplyUpdate(row, PauseRequest(row.status), now).status) <==> !TimerPaused(row.status)
  {
  }

  /** Ending, as the server applies it, completes the session and stamps the end time. */
  lemma EndStampsEndTime(row: Db.SessionRow, now: string)
    ensures var u := EndAction(true).value.0;
      Sessions.ApplyUpdate(row, u, now) == row.(status := "completed", endedAt := Some(now)) &&
      !Sessions.InvalidStatus(u)
  {
  }

  // ---------------------------------------------------------------- the page state

  /** The page's state: the open session, the loading flag, the previous sets and the template's targets. */
  class WorkoutPage {
    var session: Option<Session>
    var loading: bool
    var previousData: map<int, seq<WorkoutSet>>
    var templateExercises: seq<TemplateExercise>

    constructor()
      ensures session == None && loading && previousData == map[] && templateExercises == []
    {
      session := None;
      loading := true;
      previousData := map[];
      templateExercises := [];
    }

    /**
     * `fetchSession` once its requests have answered: `active` from the open
     * session request, `prev` from the template's previous session and
     * `template` the template's exercises, both asked only for a session with a
     * (truthy) template id. Without an open session the page navigates home
     * and keeps its state; the previous-set map is replaced only when a
     * previous session exists.
     */
    method Fetched(active: Option<Session>, prev: Option<Session>, template: seq<TemplateExercise>)
      returns (navigate: Option<string>)
      modifies this
      ensures !loading
      ensures navigate == (if active.None? then Some("/") else None)
      ensures session == (if active.Some? then active else old(session))
      ensures previousData ==
        (if active.Some? && Truthy(active.value.templateId) && prev.Some? then PreviousOf(prev.value.exercises)
         else old(previousData))
      ensures templateExercises ==
        (if active.Some? && Truthy(active.value.templateId) then template else old(templateExercises))
    {
      navigate := None;
      if active.None? {
        navigate := Some("/");
      } else {
        session := active;
        if Truthy(active.value.templateId) {
          if prev.Some? {
            var m := BuildPreviousData(prev.value.exercises);
            previousData := m;
          }
          templateExercises := template;
        }
      }
      loading := false;
    }
  }
}
