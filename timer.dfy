/**
 * The workout timer hook: the elapsed seconds of a session (wall time since
 * the start, less the paused seconds, never negative), their split into
 * hours, minutes and seconds, the `H:MM:SS` / `M:SS` text, and the effect
 * that computes the value once and starts a one-second interval unless the
 * session is paused. Times are milliseconds since the epoch; the clock and
 * the browser's timer handles are parameters.
 */
module Timer {
  import opened Wrappers
  import opened Text
  import opened Js

  // ---------------------------------------------------------------- elapsed seconds

  /**
   * `Math.max(0, Math.floor((now - start) / 1000) - pausedDuration)`. Dafny's
   * `/` by a positive divisor rounds down, as `Math.floor` of the quotient does.
   */
  function Elapsed(nowMs: int, startMs: int, pausedDuration: int): (e: nat)
    ensures e >= (nowMs - startMs) / 1000 - pausedDuration
    ensures e == 0 || e == (nowMs - startMs) / 1000 - pausedDuration
  {
    var total := (nowMs - startMs) / 1000 - pausedDuration;
    if total > 0 then total else 0
  }

  /** The shown value never goes backwards as the clock advances. */
  lemma ElapsedMonotone(now1: int, now2: int, startMs: int, pausedDuration: int)
    requires now1 <= now2
    ensures Elapsed(now1, startMs, pausedDuration) <= Elapsed(now2, startMs, pausedDuration)
  {
    assert (now1 - startMs) / 1000 <= (now2 - startMs) / 1000;
  }

  /** Once the count has started, every further 1000 ms adds exactly one second. */
  lemma ElapsedTicks(nowMs: int, startMs: int, pausedDuration: int)
    requires (nowMs - startMs) / 1000 - pausedDuration >= 0
    ensures Elapsed(nowMs + 1000, startMs, pausedDuration) == Elapsed(nowMs, startMs, pausedDuration) + 1
  {
    assert (nowMs + 1000 - startMs) / 1000 == (nowMs - startMs) / 1000 + 1;
  }

  /** A start in the future, or a pause longer than the session, shows 0 rather than a negative count. */
  lemma ElapsedNeverNegativeForFutureStart(nowMs: int, startMs: int, pausedDuration: int)
    requires nowMs < startMs && pausedDuration >= 0
    ensures Elapsed(nowMs, startMs, pausedDuration) == 0
  {
    assert (nowMs - startMs) / 1000 < 0;
  }

  // ---------------------------------------------------------------- clock split

  datatype Clock = Clock(hours: nat, minutes: nat, seconds: nat)

  /**
   * `hours`, `minutes` and `seconds` of the hook: whole hours, then minutes and
   * seconds below 60. The elapsed count is never negative, so JavaScript's `%`
   * and `Math.floor` agree with Dafny's `%` and `/` here.
   */
  function Split(elapsed: nat): (c: Clock)
    ensures c.hours * 3600 + c.minutes * 60 + c.seconds == elapsed
    ensures c.minutes < 60 && c.seconds < 60
  {
    var r := elapsed % 3600;
    assert elapsed == (elapsed / 3600) * 3600 + r;
    assert r == (r / 60) * 60 + r % 60;
    assert elapsed == ((elapsed / 3600) * 60 + r / 60) * 60 + r % 60;
    DivModUnique(elapsed, 60, (elapsed / 3600) * 60 + r / 60, r % 60);
    Clock(elapsed / 3600, r / 60, elapsed % 60)
  }

  /** Division by a positive constant has one quotient and remainder. */
  lemma DivModUnique(a: int, b: int, q: int, s: int)
    requires b > 0 && 0 <= s < b && a == q * b + s
    ensures a / b == q && a % b == s
  {
    var q2, s2 := a / b, a % b;
    assert a == q2 * b + s2;
    MulSign(q - q2, b);
    assert (q - q2) * b == s2 - s;
  }

  /** A non-zero multiple of a positive number is at least that number away from zero. */
  lemma MulSign(k: int, b: int)
    requires b > 0
    ensures k >= 1 ==> k * b >= b
    ensures k <= -1 ==> k * b <= -b
  {
    if k >= 1 {
      assert k * b == (k - 1) * b + b;
      assert (k - 1) * b >= 0;
    } else if k <= -1 {
      assert k * b == (k + 1) * b - b;
      assert (k + 1) * b <= 0;
    }
  }

  /** The split is the only one with minutes and seconds below 60. */
  lemma {:induction false} SplitUnique(elapsed: nat, c: Clock)
    requires c.minutes < 60 && c.seconds < 60
    requires c.hours * 3600 + c.minutes * 60 + c.seconds == elapsed
    ensures c == Split(elapsed)
  {
    DivModUnique(elapsed, 3600, c.hours, c.minutes * 60 + c.seconds);
    DivModUnique(elapsed % 3600, 60, c.minutes, c.seconds);
    DivModUnique(elapsed, 60, c.hours * 60 + c.minutes, c.seconds);
  }

  // ---------------------------------------------------------------- text

  /** `formatted`: "H:MM:SS" with at least one hour, else "M:SS"; the leading unit is not padded. */
  function Format(elapsed: nat): string {
    var c := Split(elapsed);
    if c.hours > 0 then NatToString(c.hours) + ":" + Pad2(c.minutes) + ":" + Pad2(c.seconds)
    else NatToString(c.minutes) + ":" + Pad2(c.seconds)
  }

  /** The fields of the text: the unpadded leading unit, then two-digit fields. */
  lemma FormatFields(elapsed: nat)
    ensures var c := Split(elapsed);
      Text.Split(Format(elapsed), ":") ==
        (if c.hours > 0 then [NatToString(c.hours), Pad2(c.minutes), Pad2(c.seconds)]
         else [NatToString(c.minutes), Pad2(c.seconds)])
    ensures var c := Split(elapsed); |Pad2(c.minutes)| == 2 && |Pad2(c.seconds)| == 2
  {
    var c := Split(elapsed);
    var h, m, s := NatToString(c.hours), Pad2(c.minutes), Pad2(c.seconds);
    DigitsHaveNo(h, ':');
    DigitsHaveNo(m, ':');
    DigitsHaveNo(s, ':');
    if c.hours > 0 {
      assert [h, m, s][1..] == [m, s] && [m, s][1..] == [s];
      assert Join([s], ":") == s;
      assert Join([m, s], ":") == m + ":" + s;
      assert Join([h, m, s], ":") == h + ":" + (m + ":" + s);
      assert Format(elapsed) == Join([h, m, s], ":");
      SplitJoin([h, m, s], ":");
    } else {
      var lead := NatToString(c.minutes);
      DigitsHaveNo(lead, ':');
      assert [lead, s][1..] == [s];
      assert Join([s], ":") == s;
      assert Join([lead, s], ":") == lead + ":" + s;
      assert Format(elapsed) == Join([lead, s], ":");
      SplitJoin([lead, s], ":");
    }
  }

  /** Reads a timer text back into seconds. */
  function ParseClock(t: string): Option<nat> {
    var f := Text.Split(t, ":");
    if |f| == 3 then
      match (ParseNat(f[0]), ParseNat(f[1]), ParseNat(f[2]))
      case (Some(h), Some(m), Some(s)) => Some(h * 3600 + m * 60 + s)
      case _ => None
    else if |f| == 2 then
      match (ParseNat(f[0]), ParseNat(f[1]))
      case (Some(m), Some(s)) => Some(m * 60 + s)
      case _ => None
    else None
  }

  /** The text shows the elapsed time exactly: reading it back gives the elapsed seconds. */
  lemma FormatRoundTrip(elapsed: nat)
    ensures ParseClock(Format(elapsed)) == Some(elapsed)
  {
    var c := Split(elapsed);
    FormatFields(elapsed);
    ParseNatToString(c.hours);
    ParseNatToString(c.minutes);
    ParsePad2(c.minutes);
    ParsePad2(c.seconds);
  }

  // ---------------------------------------------------------------- the effect

  /**
   * The state `useTimer` keeps across renders: `elapsed` (the state value),
   * `intervalRef` (the last interval handle started, 0 while none was), the
   * inputs the live interval's tick closes over, and `running`, the browser's
   * live interval handles.
   */
  class TimerHook {
    var elapsed: nat
    var intervalRef: nat
    var tickStart: int
    var tickPaused: int
    var running: set<nat>

    /** At most one interval is live, and it is the one `intervalRef` holds. */
    ghost predicate Valid()
      reads this
    {
      0 !in running && running <= {intervalRef}
    }

    constructor()
      ensures Valid() && elapsed == 0 && intervalRef == 0 && running == {}
    {
      elapsed := 0;
      intervalRef := 0;
      tickStart := 0;
      tickPaused := 0;
      running := {};
    }

    /** One run of the interval's callback at `nowMs`. */
    method Tick(handle: nat, nowMs: int)
      requires Valid() && handle in running
      modifies this
      ensures Valid()
      ensures elapsed == Elapsed(nowMs, tickStart, tickPaused)
      ensures intervalRef == old(intervalRef) && running == old(running)
    {
      elapsed := Elapsed(nowMs, tickStart, tickPaused);
    }

    /**
     * The effect: one immediate tick, then, unless paused, an interval whose
     * fresh (positive) browser handle is `handle`. A paused run leaves
     * `intervalRef` as it was.
     */
    method Run(startMs: int, pausedDuration: int, isPaused: bool, nowMs: int, handle: nat)
      requires Valid() && running == {} && handle > 0
      modifies this
      ensures Valid()
      ensures elapsed == Elapsed(nowMs, startMs, pausedDuration)
      ensures tickStart == startMs && tickPaused == pausedDuration
      ensures intervalRef == (if isPaused then old(intervalRef) else handle)
      ensures running == (if isPaused then {} else {handle})
    {
      tickStart := startMs;
      tickPaused := pausedDuration;
      elapsed := Elapsed(nowMs, tickStart, tickPaused);
      if !isPaused {
        intervalRef := handle;
        running := {handle};
      }
    }

    /** The effect's cleanup: clears the interval `intervalRef` holds, when it holds one. */
    method Cleanup()
      requires Valid()
      modifies this
      ensures Valid() && running == {}
      ensures elapsed == old(elapsed) && intervalRef == old(intervalRef)
      ensures tickStart == old(tickStart) && tickPaused == old(tickPaused)
    {
      if intervalRef != 0 {
        running := running - {intervalRef};
      }
    }

    /**
     * A change of `startedAt`, `pausedDuration` or `isPaused`: React runs the
     * previous cleanup, then the effect. A paused timer ends with no live
     * interval, so it keeps the one value computed here.
     */
    method Rerun(startMs: int, pausedDuration: int, isPaused: bool, nowMs: int, handle: nat)
      requires Valid() && handle > 0
      modifies this
      ensures Valid()
      ensures elapsed == Elapsed(nowMs, startMs, pausedDuration)
      ensures running == (if isPaused then {} else {handle})
    {
      Cleanup();
      Run(startMs, pausedDuration, isPaused, nowMs, handle);
    }
  }
}
