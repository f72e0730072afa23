/**
 * The session detail page's arithmetic: the duration of a finished session
 * and its "Hh Mm" / "Mm" text. `ms` stands for `parseDate(t).getTime()`, the
 * millisecond value of a timestamp text.
 */
module SessionDetail {
  import opened Wrappers
  import opened Text
  import opened Js
  import Timer

  /**
   * `duration`: with a (truthy) end time, the whole seconds from start to end
   * less the paused seconds, not clamped at zero; none without an end time.
   * `pausedDuration` is a whole number, so flooring the difference equals
   * flooring the quotient and then subtracting.
   */
  function Duration(startedAt: string, endedAt: Option<string>, pausedDuration: int, ms: string -> int): (d: Option<int>)
    ensures d.None? <==> !TruthyText(endedAt)
  {
    if TruthyText(endedAt) then Some((ms(endedAt.value) - ms(startedAt)) / 1000 - pausedDuration)
    else None
  }

  /** A non-negative duration is the value the workout timer shows at the end time. */
  lemma DurationIsFinalTimerValue(startedAt: string, endedAt: Option<string>, pausedDuration: int, ms: string -> int)
    requires TruthyText(endedAt)
    requires Duration(startedAt, endedAt, pausedDuration, ms).value >= 0
    ensures Duration(startedAt, endedAt, pausedDuration, ms) ==
            Some(Timer.Elapsed(ms(endedAt.value), ms(startedAt), pausedDuration))
  {
  }

  /** Unlike the timer, the duration goes negative when the paused time exceeds the wall time. */
  lemma DurationNotClamped(startedAt: string, endedAt: Option<string>, pausedDuration: int, ms: string -> int)
    requires TruthyText(endedAt)
    requires ms(endedAt.value) == ms(startedAt) && pausedDuration > 0
    ensures Duration(startedAt, endedAt, pausedDuration, ms) == Some(-pausedDuration)
    ensures Timer.Elapsed(ms(endedAt.value), ms(startedAt), pausedDuration) == 0
  {
  }

  datatype HoursMinutes = HoursMinutes(hours: int, minutes: int)

  /**
   * `h = Math.floor(secs / 3600)` and `m = Math.floor((secs % 3600) / 60)`,
   * with JavaScript's sign-of-dividend `%`. For a non-negative count the
   * minutes are below 60 and the seconds left over are below a minute.
   */
  function DurationParts(secs: int): (r: HoursMinutes)
    ensures secs >= 0 ==> 0 <= r.minutes < 60 && r.hours >= 0
    ensures secs >= 0 ==> r.hours * 3600 + r.minutes * 60 <= secs < r.hours * 3600 + r.minutes * 60 + 60
    ensures secs < 0 ==> r.hours < 0
  {
    HoursMinutes(secs / 3600, Rem(secs, 3600) / 60)
  }

  /** For a non-negative count the parts are the timer's hours and minutes: only the seconds are dropped. */
  lemma DurationPartsAreTimerParts(secs: int)
    requires secs >= 0
    ensures DurationParts(secs).hours == Timer.Split(secs).hours
    ensures DurationParts(secs).minutes == Timer.Split(secs).minutes
  {
  }

  /** `formatDuration`: "Hh Mm" with at least one hour, else "Mm". */
  function FormatDuration(secs: int): string {
    var p := DurationParts(secs);
    if p.hours > 0 then IntToString(p.hours) + "h " + IntToString(p.minutes) + "m"
    else IntToString(p.minutes) + "m"
  }

  /** The seconds below a whole minute do not change the text. */
  lemma FormatDurationDropsSeconds(secs: int)
    requires secs >= 0
    ensures FormatDuration(secs) == FormatDuration(secs - secs % 60)
  {
    var p := DurationParts(secs);
    var c := Timer.Split(secs);
    DurationPartsAreTimerParts(secs);
    var t := secs - secs % 60;
    Timer.SplitUnique(t, Timer.Clock(c.hours, c.minutes, 0));
    DurationPartsAreTimerParts(t);
  }

  /** A negative count, from a pause longer than the session, shows negative minutes: -90 s reads "-2m". */
  lemma FormatDurationNegative()
    ensures DurationParts(-90) == HoursMinutes(-1, -2)
    ensures FormatDuration(-90) == "-2m"
  {
    assert Rem(-90, 3600) == -90;
    assert NatToString(2) == "2";
  }
}
