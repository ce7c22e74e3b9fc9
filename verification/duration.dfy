/**
  Breaking a millisecond duration into whole hours, minutes and seconds.

  Two places in the tracker do this, written differently: finishing a session
  (App.tsx, `handleFinish`) divides step by step and takes JavaScript
  remainders of the intermediate quotients, while the holding list
  (HoldingList.tsx, `formatElapsedTime`) takes the hours from the seconds
  directly and the minutes from the remainder of an hour.  Both drop the
  sub-second part rather than rounding it.
 */
module Duration {

  datatype Hms = Hms(hours: int, minutes: int, seconds: int)

  const MsPerSecond: int := 1000
  const SecondsPerMinute: int := 60
  const MinutesPerHour: int := 60
  const SecondsPerHour: int := 3600

  /** `Math.floor(a / b)` for a positive divisor. */
  function FloorDiv(a: int, b: int): (q: int)
    requires b > 0
    ensures q * b <= a < q * b + b
  {
    a / b
  }

  /** JavaScript's `a % b` for a positive divisor: the remainder takes the sign of `a`. */
  function JsRem(a: int, b: int): (r: int)
    requires b > 0
    ensures a >= 0 ==> 0 <= r < b
    ensures a < 0 ==> -b < r <= 0
  {
    if a >= 0 then a % b else -((-a) % b)
  }

  /** The number of whole seconds an `Hms` stands for. */
  function TotalSeconds(d: Hms): int {
    d.hours * SecondsPerHour + d.minutes * SecondsPerMinute + d.seconds
  }

  /** `d` is the canonical clock-style breakdown of `totalSeconds`. */
  ghost predicate IsBreakdownOf(d: Hms, totalSeconds: int) {
    && 0 <= d.hours
    && 0 <= d.minutes < MinutesPerHour
    && 0 <= d.seconds < SecondsPerMinute
    && TotalSeconds(d) == totalSeconds
  }

  /** The breakdown `handleFinish` stores in a log entry's `duration` and `holdingTime`. */
  function FinishBreakdown(ms: int): (d: Hms)
    ensures ms >= 0 ==> IsBreakdownOf(d, FloorDiv(ms, MsPerSecond))
    ensures ms >= 0 ==> TotalSeconds(d) * MsPerSecond <= ms < TotalSeconds(d) * MsPerSecond + MsPerSecond
    ensures ms < 0 ==> d.hours <= -1 && -MinutesPerHour < d.minutes <= 0 && -SecondsPerMinute < d.seconds <= 0
  {
    var secs := FloorDiv(ms, MsPerSecond);
    var mins := FloorDiv(secs, SecondsPerMinute);
    var hours := FloorDiv(mins, MinutesPerHour);
    BreakdownSteps(secs, mins, hours);
    Hms(hours, JsRem(mins, MinutesPerHour), JsRem(secs, SecondsPerMinute))
  }

  /** The breakdown `formatElapsedTime` renders as `"<h>h <m>m <s>s"` in the holding list. */
  function ElapsedBreakdown(ms: int): (d: Hms)
    ensures ms >= 0 ==> IsBreakdownOf(d, FloorDiv(ms, MsPerSecond))
    ensures ms >= 0 ==> TotalSeconds(d) * MsPerSecond <= ms < TotalSeconds(d) * MsPerSecond + MsPerSecond
  {
    var secs := FloorDiv(ms, MsPerSecond);
    var inHour := JsRem(secs, SecondsPerHour);
    var d := Hms(FloorDiv(secs, SecondsPerHour), FloorDiv(inHour, SecondsPerMinute), JsRem(secs, SecondsPerMinute));
    if secs >= 0 then
      ElapsedSteps(secs, d);
      d
    else
      d
  }

  /** Arithmetic behind `FinishBreakdown`: a division by seconds per minute, then by minutes per hour. */
  lemma BreakdownSteps(secs: int, mins: int, hours: int)
    requires mins == secs / SecondsPerMinute && hours == mins / MinutesPerHour
    ensures secs >= 0 ==> hours * SecondsPerHour + (mins % MinutesPerHour) * SecondsPerMinute + secs % SecondsPerMinute == secs
    ensures secs >= 0 ==> 0 <= hours
    ensures secs < 0 ==> mins < 0 && hours < 0
  {
    assert secs == mins * SecondsPerMinute + secs % SecondsPerMinute;
    assert mins == hours * MinutesPerHour + mins % MinutesPerHour;
  }

  /** Arithmetic behind `ElapsedBreakdown`: the seconds left over within the hour. */
  lemma ElapsedSteps(secs: int, d: Hms)
    requires secs >= 0
    requires d == Hms(secs / SecondsPerHour, (secs % SecondsPerHour) / SecondsPerMinute, secs % SecondsPerMinute)
    ensures IsBreakdownOf(d, secs)
  {
    var inHour := secs % SecondsPerHour;
    assert secs == d.hours * SecondsPerHour + inHour;
    assert inHour == d.minutes * SecondsPerMinute + inHour % SecondsPerMinute;
    assert secs == (d.hours * MinutesPerHour + d.minutes) * SecondsPerMinute + inHour % SecondsPerMinute;
    assert secs % SecondsPerMinute == inHour % SecondsPerMinute;
  }

  /** A number of seconds has only one clock-style breakdown. */
  lemma BreakdownUnique(a: Hms, b: Hms, totalSeconds: int)
    requires IsBreakdownOf(a, totalSeconds) && IsBreakdownOf(b, totalSeconds)
    ensures a == b
  {
    assert a.hours == b.hours by {
      assert a.hours * SecondsPerHour <= totalSeconds < a.hours * SecondsPerHour + SecondsPerHour;
      assert b.hours * SecondsPerHour <= totalSeconds < b.hours * SecondsPerHour + SecondsPerHour;
    }
    assert a.minutes == b.minutes;
  }

  /**
    For non-negative durations the holding list shows the same hours,
    minutes and seconds that finishing the session would log.
   */
  lemma BreakdownsAgree(ms: int)
    requires ms >= 0
    ensures ElapsedBreakdown(ms) == FinishBreakdown(ms)
  {
    BreakdownUnique(ElapsedBreakdown(ms), FinishBreakdown(ms), FloorDiv(ms, MsPerSecond));
  }

  /**
    Below zero the two breakdowns part ways: for -3599000 ms the finish
    breakdown wraps the minutes to 0 while the holding list shows -60.
   */
  lemma BreakdownsDisagreeBelowZero()
    ensures FinishBreakdown(-3599000) == Hms(-1, 0, -59)
    ensures ElapsedBreakdown(-3599000) == Hms(-1, -60, -59)
  {
  }
}
