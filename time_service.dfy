/**
 * The day/night clock of TimeService.cs.
 *
 * A DateTime or a TimeSpan is a whole number of milliseconds: DateTime.AddSeconds
 * and TimeSpan.FromHours (as implemented by the .NET Framework class library that
 * Unity's Mono runtime ships) both round their floating-point argument to the
 * nearest millisecond, halves away from zero, before converting to ticks.
 * The settings, the frame delta and the sun angle are `real`s standing for floats.
 */
module Time {

  const MillisPerSecond: int := 1000
  const MillisPerHour: int := 3_600_000
  const MillisPerDay: int := 86_400_000

  /** The four phases a time of day is classified into. */
  datatype ETimeOfDay = Morning | Afternoon | Evening | Night

  /** The TimeSettings asset: a time multiplier and six boundary hours. Nothing checks them. */
  datatype TimeSettings = TimeSettings(
    timeMultiplier: real,
    sunriseHour: real,
    sunsetHour: real,
    morningHour: real,
    afternoonHour: real,
    eveningHour: real,
    nightHour: real)

  /** The values the TimeSettings asset is created with. */
  const DefaultSettings: TimeSettings := TimeSettings(1000.0, 5.0, 17.0, 6.0, 10.0, 14.0, 18.0)

  /** The value of a float as it comes out of CalculateSunAngle: a number of degrees or NaN. */
  datatype Angle = Degrees(degrees: real) | NotANumber

  // ---------------------------------------------------------------------------
  // Conversions from floating-point quantities to milliseconds
  // ---------------------------------------------------------------------------

  /** `(long)(x + (x >= 0 ? 0.5 : -0.5))`: the nearest integer, halves away from zero. */
  function RoundToNearest(x: real): (r: int)
    ensures x - 0.5 <= r as real <= x + 0.5
    ensures 0.0 < x - 0.5 ==> 0 < r
    ensures x + 0.5 < 0.0 ==> r < 0
    ensures 0.0 <= x ==> 0 <= r
    ensures x <= 0.0 ==> r <= 0
  {
    if x >= 0.0 then (x + 0.5).Floor else -(0.5 - x).Floor
  }

  /** TimeSpan.FromHours(hours), in milliseconds. */
  function FromHours(hours: real): int
  {
    RoundToNearest(hours * MillisPerHour as real)
  }

  /** The milliseconds DateTime.AddSeconds(seconds) adds. */
  function SecondsToMillis(seconds: real): int
  {
    RoundToNearest(seconds * MillisPerSecond as real)
  }

  // ---------------------------------------------------------------------------
  // The pure computations over times of day (TimeSpans in milliseconds)
  // ---------------------------------------------------------------------------

  /** CalculateDifference: `to - from`, plus one day when that is negative. */
  function CalculateDifference(from: int, to: int): (r: int)
    ensures 0 <= from < MillisPerDay && 0 <= to < MillisPerDay ==>
      0 <= r < MillisPerDay && (from + r) % MillisPerDay == to
    ensures from == to ==> r == 0
  {
    var difference := to - from;
    if difference < 0 then difference + MillisPerDay else difference
  }

  /** IsDayTime: strictly after sunrise and strictly before sunset. */
  predicate IsDayTimeAt(timeOfDay: int, sunriseTime: int, sunsetTime: int)
  {
    timeOfDay > sunriseTime && timeOfDay < sunsetTime
  }

  /** GetTimeOfDay: three windows open at both ends, tested in order; everything else is Night. */
  function GetTimeOfDayAt(timeOfDay: int, morningTime: int, afternoonTime: int,
                          eveningTime: int, nightTime: int): ETimeOfDay
  {
    if timeOfDay > morningTime && timeOfDay < afternoonTime then Morning
    else if timeOfDay > afternoonTime && timeOfDay < eveningTime then Afternoon
    else if timeOfDay > eveningTime && timeOfDay < nightTime then Evening
    else Night
  }

  /** Mathf.Clamp01. */
  function Clamp01(t: real): (c: real)
    ensures 0.0 <= c <= 1.0
    ensures 0.0 <= t <= 1.0 ==> c == t
  {
    if t < 0.0 then 0.0 else if t > 1.0 then 1.0 else t
  }

  /** Mathf.Lerp: interpolation with the parameter clamped to [0, 1]. */
  function Lerp(a: real, b: real, t: real): (r: real)
    ensures a <= b ==> a <= r <= b
    ensures Clamp01(t) == 0.0 ==> r == a
    ensures Clamp01(t) == 1.0 ==> r == b
  {
    var c := Clamp01(t);
    var length := b - a;
    ScaledBetween(length, c);
    assert a + length == b;
    a + length * c
  }

  /** A length scaled by a fraction in [0, 1] stays between zero and the length. */
  lemma ScaledBetween(length: real, fraction: real)
    requires 0.0 <= fraction <= 1.0
    ensures 0.0 <= length ==> 0.0 <= length * fraction <= length
    ensures fraction == 0.0 ==> length * fraction == 0.0
    ensures fraction == 1.0 ==> length * fraction == length
  {
    assert length * fraction + length * (1.0 - fraction) == length;
  }

  /**
   * `Mathf.Lerp(from, to, (float)(elapsed / total))` where the quotient is a double:
   * a non-zero number over zero is an infinity, which Clamp01 sends to an end of the
   * range; zero over zero is NaN, which survives the interpolation.
   */
  function LerpByQuotient(from: real, to: real, elapsed: int, total: int): Angle
  {
    if total != 0 then Degrees(Lerp(from, to, elapsed as real / total as real))
    else if elapsed > 0 then Degrees(to)
    else if elapsed < 0 then Degrees(from)
    else NotANumber
  }

  /**
   * CalculateSunAngle: the day arc sunrise -> sunset is swept from 0 to 180 degrees,
   * the night arc sunset -> sunrise (across midnight) from 180 to 360 degrees.
   */
  function CalculateSunAngleAt(timeOfDay: int, sunriseTime: int, sunsetTime: int): Angle
  {
    var isDay := IsDayTimeAt(timeOfDay, sunriseTime, sunsetTime);
    var startDegree := if isDay then 0.0 else 180.0;
    var start := if isDay then sunriseTime else sunsetTime;
    var end := if isDay then sunsetTime else sunriseTime;
    var totalTime := CalculateDifference(start, end);
    var elapsedTime := CalculateDifference(start, timeOfDay);
    LerpByQuotient(startDegree, startDegree + 180.0, elapsedTime, totalTime)
  }

  // ---------------------------------------------------------------------------
  // Facts the constructor's contract rests on
  // ---------------------------------------------------------------------------

  /** Adding whole days to an instant does not move its time of day. */
  lemma {:induction false} WholeDaysKeepTimeOfDay(days: int, timeOfDay: int)
    requires 0 <= timeOfDay < MillisPerDay
    ensures (days * MillisPerDay + timeOfDay) % MillisPerDay == timeOfDay
  {
    var n := days * MillisPerDay + timeOfDay;
    assert n == days * MillisPerDay + timeOfDay;
    assert n / MillisPerDay == days by {
      assert days * MillisPerDay <= n < (days + 1) * MillisPerDay;
    }
  }

  /** A time exactly on the morning boundary matches no window, provided morning is the first boundary. */
  lemma MorningBoundaryIsNight(morningTime: int, afternoonTime: int, eveningTime: int, nightTime: int)
    requires morningTime <= afternoonTime && morningTime <= eveningTime
    ensures GetTimeOfDayAt(morningTime, morningTime, afternoonTime, eveningTime, nightTime) == Night
  {
  }

  // ---------------------------------------------------------------------------
  // The service
  // ---------------------------------------------------------------------------

  /**
   * TimeService. `currentTime` is a DateTime as milliseconds since DateTime.MinValue.
   * The three observables are represented by the values they store; UpdateTime
   * never sets them, so they keep the values computed at construction.
   */
  class TimeService {
    const settings: TimeSettings
    var currentTime: int

    const sunriseTime: int
    const sunsetTime: int
    const morningTime: int
    const afternoonTime: int
    const eveningTime: int
    const nightTime: int

    var isDayTime: bool
    var currentHour: int
    var currentTimeOfDay: ETimeOfDay

    /** `today` stands for DateTime.Now.Date, as a day number. */
    constructor (settings: TimeSettings, today: int)
      ensures this.settings == settings
      ensures currentTime == today * MillisPerDay + FromHours(settings.morningHour)
      ensures sunriseTime == FromHours(settings.sunriseHour) && sunsetTime == FromHours(settings.sunsetHour)
      ensures morningTime == FromHours(settings.morningHour) && afternoonTime == FromHours(settings.afternoonHour)
      ensures eveningTime == FromHours(settings.eveningHour) && nightTime == FromHours(settings.nightHour)
      ensures isDayTime == IsDayTime() && currentHour == Hour() && currentTimeOfDay == GetTimeOfDay()
      ensures 0 <= morningTime < MillisPerDay ==> TimeOfDay() == morningTime
      ensures 0 <= morningTime < MillisPerDay && morningTime <= afternoonTime && morningTime <= eveningTime
        ==> currentTimeOfDay == Night
    {
      this.settings := settings;
      currentTime := today * MillisPerDay + FromHours(settings.morningHour);
      sunriseTime := FromHours(settings.sunriseHour);
      sunsetTime := FromHours(settings.sunsetHour);
      morningTime := FromHours(settings.morningHour);
      afternoonTime := FromHours(settings.afternoonHour);
      eveningTime := FromHours(settings.eveningHour);
      nightTime := FromHours(settings.nightHour);
      new;
      isDayTime := IsDayTime();
      currentHour := Hour();
      currentTimeOfDay := GetTimeOfDay();
      if 0 <= morningTime < MillisPerDay {
        WholeDaysKeepTimeOfDay(today, morningTime);
        if morningTime <= afternoonTime && morningTime <= eveningTime {
          MorningBoundaryIsNight(morningTime, afternoonTime, eveningTime, nightTime);
        }
      }
    }

    /** DateTime.TimeOfDay. */
    function TimeOfDay(): (t: int)
      reads this
      ensures 0 <= t < MillisPerDay
    {
      currentTime % MillisPerDay
    }

    /** DateTime.Hour. */
    function Hour(): (h: int)
      reads this
      ensures 0 <= h < 24
    {
      TimeOfDay() / MillisPerHour
    }

    /** The CurrentTime property. */
    function CurrentTime(): int
      reads this
    {
      currentTime
    }

    predicate IsDayTime()
      reads this
    {
      IsDayTimeAt(TimeOfDay(), sunriseTime, sunsetTime)
    }

    function GetTimeOfDay(): ETimeOfDay
      reads this
    {
      GetTimeOfDayAt(TimeOfDay(), morningTime, afternoonTime, eveningTime, nightTime)
    }

    function CalculateSunAngle(): Angle
      reads this
    {
      CalculateSunAngleAt(TimeOfDay(), sunriseTime, sunsetTime)
    }

    /** Advances the clock by `deltaTime * timeMultiplier` seconds; nothing else changes. */
    method UpdateTime(deltaTime: real)
      modifies this`currentTime
      ensures currentTime == old(currentTime) + SecondsToMillis(deltaTime * settings.timeMultiplier)
      ensures isDayTime == old(isDayTime) && currentHour == old(currentHour)
      ensures currentTimeOfDay == old(currentTimeOfDay)
    {
      currentTime := currentTime + SecondsToMillis(deltaTime * settings.timeMultiplier);
    }
  }
}
