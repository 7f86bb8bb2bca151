/**
 * What TimeService.cs promises about its clock, its two classifiers and its sun angle,
 * stated over the pure functions of module Time.
 */
module TimeProperties {
  import opened Time

  /** The usual configuration: sunrise strictly before sunset, both inside one day. */
  predicate SunTimesWellFormed(sunriseTime: int, sunsetTime: int)
  {
    0 <= sunriseTime < sunsetTime < MillisPerDay
  }

  // ---------------------------------------------------------------------------
  // Rounding to milliseconds
  // ---------------------------------------------------------------------------

  lemma FloorMonotone(x: real, y: real)
    requires x <= y
    ensures x.Floor <= y.Floor
  {
    assert x.Floor as real <= x <= y < y.Floor as real + 1.0;
  }

  /** Rounding to the nearest millisecond never reverses the order of two quantities. */
  lemma {:induction false} RoundToNearestMonotone(x: real, y: real)
    requires x <= y
    ensures RoundToNearest(x) <= RoundToNearest(y)
  {
    if 0.0 <= x {
      FloorMonotone(x + 0.5, y + 0.5);
    } else if y < 0.0 {
      FloorMonotone(0.5 - y, 0.5 - x);
    }
  }

  /** A whole number of milliseconds is left as it is. */
  lemma RoundToNearestOfInteger(n: int)
    ensures RoundToNearest(n as real) == n
  {
  }

  /** Boundary hours in order give TimeSpans in the same order. */
  lemma FromHoursMonotone(h1: real, h2: real)
    requires h1 <= h2
    ensures FromHours(h1) <= FromHours(h2)
  {
    RoundToNearestMonotone(h1 * MillisPerHour as real, h2 * MillisPerHour as real);
  }

  /** Whole hours become exactly that many hours of milliseconds. */
  lemma FromWholeHours(h: int)
    ensures FromHours(h as real) == h * MillisPerHour
  {
    RoundToNearestOfInteger(h * MillisPerHour);
  }

  // ---------------------------------------------------------------------------
  // Advancing the clock
  // ---------------------------------------------------------------------------

  /** UpdateTime(0) adds nothing, whatever the multiplier: the clock stands still. */
  lemma ZeroDeltaAddsNothing(timeMultiplier: real)
    ensures SecondsToMillis(0.0 * timeMultiplier) == 0
  {
  }

  /** A non-negative delta never moves the clock backwards; a negative one never forwards. */
  lemma DeltaSignIsKept(deltaTime: real, timeMultiplier: real)
    requires 0.0 <= timeMultiplier
    ensures 0.0 <= deltaTime ==> 0 <= SecondsToMillis(deltaTime * timeMultiplier)
    ensures deltaTime <= 0.0 ==> SecondsToMillis(deltaTime * timeMultiplier) <= 0
  {
    if 0.0 <= deltaTime {
      assert 0.0 <= deltaTime * timeMultiplier;
    } else {
      assert deltaTime * timeMultiplier <= 0.0;
    }
  }

  /** With the default multiplier, one real second advances the clock 16 minutes 40 seconds. */
  lemma OneSecondAtDefaultMultiplier()
    ensures SecondsToMillis(1.0 * DefaultSettings.timeMultiplier) == (16 * 60 + 40) * MillisPerSecond
  {
    RoundToNearestOfInteger(1_000_000);
  }

  // ---------------------------------------------------------------------------
  // CalculateDifference
  // ---------------------------------------------------------------------------

  /** Within one day, CalculateDifference is the only offset in [0, 24h) that leads from `from` to `to`. */
  lemma {:induction false} DifferenceIsUnique(from: int, to: int, offset: int)
    requires 0 <= from < MillisPerDay && 0 <= to < MillisPerDay
    requires 0 <= offset < MillisPerDay && (from + offset) % MillisPerDay == to
    ensures offset == CalculateDifference(from, to)
  {
    if from + offset < MillisPerDay {
      WholeDaysKeepTimeOfDay(0, from + offset);
    } else {
      WholeDaysKeepTimeOfDay(1, from + offset - MillisPerDay);
    }
  }

  /** Going from `from` to `to` and on to `from` again is a whole day, or nothing. */
  lemma DifferenceThereAndBack(from: int, to: int)
    requires 0 <= from < MillisPerDay && 0 <= to < MillisPerDay
    ensures from != to ==> CalculateDifference(from, to) + CalculateDifference(to, from) == MillisPerDay
    ensures from == to ==> CalculateDifference(from, to) + CalculateDifference(to, from) == 0
  {
  }

  // ---------------------------------------------------------------------------
  // IsDayTime and GetTimeOfDay
  // ---------------------------------------------------------------------------

  /** Neither the sunrise instant nor the sunset instant is day time. */
  lemma SunriseAndSunsetAreNotDayTime(sunriseTime: int, sunsetTime: int)
    ensures !IsDayTimeAt(sunriseTime, sunriseTime, sunsetTime)
    ensures !IsDayTimeAt(sunsetTime, sunriseTime, sunsetTime)
  {
  }

  /** With ordered boundaries each named phase is exactly its open window, and Night is the rest. */
  lemma PhaseWindows(t: int, morningTime: int, afternoonTime: int, eveningTime: int, nightTime: int)
    requires morningTime < afternoonTime < eveningTime < nightTime
    ensures GetTimeOfDayAt(t, morningTime, afternoonTime, eveningTime, nightTime) == Morning
      <==> morningTime < t < afternoonTime
    ensures GetTimeOfDayAt(t, morningTime, afternoonTime, eveningTime, nightTime) == Afternoon
      <==> afternoonTime < t < eveningTime
    ensures GetTimeOfDayAt(t, morningTime, afternoonTime, eveningTime, nightTime) == Evening
      <==> eveningTime < t < nightTime
    ensures GetTimeOfDayAt(t, morningTime, afternoonTime, eveningTime, nightTime) == Night
      <==> !(morningTime < t < afternoonTime || afternoonTime < t < eveningTime || eveningTime < t < nightTime)
  {
  }

  /** The classification with windows closed at the start: each boundary opens its phase. */
  function HalfOpenPhase(t: int, morningTime: int, afternoonTime: int, eveningTime: int, nightTime: int): ETimeOfDay
  {
    if morningTime <= t < afternoonTime then Morning
    else if afternoonTime <= t < eveningTime then Afternoon
    else if eveningTime <= t < nightTime then Evening
    else Night
  }

  /**
   * GetTimeOfDay departs from the half-open classification exactly at the morning,
   * afternoon and evening boundaries, where it answers Night.
   */
  lemma BoundariesFallToNight(t: int, morningTime: int, afternoonTime: int, eveningTime: int, nightTime: int)
    requires morningTime < afternoonTime < eveningTime < nightTime
    ensures GetTimeOfDayAt(t, morningTime, afternoonTime, eveningTime, nightTime)
      != HalfOpenPhase(t, morningTime, afternoonTime, eveningTime, nightTime)
      <==> t == morningTime || t == afternoonTime || t == eveningTime
    ensures t == morningTime || t == afternoonTime || t == eveningTime || t == nightTime
      ==> GetTimeOfDayAt(t, morningTime, afternoonTime, eveningTime, nightTime) == Night
  {
  }

  /**
   * The clock starts at morningHour, which is a boundary: when the morning hour comes first
   * and lies within the day, the phase at construction is Night, not Morning.
   */
  lemma InitialPhaseIsNight(settings: TimeSettings)
    requires 0 <= FromHours(settings.morningHour) < MillisPerDay
    requires settings.morningHour <= settings.afternoonHour && settings.morningHour <= settings.eveningHour
    ensures GetTimeOfDayAt(FromHours(settings.morningHour), FromHours(settings.morningHour),
      FromHours(settings.afternoonHour), FromHours(settings.eveningHour), FromHours(settings.nightHour)) == Night
  {
    FromHoursMonotone(settings.morningHour, settings.afternoonHour);
    FromHoursMonotone(settings.morningHour, settings.eveningHour);
    MorningBoundaryIsNight(FromHours(settings.morningHour), FromHours(settings.afternoonHour),
      FromHours(settings.eveningHour), FromHours(settings.nightHour));
  }

  /** The default settings at 11:00 are Afternoon and at 19:00 Night. */
  lemma DefaultPhasesAtElevenAndNineteen()
    ensures GetTimeOfDayAt(11 * MillisPerHour, 6 * MillisPerHour, 10 * MillisPerHour,
      14 * MillisPerHour, 18 * MillisPerHour) == Afternoon
    ensures GetTimeOfDayAt(19 * MillisPerHour, 6 * MillisPerHour, 10 * MillisPerHour,
      14 * MillisPerHour, 18 * MillisPerHour) == Night
  {
  }

  // ---------------------------------------------------------------------------
  // CalculateSunAngle
  // ---------------------------------------------------------------------------

  /** A part of a positive whole, as a fraction. */
  lemma FractionBounds(part: int, whole: int)
    requires 0 <= part <= whole && 0 < whole
    ensures 0.0 <= part as real / whole as real <= 1.0
    ensures 0 < part ==> 0.0 < part as real / whole as real
    ensures part < whole ==> part as real / whole as real < 1.0
  {
    var q := part as real / whole as real;
    assert q * whole as real == part as real;
  }

  /** A positive whole over itself is one. */
  lemma WholeIsOne(whole: int)
    requires 0 < whole
    ensures whole as real / whole as real == 1.0
  {
    var q := whole as real / whole as real;
    assert q * whole as real == whole as real;
    assert (q - 1.0) * whole as real == 0.0;
  }

  /** A larger part of the same whole is a larger fraction. */
  lemma FractionIncreases(part1: int, part2: int, whole: int)
    requires part1 < part2 && 0 < whole
    ensures part1 as real / whole as real < part2 as real / whole as real
  {
    var q1 := part1 as real / whole as real;
    var q2 := part2 as real / whole as real;
    assert q1 * whole as real == part1 as real;
    assert q2 * whole as real == part2 as real;
    assert (q2 - q1) * whole as real == (part2 - part1) as real;
  }

  /** The start of the arc the sun is on: sunrise by day, sunset by night. */
  function ArcStart(t: int, sunriseTime: int, sunsetTime: int): int
  {
    if IsDayTimeAt(t, sunriseTime, sunsetTime) then sunriseTime else sunsetTime
  }

  /** The end of the arc the sun is on: sunset by day, sunrise by night. */
  function ArcEnd(t: int, sunriseTime: int, sunsetTime: int): int
  {
    if IsDayTimeAt(t, sunriseTime, sunsetTime) then sunsetTime else sunriseTime
  }

  /** The angle the arc the sun is on starts at. */
  function ArcStartDegree(t: int, sunriseTime: int, sunsetTime: int): real
  {
    if IsDayTimeAt(t, sunriseTime, sunsetTime) then 0.0 else 180.0
  }

  /**
   * With sunrise before sunset, the arc is never empty (the quotient never divides by
   * zero), the time elapsed on it never exceeds its length (the fraction needs no
   * clamping), and the angle is the start angle plus that fraction of 180 degrees.
   */
  lemma {:induction false} SunAngleFollowsArc(t: int, sunriseTime: int, sunsetTime: int)
    requires SunTimesWellFormed(sunriseTime, sunsetTime) && 0 <= t < MillisPerDay
    ensures 0 < CalculateDifference(ArcStart(t, sunriseTime, sunsetTime), ArcEnd(t, sunriseTime, sunsetTime))
    ensures 0 <= CalculateDifference(ArcStart(t, sunriseTime, sunsetTime), t)
      <= CalculateDifference(ArcStart(t, sunriseTime, sunsetTime), ArcEnd(t, sunriseTime, sunsetTime))
    ensures CalculateSunAngleAt(t, sunriseTime, sunsetTime)
      == Degrees(ArcStartDegree(t, sunriseTime, sunsetTime) + 180.0 *
           (CalculateDifference(ArcStart(t, sunriseTime, sunsetTime), t) as real
            / CalculateDifference(ArcStart(t, sunriseTime, sunsetTime), ArcEnd(t, sunriseTime, sunsetTime)) as real))
  {
    var start := ArcStart(t, sunriseTime, sunsetTime);
    var total := CalculateDifference(start, ArcEnd(t, sunriseTime, sunsetTime));
    var elapsed := CalculateDifference(start, t);
    assert 0 < total && 0 <= elapsed <= total;
    FractionBounds(elapsed, total);
  }

  /** By day the sun is strictly inside the day arc (0, 180). */
  lemma SunAngleDuringDay(t: int, sunriseTime: int, sunsetTime: int)
    requires SunTimesWellFormed(sunriseTime, sunsetTime) && 0 <= t < MillisPerDay
    requires IsDayTimeAt(t, sunriseTime, sunsetTime)
    ensures CalculateSunAngleAt(t, sunriseTime, sunsetTime).Degrees?
    ensures 0.0 < CalculateSunAngleAt(t, sunriseTime, sunsetTime).degrees < 180.0
  {
    SunAngleFollowsArc(t, sunriseTime, sunsetTime);
    FractionBounds(t - sunriseTime, sunsetTime - sunriseTime);
  }

  /** At any other time the sun is on the night arc [180, 360]. */
  lemma SunAngleAtNight(t: int, sunriseTime: int, sunsetTime: int)
    requires SunTimesWellFormed(sunriseTime, sunsetTime) && 0 <= t < MillisPerDay
    requires !IsDayTimeAt(t, sunriseTime, sunsetTime)
    ensures CalculateSunAngleAt(t, sunriseTime, sunsetTime).Degrees?
    ensures 180.0 <= CalculateSunAngleAt(t, sunriseTime, sunsetTime).degrees <= 360.0
  {
    SunAngleFollowsArc(t, sunriseTime, sunsetTime);
    FractionBounds(CalculateDifference(sunsetTime, t), CalculateDifference(sunsetTime, sunriseTime));
  }

  /** At exactly sunset the night arc begins: 180 degrees. */
  lemma SunAngleAtSunset(sunriseTime: int, sunsetTime: int)
    requires SunTimesWellFormed(sunriseTime, sunsetTime)
    ensures CalculateSunAngleAt(sunsetTime, sunriseTime, sunsetTime) == Degrees(180.0)
  {
    SunAngleFollowsArc(sunsetTime, sunriseTime, sunsetTime);
  }

  /** At exactly sunrise the night arc is complete: 360 degrees, not the 0 of the day arc. */
  lemma SunAngleAtSunrise(sunriseTime: int, sunsetTime: int)
    requires SunTimesWellFormed(sunriseTime, sunsetTime)
    ensures CalculateSunAngleAt(sunriseTime, sunriseTime, sunsetTime) == Degrees(360.0)
  {
    SunAngleFollowsArc(sunriseTime, sunriseTime, sunsetTime);
    FractionBounds(CalculateDifference(sunsetTime, sunriseTime), CalculateDifference(sunsetTime, sunriseTime));
    WholeIsOne(CalculateDifference(sunsetTime, sunriseTime));
  }

  /** Through the day the sun only climbs: a later day time has a larger angle. */
  lemma SunAngleRisesThroughDay(t1: int, t2: int, sunriseTime: int, sunsetTime: int)
    requires SunTimesWellFormed(sunriseTime, sunsetTime)
    requires sunriseTime < t1 < t2 < sunsetTime
    ensures CalculateSunAngleAt(t1, sunriseTime, sunsetTime).Degrees?
    ensures CalculateSunAngleAt(t2, sunriseTime, sunsetTime).Degrees?
    ensures CalculateSunAngleAt(t1, sunriseTime, sunsetTime).degrees
      < CalculateSunAngleAt(t2, sunriseTime, sunsetTime).degrees
  {
    SunAngleFollowsArc(t1, sunriseTime, sunsetTime);
    SunAngleFollowsArc(t2, sunriseTime, sunsetTime);
    FractionIncreases(t1 - sunriseTime, t2 - sunriseTime, sunsetTime - sunriseTime);
  }

  /** Through the night, across midnight, the angle grows with the time since sunset. */
  lemma SunAngleRisesThroughNight(t1: int, t2: int, sunriseTime: int, sunsetTime: int)
    requires SunTimesWellFormed(sunriseTime, sunsetTime)
    requires 0 <= t1 < MillisPerDay && 0 <= t2 < MillisPerDay
    requires !IsDayTimeAt(t1, sunriseTime, sunsetTime) && !IsDayTimeAt(t2, sunriseTime, sunsetTime)
    requires CalculateDifference(sunsetTime, t1) < CalculateDifference(sunsetTime, t2)
    ensures CalculateSunAngleAt(t1, sunriseTime, sunsetTime).Degrees?
    ensures CalculateSunAngleAt(t2, sunriseTime, sunsetTime).Degrees?
    ensures CalculateSunAngleAt(t1, sunriseTime, sunsetTime).degrees
      < CalculateSunAngleAt(t2, sunriseTime, sunsetTime).degrees
  {
    SunAngleFollowsArc(t1, sunriseTime, sunsetTime);
    SunAngleFollowsArc(t2, sunriseTime, sunsetTime);
    FractionIncreases(CalculateDifference(sunsetTime, t1), CalculateDifference(sunsetTime, t2),
      CalculateDifference(sunsetTime, sunriseTime));
  }

  /**
   * When sunrise and sunset coincide both arcs are empty: the quotient is 0/0 (NaN) at
   * that instant and a positive number over zero (clamped to 360 degrees) at every other.
   */
  lemma SunAngleWithoutDay(t: int, sunTime: int)
    requires 0 <= t < MillisPerDay && 0 <= sunTime < MillisPerDay
    ensures t == sunTime ==> CalculateSunAngleAt(t, sunTime, sunTime) == NotANumber
    ensures t != sunTime ==> CalculateSunAngleAt(t, sunTime, sunTime) == Degrees(360.0)
  {
  }

  /** With sunrise at 5:00 and sunset at 17:00, noon is 7/12 of the day arc: 105 degrees. */
  lemma DefaultSunAngleAtNoon()
    ensures CalculateSunAngleAt(12 * MillisPerHour, 5 * MillisPerHour, 17 * MillisPerHour) == Degrees(105.0)
  {
    SunAngleFollowsArc(12 * MillisPerHour, 5 * MillisPerHour, 17 * MillisPerHour);
  }

  /** With the same settings, 23:00 is half-way through the night arc: 270 degrees. */
  lemma DefaultSunAngleAtEleven()
    ensures CalculateSunAngleAt(23 * MillisPerHour, 5 * MillisPerHour, 17 * MillisPerHour) == Degrees(270.0)
  {
    SunAngleFollowsArc(23 * MillisPerHour, 5 * MillisPerHour, 17 * MillisPerHour);
  }

  // ---------------------------------------------------------------------------
  // The service as TimeManager drives it
  // ---------------------------------------------------------------------------

  /**
   * With the default settings the service starts at 6:00, on the morning boundary, so its
   * stored phase is Night; one real second later the clock reads 6:16:40, inside the
   * Morning window, yet the stored phase is still Night, because UpdateTime never
   * refreshes the observables and no phase change is ever signalled.
   */
  method DefaultStartThenOneSecond(today: int) returns (storedPhase: ETimeOfDay, clockPhase: ETimeOfDay, timeOfDay: int)
    ensures timeOfDay == 6 * MillisPerHour + (16 * 60 + 40) * MillisPerSecond
    ensures clockPhase == Morning
    ensures storedPhase == Night
  {
    FromWholeHours(6);
    FromWholeHours(10);
    FromWholeHours(14);
    FromWholeHours(18);
    var service := new TimeService(DefaultSettings, today);
    assert service.currentTimeOfDay == Night;
    OneSecondAtDefaultMultiplier();
    service.UpdateTime(1.0);
    WholeDaysKeepTimeOfDay(today, 6 * MillisPerHour + 1_000_000);
    timeOfDay := service.TimeOfDay();
    clockPhase := service.GetTimeOfDay();
    storedPhase := service.currentTimeOfDay;
  }

  /**
   * A frame that advances the clock by exactly one day brings back the same time of day,
   * hour, day/night answer, phase and sun angle.
   */
  method FullDayKeepsClockReadings(service: TimeService, deltaTime: real)
    requires SecondsToMillis(deltaTime * service.settings.timeMultiplier) == MillisPerDay
    modifies service`currentTime
    ensures service.CurrentTime() == old(service.CurrentTime()) + MillisPerDay
    ensures service.TimeOfDay() == old(service.TimeOfDay()) && service.Hour() == old(service.Hour())
    ensures service.IsDayTime() == old(service.IsDayTime())
    ensures service.GetTimeOfDay() == old(service.GetTimeOfDay())
    ensures service.CalculateSunAngle() == old(service.CalculateSunAngle())
  {
    var before := service.currentTime;
    service.UpdateTime(deltaTime);
    assert service.currentTime == (before / MillisPerDay + 1) * MillisPerDay + before % MillisPerDay;
    WholeDaysKeepTimeOfDay(before / MillisPerDay + 1, before % MillisPerDay);
  }
}
