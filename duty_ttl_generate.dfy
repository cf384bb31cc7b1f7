/**
 * `dutyTTLGenerate(day = 1)`: the number of milliseconds from now until 09:00:01.000 local time on
 * the calendar date `day` days after today. Local time is a day number and a millisecond of that day,
 * with every day 86 400 000 ms long.
 */
module DutyTTLGenerate {

  /** Milliseconds in a day. */
  const DayMs: int := 86400000

  /** 09:00:01.000 as a millisecond of the day, the time `setHours(9, 0, 1, 0)` selects. */
  const BoundaryMs: int := 32401000

  /** A local instant: day number since some epoch and millisecond within that day. */
  datatype LocalInstant = LocalInstant(day: int, ms: int)

  predicate Valid(t: LocalInstant) {
    0 <= t.ms < DayMs
  }

  /** Milliseconds since the start of day 0, what `getTime()` measures up to a constant. */
  function Epoch(t: LocalInstant): int {
    t.day * DayMs + t.ms
  }

  /**
   * Copy `now`, move the date `day` days on (`setDate(getDate() + day)`), set the clock to 09:00:01.000
   * (`setHours(9, 0, 1, 0)`) and subtract `now`.
   */
  function DutyTTLGenerate(now: LocalInstant, day: int := 1): (r: int)
    requires Valid(now)
    ensures day >= 1 ==> r > 0
    ensures day * DayMs + BoundaryMs - DayMs < r <= day * DayMs + BoundaryMs
  {
    var target := LocalInstant(now.day + day, BoundaryMs);
    Epoch(target) - Epoch(now)
  }

  /** One more day adds exactly one day of milliseconds. */
  lemma NextDayAddsADay(now: LocalInstant, day: int)
    requires Valid(now)
    ensures DutyTTLGenerate(now, day + 1) == DutyTTLGenerate(now, day) + DayMs
  {
  }

  /** Later on the same day, the result shrinks by exactly the time that has passed. */
  lemma LaterSameDay(now: LocalInstant, t: int, day: int)
    requires Valid(now) && 0 <= t && now.ms + t < DayMs
    ensures DutyTTLGenerate(LocalInstant(now.day, now.ms + t), day) == DutyTTLGenerate(now, day) - t
  {
  }

  /** With `day = 0` the target is today's 09:00:01, already reached or past from then on. */
  lemma SameDayAfterBoundary(now: LocalInstant)
    requires Valid(now) && now.ms >= BoundaryMs
    ensures DutyTTLGenerate(now, 0) <= 0
  {
  }

  /** At 07:00 the default call aims at tomorrow's 09:00:01, 26 h 0 min 1 s away. */
  lemma AtSevenInTheMorning(d: int)
    ensures DutyTTLGenerate(LocalInstant(d, 7 * 3600000)) == 93601000
  {
  }

  /**
   * Before 09:00:01 the default call still skips today's 09:00:01: the result is more than a day,
   * not the time to the next 09:00:01.
   */
  lemma SkipsTodaysBoundary(now: LocalInstant)
    requires Valid(now) && now.ms < BoundaryMs
    ensures DutyTTLGenerate(now) > DayMs
    ensures DutyTTLGenerate(now) == DayMs + (BoundaryMs - now.ms)
  {
  }
}
