/** Dates, times of day and date-times as the services use java.time:
    a LocalDate is a day number, a LocalTime a second of the day, a
    LocalDateTime a second counted from the start of day 0 (1970-01-01). */
module Temporal {

  /** java.time.LocalDate as its epoch day (0 is 1970-01-01, a Thursday). */
  type Date = int

  const SECONDS_PER_DAY: int := 86400

  /** java.time.LocalTime at one-second resolution. */
  type Time = t: int | 0 <= t < 86400

  /** java.time.LocalDateTime in the configured zone, as seconds since 1970-01-01T00:00. */
  type DateTime = int

  /** LocalTime.of(hour, minute). */
  function Of(hour: int, minute: int): (t: Time)
    requires 0 <= hour < 24 && 0 <= minute < 60
    ensures Hour(t) == hour && Minute(t) == minute && Second(t) == 0
  {
    hour * 3600 + minute * 60
  }

  /** LocalTime.MIN. */
  const MIDNIGHT: Time := 0

  /** LocalTime.MAX, without its fraction of a second. */
  const LAST_SECOND_OF_DAY: Time := 86399

  function Hour(t: Time): int { t / 3600 }

  function Minute(t: Time): int { (t / 60) % 60 }

  function Second(t: Time): int { t % 60 }

  /** LocalTime.plusSeconds: wraps around midnight. */
  function PlusSeconds(t: Time, seconds: int): (r: Time)
    ensures (r - t - seconds) % SECONDS_PER_DAY == 0
  {
    (t + seconds) % SECONDS_PER_DAY
  }

  /** LocalTime.plusMinutes: wraps around midnight. */
  function PlusMinutes(t: Time, minutes: int): Time
  {
    PlusSeconds(t, 60 * minutes)
  }

  /** LocalTime.plusHours: wraps around midnight. */
  function PlusHours(t: Time, hours: int): Time
  {
    PlusSeconds(t, 3600 * hours)
  }

  /** LocalTime.truncatedTo(ChronoUnit.MINUTES). */
  function TruncatedToMinutes(t: Time): (r: Time)
    ensures r <= t < r + 60 && Second(r) == 0
    ensures Hour(r) == Hour(t) && Minute(r) == Minute(t)
  {
    t - t % 60
  }

  /** LocalDateTime.of(date, time). */
  function At(d: Date, t: Time): DateTime
  {
    d * SECONDS_PER_DAY + t
  }

  /** A date-time built from a date and a time gives them back. */
  lemma AtParts(d: Date, t: Time)
    ensures DateOf(At(d, t)) == d && TimeOf(At(d, t)) == t
  {
  }

  /** LocalDateTime.toLocalDate. */
  function DateOf(dt: DateTime): Date { dt / SECONDS_PER_DAY }

  /** LocalDateTime.toLocalTime. */
  function TimeOf(dt: DateTime): Time { dt % SECONDS_PER_DAY }

  /** LocalDate.atStartOfDay. */
  function StartOfDay(d: Date): DateTime { At(d, MIDNIGHT) }

  /** LocalDateTime.plusDays. */
  function PlusDays(dt: DateTime, days: int): (r: DateTime)
    ensures DateOf(r) == DateOf(dt) + days && TimeOf(r) == TimeOf(dt)
  {
    dt + days * SECONDS_PER_DAY
  }

  const MONDAY: int := 1
  const FRIDAY: int := 5
  const SATURDAY: int := 6
  const SUNDAY: int := 7

  /** LocalDate.getDayOfWeek, numbered as java.time.DayOfWeek (Monday 1 ... Sunday 7). */
  function DayOfWeek(d: Date): (w: int)
    ensures MONDAY <= w <= SUNDAY
  {
    (d + 3) % 7 + 1
  }

  /** Adding a multiple of 7 does not change a remainder modulo 7. */
  lemma ModSevenShift(x: int, q: int)
    ensures (x + 7 * q) % 7 == x % 7
  {
    var y := x % 7;
    assert x == 7 * (x / 7) + y;
    assert x + 7 * q == 7 * (x / 7 + q) + y;
  }

  /** The day of the week k days after d. */
  lemma DayOfWeekAfter(d: Date, k: int)
    ensures DayOfWeek(d + k) == (DayOfWeek(d) - 1 + k) % 7 + 1
  {
    var m := (d + 3) % 7;
    assert d + 3 == 7 * ((d + 3) / 7) + m;
    ModSevenShift(m + k, (d + 3) / 7);
  }

  /** TemporalAdjusters.previous(SUNDAY): the last Sunday strictly before d. */
  function PreviousSunday(d: Date): (r: Date)
    ensures DayOfWeek(r) == SUNDAY
    ensures r < d <= r + 7
  {
    var back := if DayOfWeek(d) == SUNDAY then 7 else DayOfWeek(d);
    DayOfWeekAfter(d, -back);
    d - back
  }

  /** TemporalAdjusters.previousOrSame(SUNDAY): d itself when it is a Sunday. */
  function PreviousOrSameSunday(d: Date): (r: Date)
    ensures DayOfWeek(r) == SUNDAY
    ensures r <= d < r + 7
  {
    var back := DayOfWeek(d) % 7;
    DayOfWeekAfter(d, -back);
    d - back
  }

  /** TemporalAdjusters.next(SUNDAY): the first Sunday strictly after d. */
  function NextSunday(d: Date): (r: Date)
    ensures DayOfWeek(r) == SUNDAY
    ensures d < r <= d + 7
    ensures DayOfWeek(d) == SUNDAY ==> r == d + 7
  {
    var ahead := 7 - DayOfWeek(d) % 7;
    DayOfWeekAfter(d, ahead);
    d + ahead
  }

  /** The two week-start adjusters agree except on a Sunday, where
      "previous" goes back a whole week and "previous or same" stays. */
  lemma PreviousVersusPreviousOrSame(d: Date)
    ensures DayOfWeek(d) == SUNDAY ==> PreviousOrSameSunday(d) == d && PreviousSunday(d) == d - 7
    ensures DayOfWeek(d) != SUNDAY ==> PreviousOrSameSunday(d) == PreviousSunday(d)
  {
  }
}
