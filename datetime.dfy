/**
 * The part of Python's `datetime` the optimizer relies on, on a single timeline.
 * An instant is a whole number of seconds since midnight of day 0; days are numbered
 * consecutively, so `date + timedelta(days=1)` is `d + 1`.
 */
module Datetime {

  /** A point in time, in seconds since midnight of day 0. */
  type Instant = int

  /** A calendar date, as a day number. */
  type Day = int

  const SecondsPerMinute: int := 60
  const SecondsPerDay: int := 86400
  const MinutesPerDay: int := 1440

  /** `dt.date()`: the day an instant falls on. */
  function DateOf(t: Instant): Day
  {
    t / SecondsPerDay
  }

  /** Seconds since the midnight that starts `DateOf(t)`. */
  function SecondOfDay(t: Instant): (s: int)
    ensures 0 <= s < SecondsPerDay
    ensures t == DateOf(t) * SecondsPerDay + s
  {
    t % SecondsPerDay
  }

  /** `dt.hour * 60 + dt.minute`: whole minutes since midnight, seconds dropped. */
  function MinuteOfDay(t: Instant): (m: int)
    ensures 0 <= m < MinutesPerDay
    ensures m * SecondsPerMinute <= SecondOfDay(t) < m * SecondsPerMinute + SecondsPerMinute
  {
    SecondOfDay(t) / SecondsPerMinute
  }

  /** `dt.hour`. */
  function Hour(t: Instant): (h: int)
    ensures 0 <= h < 24
    ensures h * 3600 <= SecondOfDay(t) < h * 3600 + 3600
  {
    SecondOfDay(t) / 3600
  }

  /** A wall-clock time `time(hour, minute)`. */
  datatype TimeOfDay = TimeOfDay(hour: int, minute: int)
  {
    /** Python's `time(hour, minute)` accepts exactly these. */
    predicate Valid()
    {
      0 <= hour < 24 && 0 <= minute < 60
    }

    /** The number of seconds since midnight this time stands for. */
    function Seconds(): int
    {
      hour * 3600 + minute * SecondsPerMinute
    }
  }

  /** `datetime.combine(date, time)`. */
  function Combine(d: Day, tod: TimeOfDay): (t: Instant)
    requires tod.Valid()
    ensures DateOf(t) == d
    ensures SecondOfDay(t) == tod.Seconds()
    ensures Hour(t) == tod.hour
  {
    d * SecondsPerDay + tod.Seconds()
  }

  /** `t + timedelta(minutes=m)`. */
  function AddMinutes(t: Instant, m: int): Instant
  {
    t + m * SecondsPerMinute
  }

  /**
   * `int(delta.total_seconds() / 60)`: whole minutes in a signed number of seconds,
   * truncated toward zero as Python's int() truncates a float.
   */
  function WholeMinutes(seconds: int): (m: int)
    ensures seconds >= 0 ==> 0 <= m * SecondsPerMinute <= seconds < m * SecondsPerMinute + SecondsPerMinute
    ensures seconds < 0 ==> m * SecondsPerMinute - SecondsPerMinute < seconds <= m * SecondsPerMinute <= 0
  {
    if seconds >= 0 then seconds / SecondsPerMinute
    else -((-seconds) / SecondsPerMinute)
  }
}
