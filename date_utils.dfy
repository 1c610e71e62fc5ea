/** Date helpers: the look-ahead range, business hours on a date, and rounding to a slot grid. */
module DateUtils {

  import opened Wrappers
  import opened Datetime
  import opened Config

  /**
   * `get_date_range`: the first day and the day after the last; the first day is the
   * one given, or the day after `now` (the caller's clock reading).
   */
  function DateRange(startDate: Option<Day>, days: int, now: Instant): (r: (Day, Day))
    ensures startDate.Some? ==> r.0 == startDate.value
    ensures startDate.None? ==> r.0 == DateOf(now) + 1
    ensures r.1 - r.0 == days
  {
    var s := if startDate.None? then DateOf(now + SecondsPerDay) else startDate.value;
    (s, s + days)
  }

  /** `get_business_hours_for_date`: the configured opening and closing times on date `d`. */
  function BusinessHoursForDate(d: Day, settings: Settings): (r: (Instant, Instant))
    requires settings.Valid()
    ensures DateOf(r.0) == d && DateOf(r.1) == d
    ensures SecondOfDay(r.0) == BusinessHoursStartTime(settings).Seconds()
    ensures SecondOfDay(r.1) == BusinessHoursEndTime(settings).Seconds()
  {
    (Combine(d, BusinessHoursStartTime(settings)), Combine(d, BusinessHoursEndTime(settings)))
  }

  /** The (opening, closing) pairs of `days` consecutive dates from `first`. */
  function BusinessDays(startDate: Option<Day>, days: int, now: Instant, settings: Settings): seq<(Instant, Instant)>
    requires settings.Valid()
  {
    seq(if days > 0 then days else 0, i => BusinessHoursForDate(DateRange(startDate, days, now).0 + i, settings))
  }

  /**
   * `get_business_days_datetimes`: one (opening, closing) pair per day of the range,
   * for consecutive dates in ascending order; none when `days` is not positive.
   */
  method BusinessDaysDatetimes(startDate: Option<Day>, days: int, now: Instant, settings: Settings)
    returns (result: seq<(Instant, Instant)>)
    requires settings.Valid()
    ensures |result| == if days > 0 then days else 0
    ensures forall i :: 0 <= i < |result| ==>
      result[i] == BusinessHoursForDate(DateRange(startDate, days, now).0 + i, settings)
    ensures result == BusinessDays(startDate, days, now, settings)
  {
    var (first, last) := DateRange(startDate, days, now);
    result := [];
    var current := first;
    while current < last
      invariant first <= current && (current <= last || first == current)
      invariant |result| == current - first
      invariant forall i :: 0 <= i < |result| ==> result[i] == BusinessHoursForDate(first + i, settings)
    {
      result := result + [BusinessHoursForDate(current, settings)];
      current := current + 1;
    }
  }

  /** The pairs come one per calendar day, ascending and with no day skipped. */
  lemma BusinessDaysConsecutive(result: seq<(Instant, Instant)>, first: Day, settings: Settings)
    requires settings.Valid()
    requires forall i :: 0 <= i < |result| ==> result[i] == BusinessHoursForDate(first + i, settings)
    ensures forall i :: 0 <= i < |result| - 1 ==>
      && DateOf(result[i + 1].0) == DateOf(result[i].0) + 1
      && result[i + 1].0 == result[i].0 + SecondsPerDay
      && result[i + 1].1 == result[i].1 + SecondsPerDay
  {
  }

  /** `is_within_business_hours`: opening time included, closing time excluded. */
  predicate IsWithinBusinessHours(t: Instant, settings: Settings)
    requires settings.Valid()
  {
    BusinessHoursStartTime(settings).Seconds() <= SecondOfDay(t) < BusinessHoursEndTime(settings).Seconds()
  }

  /** The time-of-day test agrees with the business-hours interval of the instant's own date. */
  lemma WithinBusinessHoursOfDate(t: Instant, settings: Settings)
    requires settings.Valid()
    ensures IsWithinBusinessHours(t, settings) <==>
      BusinessHoursForDate(DateOf(t), settings).0 <= t < BusinessHoursForDate(DateOf(t), settings).1
  {
  }

  /**
   * Python's `round(n / d)` on the exact quotient: the nearest integer, and on an exact
   * tie the even one.
   */
  function RoundHalfEven(n: int, d: int): (q: int)
    requires d != 0
    decreases if d < 0 then 1 else 0
  {
    if d < 0 then RoundHalfEven(-n, -d)
    else
      var f, r := n / d, n % d;
      if 2 * r < d then f
      else if 2 * r > d then f + 1
      else if f % 2 == 0 then f
      else f + 1
  }

  function Abs(x: int): (a: int)
    ensures a >= 0 && (a == x || a == -x)
  {
    if x < 0 then -x else x
  }

  /** `RoundHalfEven` is the nearest integer to n / d, and the even one on a tie. */
  lemma RoundHalfEvenNearest(n: int, d: int)
    requires d != 0
    ensures var q := RoundHalfEven(n, d);
      && -Abs(d) <= 2 * (n - q * d) <= Abs(d)
      && (2 * (n - q * d) == Abs(d) || 2 * (n - q * d) == -Abs(d) ==> q % 2 == 0)
  {
    if d < 0 {
      RoundHalfEvenNearestPositive(-n, -d);
      var q := RoundHalfEven(n, d);
      assert q * d == -(q * -d);
    } else {
      RoundHalfEvenNearestPositive(n, d);
    }
  }

  lemma RoundHalfEvenNearestPositive(n: int, d: int)
    requires d > 0
    ensures var q := RoundHalfEven(n, d);
      && -d <= 2 * (n - q * d) <= d
      && (2 * (n - q * d) == d || 2 * (n - q * d) == -d ==> q % 2 == 0)
  {
    var f, r := n / d, n % d;
    assert n == f * d + r;
    assert (f + 1) * d == f * d + d;
  }

  lemma MulStep(a: int, b: int, d: int)
    requires a > b && d > 0
    ensures a * d >= b * d + d
  {
    var k := a - b - 1;
    assert k * d >= 0;
    assert a * d == b * d + d + k * d;
  }

  lemma MulStepNegative(a: int, b: int, d: int)
    requires a > b && d < 0
    ensures a * d <= b * d + d
  {
    var k := a - b - 1;
    assert k * d <= 0;
    assert a * d == b * d + d + k * d;
  }

  /** Rounding is monotone: a later minute never rounds to an earlier multiple. */
  lemma RoundHalfEvenMonotone(n1: int, n2: int, d: int)
    requires d > 0 && n1 <= n2
    ensures RoundHalfEven(n1, d) <= RoundHalfEven(n2, d)
  {
    var q1, q2 := RoundHalfEven(n1, d), RoundHalfEven(n2, d);
    if q1 > q2 {
      RoundHalfEvenNearestPositive(n1, d);
      RoundHalfEvenNearestPositive(n2, d);
      MulStep(q1, q2, d);
      assert false;
    }
  }

  /** Rounding an exact multiple gives the multiplier back. */
  lemma RoundHalfEvenOfMultiple(q: int, d: int)
    requires d != 0
    ensures RoundHalfEven(q * d, d) == q
  {
    if d < 0 {
      assert -(q * d) == q * -d;
      LemmaDivMultiple(q, -d);
    } else {
      LemmaDivMultiple(q, d);
    }
  }

  lemma LemmaDivMultiple(q: int, d: int)
    requires d > 0
    ensures (q * d) / d == q && (q * d) % d == 0
  {
    var n := q * d;
    var f, r := n / d, n % d;
    var k := q - f;
    assert k * d == n - f * d by {
      assert k * d == q * d - f * d;
    }
    assert k * d == r;
  }

  datatype RoundError =
    | ZeroInterval      // ZeroDivisionError from minutes_since_midnight / 0
    | HourOutOfRange    // ValueError from dt.replace(hour=24 or more)

  /** The minute of the day `round_datetime_to_nearest` moves to, before any range check. */
  function RoundedMinuteOfDay(t: Instant, minutes: int): int
    requires minutes != 0
  {
    RoundHalfEven(MinuteOfDay(t), minutes) * minutes
  }

  /**
   * `round_datetime_to_nearest(t, minutes)`: drop the seconds, round the minute of the
   * day to the nearest multiple of `minutes` (ties to the even multiple), same date.
   */
  function RoundToNearest(t: Instant, minutes: int): (r: Result<Instant, RoundError>)
  {
    if minutes == 0 then Err(ZeroInterval)
    else
      var rounded := RoundedMinuteOfDay(t, minutes);
      var hour, minute := rounded / 60, rounded % 60;
      if hour >= 24 then Err(HourOutOfRange)
      else Ok(DateOf(t) * SecondsPerDay + hour * 3600 + minute * SecondsPerMinute)
  }

  /** Rounding a minute of the day never goes below midnight. */
  lemma RoundedNonNegative(m: int, minutes: int)
    requires m >= 0 && minutes != 0
    ensures RoundHalfEven(m, minutes) * minutes >= 0
  {
    var q := RoundHalfEven(m, minutes);
    RoundHalfEvenNearest(m, minutes);
    if minutes > 0 && q < 0 {
      MulStep(0, q, minutes);
    } else if minutes < 0 && q > 0 {
      MulStepNegative(q, 0, minutes);
    }
  }

  /** The instant at minute `rounded` (a valid minute of the day) of the date of `t`. */
  lemma AtMinuteOfDate(t: Instant, rounded: int)
    requires 0 <= rounded < MinutesPerDay
    ensures var r := DateOf(t) * SecondsPerDay + (rounded / 60) * 3600 + (rounded % 60) * SecondsPerMinute;
      && DateOf(r) == DateOf(t)
      && SecondOfDay(r) == rounded * SecondsPerMinute
      && MinuteOfDay(r) == rounded
  {
    var r := DateOf(t) * SecondsPerDay + (rounded / 60) * 3600 + (rounded % 60) * SecondsPerMinute;
    assert r == DateOf(t) * SecondsPerDay + rounded * SecondsPerMinute;
  }

  /**
   * The shape of a rounded instant: same date, no seconds, a minute of the day that is a
   * multiple of `minutes` and within half an interval of the original minute (an exact
   * tie goes to the even multiple). It fails exactly when that minute would be 24:00 or later.
   */
  lemma RoundToNearestShape(t: Instant, minutes: int)
    requires minutes != 0
    ensures var rounded := RoundedMinuteOfDay(t, minutes);
      && (RoundToNearest(t, minutes).Ok? <==> rounded < MinutesPerDay)
      && -Abs(minutes) <= 2 * (rounded - MinuteOfDay(t)) <= Abs(minutes)
      && (2 * Abs(rounded - MinuteOfDay(t)) == Abs(minutes) ==> (rounded / minutes) % 2 == 0)
    ensures RoundToNearest(t, minutes).Ok? ==>
      var r := RoundToNearest(t, minutes).value;
      && DateOf(r) == DateOf(t)
      && SecondOfDay(r) == RoundedMinuteOfDay(t, minutes) * SecondsPerMinute
      && MinuteOfDay(r) == RoundedMinuteOfDay(t, minutes)
      && MinuteOfDay(r) % minutes == 0
      && SecondOfDay(r) % SecondsPerMinute == 0
  {
    var m := MinuteOfDay(t);
    var q := RoundHalfEven(m, minutes);
    var rounded := q * minutes;
    RoundHalfEvenNearest(m, minutes);
    RoundedNonNegative(m, minutes);
    LemmaDivMultiple2(q, minutes);
    if rounded < MinutesPerDay {
      AtMinuteOfDate(t, rounded);
    }
  }

  lemma LemmaDivMultiple2(q: int, d: int)
    requires d != 0
    ensures (q * d) / d == q && (q * d) % d == 0
  {
    if d > 0 {
      LemmaDivMultiple(q, d);
    } else {
      LemmaDivMultipleNegative(q, d);
    }
  }

  lemma LemmaDivMultipleNegative(q: int, d: int)
    requires d < 0
    ensures (q * d) / d == q && (q * d) % d == 0
  {
    var n := q * d;
    var f, r := n / d, n % d;
    var k := q - f;
    assert k * d == n - f * d by {
      assert k * d == q * d - f * d;
    }
    assert k * d == r;
  }

  /** Rounding is idempotent: a rounded instant rounds to itself. */
  lemma RoundToNearestIdempotent(t: Instant, minutes: int)
    requires RoundToNearest(t, minutes).Ok?
    ensures RoundToNearest(RoundToNearest(t, minutes).value, minutes) == RoundToNearest(t, minutes)
  {
    var r := RoundToNearest(t, minutes).value;
    RoundToNearestShape(t, minutes);
    var q := RoundHalfEven(MinuteOfDay(t), minutes);
    assert MinuteOfDay(r) == q * minutes;
    RoundHalfEvenOfMultiple(q, minutes);
    assert RoundedMinuteOfDay(r, minutes) == MinuteOfDay(r);
    RoundToNearestShape(r, minutes);
    assert SecondOfDay(r) == MinuteOfDay(r) * SecondsPerMinute;
  }

  /** Rounding to the nearest mark never moves a later instant before an earlier one. */
  lemma RoundToNearestMonotone(t1: Instant, t2: Instant, minutes: int)
    requires minutes > 0 && t1 <= t2
    requires RoundToNearest(t1, minutes).Ok? && RoundToNearest(t2, minutes).Ok?
    ensures RoundToNearest(t1, minutes).value <= RoundToNearest(t2, minutes).value
  {
    var r1, r2 := RoundToNearest(t1, minutes).value, RoundToNearest(t2, minutes).value;
    var q1, q2 := RoundedMinuteOfDay(t1, minutes), RoundedMinuteOfDay(t2, minutes);
    RoundToNearestShape(t1, minutes);
    RoundToNearestShape(t2, minutes);
    assert r1 == DateOf(t1) * SecondsPerDay + q1 * SecondsPerMinute && q1 < MinutesPerDay;
    assert r2 == DateOf(t2) * SecondsPerDay + q2 * SecondsPerMinute && q2 >= 0;
    if DateOf(t1) == DateOf(t2) {
      assert MinuteOfDay(t1) <= MinuteOfDay(t2);
      var h1, h2 := RoundHalfEven(MinuteOfDay(t1), minutes), RoundHalfEven(MinuteOfDay(t2), minutes);
      RoundHalfEvenMonotone(MinuteOfDay(t1), MinuteOfDay(t2), minutes);
      if h1 < h2 {
        MulStep(h2, h1, minutes);
      }
      assert q1 <= q2;
    } else {
      assert DateOf(t1) < DateOf(t2);
    }
  }
}
