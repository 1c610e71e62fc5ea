/**
 * `AppointmentOptimizer.get_free_time_windows`: for each business day, the free
 * windows before the first appointment, between start-adjacent appointments, and
 * after the last one; or the whole business day when the day has no appointment.
 */
module FreeWindows {

  import opened Wrappers
  import opened Datetime
  import opened Config
  import opened DateUtils
  import opened Sorting
  import opened Appointments
  import opened TimeWindows

  /** The sort key of `sorted(appointments, key=lambda a: a.start_time)`. */
  function StartKey(a: Appointment): real
  {
    a.startTime as real
  }

  /** `[a for a in appointments if day_start.date() == a.start_time.date()]`. */
  function OnDate(appointments: seq<Appointment>, d: Day): (r: seq<Appointment>)
    ensures |r| <= |appointments|
    ensures forall a :: a in r ==> a in appointments && DateOf(a.startTime) == d
  {
    if |appointments| == 0 then []
    else
      var last := appointments[|appointments| - 1];
      OnDate(appointments[..|appointments| - 1], d) + (if DateOf(last.startTime) == d then [last] else [])
  }

  /** The window before the first appointment, when the day starts before it. */
  function LeadingWindow(dayStart: Instant, first: Appointment, homeBase: Location): seq<TimeWindow>
  {
    if dayStart < first.startTime then [TimeWindow(dayStart, first.startTime, homeBase, first.location)] else []
  }

  /** The window between two start-adjacent appointments, when the first ends before the second starts. */
  function GapWindow(current: Appointment, next: Appointment): seq<TimeWindow>
  {
    if current.endTime < next.startTime
    then [TimeWindow(current.endTime, next.startTime, current.location, next.location)]
    else []
  }

  /** The windows between each appointment of the day and the one after it in start order. */
  function GapWindows(day: seq<Appointment>): seq<TimeWindow>
  {
    if |day| < 2 then []
    else GapWindows(day[..|day| - 1]) + GapWindow(day[|day| - 2], day[|day| - 1])
  }

  /** The window after the last appointment, when it ends before the day does. */
  function TrailingWindow(last: Appointment, dayEnd: Instant, homeBase: Location): seq<TimeWindow>
  {
    if last.endTime < dayEnd then [TimeWindow(last.endTime, dayEnd, last.location, homeBase)] else []
  }

  /** The free windows of one business day, given that day's appointments in start order. */
  function DayWindows(dayStart: Instant, dayEnd: Instant, day: seq<Appointment>, homeBase: Location)
    : Result<seq<TimeWindow>, TimeWindowError>
  {
    if |day| == 0 then
      match NewTimeWindow(dayStart, dayEnd, homeBase, homeBase)
      case Ok(w) => Ok([w])
      case Err(e) => Err(e)
    else
      Ok(LeadingWindow(dayStart, day[0], homeBase)
         + GapWindows(day)
         + TrailingWindow(day[|day| - 1], dayEnd, homeBase))
  }

  /** The free windows of a run of business days, day by day; the first failing day fails it all. */
  function WindowsForDays(days: seq<(Instant, Instant)>, sorted: seq<Appointment>, homeBase: Location)
    : Result<seq<TimeWindow>, TimeWindowError>
  {
    if |days| == 0 then Ok([])
    else
      var (dayStart, dayEnd) := days[|days| - 1];
      match WindowsForDays(days[..|days| - 1], sorted, homeBase)
      case Err(e) => Err(e)
      case Ok(before) =>
        match DayWindows(dayStart, dayEnd, OnDate(sorted, DateOf(dayStart)), homeBase)
        case Err(e) => Err(e)
        case Ok(ws) => Ok(before + ws)
  }

  /** Once a day fails, every longer run of days fails with the same error. */
  lemma {:induction false} FailurePersists(days: seq<(Instant, Instant)>, k: nat, sorted: seq<Appointment>, homeBase: Location)
    requires k <= |days|
    requires WindowsForDays(days[..k], sorted, homeBase).Err?
    ensures WindowsForDays(days, sorted, homeBase) == WindowsForDays(days[..k], sorted, homeBase)
    decreases |days| - k
  {
    if k == |days| {
      assert days[..k] == days;
    } else {
      assert days[..|days| - 1][..k] == days[..k];
      FailurePersists(days[..|days| - 1], k, sorted, homeBase);
    }
  }

  /** One more day extends a successful run of days by that day's windows, or fails with that day's error. */
  lemma WindowsForDaysExtend(days: seq<(Instant, Instant)>, i: nat, sorted: seq<Appointment>, homeBase: Location)
    requires i < |days|
    requires WindowsForDays(days[..i], sorted, homeBase).Ok?
    ensures WindowsForDays(days[..i + 1], sorted, homeBase)
      == match DayWindows(days[i].0, days[i].1, OnDate(sorted, DateOf(days[i].0)), homeBase)
         case Err(e) => Err(e)
         case Ok(ws) => Ok(WindowsForDays(days[..i], sorted, homeBase).value + ws)
  {
    assert days[..i + 1][..i] == days[..i];
  }

  /**
   * The body of the per-day loop for a day that has appointments: the leading window,
   * the pair loop over start-adjacent appointments, and the trailing window.
   */
  method AppointmentDayWindows(dayStart: Instant, dayEnd: Instant, dayAppointments: seq<Appointment>, homeBase: Location)
    returns (windows: seq<TimeWindow>)
    requires |dayAppointments| > 0
    ensures DayWindows(dayStart, dayEnd, dayAppointments, homeBase) == Ok(windows)
  {
    windows := [];
    var first := dayAppointments[0];
    if dayStart < first.startTime {
      windows := windows + [TimeWindow(dayStart, first.startTime, homeBase, first.location)];
    }
    ghost var leading := windows;
    assert leading == LeadingWindow(dayStart, first, homeBase);
    var j := 0;
    while j < |dayAppointments| - 1
      invariant 0 <= j <= |dayAppointments| - 1
      invariant windows == leading + GapWindows(dayAppointments[..j + 1])
    {
      var current, next := dayAppointments[j], dayAppointments[j + 1];
      assert dayAppointments[..j + 2][..j + 1] == dayAppointments[..j + 1];
      if current.endTime < next.startTime {
        windows := windows + [TimeWindow(current.endTime, next.startTime, current.location, next.location)];
      }
      j := j + 1;
    }
    assert dayAppointments[..j + 1] == dayAppointments;
    var last := dayAppointments[|dayAppointments| - 1];
    if last.endTime < dayEnd {
      windows := windows + [TimeWindow(last.endTime, dayEnd, last.location, homeBase)];
    }
    assert windows == leading + GapWindows(dayAppointments) + TrailingWindow(last, dayEnd, homeBase);
  }

  /**
   * `get_free_time_windows(appointments, start_date, days)`. A failed `TimeWindow`
   * construction, which Python raises, is an `Err`.
   */
  method GetFreeTimeWindows(
    appointments: seq<Appointment>, startDate: Option<Day>, days: int,
    homeBase: Location, settings: Settings, now: Instant)
    returns (r: Result<seq<TimeWindow>, TimeWindowError>)
    requires settings.Valid()
    ensures r == WindowsForDays(BusinessDays(startDate, days, now, settings), SortBy(appointments, StartKey), homeBase)
  {
    var businessHours := BusinessDaysDatetimes(startDate, days, now, settings);
    var sorted := SortBy(appointments, StartKey);
    var freeWindows: seq<TimeWindow> := [];
    var i := 0;
    while i < |businessHours|
      invariant 0 <= i <= |businessHours|
      invariant WindowsForDays(businessHours[..i], sorted, homeBase) == Ok(freeWindows)
    {
      var (dayStart, dayEnd) := businessHours[i];
      WindowsForDaysExtend(businessHours, i, sorted, homeBase);
      var dayAppointments := OnDate(sorted, DateOf(dayStart));
      if |dayAppointments| == 0 {
        var w := NewTimeWindow(dayStart, dayEnd, homeBase, homeBase);
        if w.Err? {
          r := Err(w.error);
          assert DayWindows(dayStart, dayEnd, dayAppointments, homeBase) == r;
          FailurePersists(businessHours, i + 1, sorted, homeBase);
          return;
        }
        assert DayWindows(dayStart, dayEnd, dayAppointments, homeBase) == Ok([w.value]);
        freeWindows := freeWindows + [w.value];
      } else {
        var dayWindows := AppointmentDayWindows(dayStart, dayEnd, dayAppointments, homeBase);
        freeWindows := freeWindows + dayWindows;
      }
      i := i + 1;
    }
    assert businessHours[..i] == businessHours;
    r := Ok(freeWindows);
  }
}
