/**
 * What the free-window computation guarantees: every window is a valid `TimeWindow`,
 * the windows of a day are the leading, gap and trailing windows and nothing else,
 * at most one more than the day has appointments, in chronological order, and, when
 * the day's appointments do not overlap and lie inside business hours, windows and
 * appointments together cover the business day exactly once.
 */
module FreeWindowProperties {

  import opened Wrappers
  import opened Datetime
  import opened Config
  import opened DateUtils
  import opened Sorting
  import opened Appointments
  import opened TimeWindows
  import opened FreeWindows

  /** The window `GapWindow` emits for the pair of appointments at `i` and `i + 1`. */
  function GapAt(day: seq<Appointment>, i: int): TimeWindow
    requires 0 <= i < |day| - 1
  {
    TimeWindow(day[i].endTime, day[i + 1].startTime, day[i].location, day[i + 1].location)
  }

  /** The appointment at `i` ends strictly before the next one in start order begins. */
  predicate HasGap(day: seq<Appointment>, i: int)
    requires 0 <= i < |day| - 1
  {
    day[i].endTime < day[i + 1].startTime
  }

  /**
   * Gap windows come only from start-adjacent pairs with a real gap, one per such pair;
   * back-to-back and overlapping pairs give none.
   */
  lemma {:induction false} GapWindowsMembers(day: seq<Appointment>)
    ensures forall w :: w in GapWindows(day) <==>
      exists i :: 0 <= i < |day| - 1 && HasGap(day, i) && w == GapAt(day, i)
    ensures |GapWindows(day)| <= if |day| == 0 then 0 else |day| - 1
  {
    if |day| >= 2 {
      var front := day[..|day| - 1];
      GapWindowsMembers(front);
      forall i | 0 <= i < |front| - 1 ensures HasGap(front, i) == HasGap(day, i) && GapAt(front, i) == GapAt(day, i) {
        assert front[i] == day[i] && front[i + 1] == day[i + 1];
      }
      var n := |day| - 2;
      assert GapWindows(day) == GapWindows(front) + GapWindow(day[n], day[n + 1]);
      forall w | w in GapWindows(day)
        ensures exists i :: 0 <= i < |day| - 1 && HasGap(day, i) && w == GapAt(day, i)
      {
        if w !in GapWindows(front) {
          assert HasGap(day, n) && w == GapAt(day, n);
        }
      }
      forall w | exists i :: 0 <= i < |day| - 1 && HasGap(day, i) && w == GapAt(day, i)
        ensures w in GapWindows(day)
      {
        var i :| 0 <= i < |day| - 1 && HasGap(day, i) && w == GapAt(day, i);
        if i < n {
          assert HasGap(front, i) && w == GapAt(front, i);
        }
      }
    }
  }

  /** Every window a day yields satisfies the `TimeWindow` invariant. */
  lemma {:induction false} GapWindowsValid(day: seq<Appointment>)
    ensures forall w :: w in GapWindows(day) ==> w.Valid()
  {
    GapWindowsMembers(day);
  }

  /** A day with no appointments yields the whole business day, from and to the home base, unless it is empty. */
  lemma EmptyDayWindows(dayStart: Instant, dayEnd: Instant, homeBase: Location)
    ensures DayWindows(dayStart, dayEnd, [], homeBase).Ok? <==> dayStart < dayEnd
    ensures dayStart < dayEnd ==>
      DayWindows(dayStart, dayEnd, [], homeBase) == Ok([TimeWindow(dayStart, dayEnd, homeBase, homeBase)])
  {
  }

  /**
   * The windows of a day with appointments: the leading window exactly when the day
   * starts before the first appointment, the gap windows, and the trailing window
   * exactly when the last appointment (in start order) ends before the day does.
   */
  lemma DayWindowsMembers(dayStart: Instant, dayEnd: Instant, day: seq<Appointment>, homeBase: Location)
    requires |day| > 0
    ensures DayWindows(dayStart, dayEnd, day, homeBase).Ok?
    ensures var ws := DayWindows(dayStart, dayEnd, day, homeBase).value;
      var first, last := day[0], day[|day| - 1];
      && (forall w :: w in ws <==>
           || (dayStart < first.startTime && w == TimeWindow(dayStart, first.startTime, homeBase, first.location))
           || (exists i :: 0 <= i < |day| - 1 && HasGap(day, i) && w == GapAt(day, i))
           || (last.endTime < dayEnd && w == TimeWindow(last.endTime, dayEnd, last.location, homeBase)))
      && (dayStart < first.startTime <==> |ws| > 0 && ws[0] == TimeWindow(dayStart, first.startTime, homeBase, first.location) && ws[0].Valid())
      && (last.endTime < dayEnd <==> |ws| > 0 && ws[|ws| - 1] == TimeWindow(last.endTime, dayEnd, last.location, homeBase) && ws[|ws| - 1].Valid())
      && |ws| <= |day| + 1
  {
    GapWindowsMembers(day);
    GapWindowsValid(day);
  }

  /** A day yields at most one window more than it has appointments, and every window is valid. */
  lemma DayWindowsBounded(dayStart: Instant, dayEnd: Instant, day: seq<Appointment>, homeBase: Location)
    requires DayWindows(dayStart, dayEnd, day, homeBase).Ok?
    ensures var ws := DayWindows(dayStart, dayEnd, day, homeBase).value;
      && |ws| <= |day| + 1
      && forall w :: w in ws ==> w.Valid()
  {
    if |day| > 0 {
      DayWindowsMembers(dayStart, dayEnd, day, homeBase);
      GapWindowsValid(day);
    }
  }

  /** Day `i` of the run has no appointments and a business-hours interval that does not end after it starts. */
  predicate EmptyClosedDay(days: seq<(Instant, Instant)>, sorted: seq<Appointment>, i: int)
    requires 0 <= i < |days|
  {
    |OnDate(sorted, DateOf(days[i].0))| == 0 && days[i].1 <= days[i].0
  }

  /**
   * A run of days fails exactly when some day without appointments has a business-hours
   * interval that does not end after it starts; otherwise every window is valid.
   */
  lemma WindowsForDaysOutcome(days: seq<(Instant, Instant)>, sorted: seq<Appointment>, homeBase: Location)
    ensures WindowsForDays(days, sorted, homeBase).Err? <==>
      exists i :: 0 <= i < |days| && EmptyClosedDay(days, sorted, i)
    ensures WindowsForDays(days, sorted, homeBase).Ok? ==>
      forall w :: w in WindowsForDays(days, sorted, homeBase).value ==> w.Valid()
  {
    WindowsForDaysFailure(days, sorted, homeBase);
    WindowsForDaysValid(days, sorted, homeBase);
  }

  /** The failing case alone: some day without appointments whose interval is empty or reversed. */
  lemma {:induction false} WindowsForDaysFailure(days: seq<(Instant, Instant)>, sorted: seq<Appointment>, homeBase: Location)
    ensures WindowsForDays(days, sorted, homeBase).Err? <==>
      exists i :: 0 <= i < |days| && EmptyClosedDay(days, sorted, i)
  {
    if |days| > 0 {
      var n := |days| - 1;
      var front := days[..n];
      WindowsForDaysFailure(front, sorted, homeBase);
      WindowsForDaysStep(days, sorted, homeBase);
      if WindowsForDays(front, sorted, homeBase).Err? {
        var i :| 0 <= i < n && EmptyClosedDay(front, sorted, i);
        assert front[i] == days[i];
        assert EmptyClosedDay(days, sorted, i);
      } else {
        forall i | 0 <= i < n ensures !EmptyClosedDay(days, sorted, i) {
          assert front[i] == days[i];
          assert !EmptyClosedDay(front, sorted, i);
        }
        if EmptyClosedDay(days, sorted, n) {
          assert exists i :: 0 <= i < |days| && EmptyClosedDay(days, sorted, i);
        }
      }
    }
  }

  /** One more day fails the run exactly when the shorter run fails or that day is empty and closed. */
  lemma WindowsForDaysStep(days: seq<(Instant, Instant)>, sorted: seq<Appointment>, homeBase: Location)
    requires |days| > 0
    ensures WindowsForDays(days, sorted, homeBase).Err? <==>
      WindowsForDays(days[..|days| - 1], sorted, homeBase).Err? || EmptyClosedDay(days, sorted, |days| - 1)
  {
    var (dayStart, dayEnd) := days[|days| - 1];
    var day := OnDate(sorted, DateOf(dayStart));
    assert DayWindows(dayStart, dayEnd, day, homeBase).Err? <==> EmptyClosedDay(days, sorted, |days| - 1);
  }

  /** The succeeding case alone: every window built ends after it starts. */
  lemma {:induction false} WindowsForDaysValid(days: seq<(Instant, Instant)>, sorted: seq<Appointment>, homeBase: Location)
    ensures WindowsForDays(days, sorted, homeBase).Ok? ==>
      forall w :: w in WindowsForDays(days, sorted, homeBase).value ==> w.Valid()
  {
    if |days| > 0 {
      var front := days[..|days| - 1];
      var (dayStart, dayEnd) := days[|days| - 1];
      WindowsForDaysValid(front, sorted, homeBase);
      var day := OnDate(sorted, DateOf(dayStart));
      if DayWindows(dayStart, dayEnd, day, homeBase).Ok? {
        DayWindowsBounded(dayStart, dayEnd, day, homeBase);
      }
    }
  }

  /**
   * With the configured business hours, the free windows of the look-ahead fail to build
   * exactly when closing time is not after opening time and some day has no appointment.
   */
  lemma FreeWindowsFailOnlyForEmptyBusinessDay(
    appointments: seq<Appointment>, startDate: Option<Day>, days: int,
    homeBase: Location, settings: Settings, now: Instant)
    requires settings.Valid()
    ensures var r := WindowsForDays(BusinessDays(startDate, days, now, settings), SortBy(appointments, StartKey), homeBase);
      && (r.Err? <==>
          && BusinessHoursEndTime(settings).Seconds() <= BusinessHoursStartTime(settings).Seconds()
          && exists d :: DateRange(startDate, days, now).0 <= d < DateRange(startDate, days, now).1 &&
               |OnDate(SortBy(appointments, StartKey), d)| == 0)
      && (r.Ok? ==> forall w :: w in r.value ==> w.Valid())
  {
    var bd := BusinessDays(startDate, days, now, settings);
    var sorted := SortBy(appointments, StartKey);
    var first := DateRange(startDate, days, now).0;
    var last := DateRange(startDate, days, now).1;
    WindowsForDaysOutcome(bd, sorted, homeBase);
    var closed := BusinessHoursEndTime(settings).Seconds() <= BusinessHoursStartTime(settings).Seconds();
    forall i | 0 <= i < |bd|
      ensures DateOf(bd[i].0) == first + i
      ensures EmptyClosedDay(bd, sorted, i) <==> closed && |OnDate(sorted, first + i)| == 0
    {
      var (s, e) := BusinessHoursForDate(first + i, settings);
      assert bd[i] == (s, e);
      assert s == DateOf(s) * SecondsPerDay + SecondOfDay(s);
      assert e == DateOf(e) * SecondsPerDay + SecondOfDay(e);
    }
    var r := WindowsForDays(bd, sorted, homeBase);
    if r.Err? {
      var i :| 0 <= i < |bd| && EmptyClosedDay(bd, sorted, i);
      assert first <= first + i < last && |OnDate(sorted, first + i)| == 0;
    }
    if closed && exists d :: first <= d < last && |OnDate(sorted, d)| == 0 {
      var d :| first <= d < last && |OnDate(sorted, d)| == 0;
      assert EmptyClosedDay(bd, sorted, d - first);
    }
  }

  /** Each window ends no later than the next one starts: the list is in time order and free of overlap. */
  ghost predicate Chronological(ws: seq<TimeWindow>)
  {
    forall i, j :: 0 <= i < j < |ws| ==> ws[i].endTime <= ws[j].startTime
  }

  /** The calendar's invariant for an appointment: it ends after it starts. */
  predicate WellFormed(a: Appointment)
  {
    a.startTime < a.endTime
  }

  lemma ChronologicalConcat(a: seq<TimeWindow>, b: seq<TimeWindow>)
    requires Chronological(a) && Chronological(b)
    requires forall x, y :: x in a && y in b ==> x.endTime <= y.startTime
    ensures Chronological(a + b)
  {
    forall i, j | 0 <= i < j < |a + b| ensures (a + b)[i].endTime <= (a + b)[j].startTime {
      if i < |a| && j >= |a| {
        assert (a + b)[i] in a && (a + b)[j] in b;
      }
    }
  }

  /** The date filter keeps exactly the appointments that start on the date. */
  lemma {:induction false} OnDateMembers(s: seq<Appointment>, d: Day)
    ensures forall a :: a in OnDate(s, d) <==> a in s && DateOf(a.startTime) == d
  {
    if |s| > 0 {
      var front, last := s[..|s| - 1], s[|s| - 1];
      OnDateMembers(front, d);
      assert s == front + [last];
      assert OnDate(s, d) == OnDate(front, d) + (if DateOf(last.startTime) == d then [last] else []);
    }
  }

  lemma {:induction false} OnDateSorted(s: seq<Appointment>, d: Day)
    requires SortedBy(s, StartKey)
    ensures SortedBy(OnDate(s, d), StartKey)
  {
    if |s| > 0 {
      var front, last := s[..|s| - 1], s[|s| - 1];
      assert SortedBy(front, StartKey);
      OnDateSorted(front, d);
      forall a | a in OnDate(front, d) ensures StartKey(a) <= StartKey(last) {
        var i :| 0 <= i < |front| && front[i] == a;
        assert s[i] == a;
      }
      var r := OnDate(front, d);
      var tail: seq<Appointment> := if DateOf(last.startTime) == d then [last] else [];
      forall i, j | 0 <= i < j < |r + tail| ensures StartKey((r + tail)[i]) <= StartKey((r + tail)[j]) {
        if j >= |r| {
          assert (r + tail)[i] in r;
        }
      }
    }
  }

  /** Gap windows come in time order, each after the first appointment starts and before the last one starts. */
  lemma {:induction false} GapWindowsChronological(day: seq<Appointment>)
    requires |day| > 0
    requires SortedBy(day, StartKey)
    requires forall a :: a in day ==> WellFormed(a)
    ensures Chronological(GapWindows(day))
    ensures forall w :: w in GapWindows(day) ==> day[0].startTime < w.startTime && w.endTime <= day[|day| - 1].startTime
  {
    if |day| >= 2 {
      var front := day[..|day| - 1];
      assert SortedBy(front, StartKey);
      GapWindowsChronological(front);
      var n := |day|;
      assert StartKey(day[0]) <= StartKey(day[n - 2]) <= StartKey(day[n - 1]);
      assert WellFormed(day[n - 2]);
      ChronologicalConcat(GapWindows(front), GapWindow(day[n - 2], day[n - 1]));
    }
  }

  /** The windows of a day come in time order, whatever overlaps its appointments have. */
  lemma DayWindowsChronological(dayStart: Instant, dayEnd: Instant, day: seq<Appointment>, homeBase: Location)
    requires SortedBy(day, StartKey)
    requires forall a :: a in day ==> WellFormed(a)
    requires DayWindows(dayStart, dayEnd, day, homeBase).Ok?
    ensures Chronological(DayWindows(dayStart, dayEnd, day, homeBase).value)
  {
    if |day| > 0 {
      var first, last := day[0], day[|day| - 1];
      GapWindowsChronological(day);
      assert StartKey(first) <= StartKey(last);
      assert WellFormed(last);
      var lead := LeadingWindow(dayStart, first, homeBase);
      var gaps := GapWindows(day);
      var trail := TrailingWindow(last, dayEnd, homeBase);
      ChronologicalConcat(lead, gaps);
      ChronologicalConcat(lead + gaps, trail);
      assert lead + gaps + trail == DayWindows(dayStart, dayEnd, day, homeBase).value;
    }
  }

  /** The windows of a day lie on that calendar day, given appointments that start on it. */
  lemma DayWindowsOnDate(dayStart: Instant, dayEnd: Instant, day: seq<Appointment>, homeBase: Location)
    requires DateOf(dayEnd) == DateOf(dayStart)
    requires forall a :: a in day ==> WellFormed(a) && DateOf(a.startTime) == DateOf(dayStart)
    requires DayWindows(dayStart, dayEnd, day, homeBase).Ok?
    ensures forall w :: w in DayWindows(dayStart, dayEnd, day, homeBase).value ==>
      DateOf(dayStart) * SecondsPerDay <= w.startTime && w.endTime < (DateOf(dayStart) + 1) * SecondsPerDay
  {
    var d := DateOf(dayStart);
    assert forall x :: DateOf(x) == d ==> d * SecondsPerDay <= x < (d + 1) * SecondsPerDay by {
      forall x | DateOf(x) == d ensures d * SecondsPerDay <= x < (d + 1) * SecondsPerDay {
        assert x == DateOf(x) * SecondsPerDay + SecondOfDay(x);
      }
    }
    if |day| > 0 {
      GapWindowsMembers(day);
      forall w | w in GapWindows(day)
        ensures d * SecondsPerDay <= w.startTime && w.endTime < (d + 1) * SecondsPerDay
      {
        var i :| 0 <= i < |day| - 1 && HasGap(day, i) && w == GapAt(day, i);
        assert day[i] in day && day[i + 1] in day;
      }
      assert day[0] in day && day[|day| - 1] in day;
    }
  }

  /** Over days on strictly later dates each, the windows of all days together come in time order. */
  lemma {:induction false} WindowsForDaysChronological(days: seq<(Instant, Instant)>, sorted: seq<Appointment>, homeBase: Location)
    requires SortedBy(sorted, StartKey)
    requires forall a :: a in sorted ==> WellFormed(a)
    requires forall i :: 0 <= i < |days| ==> DateOf(days[i].1) == DateOf(days[i].0)
    requires forall i, j :: 0 <= i < j < |days| ==> DateOf(days[i].0) < DateOf(days[j].0)
    requires WindowsForDays(days, sorted, homeBase).Ok?
    ensures Chronological(WindowsForDays(days, sorted, homeBase).value)
    ensures |days| > 0 ==> forall w :: w in WindowsForDays(days, sorted, homeBase).value ==>
      w.endTime < (DateOf(days[|days| - 1].0) + 1) * SecondsPerDay
  {
    if |days| > 0 {
      var front := days[..|days| - 1];
      var (dayStart, dayEnd) := days[|days| - 1];
      var d := DateOf(dayStart);
      var day := OnDate(sorted, d);
      var before := WindowsForDays(front, sorted, homeBase).value;
      WindowsForDaysChronological(front, sorted, homeBase);
      OnDateSorted(sorted, d);
      DayWindowsChronological(dayStart, dayEnd, day, homeBase);
      DayWindowsOnDate(dayStart, dayEnd, day, homeBase);
      var ws := DayWindows(dayStart, dayEnd, day, homeBase).value;
      if |front| > 0 {
        assert DateOf(front[|front| - 1].0) < d;
      }
      ChronologicalConcat(before, ws);
    }
  }

  /** `get_free_time_windows` lists its windows in time order when every appointment ends after it starts. */
  lemma FreeWindowsChronological(
    appointments: seq<Appointment>, startDate: Option<Day>, days: int,
    homeBase: Location, settings: Settings, now: Instant)
    requires settings.Valid()
    requires forall a :: a in appointments ==> WellFormed(a)
    requires WindowsForDays(BusinessDays(startDate, days, now, settings), SortBy(appointments, StartKey), homeBase).Ok?
    ensures Chronological(WindowsForDays(BusinessDays(startDate, days, now, settings), SortBy(appointments, StartKey), homeBase).value)
  {
    var sorted := SortBy(appointments, StartKey);
    SortedWellFormed(appointments);
    var bd := BusinessDays(startDate, days, now, settings);
    BusinessDaysDates(startDate, days, now, settings);
    WindowsForDaysChronological(bd, sorted, homeBase);
  }

  lemma SortedWellFormed(appointments: seq<Appointment>)
    requires forall a :: a in appointments ==> WellFormed(a)
    ensures SortedBy(SortBy(appointments, StartKey), StartKey)
    ensures forall a :: a in SortBy(appointments, StartKey) ==> WellFormed(a)
  {
    var sorted := SortBy(appointments, StartKey);
    SortByCorrect(appointments, StartKey);
    forall a | a in sorted ensures WellFormed(a) {
      assert a in multiset(sorted);
    }
  }

  /** Business days open and close on one date, and each is on a later date than the one before. */
  lemma BusinessDaysDates(startDate: Option<Day>, days: int, now: Instant, settings: Settings)
    requires settings.Valid()
    ensures var bd := BusinessDays(startDate, days, now, settings);
      (forall i :: 0 <= i < |bd| ==> DateOf(bd[i].1) == DateOf(bd[i].0)) &&
      (forall i, j :: 0 <= i < j < |bd| ==> DateOf(bd[i].0) < DateOf(bd[j].0))
  {
    var bd := BusinessDays(startDate, days, now, settings);
    var first := DateRange(startDate, days, now).0;
    forall i | 0 <= i < |bd| ensures DateOf(bd[i].0) == first + i && DateOf(bd[i].1) == first + i {
      var p := BusinessHoursForDate(first + i, settings);
      assert bd[i] == p;
    }
  }

  /** Each appointment of the day ends no later than the next one in start order begins. */
  ghost predicate NonOverlapping(day: seq<Appointment>)
  {
    forall i :: 0 <= i < |day| - 1 ==> day[i].endTime <= day[i + 1].startTime
  }

  /** Some window of `ws` contains the instant `t`. */
  ghost predicate InSomeWindow(ws: seq<TimeWindow>, t: Instant)
  {
    exists w :: w in ws && w.ContainsTime(t)
  }

  /** Some appointment of `day` is under way at the instant `t`. */
  ghost predicate Busy(day: seq<Appointment>, t: Instant)
  {
    exists a :: a in day && a.startTime <= t < a.endTime
  }

  lemma {:induction false} NonOverlappingOrdered(day: seq<Appointment>)
    requires NonOverlapping(day)
    requires forall a :: a in day ==> WellFormed(a)
    ensures forall i, j :: 0 <= i < j < |day| ==> day[i].endTime <= day[j].startTime
  {
    if |day| >= 2 {
      var n := |day|;
      var front := day[..n - 1];
      NonOverlappingOrdered(front);
      assert WellFormed(day[n - 2]);
      forall i | 0 <= i < n - 1 ensures day[i].endTime <= day[n - 1].startTime {
        if i < n - 2 {
          assert front[i] == day[i] && front[n - 2] == day[n - 2];
        }
      }
    }
  }

  /** The last appointment to have started by `t`, when the first one has. */
  lemma {:induction false} LastStarted(day: seq<Appointment>, t: Instant) returns (i: nat)
    requires |day| > 0 && day[0].startTime <= t
    ensures i < |day| && day[i].startTime <= t
    ensures i + 1 < |day| ==> t < day[i + 1].startTime
  {
    var n := |day|;
    if n == 1 || day[n - 1].startTime <= t {
      i := n - 1;
    } else {
      i := LastStarted(day[..n - 1], t);
      assert day[..n - 1][i] == day[i];
      if i + 1 < n - 1 {
        assert day[..n - 1][i + 1] == day[i + 1];
      }
    }
  }

  /** Between two start-adjacent non-overlapping appointments, no appointment is under way. */
  lemma NotBusyInGap(day: seq<Appointment>, i: int, t: Instant)
    requires NonOverlapping(day)
    requires forall a :: a in day ==> WellFormed(a)
    requires 0 <= i < |day| - 1 && day[i].endTime <= t < day[i + 1].startTime
    ensures !Busy(day, t)
  {
    NonOverlappingOrdered(day);
    assert WellFormed(day[i]) && WellFormed(day[i + 1]);
    forall a | a in day ensures t < a.startTime || a.endTime <= t {
      var k :| 0 <= k < |day| && day[k] == a;
      assert k < i ==> day[k].endTime <= day[i].startTime;
      assert k > i ==> day[i + 1].startTime <= day[k].startTime;
    }
  }

  /**
   * Between the start of the first and the end of the last of non-overlapping
   * appointments, an instant is in a gap window exactly when no appointment is under way.
   */
  lemma GapWindowsTiling(day: seq<Appointment>, t: Instant)
    requires |day| > 0
    requires NonOverlapping(day)
    requires forall a :: a in day ==> WellFormed(a)
    requires day[0].startTime <= t < day[|day| - 1].endTime
    ensures InSomeWindow(GapWindows(day), t) <==> !Busy(day, t)
  {
    GapWindowsMembers(day);
    forall w | w in GapWindows(day) && w.ContainsTime(t) ensures !Busy(day, t) {
      var i :| 0 <= i < |day| - 1 && HasGap(day, i) && w == GapAt(day, i);
      NotBusyInGap(day, i, t);
    }
    if !Busy(day, t) {
      var i := LastStarted(day, t);
      assert day[i] in day;
      assert i + 1 < |day|;
      assert HasGap(day, i);
      assert GapAt(day, i) in GapWindows(day) && GapAt(day, i).ContainsTime(t);
    }
  }

  /**
   * When a day's appointments do not overlap and lie within its business hours, an
   * instant of the business day is in a free window exactly when no appointment is
   * under way, and every window lies within the business day.
   */
  lemma DayWindowsTiling(dayStart: Instant, dayEnd: Instant, day: seq<Appointment>, homeBase: Location, t: Instant)
    requires NonOverlapping(day)
    requires forall a :: a in day ==> WellFormed(a)
    requires |day| > 0 ==> dayStart <= day[0].startTime && day[|day| - 1].endTime <= dayEnd
    requires DayWindows(dayStart, dayEnd, day, homeBase).Ok?
    requires dayStart <= t < dayEnd
    ensures InSomeWindow(DayWindows(dayStart, dayEnd, day, homeBase).value, t) <==> !Busy(day, t)
    ensures forall w :: w in DayWindows(dayStart, dayEnd, day, homeBase).value ==>
      dayStart <= w.startTime && w.endTime <= dayEnd
  {
    var ws := DayWindows(dayStart, dayEnd, day, homeBase).value;
    if |day| == 0 {
      assert ws[0] in ws && ws[0].ContainsTime(t);
    } else if t < day[0].startTime || day[|day| - 1].endTime <= t {
      TilingOutsideAppointments(dayStart, dayEnd, day, homeBase, t);
    } else {
      TilingAmongAppointments(dayStart, dayEnd, day, homeBase, t);
    }
    DayWindowsWithin(dayStart, dayEnd, day, homeBase);
  }

  /** Appointments within business hours leave every free window within business hours. */
  lemma DayWindowsWithin(dayStart: Instant, dayEnd: Instant, day: seq<Appointment>, homeBase: Location)
    requires NonOverlapping(day)
    requires forall a :: a in day ==> WellFormed(a)
    requires |day| > 0 ==> dayStart <= day[0].startTime && day[|day| - 1].endTime <= dayEnd
    requires DayWindows(dayStart, dayEnd, day, homeBase).Ok?
    ensures forall w :: w in DayWindows(dayStart, dayEnd, day, homeBase).value ==>
      dayStart <= w.startTime && w.endTime <= dayEnd
  {
    if |day| > 0 {
      var n := |day|;
      var first, last := day[0], day[n - 1];
      NonOverlappingOrdered(day);
      GapWindowsMembers(day);
      DayWindowsMembers(dayStart, dayEnd, day, homeBase);
      assert first in day && last in day;
      forall w | w in GapWindows(day) ensures first.startTime < w.startTime && w.endTime <= last.startTime {
        var i :| 0 <= i < n - 1 && HasGap(day, i) && w == GapAt(day, i);
        assert WellFormed(day[i]) && WellFormed(day[i + 1]);
      }
    }
  }

  /** Before the first appointment or after the last one, an instant of the business day is free and in a window. */
  lemma TilingOutsideAppointments(dayStart: Instant, dayEnd: Instant, day: seq<Appointment>, homeBase: Location, t: Instant)
    requires |day| > 0
    requires NonOverlapping(day)
    requires forall a :: a in day ==> WellFormed(a)
    requires dayStart <= day[0].startTime && day[|day| - 1].endTime <= dayEnd
    requires dayStart <= t < dayEnd
    requires t < day[0].startTime || day[|day| - 1].endTime <= t
    ensures InSomeWindow(DayWindows(dayStart, dayEnd, day, homeBase).value, t) && !Busy(day, t)
  {
    var ws := DayWindows(dayStart, dayEnd, day, homeBase).value;
    var n := |day|;
    var first, last := day[0], day[n - 1];
    NonOverlappingOrdered(day);
    DayWindowsMembers(dayStart, dayEnd, day, homeBase);
    if t < first.startTime {
      assert TimeWindow(dayStart, first.startTime, homeBase, first.location) in ws;
      forall a | a in day ensures !(a.startTime <= t < a.endTime) {
        var k :| 0 <= k < n && day[k] == a;
        if k > 0 {
          assert first in day && WellFormed(first);
        }
      }
    } else {
      assert TimeWindow(last.endTime, dayEnd, last.location, homeBase) in ws;
      forall a | a in day ensures !(a.startTime <= t < a.endTime) {
        var k :| 0 <= k < n && day[k] == a;
        if k < n - 1 {
          assert WellFormed(last);
        }
      }
    }
  }

  /** From the first start to the last end, an instant is in a window exactly when it is in a gap window. */
  lemma TilingAmongAppointments(dayStart: Instant, dayEnd: Instant, day: seq<Appointment>, homeBase: Location, t: Instant)
    requires |day| > 0
    requires NonOverlapping(day)
    requires forall a :: a in day ==> WellFormed(a)
    requires day[0].startTime <= t < day[|day| - 1].endTime
    ensures InSomeWindow(DayWindows(dayStart, dayEnd, day, homeBase).value, t) <==> !Busy(day, t)
  {
    var ws := DayWindows(dayStart, dayEnd, day, homeBase).value;
    GapWindowsTiling(day, t);
    DayWindowsMembers(dayStart, dayEnd, day, homeBase);
    assert forall w :: w in GapWindows(day) ==> w in ws;
    forall w | w in ws && w.ContainsTime(t) ensures w in GapWindows(day) {
    }
  }

  /** An appointment from `start` to `end` at `loc`, for the examples below. */
  function At(start: Instant, end: Instant, loc: Location): Appointment
  {
    Appointment("", "", start, end, (end - start) / SecondsPerMinute, loc, None, "", "")
  }

  /**
   * Gaps are taken only between start-adjacent appointments, so overlapping
   * appointments yield free windows inside a longer one: with 09:00-17:00,
   * 10:00-11:00 and 12:00-13:00 on a 09:00-18:00 day, 11:00-12:00 and 13:00-18:00
   * come out free although the first appointment runs until 17:00.
   */
  lemma OverlapYieldsBusyWindows(loc: Location)
    ensures var day := [At(9 * 3600, 17 * 3600, loc), At(10 * 3600, 11 * 3600, loc), At(12 * 3600, 13 * 3600, loc)];
      && SortedBy(day, StartKey)
      && DayWindows(9 * 3600, 18 * 3600, day, loc)
         == Ok([TimeWindow(11 * 3600, 12 * 3600, loc, loc), TimeWindow(13 * 3600, 18 * 3600, loc, loc)])
      && Busy(day, 11 * 3600) && Busy(day, 13 * 3600)
  {
    var day := [At(9 * 3600, 17 * 3600, loc), At(10 * 3600, 11 * 3600, loc), At(12 * 3600, 13 * 3600, loc)];
    assert day[..2] == [day[0], day[1]] && day[..2][..1] == [day[0]];
    assert GapWindows(day[..2]) == [];
    assert GapWindows(day) == [TimeWindow(11 * 3600, 12 * 3600, loc, loc)];
    assert LeadingWindow(9 * 3600, day[0], loc) == [];
    assert TrailingWindow(day[2], 18 * 3600, loc) == [TimeWindow(13 * 3600, 18 * 3600, loc, loc)];
    assert DayWindows(9 * 3600, 18 * 3600, day, loc)
      == Ok(LeadingWindow(9 * 3600, day[0], loc) + GapWindows(day) + TrailingWindow(day[2], 18 * 3600, loc));
    assert DayWindows(9 * 3600, 18 * 3600, day, loc).value
      == [TimeWindow(11 * 3600, 12 * 3600, loc, loc), TimeWindow(13 * 3600, 18 * 3600, loc, loc)];
    assert day[0] in day;
  }

  /**
   * An appointment that ends before opening time is not clipped to business hours:
   * a 07:00-08:00 appointment on a 09:00-18:00 day yields a window from 08:00.
   */
  lemma EarlyAppointmentWindow(loc: Location)
    ensures DayWindows(9 * 3600, 18 * 3600, [At(7 * 3600, 8 * 3600, loc)], loc)
      == Ok([TimeWindow(8 * 3600, 18 * 3600, loc, loc)])
  {
    var a := At(7 * 3600, 8 * 3600, loc);
    assert LeadingWindow(9 * 3600, a, loc) == [] && GapWindows([a]) == [];
    assert DayWindows(9 * 3600, 18 * 3600, [a], loc)
      == Ok(LeadingWindow(9 * 3600, a, loc) + GapWindows([a]) + TrailingWindow(a, 18 * 3600, loc));
    assert TrailingWindow(a, 18 * 3600, loc) == [TimeWindow(8 * 3600, 18 * 3600, loc, loc)];
    assert DayWindows(9 * 3600, 18 * 3600, [a], loc).value == [TimeWindow(8 * 3600, 18 * 3600, loc, loc)];
  }

  /**
   * A single 10:00-11:00 appointment at `x` on a 09:00-18:00 day yields two windows,
   * home to `x` before it and `x` to home after it; there is no pair to leave a gap.
   */
  lemma SingleAppointmentDay(home: Location, x: Location)
    ensures DayWindows(9 * 3600, 18 * 3600, [At(10 * 3600, 11 * 3600, x)], home)
      == Ok([TimeWindow(9 * 3600, 10 * 3600, home, x), TimeWindow(11 * 3600, 18 * 3600, x, home)])
  {
    var a := At(10 * 3600, 11 * 3600, x);
    assert LeadingWindow(9 * 3600, a, home) == [TimeWindow(9 * 3600, 10 * 3600, home, x)];
    assert TrailingWindow(a, 18 * 3600, home) == [TimeWindow(11 * 3600, 18 * 3600, x, home)];
    assert GapWindows([a]) == [];
    assert DayWindows(9 * 3600, 18 * 3600, [a], home)
      == Ok(LeadingWindow(9 * 3600, a, home) + GapWindows([a]) + TrailingWindow(a, 18 * 3600, home));
    assert DayWindows(9 * 3600, 18 * 3600, [a], home).value
      == [TimeWindow(9 * 3600, 10 * 3600, home, x), TimeWindow(11 * 3600, 18 * 3600, x, home)];
  }

  /**
   * Appointments 10:00-11:00 at `x` and 14:00-15:00 at `y` on a 09:00-18:00 day yield
   * three windows: before the first, between the two, and after the last.
   */
  lemma TwoAppointmentDay(home: Location, x: Location, y: Location)
    ensures DayWindows(9 * 3600, 18 * 3600, [At(10 * 3600, 11 * 3600, x), At(14 * 3600, 15 * 3600, y)], home)
      == Ok([TimeWindow(9 * 3600, 10 * 3600, home, x), TimeWindow(11 * 3600, 14 * 3600, x, y),
             TimeWindow(15 * 3600, 18 * 3600, y, home)])
  {
    var a, b := At(10 * 3600, 11 * 3600, x), At(14 * 3600, 15 * 3600, y);
    var day := [a, b];
    assert day[..1] == [a];
    assert LeadingWindow(9 * 3600, a, home) == [TimeWindow(9 * 3600, 10 * 3600, home, x)];
    assert GapWindows(day) == [TimeWindow(11 * 3600, 14 * 3600, x, y)];
    assert TrailingWindow(b, 18 * 3600, home) == [TimeWindow(15 * 3600, 18 * 3600, y, home)];
    assert DayWindows(9 * 3600, 18 * 3600, day, home)
      == Ok(LeadingWindow(9 * 3600, a, home) + GapWindows(day) + TrailingWindow(b, 18 * 3600, home));
    assert DayWindows(9 * 3600, 18 * 3600, day, home).value
      == [TimeWindow(9 * 3600, 10 * 3600, home, x), TimeWindow(11 * 3600, 14 * 3600, x, y),
          TimeWindow(15 * 3600, 18 * 3600, y, home)];
  }

  /** Business hours 18:00 to 09:00 pass the validators and load. */
  lemma ReversedHoursLoad()
    ensures var s := LoadSettings("18:00", "09:00", 15, 60, 7, 0.0, 0.0, "3600");
      && s == Ok(Settings("18:00", "09:00", 15, 60, 7, 0.0, 0.0, 3600))
      && BusinessHoursStartTime(s.value) == TimeOfDay(18, 0)
      && BusinessHoursEndTime(s.value) == TimeOfDay(9, 0)
  {
    DefaultCacheTtl();
    DefaultTimeTexts();
  }

  /**
   * With those reversed business hours, a day without appointments fails to build
   * its free window, so the whole look-ahead fails.
   */
  lemma ReversedHoursEmptyDay(s: Settings, homeBase: Location, d: Day, now: Instant)
    requires s.Valid()
    requires BusinessHoursStartTime(s) == TimeOfDay(18, 0) && BusinessHoursEndTime(s) == TimeOfDay(9, 0)
    ensures WindowsForDays(BusinessDays(Some(d), 1, now, s), [], homeBase) == Err(EndNotAfterStart)
  {
    var days := BusinessDays(Some(d), 1, now, s);
    var (open, close) := BusinessHoursForDate(d, s);
    assert open == d * SecondsPerDay + 18 * 3600 && close == d * SecondsPerDay + 9 * 3600;
    assert DateRange(Some(d), 1, now).0 == d;
    assert |days| == 1 && days[0] == BusinessHoursForDate(d, s);
    assert days == [(open, close)];
    assert days[..0] == [];
    assert OnDate([], DateOf(open)) == [];
    assert DayWindows(open, close, [], homeBase) == Err(EndNotAfterStart);
  }
}
