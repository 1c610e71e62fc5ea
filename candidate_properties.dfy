/**
 * What the candidate generator guarantees: every candidate lasts exactly the requested
 * duration and ends in time to travel on, its start lies on the interval grid from the
 * rounded earliest start, starts increase strictly, every grid start that fits is
 * produced, scores follow the travel-times-factor formula, and a window too short for
 * the appointment and both buffers yields nothing and causes no lookups.
 */
module CandidateProperties {

  import opened Wrappers
  import opened Datetime
  import opened DateUtils
  import opened Appointments
  import opened TimeWindows
  import opened CandidateSlots
  import opened Candidates

  lemma StepStartNext(first: Instant, interval: int, k: int)
    ensures StepStart(AddMinutes(first, interval), interval, k) == StepStart(first, interval, k + 1)
  {
    assert (k + 1) * interval == k * interval + interval;
  }

  /**
   * Every candidate from `current` on starts on the grid from `current`, no later than
   * the latest start, lasts `duration` minutes, ends no later than the latest end, and
   * is the slot of its start.
   */
  lemma {:induction false} StepsShape(w: TimeWindow, lead: Location, duration: int, b: Bounds, interval: int, current: Instant)
    requires interval > 0
    ensures forall c :: c in Steps(w, lead, duration, b, interval, current) ==>
      && current <= c.startTime <= b.latest
      && c.endTime == c.startTime + duration * SecondsPerMinute
      && c.endTime <= b.latestEnd
      && c == SlotAt(w, lead, duration, b, c.startTime)
      && exists k :: 0 <= k && c.startTime == StepStart(current, interval, k)
    decreases b.latest - current
  {
    if current <= b.latest && AddMinutes(current, duration) <= b.latestEnd {
      var next := AddMinutes(current, interval);
      StepsShape(w, lead, duration, b, interval, next);
      assert StepStart(current, interval, 0) == current;
      forall k | 0 <= k ensures StepStart(next, interval, k) == StepStart(current, interval, k + 1) {
        StepStartNext(current, interval, k);
      }
    }
  }

  /** Each slot of `s` starts `step` seconds after the one before it. */
  ghost predicate Spaced(s: seq<CandidateSlot>, step: int)
  {
    forall i :: 0 <= i < |s| - 1 ==> s[i + 1].startTime == s[i].startTime + step
  }

  /** Consecutive candidates of a window start exactly one interval apart. */
  lemma {:induction false} StepsSpacing(w: TimeWindow, lead: Location, duration: int, b: Bounds, interval: int, current: Instant)
    requires interval > 0
    ensures Spaced(Steps(w, lead, duration, b, interval, current), interval * SecondsPerMinute)
    decreases b.latest - current
  {
    if current <= b.latest && AddMinutes(current, duration) <= b.latestEnd {
      var next := AddMinutes(current, interval);
      StepsSpacing(w, lead, duration, b, interval, next);
      var s := Steps(w, lead, duration, b, interval, current);
      var rest := Steps(w, lead, duration, b, interval, next);
      assert s == [SlotAt(w, lead, duration, b, current)] + rest;
      forall i | 0 <= i < |s| - 1 ensures s[i + 1].startTime == s[i].startTime + interval * SecondsPerMinute {
        if i == 0 {
          assert rest[0] == SlotAt(w, lead, duration, b, next);
        } else {
          assert s[i + 1] == rest[i] && s[i] == rest[i - 1];
          assert rest[(i - 1) + 1].startTime == rest[i - 1].startTime + interval * SecondsPerMinute;
        }
      }
    }
  }

  /** Starts that advance by a positive step from each slot to the next increase strictly. */
  lemma {:induction false} IncreasingFromSpacing(s: seq<CandidateSlot>, step: int, i: int, j: int)
    requires step > 0
    requires Spaced(s, step)
    requires 0 <= i < j < |s|
    ensures s[i].startTime < s[j].startTime
    decreases j - i
  {
    if j > i + 1 {
      IncreasingFromSpacing(s, step, i, j - 1);
    }
  }

  /** Consecutive candidates of a window start exactly one interval apart, so starts increase strictly. */
  lemma StepsOrder(w: TimeWindow, lead: Location, duration: int, b: Bounds, interval: int, current: Instant)
    requires interval > 0
    ensures var s := Steps(w, lead, duration, b, interval, current);
      && (forall i :: 0 <= i < |s| - 1 ==> s[i + 1].startTime == s[i].startTime + interval * SecondsPerMinute)
      && (forall i, j :: 0 <= i < j < |s| ==> s[i].startTime < s[j].startTime)
  {
    var s := Steps(w, lead, duration, b, interval, current);
    var step := interval * SecondsPerMinute;
    StepsSpacing(w, lead, duration, b, interval, current);
    forall i, j | 0 <= i < j < |s| ensures s[i].startTime < s[j].startTime {
      IncreasingFromSpacing(s, step, i, j);
    }
  }

  /** Every grid start from `current` that is no later than the latest start and leaves room to end in time is produced. */
  lemma {:induction false} StepsComplete(w: TimeWindow, lead: Location, duration: int, b: Bounds, interval: int, current: Instant, k: nat)
    requires interval > 0
    requires StepStart(current, interval, k) <= b.latest
    requires AddMinutes(StepStart(current, interval, k), duration) <= b.latestEnd
    ensures exists c :: c in Steps(w, lead, duration, b, interval, current) && c.startTime == StepStart(current, interval, k)
    decreases k
  {
    assert current <= StepStart(current, interval, k);
    var s := Steps(w, lead, duration, b, interval, current);
    if k == 0 {
      assert s[0].startTime == current;
    } else {
      var next := AddMinutes(current, interval);
      StepStartNext(current, interval, k - 1);
      StepsComplete(w, lead, duration, b, interval, next, k - 1);
      var c :| c in Steps(w, lead, duration, b, interval, next) && c.startTime == StepStart(current, interval, k);
      assert c in s;
    }
  }

  /** `start` is on the interval grid from `first`. */
  ghost predicate OnGrid(first: Instant, interval: int, start: Instant)
  {
    exists k :: 0 <= k && start == StepStart(first, interval, k)
  }

  /** Some candidate of `cs` starts at `start`. */
  ghost predicate StartsAt(cs: seq<CandidateSlot>, start: Instant)
  {
    exists c :: c in cs && c.startTime == start
  }

  /** From `current` on, a start is produced exactly when it is on the grid, no later than the latest start, and leaves room to end in time. */
  lemma StepsExactly(w: TimeWindow, lead: Location, duration: int, b: Bounds, interval: int, current: Instant)
    requires interval > 0
    ensures forall s :: StartsAt(Steps(w, lead, duration, b, interval, current), s) <==>
      OnGrid(current, interval, s) && s <= b.latest && AddMinutes(s, duration) <= b.latestEnd
  {
    StepsShape(w, lead, duration, b, interval, current);
    forall s | OnGrid(current, interval, s) && s <= b.latest && AddMinutes(s, duration) <= b.latestEnd
      ensures StartsAt(Steps(w, lead, duration, b, interval, current), s)
    {
      var k :| 0 <= k && s == StepStart(current, interval, k);
      StepsComplete(w, lead, duration, b, interval, current, k);
    }
  }

  /** Given its bounds, a long-enough window yields the steps from its rounded earliest start, or nothing when that is after the rounded latest start. */
  lemma WindowCandidatesOfBounds(
    w: TimeWindow, lead: Location, duration: int, interval: int, buffer: int, travel: Lookup -> int, b: Bounds)
    requires interval > 0
    requires w.IsValidForDuration(duration, buffer)
    requires WindowBounds(w, lead, duration, interval, buffer, travel) == Ok(b)
    ensures WindowCandidates(w, lead, duration, interval, buffer, travel)
      == if b.earliest > b.latest then Ok([]) else Ok(Steps(w, lead, duration, b, interval, b.earliest))
  {
  }

  /**
   * A window long enough for the appointment and both buffers, whose roundings succeed,
   * yields exactly the slots at the grid starts from the rounded earliest start that are
   * no later than the rounded latest start and end no later than the window end less
   * travel out and buffer, in strictly increasing start order.
   */
  lemma WindowCandidatesExactly(
    w: TimeWindow, lead: Location, duration: int, interval: int, buffer: int, travel: Lookup -> int, b: Bounds)
    requires interval > 0
    requires w.IsValidForDuration(duration, buffer)
    requires WindowBounds(w, lead, duration, interval, buffer, travel) == Ok(b)
    ensures WindowCandidates(w, lead, duration, interval, buffer, travel).Ok?
    ensures var cs := WindowCandidates(w, lead, duration, interval, buffer, travel).value;
      && (forall s :: StartsAt(cs, s) <==> OnGrid(b.earliest, interval, s) && s <= b.latest && AddMinutes(s, duration) <= b.latestEnd)
      && (forall c :: c in cs ==> c == SlotAt(w, lead, duration, b, c.startTime))
      && (forall i, j :: 0 <= i < j < |cs| ==> cs[i].startTime < cs[j].startTime)
  {
    WindowCandidatesOfBounds(w, lead, duration, interval, buffer, travel, b);
    if b.earliest <= b.latest {
      var cs := Steps(w, lead, duration, b, interval, b.earliest);
      assert WindowCandidates(w, lead, duration, interval, buffer, travel) == Ok(cs);
      StepsAreSlots(w, lead, duration, b, interval, b.earliest);
      StepsOrder(w, lead, duration, b, interval, b.earliest);
      StepsExactly(w, lead, duration, b, interval, b.earliest);
    } else {
      assert WindowCandidates(w, lead, duration, interval, buffer, travel) == Ok([]);
      NoGridStartBeforeEarliest(b, interval);
    }
  }

  /** Every generated slot is the slot at its own start. */
  lemma StepsAreSlots(w: TimeWindow, lead: Location, duration: int, b: Bounds, interval: int, current: Instant)
    requires interval > 0
    ensures forall c :: c in Steps(w, lead, duration, b, interval, current) ==> c == SlotAt(w, lead, duration, b, c.startTime)
  {
    StepsShape(w, lead, duration, b, interval, current);
  }

  /** When the rounded earliest start is after the rounded latest start, no grid start is early enough. */
  lemma NoGridStartBeforeEarliest(b: Bounds, interval: int)
    requires interval > 0
    requires b.latest < b.earliest
    ensures forall s :: OnGrid(b.earliest, interval, s) ==> b.latest < s
  {
    forall s | OnGrid(b.earliest, interval, s) ensures b.latest < s {
      var k :| 0 <= k && s == StepStart(b.earliest, interval, k);
      assert k * interval * SecondsPerMinute >= 0;
    }
  }

  /**
   * Every candidate of a window lasts exactly `duration` minutes, ends no later than the
   * window end less travel out and buffer, and carries the window's travel times, its
   * locations and the score of its start hour.
   */
  lemma WindowCandidatesShape(w: TimeWindow, lead: Location, duration: int, interval: int, buffer: int, travel: Lookup -> int)
    requires interval > 0
    requires WindowCandidates(w, lead, duration, interval, buffer, travel).Ok?
    ensures var to, from := travel((w.startLocation, lead)), travel((lead, w.endLocation));
      forall c :: c in WindowCandidates(w, lead, duration, interval, buffer, travel).value ==>
        && w.IsValidForDuration(duration, buffer)
        && c.endTime == c.startTime + duration * SecondsPerMinute
        && c.DurationMinutes() == duration
        && c.endTime <= w.endTime - (from + buffer) * SecondsPerMinute
        && c.leadLocation == lead
        && c.previousLocation == Some(w.startLocation) && c.nextLocation == Some(w.endLocation)
        && c.travelTimeToMinutes == to && c.travelTimeFromMinutes == from
        && c.TotalTravelTimeMinutes() == to + from
        && c.efficiencyScore == Score(to + from, Hour(c.startTime))
  {
    if w.IsValidForDuration(duration, buffer) {
      var b := WindowBounds(w, lead, duration, interval, buffer, travel).value;
      if b.earliest <= b.latest {
        var cs := Steps(w, lead, duration, b, interval, b.earliest);
        assert WindowCandidates(w, lead, duration, interval, buffer, travel) == Ok(cs);
        StepsShape(w, lead, duration, b, interval, b.earliest);
        forall c | c in cs ensures c.DurationMinutes() == duration {
          DurationOfWholeMinutes(c, duration);
        }
      }
    }
  }

  /**
   * The rounded earliest start lies within half an interval, less a minute for the
   * dropped seconds, of the window start plus travel into it and buffer; it can be
   * earlier than that instant, and only the end of a candidate is checked again.
   */
  lemma EarliestNearTravel(w: TimeWindow, lead: Location, duration: int, interval: int, buffer: int, travel: Lookup -> int)
    requires interval > 0
    requires WindowBounds(w, lead, duration, interval, buffer, travel).Ok?
    ensures var b := WindowBounds(w, lead, duration, interval, buffer, travel).value;
      var arrival := AddMinutes(w.startTime, b.travelTo + buffer);
      -interval * SecondsPerMinute - 2 * SecondsPerMinute < 2 * (b.earliest - arrival) <= interval * SecondsPerMinute
  {
    var b := WindowBounds(w, lead, duration, interval, buffer, travel).value;
    var arrival := AddMinutes(w.startTime, b.travelTo + buffer);
    RoundToNearestShape(arrival, interval);
    var m := MinuteOfDay(arrival);
    var rounded := RoundedMinuteOfDay(arrival, interval);
    assert b.earliest - arrival == rounded * SecondsPerMinute - SecondOfDay(arrival);
  }

  /**
   * With the default 15-minute buffer and interval, 7 minutes of travel into a window
   * opening at 09:00 give an arrival of 09:22, which rounds down to 09:15.
   */
  lemma EarliestBelowArrival(home: Location, lead: Location, travel: Lookup -> int)
    requires forall l :: travel(l) == 7
    ensures var w := TimeWindow(9 * 3600, 18 * 3600, home, home);
      var r := WindowBounds(w, lead, 60, 15, 15, travel);
      && r.Ok?
      && r.value.earliest == 9 * 3600 + 15 * 60
      && r.value.earliest < AddMinutes(w.startTime, 7 + 15)
  {
    var w := TimeWindow(9 * 3600, 18 * 3600, home, home);
    assert MinuteOfDay(9 * 3600 + 22 * 60) == 562;
    assert RoundHalfEven(562, 15) == 37;
    assert MinuteOfDay(17 * 3600 + 30 * 60 - 60 * 60) == 990;
    assert RoundHalfEven(990, 15) == 66;
  }

  /**
   * A 09:00-18:00 window with 15 minutes of travel each way, the default buffer and
   * interval and a one-hour appointment: candidates start every 15 minutes from 09:30,
   * the last one ending at 17:30.
   */
  lemma FullDayScenario(home: Location, lead: Location, travel: Lookup -> int)
    requires forall l :: travel(l) == 15
    ensures var w := TimeWindow(9 * 3600, 18 * 3600, home, home);
      var r := WindowCandidates(w, lead, 60, 15, 15, travel);
      && r.Ok? && |r.value| > 0
      && r.value[0].startTime == 9 * 3600 + 30 * 60
      && StartsAt(r.value, 16 * 3600 + 30 * 60)
      && forall c :: c in r.value ==> c.endTime <= 17 * 3600 + 30 * 60
  {
    var w := TimeWindow(9 * 3600, 18 * 3600, home, home);
    assert w.DurationMinutes() == 540;
    assert MinuteOfDay(9 * 3600 + 30 * 60) == 570;
    assert RoundHalfEven(570, 15) == 38;
    assert RoundToNearest(9 * 3600 + 30 * 60, 15) == Ok(9 * 3600 + 30 * 60);
    assert MinuteOfDay(16 * 3600 + 30 * 60) == 990;
    assert RoundHalfEven(990, 15) == 66;
    assert RoundToNearest(16 * 3600 + 30 * 60, 15) == Ok(16 * 3600 + 30 * 60);
    var b := Bounds(15, 15, 9 * 3600 + 30 * 60, 17 * 3600 + 30 * 60, 16 * 3600 + 30 * 60);
    assert WindowBounds(w, lead, 60, 15, 15, travel) == Ok(b);
    WindowCandidatesShape(w, lead, 60, 15, 15, travel);
    WindowCandidatesExactly(w, lead, 60, 15, 15, travel, b);
    var last := 16 * 3600 + 30 * 60;
    assert last == StepStart(b.earliest, 15, 28);
    assert OnGrid(b.earliest, 15, last);
  }

  /**
   * The candidate-generation test: a 09:00-17:00 window from and to the home base, 15
   * minutes of travel each way, the default buffer and interval and a one-hour visit.
   * There are candidates, from 09:30 to 15:30; each is for the lead, carries 15 minutes
   * of travel each way, lasts 60 minutes and ends by 16:30.
   */
  lemma TestWindowScenario(home: Location, lead: Location, travel: Lookup -> int)
    requires forall l :: travel(l) == 15
    ensures var w := TimeWindow(9 * 3600, 17 * 3600, home, home);
      var r := WindowCandidates(w, lead, 60, 15, 15, travel);
      && r.Ok? && |r.value| > 0
      && r.value[0].startTime == 9 * 3600 + 30 * 60
      && StartsAt(r.value, 15 * 3600 + 30 * 60)
      && forall c :: c in r.value ==>
        && c.leadLocation == lead
        && c.travelTimeToMinutes == 15 && c.travelTimeFromMinutes == 15
        && c.endTime == c.startTime + 60 * 60
        && c.DurationMinutes() == 60
        && c.startTime <= 15 * 3600 + 30 * 60
        && c.endTime <= 16 * 3600 + 30 * 60
  {
    var w := TimeWindow(9 * 3600, 17 * 3600, home, home);
    assert w.DurationMinutes() == 480;
    assert MinuteOfDay(9 * 3600 + 30 * 60) == 570;
    assert RoundHalfEven(570, 15) == 38;
    assert RoundToNearest(9 * 3600 + 30 * 60, 15) == Ok(9 * 3600 + 30 * 60);
    assert MinuteOfDay(15 * 3600 + 30 * 60) == 930;
    assert RoundHalfEven(930, 15) == 62;
    assert RoundToNearest(15 * 3600 + 30 * 60, 15) == Ok(15 * 3600 + 30 * 60);
    var b := Bounds(15, 15, 9 * 3600 + 30 * 60, 16 * 3600 + 30 * 60, 15 * 3600 + 30 * 60);
    assert WindowBounds(w, lead, 60, 15, 15, travel) == Ok(b);
    WindowCandidatesShape(w, lead, 60, 15, 15, travel);
    WindowCandidatesExactly(w, lead, 60, 15, 15, travel, b);
    var last := 15 * 3600 + 30 * 60;
    assert last == StepStart(b.earliest, 15, 24);
    assert OnGrid(b.earliest, 15, last);
  }

  /**
   * The same window steps through the same grid for two visit lengths; the longer one
   * stops no later, so its starts are the first of the shorter one's.
   */
  lemma {:induction false} StepsShorterForLonger(
    w: TimeWindow, lead: Location, d1: int, d2: int, b1: Bounds, b2: Bounds, interval: int, current: Instant)
    requires interval > 0 && d1 <= d2
    requires b2.latest <= b1.latest && b2.latestEnd == b1.latestEnd
    ensures var s1, s2 := Steps(w, lead, d1, b1, interval, current), Steps(w, lead, d2, b2, interval, current);
      && |s2| <= |s1|
      && forall i :: 0 <= i < |s2| ==> s2[i].startTime == s1[i].startTime
    decreases b1.latest - current
  {
    if current <= b2.latest && AddMinutes(current, d2) <= b2.latestEnd {
      var next := AddMinutes(current, interval);
      StepsShorterForLonger(w, lead, d1, d2, b1, b2, interval, next);
      var s1, s2 := Steps(w, lead, d1, b1, interval, current), Steps(w, lead, d2, b2, interval, current);
      var t1, t2 := Steps(w, lead, d1, b1, interval, next), Steps(w, lead, d2, b2, interval, next);
      assert s1 == [SlotAt(w, lead, d1, b1, current)] + t1;
      assert s2 == [SlotAt(w, lead, d2, b2, current)] + t2;
      forall i | 0 <= i < |s2| ensures s2[i].startTime == s1[i].startTime {
        if i > 0 {
          assert s2[i] == t2[i - 1] && s1[i] == t1[i - 1];
        }
      }
    }
  }

  /**
   * A longer visit never yields more candidates from a window than a shorter one, and
   * its start times are the first of the shorter visit's: the earliest start and the
   * latest end do not depend on the visit length, and the latest start only moves earlier.
   */
  lemma LongerVisitFewerCandidates(
    w: TimeWindow, lead: Location, d1: int, d2: int, interval: int, buffer: int, travel: Lookup -> int)
    requires interval > 0 && d1 <= d2
    requires WindowCandidates(w, lead, d1, interval, buffer, travel).Ok?
    requires WindowCandidates(w, lead, d2, interval, buffer, travel).Ok?
    ensures var r1, r2 := WindowCandidates(w, lead, d1, interval, buffer, travel).value,
                          WindowCandidates(w, lead, d2, interval, buffer, travel).value;
      && |r2| <= |r1|
      && forall i :: 0 <= i < |r2| ==> r2[i].startTime == r1[i].startTime
  {
    IsValidForDurationMonotone(w, d1, d2, buffer);
    if w.IsValidForDuration(d2, buffer) {
      var b1 := WindowBounds(w, lead, d1, interval, buffer, travel).value;
      var b2 := WindowBounds(w, lead, d2, interval, buffer, travel).value;
      BoundsShorterForLonger(w, lead, d1, d2, interval, buffer, travel);
      WindowCandidatesOfBounds(w, lead, d1, interval, buffer, travel, b1);
      WindowCandidatesOfBounds(w, lead, d2, interval, buffer, travel, b2);
      if b2.earliest <= b2.latest {
        StepsShorterForLonger(w, lead, d1, d2, b1, b2, interval, b1.earliest);
      }
    }
  }

  /** The earliest start and the latest end do not depend on the visit length, and a longer visit's latest start is no later. */
  lemma BoundsShorterForLonger(
    w: TimeWindow, lead: Location, d1: int, d2: int, interval: int, buffer: int, travel: Lookup -> int)
    requires interval > 0 && d1 <= d2
    requires WindowBounds(w, lead, d1, interval, buffer, travel).Ok?
    requires WindowBounds(w, lead, d2, interval, buffer, travel).Ok?
    ensures var b1, b2 := WindowBounds(w, lead, d1, interval, buffer, travel).value,
                          WindowBounds(w, lead, d2, interval, buffer, travel).value;
      b1.earliest == b2.earliest && b1.latestEnd == b2.latestEnd && b2.latest <= b1.latest
  {
    var b1 := WindowBounds(w, lead, d1, interval, buffer, travel).value;
    var b2 := WindowBounds(w, lead, d2, interval, buffer, travel).value;
    assert b1.travelFrom == b2.travelFrom;
    var t1, t2 := b1.latestEnd - d1 * SecondsPerMinute, b1.latestEnd - d2 * SecondsPerMinute;
    assert RoundToNearest(t1, interval) == Ok(b1.latest);
    assert RoundToNearest(t2, interval) == Ok(b2.latest);
    RoundToNearestMonotone(t2, t1, interval);
  }

  /**
   * The candidates of all windows come from the windows in order; the run fails exactly
   * when some long-enough window fails to round; every lookup is a pair of a long-enough
   * window, two per such window.
   */
  lemma AllCandidatesFromWindows(
    ws: seq<TimeWindow>, lead: Location, duration: int, interval: int, buffer: int, travel: Lookup -> int)
    requires interval > 0
    ensures AllCandidates(ws, lead, duration, interval, buffer, travel).Err? <==>
      exists i :: 0 <= i < |ws| && WindowCandidates(ws[i], lead, duration, interval, buffer, travel).Err?
    ensures AllCandidates(ws, lead, duration, interval, buffer, travel).Ok? ==>
      forall c :: c in AllCandidates(ws, lead, duration, interval, buffer, travel).value ==>
        exists i :: 0 <= i < |ws| && WindowCandidates(ws[i], lead, duration, interval, buffer, travel).Ok?
          && c in WindowCandidates(ws[i], lead, duration, interval, buffer, travel).value
    ensures forall l :: l in AllLookups(ws, lead, duration, buffer) ==>
      exists i :: 0 <= i < |ws| && ws[i].IsValidForDuration(duration, buffer)
        && (l == (ws[i].startLocation, lead) || l == (lead, ws[i].endLocation))
  {
    AllCandidatesFailure(ws, lead, duration, interval, buffer, travel);
    AllCandidatesMembers(ws, lead, duration, interval, buffer, travel);
    AllLookupsMembers(ws, lead, duration, buffer);
  }

  lemma {:induction false} AllCandidatesFailure(
    ws: seq<TimeWindow>, lead: Location, duration: int, interval: int, buffer: int, travel: Lookup -> int)
    requires interval > 0
    ensures AllCandidates(ws, lead, duration, interval, buffer, travel).Err? <==>
      exists i :: 0 <= i < |ws| && WindowCandidates(ws[i], lead, duration, interval, buffer, travel).Err?
  {
    if |ws| > 0 {
      var front := ws[..|ws| - 1];
      var n := |ws| - 1;
      AllCandidatesFailure(front, lead, duration, interval, buffer, travel);
      assert forall i :: 0 <= i < |front| ==> front[i] == ws[i];
      if AllCandidates(ws, lead, duration, interval, buffer, travel).Err? && AllCandidates(front, lead, duration, interval, buffer, travel).Ok? {
        assert WindowCandidates(ws[n], lead, duration, interval, buffer, travel).Err?;
      }
    }
  }

  lemma {:induction false} AllCandidatesMembers(
    ws: seq<TimeWindow>, lead: Location, duration: int, interval: int, buffer: int, travel: Lookup -> int)
    requires interval > 0
    ensures AllCandidates(ws, lead, duration, interval, buffer, travel).Ok? ==>
      forall c :: c in AllCandidates(ws, lead, duration, interval, buffer, travel).value ==>
        exists i :: 0 <= i < |ws| && WindowCandidates(ws[i], lead, duration, interval, buffer, travel).Ok?
          && c in WindowCandidates(ws[i], lead, duration, interval, buffer, travel).value
  {
    if |ws| > 0 && AllCandidates(ws, lead, duration, interval, buffer, travel).Ok? {
      var front := ws[..|ws| - 1];
      var n := |ws| - 1;
      AllCandidatesMembers(front, lead, duration, interval, buffer, travel);
      assert forall i :: 0 <= i < |front| ==> front[i] == ws[i];
      forall c | c in AllCandidates(ws, lead, duration, interval, buffer, travel).value
        ensures exists i :: (0 <= i < |ws| && WindowCandidates(ws[i], lead, duration, interval, buffer, travel).Ok?
          && c in WindowCandidates(ws[i], lead, duration, interval, buffer, travel).value)
      {
        if c !in AllCandidates(front, lead, duration, interval, buffer, travel).value {
          assert c in WindowCandidates(ws[n], lead, duration, interval, buffer, travel).value;
        }
      }
    }
  }

  lemma {:induction false} AllLookupsMembers(ws: seq<TimeWindow>, lead: Location, duration: int, buffer: int)
    ensures forall l :: l in AllLookups(ws, lead, duration, buffer) ==>
      exists i :: 0 <= i < |ws| && ws[i].IsValidForDuration(duration, buffer)
        && (l == (ws[i].startLocation, lead) || l == (lead, ws[i].endLocation))
  {
    if |ws| > 0 {
      var front := ws[..|ws| - 1];
      var n := |ws| - 1;
      AllLookupsMembers(front, lead, duration, buffer);
      assert forall i :: 0 <= i < |front| ==> front[i] == ws[i];
      forall l | l in AllLookups(ws, lead, duration, buffer)
        ensures exists i :: (0 <= i < |ws| && ws[i].IsValidForDuration(duration, buffer)
          && (l == (ws[i].startLocation, lead) || l == (lead, ws[i].endLocation)))
      {
        if l !in AllLookups(front, lead, duration, buffer) {
          assert ws[n].IsValidForDuration(duration, buffer);
        }
      }
    }
  }

  /** A window too short for the appointment and both buffers contributes neither candidates nor lookups, whatever the travel times. */
  lemma ShortWindowContributesNothing(
    ws: seq<TimeWindow>, w: TimeWindow, lead: Location, duration: int, interval: int, buffer: int, travel: Lookup -> int)
    requires interval > 0
    requires !w.IsValidForDuration(duration, buffer)
    ensures AllCandidates(ws + [w], lead, duration, interval, buffer, travel) == AllCandidates(ws, lead, duration, interval, buffer, travel)
    ensures AllLookups(ws + [w], lead, duration, buffer) == AllLookups(ws, lead, duration, buffer)
  {
    assert (ws + [w])[..|ws|] == ws;
    var r := AllCandidates(ws, lead, duration, interval, buffer, travel);
    if r.Ok? {
      assert r.value + [] == r.value;
    }
  }
}
