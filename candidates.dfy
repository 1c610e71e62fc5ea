/**
 * `AppointmentOptimizer.generate_candidate_slots`: for each free window long enough
 * for the appointment and both buffers, look up the travel time into and out of the
 * window, derive rounded earliest and latest starts, and step through start times at
 * a fixed interval, scoring each one by total travel and a time-of-day factor.
 * The travel-time service is the parameter `travel`.
 */
module Candidates {

  import opened Wrappers
  import opened Datetime
  import opened DateUtils
  import opened Appointments
  import opened TimeWindows
  import opened CandidateSlots

  /** A lookup in the travel-time service: from where, to where. */
  type Lookup = (Location, Location)

  /** The time-of-day factor for a start hour: mid-day is preferred, early morning and late afternoon are penalized. */
  function TimeOfDayFactor(hour: int): (f: real)
    ensures f == 0.9 <==> 10 <= hour <= 14
    ensures f == 1.1 <==> hour < 9 || hour > 16
    ensures f == 1.0 <==> hour == 9 || hour == 15 || hour == 16
  {
    if 10 <= hour <= 14 then 0.9
    else if hour < 9 || hour > 16 then 1.1
    else 1.0
  }

  /** The efficiency score of a start hour for a total travel time; lower is better. */
  function Score(totalTravel: int, hour: int): real
  {
    totalTravel as real * TimeOfDayFactor(hour)
  }

  /** For the same non-negative travel, a mid-day start never scores worse than any other, nor a shoulder hour worse than an early or late one. */
  lemma ScorePrefersMidday(totalTravel: int, h1: int, h2: int)
    requires totalTravel >= 0
    ensures 10 <= h1 <= 14 ==> Score(totalTravel, h1) <= Score(totalTravel, h2)
    ensures (h1 == 9 || 15 <= h1 <= 16) && (h2 < 9 || h2 > 16) ==> Score(totalTravel, h1) <= Score(totalTravel, h2)
    ensures totalTravel > 0 && 10 <= h1 <= 14 && !(10 <= h2 <= 14) ==> Score(totalTravel, h1) < Score(totalTravel, h2)
  {
    var t := totalTravel as real;
    assert t * 0.9 <= t * 1.0 <= t * 1.1;
    assert totalTravel > 0 ==> t * 0.9 < t * 1.0 < t * 1.1;
  }

  /** What is derived for a window before its start times are enumerated. */
  datatype Bounds = Bounds(travelTo: int, travelFrom: int, earliest: Instant, latestEnd: Instant, latest: Instant)

  /**
   * Travel into and out of the window, the rounded earliest start after travel and
   * buffer, the latest end that leaves room for travel and buffer out, and the rounded
   * latest start; a rounding that fails fails the window.
   */
  function WindowBounds(w: TimeWindow, lead: Location, duration: int, interval: int, buffer: int, travel: Lookup -> int)
    : (r: Result<Bounds, RoundError>)
    ensures r.Ok? ==>
      && r.value.travelTo == travel((w.startLocation, lead))
      && r.value.travelFrom == travel((lead, w.endLocation))
      && RoundToNearest(AddMinutes(w.startTime, r.value.travelTo + buffer), interval) == Ok(r.value.earliest)
      && r.value.latestEnd == w.endTime - (r.value.travelFrom + buffer) * SecondsPerMinute
      && RoundToNearest(r.value.latestEnd - duration * SecondsPerMinute, interval) == Ok(r.value.latest)
    ensures r.Err? <==>
      || RoundToNearest(AddMinutes(w.startTime, travel((w.startLocation, lead)) + buffer), interval).Err?
      || RoundToNearest(AddMinutes(w.endTime, -(travel((lead, w.endLocation)) + buffer)) - duration * SecondsPerMinute, interval).Err?
  {
    var to := travel((w.startLocation, lead));
    var from := travel((lead, w.endLocation));
    match RoundToNearest(AddMinutes(w.startTime, to + buffer), interval)
    case Err(e) => Err(e)
    case Ok(earliest) =>
      var latestEnd := AddMinutes(w.endTime, -(from + buffer));
      match RoundToNearest(AddMinutes(latestEnd, -duration), interval)
      case Err(e) => Err(e)
      case Ok(latest) => Ok(Bounds(to, from, earliest, latestEnd, latest))
  }

  /** The candidate starting at `start` in window `w`. */
  function SlotAt(w: TimeWindow, lead: Location, duration: int, b: Bounds, start: Instant): CandidateSlot
  {
    CandidateSlot(
      start, AddMinutes(start, duration), lead, b.travelTo, b.travelFrom,
      Score(b.travelTo + b.travelFrom, Hour(start)),
      Some(w.startLocation), Some(w.endLocation))
  }

  /** The `k`-th start time after `first` at the given interval. */
  function StepStart(first: Instant, interval: int, k: int): Instant
  {
    first + k * interval * SecondsPerMinute
  }

  /**
   * The candidates from `current` on: one per start up to the latest start, stopping at
   * the first whose end would pass the latest end.
   */
  function Steps(w: TimeWindow, lead: Location, duration: int, b: Bounds, interval: int, current: Instant)
    : seq<CandidateSlot>
    requires interval > 0
    decreases b.latest - current
  {
    if current > b.latest then []
    else if AddMinutes(current, duration) > b.latestEnd then []
    else [SlotAt(w, lead, duration, b, current)] + Steps(w, lead, duration, b, interval, AddMinutes(current, interval))
  }

  /** The candidates of one window: none for a window too short for the appointment and both buffers. */
  function WindowCandidates(w: TimeWindow, lead: Location, duration: int, interval: int, buffer: int, travel: Lookup -> int)
    : Result<seq<CandidateSlot>, RoundError>
    requires interval > 0
  {
    if !w.IsValidForDuration(duration, buffer) then Ok([])
    else
      match WindowBounds(w, lead, duration, interval, buffer, travel)
      case Err(e) => Err(e)
      case Ok(b) => if b.earliest > b.latest then Ok([]) else Ok(Steps(w, lead, duration, b, interval, b.earliest))
  }

  /** The travel-time lookups one window causes: none when it is too short. */
  function WindowLookups(w: TimeWindow, lead: Location, duration: int, buffer: int): seq<Lookup>
  {
    if !w.IsValidForDuration(duration, buffer) then []
    else [(w.startLocation, lead), (lead, w.endLocation)]
  }

  /** The candidates of all windows in window order; the first failing window fails it all. */
  function AllCandidates(ws: seq<TimeWindow>, lead: Location, duration: int, interval: int, buffer: int, travel: Lookup -> int)
    : Result<seq<CandidateSlot>, RoundError>
    requires interval > 0
  {
    if |ws| == 0 then Ok([])
    else
      match AllCandidates(ws[..|ws| - 1], lead, duration, interval, buffer, travel)
      case Err(e) => Err(e)
      case Ok(before) =>
        match WindowCandidates(ws[|ws| - 1], lead, duration, interval, buffer, travel)
        case Err(e) => Err(e)
        case Ok(cs) => Ok(before + cs)
  }

  /** The travel-time lookups of all windows in window order. */
  function AllLookups(ws: seq<TimeWindow>, lead: Location, duration: int, buffer: int): seq<Lookup>
  {
    if |ws| == 0 then []
    else AllLookups(ws[..|ws| - 1], lead, duration, buffer) + WindowLookups(ws[|ws| - 1], lead, duration, buffer)
  }

  /** Once a window fails, every longer run of windows fails with the same error. */
  lemma {:induction false} CandidatesFailurePersists(
    ws: seq<TimeWindow>, k: nat, lead: Location, duration: int, interval: int, buffer: int, travel: Lookup -> int)
    requires interval > 0 && k <= |ws|
    requires AllCandidates(ws[..k], lead, duration, interval, buffer, travel).Err?
    ensures AllCandidates(ws, lead, duration, interval, buffer, travel) == AllCandidates(ws[..k], lead, duration, interval, buffer, travel)
    decreases |ws| - k
  {
    if k == |ws| {
      assert ws[..k] == ws;
    } else {
      assert ws[..|ws| - 1][..k] == ws[..k];
      CandidatesFailurePersists(ws[..|ws| - 1], k, lead, duration, interval, buffer, travel);
    }
  }

  /** The `while current_start <= latest_start` loop of one window. */
  method EnumerateWindow(w: TimeWindow, lead: Location, duration: int, interval: int, b: Bounds)
    returns (slots: seq<CandidateSlot>)
    requires interval > 0
    ensures slots == Steps(w, lead, duration, b, interval, b.earliest)
  {
    slots := [];
    var current := b.earliest;
    while current <= b.latest
      invariant slots + Steps(w, lead, duration, b, interval, current) == Steps(w, lead, duration, b, interval, b.earliest)
      decreases b.latest - current
    {
      var currentEnd := AddMinutes(current, duration);
      if currentEnd > b.latestEnd {
        assert Steps(w, lead, duration, b, interval, current) == [];
        break;
      }
      var totalTravel := b.travelTo + b.travelFrom;
      var hour := Hour(current);
      var factor := 1.0;
      if 10 <= hour <= 14 {
        factor := 0.9;
      } else if hour < 9 || hour > 16 {
        factor := 1.1;
      }
      var slot := CandidateSlot(
        current, currentEnd, lead, b.travelTo, b.travelFrom, totalTravel as real * factor,
        Some(w.startLocation), Some(w.endLocation));
      assert slot == SlotAt(w, lead, duration, b, current);
      slots := slots + [slot];
      current := AddMinutes(current, interval);
    }
  }

  /** The body of the per-window loop: the length check, the two lookups, the bounds and the enumeration. */
  method GenerateWindowSlots(
    window: TimeWindow, lead: Location, duration: int, interval: int, buffer: int, travel: Lookup -> int)
    returns (r: Result<seq<CandidateSlot>, RoundError>, lookups: seq<Lookup>)
    requires interval > 0
    ensures r == WindowCandidates(window, lead, duration, interval, buffer, travel)
    ensures lookups == WindowLookups(window, lead, duration, buffer)
  {
    var requiredMinutes := duration + buffer * 2;
    if window.DurationMinutes() < requiredMinutes {
      assert !window.IsValidForDuration(duration, buffer);
      return Ok([]), [];
    }
    var travelTo := travel((window.startLocation, lead));
    var travelFrom := travel((lead, window.endLocation));
    lookups := [(window.startLocation, lead), (lead, window.endLocation)];
    assert window.IsValidForDuration(duration, buffer);
    var earliest := RoundToNearest(AddMinutes(window.startTime, travelTo + buffer), interval);
    if earliest.Err? {
      assert WindowBounds(window, lead, duration, interval, buffer, travel) == Err(earliest.error);
      return Err(earliest.error), lookups;
    }
    var latestEnd := AddMinutes(window.endTime, -(travelFrom + buffer));
    var latest := RoundToNearest(AddMinutes(latestEnd, -duration), interval);
    if latest.Err? {
      assert WindowBounds(window, lead, duration, interval, buffer, travel) == Err(latest.error);
      return Err(latest.error), lookups;
    }
    var b := Bounds(travelTo, travelFrom, earliest.value, latestEnd, latest.value);
    assert WindowBounds(window, lead, duration, interval, buffer, travel) == Ok(b);
    if earliest.value > latest.value {
      return Ok([]), lookups;
    }
    var slots := EnumerateWindow(window, lead, duration, interval, b);
    r := Ok(slots);
  }

  /**
   * `generate_candidate_slots(free_windows, lead_location, appointment_duration,
   * interval_minutes)`, with the buffer and the travel-time service as parameters; it
   * also returns the travel-time lookups it made, in order. A failed rounding, which
   * Python raises, is an `Err`.
   */
  method GenerateCandidateSlots(
    freeWindows: seq<TimeWindow>, lead: Location, duration: int, interval: int,
    buffer: int, travel: Lookup -> int)
    returns (r: Result<seq<CandidateSlot>, RoundError>, lookups: seq<Lookup>)
    requires interval > 0
    ensures r == AllCandidates(freeWindows, lead, duration, interval, buffer, travel)
    ensures r.Ok? ==> lookups == AllLookups(freeWindows, lead, duration, buffer)
  {
    var candidateSlots: seq<CandidateSlot> := [];
    lookups := [];
    var i := 0;
    while i < |freeWindows|
      invariant 0 <= i <= |freeWindows|
      invariant AllCandidates(freeWindows[..i], lead, duration, interval, buffer, travel) == Ok(candidateSlots)
      invariant lookups == AllLookups(freeWindows[..i], lead, duration, buffer)
    {
      assert freeWindows[..i + 1][..i] == freeWindows[..i];
      var windowSlots, windowLookups := GenerateWindowSlots(freeWindows[i], lead, duration, interval, buffer, travel);
      lookups := lookups + windowLookups;
      if windowSlots.Err? {
        r := Err(windowSlots.error);
        assert AllCandidates(freeWindows[..i + 1], lead, duration, interval, buffer, travel) == r;
        CandidatesFailurePersists(freeWindows, i + 1, lead, duration, interval, buffer, travel);
        return;
      }
      candidateSlots := candidateSlots + windowSlots.value;
      i := i + 1;
    }
    assert freeWindows[..i] == freeWindows;
    r := Ok(candidateSlots);
  }
}
