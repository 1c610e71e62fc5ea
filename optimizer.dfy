/**
 * `AppointmentOptimizer.get_optimized_slots`: geocode the lead, compute the free
 * windows of the look-ahead days, generate candidates, sort them by score (stable,
 * ascending), keep the first `max_slots` and report each with its score mapped to
 * 0..100, higher being better. Geocoding, the calendar fetch, travel times and the
 * clock are parameters.
 */
module Optimizer {

  import opened Wrappers
  import opened Datetime
  import opened Config
  import opened DateUtils
  import opened Sorting
  import opened Appointments
  import opened TimeWindows
  import opened CandidateSlots
  import opened FreeWindows
  import opened Candidates

  /** The optimizer's own state, fixed when it is constructed: the buffer and the home base. */
  datatype AppointmentOptimizer = AppointmentOptimizer(bufferMinutes: int, homeBase: Location)

  /** `AppointmentOptimizer()`: buffer and home base read from the settings. */
  function NewAppointmentOptimizer(settings: Settings): AppointmentOptimizer
  {
    AppointmentOptimizer(
      settings.appointmentBufferMinutes,
      Location(settings.homeBaseLat, settings.homeBaseLng, Some("Home Base")))
  }

  /** `generate_candidate_slots` is called with its default interval. */
  const CandidateInterval: int := 15

  datatype OptimizeError =
    | WindowError(windowError: TimeWindowError)
    | RoundingError(roundError: RoundError)

  /** `max(0, min(100, 100 - score / 2))`: the reported score, higher is better. */
  function Normalize(score: real): (n: real)
    ensures 0.0 <= n <= 100.0
    ensures score <= 0.0 ==> n == 100.0
    ensures score >= 200.0 ==> n == 0.0
    ensures 0.0 <= score <= 200.0 ==> n + score / 2.0 == 100.0
  {
    var m := if 100.0 < 100.0 - score / 2.0 then 100.0 else 100.0 - score / 2.0;
    if 0.0 > m then 0.0 else m
  }

  /** A lower internal score never reports lower. */
  lemma NormalizeAntitone(s1: real, s2: real)
    requires s1 <= s2
    ensures Normalize(s1) >= Normalize(s2)
  {
  }

  /** Score normalization at no travel, at 200 minutes and past it. */
  lemma NormalizeScenario()
    ensures Normalize(0.0) == 100.0 && Normalize(200.0) == 0.0 && Normalize(250.0) == 0.0
  {
  }

  /** The sort key of `sorted(candidate_slots, key=lambda s: s.efficiency_score)`. */
  function ScoreKey(c: CandidateSlot): real
  {
    c.efficiencyScore
  }

  /** Python's `s[:n]`: a negative `n` counts from the end, and the cut is clipped to the length. */
  function Take<T>(s: seq<T>, n: int): (r: seq<T>)
    ensures |r| == if n >= 0 then (if n < |s| then n else |s|) else (if |s| + n > 0 then |s| + n else 0)
    ensures r == s[..|r|]
  {
    if n >= 0 then (if n < |s| then s[..n] else s)
    else if |s| + n > 0 then s[..|s| + n] else []
  }

  /** The API-facing form of a candidate. */
  function ToAvailable(c: CandidateSlot): AvailableSlot
  {
    AvailableSlot(c.startTime, c.endTime, Normalize(c.efficiencyScore))
  }

  /** The first `maxSlots` candidates in stable ascending score order, in API form. */
  function Ranked(candidates: seq<CandidateSlot>, maxSlots: int): seq<AvailableSlot>
  {
    var top := Take(SortBy(candidates, ScoreKey), maxSlots);
    seq(|top|, k requires 0 <= k < |top| => ToAvailable(top[k]))
  }

  /** The look-ahead of a request: the target date alone, or the configured number of days from tomorrow. */
  function LookAheadDays(targetDate: Option<Day>, settings: Settings): int
  {
    if targetDate.Some? then 1 else settings.maxDaysAhead
  }

  /** What `get_optimized_slots` returns, with a failing window construction or rounding as an `Err`. */
  function OptimizedSlots(
    o: AppointmentOptimizer, settings: Settings, leadAddress: string, duration: int,
    targetDate: Option<Day>, maxSlots: int, geocode: string -> Option<Location>,
    appointments: seq<Appointment>, travel: Lookup -> int, now: Instant)
    : Result<seq<AvailableSlot>, OptimizeError>
    requires settings.Valid()
  {
    match geocode(leadAddress)
    case None => Ok([])
    case Some(lead) =>
      var days := BusinessDays(targetDate, LookAheadDays(targetDate, settings), now, settings);
      match WindowsForDays(days, SortBy(appointments, StartKey), o.homeBase)
      case Err(e) => Err(WindowError(e))
      case Ok(ws) =>
        match AllCandidates(ws, lead, duration, CandidateInterval, o.bufferMinutes, travel)
        case Err(e) => Err(RoundingError(e))
        case Ok(cs) => Ok(Ranked(cs, maxSlots))
  }

  /**
   * `get_optimized_slots(lead_address, appointment_duration, target_date, max_slots)`.
   * `appointments` is what the calendar returns; it is fetched without a date range.
   */
  method GetOptimizedSlots(
    o: AppointmentOptimizer, settings: Settings, leadAddress: string, duration: int,
    targetDate: Option<Day>, maxSlots: int, geocode: string -> Option<Location>,
    appointments: seq<Appointment>, travel: Lookup -> int, now: Instant)
    returns (r: Result<seq<AvailableSlot>, OptimizeError>)
    requires settings.Valid()
    ensures geocode(leadAddress).None? ==> r == Ok([])
    ensures r == OptimizedSlots(o, settings, leadAddress, duration, targetDate, maxSlots, geocode, appointments, travel, now)
  {
    var leadLocation := geocode(leadAddress);
    if leadLocation.None? {
      return Ok([]);
    }
    var startDate := targetDate;
    var days := if targetDate.Some? then 1 else settings.maxDaysAhead;
    var freeWindows := GetFreeTimeWindows(appointments, startDate, days, o.homeBase, settings, now);
    if freeWindows.Err? {
      return Err(WindowError(freeWindows.error));
    }
    var candidateSlots, _ := GenerateCandidateSlots(
      freeWindows.value, leadLocation.value, duration, CandidateInterval, o.bufferMinutes, travel);
    if candidateSlots.Err? {
      return Err(RoundingError(candidateSlots.error));
    }
    var sortedSlots := SortBy(candidateSlots.value, ScoreKey);
    var availableSlots := ToAvailableSlots(Take(sortedSlots, maxSlots));
    r := Ok(availableSlots);
  }

  /** The `for slot in sorted_slots[:max_slots]` loop. */
  method ToAvailableSlots(top: seq<CandidateSlot>) returns (availableSlots: seq<AvailableSlot>)
    ensures availableSlots == seq(|top|, k requires 0 <= k < |top| => ToAvailable(top[k]))
  {
    availableSlots := [];
    var i := 0;
    while i < |top|
      invariant 0 <= i <= |top|
      invariant availableSlots == seq(i, k requires 0 <= k < i => ToAvailable(top[k]))
    {
      var slot := top[i];
      var normalizedScore := Normalize(slot.efficiencyScore);
      availableSlots := availableSlots + [AvailableSlot(slot.startTime, slot.endTime, normalizedScore)];
      i := i + 1;
    }
  }

  /**
   * The ranked slots: for a non-negative `maxSlots`, the first `min(maxSlots, n)` of the
   * candidates in stable ascending score order; no left-out candidate scores lower than
   * a kept one; every kept slot has a candidate's start and end and a score in 0..100,
   * and the reported scores never increase along the list.
   */
  lemma RankedProperties(candidates: seq<CandidateSlot>, maxSlots: int)
    ensures var sorted := SortBy(candidates, ScoreKey);
      var r := Ranked(candidates, maxSlots);
      && multiset(sorted) == multiset(candidates)
      && (forall k :: WithKey(sorted, ScoreKey, k) == WithKey(candidates, ScoreKey, k))
      && (maxSlots >= 0 ==> |r| == if maxSlots < |candidates| then maxSlots else |candidates|)
      && |r| <= |candidates|
      && (forall i :: 0 <= i < |r| ==> r[i] == ToAvailable(sorted[i]) && sorted[i] in candidates)
      && (forall i, j :: 0 <= i < |r| <= j < |sorted| ==> ScoreKey(sorted[i]) <= ScoreKey(sorted[j]))
      && (forall i :: 0 <= i < |r| ==> 0.0 <= r[i].efficiencyScore <= 100.0)
      && (forall i, j :: 0 <= i < j < |r| ==> r[i].efficiencyScore >= r[j].efficiencyScore)
  {
    var sorted := SortBy(candidates, ScoreKey);
    SortByCorrect(candidates, ScoreKey);
    var r := Ranked(candidates, maxSlots);
    forall i | 0 <= i < |r| ensures sorted[i] in candidates {
      assert sorted[i] in multiset(sorted);
    }
    forall i, j | 0 <= i < j < |r| ensures r[i].efficiencyScore >= r[j].efficiencyScore {
      NormalizeAntitone(sorted[i].efficiencyScore, sorted[j].efficiencyScore);
    }
  }

  /**
   * An ungeocodable lead address gets no slots; otherwise, when nothing fails, the slots
   * are the ranked candidates of the free windows of the look-ahead days.
   */
  lemma OptimizedSlotsOutcome(
    o: AppointmentOptimizer, settings: Settings, leadAddress: string, duration: int,
    targetDate: Option<Day>, maxSlots: int, geocode: string -> Option<Location>,
    appointments: seq<Appointment>, travel: Lookup -> int, now: Instant)
    requires settings.Valid()
    ensures var r := OptimizedSlots(o, settings, leadAddress, duration, targetDate, maxSlots, geocode, appointments, travel, now);
      && (geocode(leadAddress).None? ==> r == Ok([]))
      && (r.Ok? && geocode(leadAddress).Some? ==>
        var days := BusinessDays(targetDate, LookAheadDays(targetDate, settings), now, settings);
        var ws := WindowsForDays(days, SortBy(appointments, StartKey), o.homeBase);
        && ws.Ok?
        && var cs := AllCandidates(ws.value, geocode(leadAddress).value, duration, CandidateInterval, o.bufferMinutes, travel);
           cs.Ok? && r.value == Ranked(cs.value, maxSlots))
  {
  }

  /** With a target date the look-ahead is that one business day; otherwise the configured number of days, none when it is not positive. */
  lemma LookAheadBusinessDays(targetDate: Option<Day>, settings: Settings, now: Instant)
    requires settings.Valid()
    ensures var days := BusinessDays(targetDate, LookAheadDays(targetDate, settings), now, settings);
      && |days| == (if targetDate.Some? then 1 else if settings.maxDaysAhead > 0 then settings.maxDaysAhead else 0)
      && (targetDate.Some? ==> DateOf(days[0].0) == targetDate.value && days[0] == BusinessHoursForDate(targetDate.value, settings))
      && (targetDate.None? ==> forall i :: 0 <= i < |days| ==> DateOf(days[i].0) == DateOf(now) + 1 + i)
  {
    var days := BusinessDays(targetDate, LookAheadDays(targetDate, settings), now, settings);
    var first := DateRange(targetDate, LookAheadDays(targetDate, settings), now).0;
    forall i | 0 <= i < |days| ensures days[i] == BusinessHoursForDate(first + i, settings) && DateOf(days[i].0) == first + i {
    }
  }
}
