/** A free interval between two points in time, anchored at where one comes from and goes to. */
module TimeWindows {

  import opened Wrappers
  import opened Datetime
  import opened Appointments

  datatype TimeWindowError = EndNotAfterStart

  datatype TimeWindow = TimeWindow(
    startTime: Instant,
    endTime: Instant,
    startLocation: Location,
    endLocation: Location)
  {
    /** The invariant the field validator enforces. */
    predicate Valid()
    {
      startTime < endTime
    }

    /** `duration_minutes`: the whole minutes between start and end. */
    function DurationMinutes(): (d: int)
      ensures startTime <= endTime ==> 0 <= d * SecondsPerMinute <= endTime - startTime < d * SecondsPerMinute + SecondsPerMinute
      ensures Valid() ==> d >= 0
    {
      WholeMinutes(endTime - startTime)
    }

    /** `is_valid_for_duration`: room for the appointment plus a buffer on each side. */
    predicate IsValidForDuration(durationMinutes: int, bufferMinutes: int)
    {
      DurationMinutes() >= durationMinutes + bufferMinutes * 2
    }

    /** `contains_time`: the start is inside, the end is not. */
    predicate ContainsTime(t: Instant)
    {
      startTime <= t < endTime
    }

    /** `overlaps_with`, with the source's three cases. */
    predicate OverlapsWith(other: TimeWindow)
    {
      || (startTime <= other.startTime < endTime)
      || (startTime < other.endTime <= endTime)
      || (other.startTime <= startTime && other.endTime >= endTime)
    }
  }

  /** Construction of a `TimeWindow`, which fails unless the end is after the start. */
  function NewTimeWindow(startTime: Instant, endTime: Instant, startLocation: Location, endLocation: Location)
    : (r: Result<TimeWindow, TimeWindowError>)
    ensures r.Ok? <==> startTime < endTime
    ensures r.Ok? ==> r.value.Valid() && r.value == TimeWindow(startTime, endTime, startLocation, endLocation)
  {
    if endTime <= startTime then Err(EndNotAfterStart)
    else Ok(TimeWindow(startTime, endTime, startLocation, endLocation))
  }

  /** A longer appointment never fits where a shorter one does not. */
  lemma IsValidForDurationMonotone(w: TimeWindow, shorter: int, longer: int, bufferMinutes: int)
    requires shorter <= longer
    ensures w.IsValidForDuration(longer, bufferMinutes) ==> w.IsValidForDuration(shorter, bufferMinutes)
  {
  }

  /** A window fits exactly the durations whose whole-minute total with both buffers is at most its length. */
  lemma IsValidForDurationSeconds(w: TimeWindow, durationMinutes: int, bufferMinutes: int)
    requires w.Valid()
    ensures w.IsValidForDuration(durationMinutes, bufferMinutes) <==>
      (durationMinutes + 2 * bufferMinutes) * SecondsPerMinute <= w.endTime - w.startTime
  {
    var d := w.DurationMinutes();
    var need := durationMinutes + 2 * bufferMinutes;
    if need <= d {
      assert need * SecondsPerMinute <= d * SecondsPerMinute;
    } else {
      assert need * SecondsPerMinute >= d * SecondsPerMinute + SecondsPerMinute;
    }
  }

  /** For valid windows, overlapping is the usual strict interval intersection. */
  lemma OverlapsIff(a: TimeWindow, b: TimeWindow)
    requires a.Valid() && b.Valid()
    ensures a.OverlapsWith(b) <==> a.startTime < b.endTime && b.startTime < a.endTime
  {
  }

  /** For valid windows, overlapping means sharing an instant. */
  lemma OverlapsIffSharedInstant(a: TimeWindow, b: TimeWindow)
    requires a.Valid() && b.Valid()
    ensures a.OverlapsWith(b) <==> exists t :: a.ContainsTime(t) && b.ContainsTime(t)
  {
    if a.OverlapsWith(b) {
      var t := if a.startTime <= b.startTime then b.startTime else a.startTime;
      assert a.ContainsTime(t) && b.ContainsTime(t);
    }
  }

  /** Overlapping is symmetric and reflexive on valid windows. */
  lemma OverlapsSymmetricReflexive(a: TimeWindow, b: TimeWindow)
    requires a.Valid() && b.Valid()
    ensures a.OverlapsWith(b) <==> b.OverlapsWith(a)
    ensures a.OverlapsWith(a)
  {
    OverlapsIff(a, b);
    OverlapsIff(b, a);
  }

  /** A window ending where the next one starts does not overlap it. */
  lemma BackToBackDisjoint(a: TimeWindow, b: TimeWindow)
    requires a.Valid() && b.Valid()
    requires a.endTime == b.startTime
    ensures !a.OverlapsWith(b) && !b.OverlapsWith(a)
  {
  }
}
