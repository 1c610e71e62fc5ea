/** A proposed appointment with its travel cost, the request that asks for slots, and the slot returned to callers. */
module CandidateSlots {

  import opened Wrappers
  import opened Datetime
  import opened Appointments

  datatype CandidateSlot = CandidateSlot(
    startTime: Instant,
    endTime: Instant,
    leadLocation: Location,
    travelTimeToMinutes: int,
    travelTimeFromMinutes: int,
    efficiencyScore: real,
    previousLocation: Option<Location>,
    nextLocation: Option<Location>)
  {
    /** `duration_minutes`: whole minutes between start and end, truncated toward zero. */
    function DurationMinutes(): (d: int)
      ensures startTime <= endTime ==> 0 <= d * SecondsPerMinute <= endTime - startTime < d * SecondsPerMinute + SecondsPerMinute
      ensures endTime < startTime ==> d * SecondsPerMinute - SecondsPerMinute < endTime - startTime <= d * SecondsPerMinute <= 0
    {
      WholeMinutes(endTime - startTime)
    }

    /** `total_travel_time_minutes`: travel into the slot plus travel out of it. */
    function TotalTravelTimeMinutes(): int
    {
      travelTimeToMinutes + travelTimeFromMinutes
    }
  }

  /** A slot that lasts a whole number of minutes reports exactly that duration, whatever its sign. */
  lemma DurationOfWholeMinutes(slot: CandidateSlot, minutes: int)
    requires slot.endTime == slot.startTime + minutes * SecondsPerMinute
    ensures slot.DurationMinutes() == minutes
  {
    var d := slot.DurationMinutes();
    if minutes >= 0 {
      assert d * SecondsPerMinute <= minutes * SecondsPerMinute < d * SecondsPerMinute + SecondsPerMinute;
    } else {
      assert d * SecondsPerMinute - SecondsPerMinute < minutes * SecondsPerMinute <= d * SecondsPerMinute;
    }
  }

  /** The slot shape returned to API callers; its score is the normalized 0 to 100 value. */
  datatype AvailableSlot = AvailableSlot(startTime: Instant, endTime: Instant, efficiencyScore: real)

  /** A request field as it arrives: left out, given as null, or given a value. */
  datatype Field<+T> = Omitted | Null | Given(value: T)

  datatype SlotRequestError = DurationBelowMinimum(duration: int)

  datatype SlotRequest = SlotRequest(leadAddress: string, appointmentDuration: Option<int>, date: Option<Instant>)

  const DefaultRequestDuration: int := 60
  const MinimumRequestDuration: int := 15

  /** Validation of a slot request: the duration defaults to 60 and, when given, must be at least 15. */
  function NewSlotRequest(leadAddress: string, appointmentDuration: Field<int>, date: Option<Instant>)
    : (r: Result<SlotRequest, SlotRequestError>)
    ensures r.Err? <==> appointmentDuration.Given? && appointmentDuration.value < MinimumRequestDuration
    ensures r.Ok? ==> r.value.leadAddress == leadAddress && r.value.date == date
    ensures r.Ok? ==> r.value.appointmentDuration == match appointmentDuration
      case Omitted => Some(DefaultRequestDuration)
      case Null => None
      case Given(d) => Some(d)
    ensures r.Ok? && r.value.appointmentDuration.Some? ==> r.value.appointmentDuration.value >= MinimumRequestDuration
  {
    match appointmentDuration
    case Omitted => Ok(SlotRequest(leadAddress, Some(DefaultRequestDuration), date))
    case Null => Ok(SlotRequest(leadAddress, None, date))
    case Given(d) =>
      if d < MinimumRequestDuration then Err(DurationBelowMinimum(d))
      else Ok(SlotRequest(leadAddress, Some(d), date))
  }
}
