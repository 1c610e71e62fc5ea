/** The record shapes of existing appointments as the calendar supplies them. */
module Appointments {

  import opened Wrappers
  import opened Datetime

  /** A geographic point; the address is carried along as metadata. */
  datatype Location = Location(lat: real, lng: real, address: Option<string>)

  datatype Appointment = Appointment(
    id: string,
    title: string,
    startTime: Instant,
    endTime: Instant,
    durationMinutes: int,
    location: Location,
    contactId: Option<string>,
    calendarId: string,
    locationId: string)
}
