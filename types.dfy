/**
 * Record types of the appointment module: calendar days, time slots,
 * appointments, the payloads the service receives and the errors it raises.
 *
 * Times of day are integer minutes counted from the midnight of the slot's
 * calendar date, so `setHours(h, m)` becomes `60 * h + m`. A calendar date is
 * an abstract day key. Record ids are natural numbers handed out by counters
 * (the database hands out fresh unique ids).
 */
module AppointmentTypes {

  type DateKey = int
  type Minutes = int
  type Instant = int
  type CalendarId = nat
  type SlotId = nat
  type AppointmentId = nat
  type UserId = string

  datatype Option<T> = None | Some(value: T) {
    /** The value, or `default` when absent (`x || false`, `x = 0` defaults). */
    function GetOr(default: T): T {
      match this
      case Some(v) => v
      case None => default
    }
  }

  datatype SlotStatus = Available | Booked

  datatype AppointmentStatus = Pending | Confirmed | Cancelled | Completed

  /** One row of the calendar table; the date is the key of the table. */
  datatype Calendar = Calendar(id: CalendarId, isOffDay: bool, description: Option<string>)

  /** One row of the time-slot table; the slot id is the key of the table. */
  datatype TimeSlot = TimeSlot(calendarId: CalendarId, startTime: Minutes, endTime: Minutes, status: SlotStatus)

  /** One row of the appointment table; the appointment id is the key of the table. */
  datatype Appointment = Appointment(
    userId: UserId,
    timeSlotId: SlotId,
    firstName: string,
    lastName: string,
    email: string,
    phoneNumber: string,
    dateOfBirth: Option<Instant>,
    address: Option<string>,
    appointmentDate: Instant,
    notes: Option<string>,
    status: AppointmentStatus,
    consultationFee: Option<real>,
    isPaid: bool)

  /** An appointment row together with its id, as the service returns it. */
  datatype AppointmentRecord = AppointmentRecord(id: AppointmentId, appointment: Appointment)

  /** Payload of `setOffDay` (TCalendar). */
  datatype CalendarPayload = CalendarPayload(date: DateKey, isOffDay: Option<bool>, description: Option<string>)

  /** Payload of `createTimeSlots` (TCreateTimeSlots), with the window already in minutes. */
  datatype TimeSlotsPayload = TimeSlotsPayload(
    date: DateKey,
    startTime: Minutes,
    endTime: Minutes,
    slotDuration: int,
    breakTime: Option<int>)

  /** Payload of `createAppointment` (TAppointment); `status` is accepted but ignored. */
  datatype AppointmentPayload = AppointmentPayload(
    userId: UserId,
    timeSlotId: SlotId,
    firstName: string,
    lastName: string,
    email: string,
    phoneNumber: string,
    dateOfBirth: Option<Instant>,
    address: Option<string>,
    appointmentDate: Instant,
    notes: Option<string>,
    status: Option<AppointmentStatus>,
    consultationFee: Option<real>,
    isPaid: Option<bool>)

  /** One entry of the available-slot list (TAvailableSlot). */
  datatype AvailableSlot = AvailableSlot(id: SlotId, startTime: Minutes, endTime: Minutes, status: SlotStatus)

  /** What `getAvailableSlots` returns. */
  datatype AvailabilityView = AvailabilityView(date: DateKey, isOffDay: bool, availableSlots: seq<AvailableSlot>)

  const NOT_FOUND: nat := 404
  const BAD_REQUEST: nat := 400

  /**
   * `ApiError` is the service's own error (HTTP status and message);
   * `InconsistentQueryResult` is the datastore's failure when a read that
   * includes a required related row finds that row missing.
   */
  datatype Error = ApiError(statusCode: nat, message: string) | InconsistentQueryResult

  datatype Result<T> = Ok(value: T) | Err(error: Error)
}
