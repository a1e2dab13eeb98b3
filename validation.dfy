/**
 * The request-body schemas of the appointment module, as predicates plus
 * defaulting. A body is a record of optional fields (a JSON key may be
 * absent); a schema either rejects it (None) or returns the accepted input
 * with its defaults filled in and unknown keys dropped.
 *
 * These schemas are not attached to any route. The service model takes its
 * payloads at the service's declared types, which is what an accepted body
 * would provide; the lemmas at the end say what an accepted body guarantees.
 */
module AppointmentValidation {
  import opened AppointmentTypes

  // ---------------------------------------------------------------- set off day

  datatype SetOffDayBody = SetOffDayBody(date: Option<string>, isOffDay: Option<bool>, description: Option<string>)

  datatype SetOffDayInput = SetOffDayInput(date: string, isOffDay: bool, description: Option<string>)

  /** `date` is required; `isOffDay` defaults to false; `description` is optional. */
  function ValidateSetOffDay(body: SetOffDayBody): (r: Option<SetOffDayInput>)
    ensures r.Some? <==> body.date.Some?
    ensures r.Some? ==> && r.value.date == body.date.value
                        && r.value.isOffDay == (body.isOffDay == Some(true))
                        && r.value.description == body.description
  {
    match body.date
    case None => None
    case Some(date) => Some(SetOffDayInput(date, body.isOffDay.GetOr(false), body.description))
  }

  // ------------------------------------------------------------ HH:MM strings

  predicate IsDigit(c: char) {
    '0' <= c <= '9'
  }

  /** The pattern `^\d{2}:\d{2}$`: two digits, a colon, two digits, nothing else. */
  predicate IsClockString(s: string) {
    |s| == 5 && IsDigit(s[0]) && IsDigit(s[1]) && s[2] == ':' && IsDigit(s[3]) && IsDigit(s[4])
  }

  function DigitValue(c: char): (n: nat)
    requires IsDigit(c)
    ensures n < 10
  {
    (c as int) - ('0' as int)
  }

  function DigitChar(n: nat): (c: char)
    requires n < 10
    ensures IsDigit(c) && DigitValue(c) == n
  {
    (('0' as int) + n) as char
  }

  /** The hour and minute fields of a two-digit clock string, as `split(":").map(Number)` reads them. */
  function ClockHour(s: string): nat
    requires IsClockString(s)
  {
    10 * DigitValue(s[0]) + DigitValue(s[1])
  }

  function ClockMinute(s: string): nat
    requires IsClockString(s)
  {
    10 * DigitValue(s[3]) + DigitValue(s[4])
  }

  /** Minutes after midnight that `setHours(hour, minute, 0, 0)` selects; hours past 23 run into the next days. */
  function ClockMinutes(s: string): (m: Minutes)
    requires IsClockString(s)
    ensures 0 <= m <= 99 * 60 + 99
  {
    60 * ClockHour(s) + ClockMinute(s)
  }

  /** The two-digit rendering of an hour and a minute field. */
  function FormatClock(hour: nat, minute: nat): string
    requires hour < 100 && minute < 100
  {
    [DigitChar(hour / 10), DigitChar(hour % 10), ':', DigitChar(minute / 10), DigitChar(minute % 10)]
  }

  /** Formatting then reading back gives the same fields and minute count. */
  lemma FormatThenReadClock(hour: nat, minute: nat)
    requires hour < 100 && minute < 100
    ensures IsClockString(FormatClock(hour, minute))
    ensures ClockHour(FormatClock(hour, minute)) == hour
    ensures ClockMinute(FormatClock(hour, minute)) == minute
    ensures ClockMinutes(FormatClock(hour, minute)) == 60 * hour + minute
  {
    var s := FormatClock(hour, minute);
    assert DigitValue(s[0]) == hour / 10 && DigitValue(s[1]) == hour % 10;
    assert DigitValue(s[3]) == minute / 10 && DigitValue(s[4]) == minute % 10;
  }

  /** Reading then formatting gives back the string: the pattern accepts exactly the formatted pairs. */
  lemma ReadThenFormatClock(s: string)
    requires IsClockString(s)
    ensures ClockHour(s) < 100 && ClockMinute(s) < 100
    ensures FormatClock(ClockHour(s), ClockMinute(s)) == s
  {
    var f := FormatClock(ClockHour(s), ClockMinute(s));
    assert DigitValue(f[0]) == DigitValue(s[0]) && DigitValue(f[1]) == DigitValue(s[1]);
    assert DigitValue(f[3]) == DigitValue(s[3]) && DigitValue(f[4]) == DigitValue(s[4]);
    assert f[0] == s[0] && f[1] == s[1] && f[3] == s[3] && f[4] == s[4];
  }

  /** The pattern has no range check: "99:99" passes and means 99 hours and 99 minutes; "9:00" does not pass. */
  lemma ClockPatternHasNoRangeCheck()
    ensures IsClockString("99:99") && ClockMinutes("99:99") == 6039
    ensures IsClockString("09:00") && ClockMinutes("09:00") == 540
    ensures !IsClockString("9:00") && !IsClockString("09:00:00") && !IsClockString("09-00")
  {
    FormatThenReadClock(99, 99);
    assert FormatClock(99, 99) == "99:99";
    FormatThenReadClock(9, 0);
    assert FormatClock(9, 0) == "09:00";
  }

  // -------------------------------------------------------- create time slots

  datatype TimeSlotsBody = TimeSlotsBody(
    date: Option<string>,
    startTime: Option<string>,
    endTime: Option<string>,
    slotDuration: Option<int>,
    breakTime: Option<int>)

  datatype TimeSlotsInput = TimeSlotsInput(date: string, startTime: string, endTime: string, slotDuration: int, breakTime: int)

  /** Both times HH:MM, `slotDuration` in [15, 480], `breakTime` in [0, 60] defaulting to 0. */
  function ValidateTimeSlots(body: TimeSlotsBody): Option<TimeSlotsInput> {
    if && body.date.Some?
       && body.startTime.Some? && IsClockString(body.startTime.value)
       && body.endTime.Some? && IsClockString(body.endTime.value)
       && body.slotDuration.Some? && 15 <= body.slotDuration.value <= 480
       && (body.breakTime.Some? ==> 0 <= body.breakTime.value <= 60)
    then Some(TimeSlotsInput(body.date.value, body.startTime.value, body.endTime.value,
                             body.slotDuration.value, body.breakTime.GetOr(0)))
    else None
  }

  /** The service payload an accepted body stands for, on calendar date `date`. */
  function ToTimeSlotsPayload(input: TimeSlotsInput, date: DateKey): TimeSlotsPayload
    requires IsClockString(input.startTime) && IsClockString(input.endTime)
  {
    TimeSlotsPayload(date, ClockMinutes(input.startTime), ClockMinutes(input.endTime), input.slotDuration, Some(input.breakTime))
  }

  /**
   * An accepted body has its bounds and default, and meets the precondition under
   * which the tiling loop terminates (a positive advance per iteration).
   */
  lemma AcceptedTimeSlotsAreBounded(body: TimeSlotsBody, date: DateKey)
    requires ValidateTimeSlots(body).Some?
    ensures var input := ValidateTimeSlots(body).value;
            && input.date == body.date.value
            && input.startTime == body.startTime.value && input.endTime == body.endTime.value
            && input.slotDuration == body.slotDuration.value
            && input.breakTime == body.breakTime.GetOr(0)
            && 15 <= input.slotDuration <= 480
            && 0 <= input.breakTime <= 60
            && (body.breakTime.None? ==> input.breakTime == 0)
            && IsClockString(input.startTime) && IsClockString(input.endTime)
            && var p := ToTimeSlotsPayload(input, date);
               && p.slotDuration + p.breakTime.GetOr(0) > 0
               && 0 <= p.startTime <= 6039 && 0 <= p.endTime <= 6039
  {
  }

  /** A body that meets every constraint is accepted. */
  lemma WellFormedTimeSlotsAccepted(body: TimeSlotsBody)
    requires body.date.Some?
    requires body.startTime.Some? && IsClockString(body.startTime.value)
    requires body.endTime.Some? && IsClockString(body.endTime.value)
    requires body.slotDuration.Some? && 15 <= body.slotDuration.value <= 480
    requires body.breakTime.Some? ==> 0 <= body.breakTime.value <= 60
    ensures ValidateTimeSlots(body).Some?
  {
  }

  /** A body is rejected when a duration or break is out of range, whatever else it holds. */
  lemma TimeSlotsRangeRejections(body: TimeSlotsBody)
    requires || (body.slotDuration.Some? && (body.slotDuration.value < 15 || body.slotDuration.value > 480))
             || (body.breakTime.Some? && (body.breakTime.value < 0 || body.breakTime.value > 60))
             || body.slotDuration.None?
    ensures ValidateTimeSlots(body).None?
  {
  }

  // ------------------------------------------------------- create appointment

  datatype AppointmentBody = AppointmentBody(
    timeSlotId: Option<string>,
    firstName: Option<string>,
    lastName: Option<string>,
    email: Option<string>,
    phoneNumber: Option<string>,
    dateOfBirth: Option<string>,
    address: Option<string>,
    appointmentDate: Option<string>,
    notes: Option<string>,
    consultationFee: Option<real>,
    isPaid: Option<bool>)

  /** The accepted appointment input; keys outside the schema (such as `isPaid`) are dropped. */
  datatype AppointmentInput = AppointmentInput(
    timeSlotId: string,
    firstName: string,
    lastName: string,
    email: string,
    phoneNumber: string,
    dateOfBirth: Option<string>,
    address: Option<string>,
    appointmentDate: string,
    notes: Option<string>,
    consultationFee: Option<real>)

  /**
   * Required: slot id, non-empty first and last name, an e-mail address that
   * `isEmail` accepts (the schema library's e-mail check), a phone number of at
   * least 10 characters, an appointment date; a fee, when given, is positive.
   */
  function ValidateAppointment(body: AppointmentBody, isEmail: string -> bool): Option<AppointmentInput> {
    if && body.timeSlotId.Some?
       && body.firstName.Some? && |body.firstName.value| >= 1
       && body.lastName.Some? && |body.lastName.value| >= 1
       && body.email.Some? && isEmail(body.email.value)
       && body.phoneNumber.Some? && |body.phoneNumber.value| >= 10
       && body.appointmentDate.Some?
       && (body.consultationFee.Some? ==> body.consultationFee.value > 0.0)
    then Some(AppointmentInput(body.timeSlotId.value, body.firstName.value, body.lastName.value,
                               body.email.value, body.phoneNumber.value, body.dateOfBirth, body.address,
                               body.appointmentDate.value, body.notes, body.consultationFee))
    else None
  }

  /** What an accepted appointment body guarantees, and that the optional fields pass through unchanged. */
  lemma AcceptedAppointmentFields(body: AppointmentBody, isEmail: string -> bool)
    requires ValidateAppointment(body, isEmail).Some?
    ensures var input := ValidateAppointment(body, isEmail).value;
            && input.timeSlotId == body.timeSlotId.value
            && input.firstName == body.firstName.value && input.lastName == body.lastName.value
            && input.email == body.email.value && input.phoneNumber == body.phoneNumber.value
            && input.appointmentDate == body.appointmentDate.value
            && input.consultationFee == body.consultationFee
            && |input.firstName| >= 1 && |input.lastName| >= 1
            && |input.phoneNumber| >= 10
            && isEmail(input.email)
            && (input.consultationFee.Some? ==> input.consultationFee.value > 0.0)
            && input.dateOfBirth == body.dateOfBirth && input.address == body.address && input.notes == body.notes
  {
  }

  /** A body that meets every constraint is accepted. */
  lemma WellFormedAppointmentAccepted(body: AppointmentBody, isEmail: string -> bool)
    requires body.timeSlotId.Some? && body.appointmentDate.Some?
    requires body.firstName.Some? && |body.firstName.value| >= 1
    requires body.lastName.Some? && |body.lastName.value| >= 1
    requires body.email.Some? && isEmail(body.email.value)
    requires body.phoneNumber.Some? && |body.phoneNumber.value| >= 10
    requires body.consultationFee.Some? ==> body.consultationFee.value > 0.0
    ensures ValidateAppointment(body, isEmail).Some?
  {
  }

  /** Short phone numbers, empty names and non-positive fees are rejected. */
  lemma AppointmentRejections(body: AppointmentBody, isEmail: string -> bool)
    requires || (body.phoneNumber.Some? && |body.phoneNumber.value| < 10)
             || body.firstName == Some("") || body.lastName == Some("")
             || (body.consultationFee.Some? && body.consultationFee.value <= 0.0)
    ensures ValidateAppointment(body, isEmail).None?
  {
  }

  // ------------------------------------------------------------ status update

  function StatusName(status: AppointmentStatus): string {
    match status
    case Pending => "PENDING"
    case Confirmed => "CONFIRMED"
    case Cancelled => "CANCELLED"
    case Completed => "COMPLETED"
  }

  /** The enum schema: exactly the four upper-case names. */
  function ParseStatus(s: string): Option<AppointmentStatus> {
    if s == "PENDING" then Some(Pending)
    else if s == "CONFIRMED" then Some(Confirmed)
    else if s == "CANCELLED" then Some(Cancelled)
    else if s == "COMPLETED" then Some(Completed)
    else None
  }

  datatype StatusBody = StatusBody(status: Option<string>)

  function ValidateStatusUpdate(body: StatusBody): Option<AppointmentStatus> {
    match body.status
    case None => None
    case Some(s) => ParseStatus(s)
  }

  /** The enum accepts a string exactly when it is the name of a status, and then yields that status. */
  lemma StatusNamesRoundTrip(s: string, status: AppointmentStatus)
    ensures ParseStatus(StatusName(status)) == Some(status)
    ensures ParseStatus(s) == Some(status) <==> s == StatusName(status)
    ensures ValidateStatusUpdate(StatusBody(Some(s))).Some? <==> s in {"PENDING", "CONFIRMED", "CANCELLED", "COMPLETED"}
    ensures ParseStatus("pending") == None
  {
  }
}
