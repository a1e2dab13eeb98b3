/**
 * The appointment service over an in-memory datastore: the calendar,
 * time-slot and appointment tables are maps held in fields and updated in
 * place. Each method is one atomic service call; its postcondition ties the
 * tables after the call, and its result, to the step function of the same
 * name in module AppointmentStore, whose contracts and lemmas state what the
 * call does.
 */
module BookingService {
  import opened AppointmentTypes
  import opened AppointmentStore
  import SlotTiling

  class AppointmentService {
    var calendars: map<DateKey, Calendar>
    var slots: map<SlotId, TimeSlot>
    var appointments: map<AppointmentId, Appointment>
    var nextCalendarId: nat
    var nextSlotId: nat
    var nextAppointmentId: nat

    /** The tables as one store value. */
    function State(): Store
      reads this
    {
      Store(calendars, slots, appointments, nextCalendarId, nextSlotId, nextAppointmentId)
    }

    ghost predicate Valid()
      reads this
    {
      AppointmentStore.Valid(State())
    }

    constructor ()
      ensures Valid() && State() == EmptyStore
    {
      calendars, slots, appointments := map[], map[], map[];
      nextCalendarId, nextSlotId, nextAppointmentId := 0, 0, 0;
    }

    /** Admin: create or update the calendar row of a date. */
    method SetOffDay(payload: CalendarPayload) returns (calendar: Calendar)
      requires Valid()
      modifies this
      ensures AppointmentStore.SetOffDay(old(State()), payload) == Step(Ok(calendar), State())
      ensures Valid()
    {
      if payload.date in calendars {
        var existing := calendars[payload.date];
        calendar := Calendar(existing.id, Patch(payload.isOffDay, existing.isOffDay),
                             if payload.description.Some? then payload.description else existing.description);
        calendars := calendars[payload.date := calendar];
        return;
      }
      calendar := Calendar(nextCalendarId, payload.isOffDay.GetOr(false), payload.description);
      calendars := calendars[payload.date := calendar];
      nextCalendarId := nextCalendarId + 1;
    }

    /** Admin: regenerate the slots of a date from a working window. */
    method CreateTimeSlots(payload: TimeSlotsPayload) returns (r: Result<nat>)
      requires Valid()
      requires !(payload.date in calendars && calendars[payload.date].isOffDay) && payload.startTime < payload.endTime ==>
               payload.slotDuration + payload.breakTime.GetOr(0) > 0
      modifies this
      ensures AppointmentStore.CreateTimeSlots(old(State()), payload) == Step(r, State())
      ensures Valid()
    {
      var breakTime := payload.breakTime.GetOr(0);
      if payload.date in calendars && calendars[payload.date].isOffDay {
        return Err(ApiError(BAD_REQUEST, "Cannot create slots for off day"));
      }
      var calendarEntry: Calendar;
      if payload.date in calendars {
        calendarEntry := calendars[payload.date];
      } else {
        calendarEntry := Calendar(nextCalendarId, false, None);
        calendars := calendars[payload.date := calendarEntry];
        nextCalendarId := nextCalendarId + 1;
      }
      var generated := SlotTiling.GenerateSlots(calendarEntry.id, payload.startTime, payload.endTime,
                                                payload.slotDuration, breakTime);
      slots := DeleteSlotsOf(slots, calendarEntry.id);
      slots := InsertSlots(slots, nextSlotId, generated);
      nextSlotId := nextSlotId + |generated|;
      r := Ok(|generated|);
    }

    /** Public: the bookable slots of a date. */
    function GetAvailableSlots(date: DateKey): (v: AvailabilityView)
      reads this
      requires Valid()
      ensures v.date == date
      ensures date !in calendars || calendars[date].isOffDay ==> v.isOffDay && v.availableSlots == []
      ensures date in calendars && !calendars[date].isOffDay ==>
                && !v.isOffDay
                && (forall x :: x in v.availableSlots <==>
                      && x.id in slots && slots[x.id].calendarId == calendars[date].id
                      && slots[x.id].status == Available && x == SlotView(x.id, slots[x.id]))
                && SortedByStart(v.availableSlots)
                && (forall i, j :: 0 <= i < j < |v.availableSlots| ==> v.availableSlots[i].id != v.availableSlots[j].id)
    {
      AvailableSlots(State(), date)
    }

    /** User: book a slot and record the appointment. */
    method CreateAppointment(payload: AppointmentPayload) returns (r: Result<AppointmentRecord>)
      requires Valid()
      modifies this
      ensures AppointmentStore.CreateAppointment(old(State()), payload) == Step(r, State())
      ensures Valid()
    {
      if payload.timeSlotId !in slots {
        return Err(ApiError(NOT_FOUND, "Time slot not found"));
      }
      var timeSlot := slots[payload.timeSlotId];
      if timeSlot.status != Available {
        return Err(ApiError(BAD_REQUEST, "Time slot is not available"));
      }
      if CalendarIsOffDay(State(), timeSlot.calendarId) {
        return Err(ApiError(BAD_REQUEST, "Cannot book appointment on off day"));
      }
      slots := slots[payload.timeSlotId := timeSlot.(status := Booked)];
      var id := nextAppointmentId;
      var appointment := NewAppointment(payload);
      appointments := appointments[id := appointment];
      nextAppointmentId := nextAppointmentId + 1;
      r := Ok(AppointmentRecord(id, appointment));
    }

    /** Admin: set an appointment's status, releasing its slot on CANCELLED. */
    method UpdateAppointmentStatus(id: AppointmentId, status: AppointmentStatus) returns (r: Result<AppointmentRecord>)
      requires Valid()
      modifies this
      ensures AppointmentStore.UpdateAppointmentStatus(old(State()), id, status) == Step(r, State())
      ensures Valid()
    {
      if id !in appointments {
        return Err(ApiError(NOT_FOUND, "Appointment not found"));
      }
      var appointment := appointments[id];
      if appointment.timeSlotId !in slots {
        // the read that includes the required slot fails; nothing is written
        return Err(InconsistentQueryResult);
      }
      var updated := appointment.(status := status);
      appointments := appointments[id := updated];
      if status == Cancelled {
        slots := slots[appointment.timeSlotId := slots[appointment.timeSlotId].(status := Available)];
      }
      r := Ok(AppointmentRecord(id, updated));
    }

    /** User: cancel one's own appointment. */
    method CancelAppointment(id: AppointmentId, userId: UserId) returns (r: Result<AppointmentRecord>)
      requires Valid()
      modifies this
      ensures AppointmentStore.CancelAppointment(old(State()), id, userId) == Step(r, State())
      ensures Valid()
    {
      if id !in appointments || appointments[id].userId != userId {
        return Err(ApiError(NOT_FOUND, "Appointment not found or you don't have permission"));
      }
      if appointments[id].status == Completed {
        return Err(ApiError(BAD_REQUEST, "Cannot cancel completed appointment"));
      }
      r := UpdateAppointmentStatus(id, Cancelled);
    }
  }
}
