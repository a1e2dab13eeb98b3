/**
 * Properties that relate several service calls: what the availability query
 * shows after slots are generated, after a booking and after a cancel, what
 * marking a date as an off day closes, and that the calendar upsert is
 * idempotent.
 */
module BookingProperties {
  import opened AppointmentTypes
  import opened AppointmentStore
  import SlotTiling

  /** Repeating the same upsert changes nothing more and returns the same row. */
  lemma SetOffDayIdempotent(s: Store, payload: CalendarPayload)
    requires Valid(s)
    ensures var first := SetOffDay(s, payload);
            SetOffDay(first.store, payload) == first
  {
    var first := SetOffDay(s, payload);
    var second := SetOffDay(first.store, payload);
    assert second.store.calendars == first.store.calendars;
  }

  /**
   * Right after slots are generated for a working date, the availability query
   * lists exactly the generated slots, under the ids handed out from the slot
   * counter on.
   */
  lemma AvailabilityAfterCreateTimeSlots(s: Store, payload: TimeSlotsPayload)
    requires Valid(s)
    requires payload.startTime < payload.endTime ==> payload.slotDuration + payload.breakTime.GetOr(0) > 0
    requires !(payload.date in s.calendars && s.calendars[payload.date].isOffDay)
    ensures var st := CreateTimeSlots(s, payload);
            var generated := SlotTiling.Tiles(CalendarEntry(s, payload.date).id, payload.startTime, payload.endTime,
                                              payload.slotDuration, payload.breakTime.GetOr(0));
            var v := AvailableSlots(st.store, payload.date);
            && !v.isOffDay
            && forall x :: x in v.availableSlots <==>
                 exists k :: 0 <= k < |generated| && x == SlotView(s.nextSlotId + k, generated[k])
  {
    var st := CreateTimeSlots(s, payload);
    var calendarId := CalendarEntry(s, payload.date).id;
    var generated := SlotTiling.Tiles(calendarId, payload.startTime, payload.endTime,
                                      payload.slotDuration, payload.breakTime.GetOr(0));
    SlotTiling.TilesWithinWindow(calendarId, payload.startTime, payload.endTime,
                                 payload.slotDuration, payload.breakTime.GetOr(0));
    assert st.store.calendars[payload.date].id == calendarId;
    var v := AvailableSlots(st.store, payload.date);
    ListedAreGenerated(s.slots, st.store.slots, calendarId, s.nextSlotId, generated, v.availableSlots);
  }

  /** The AVAILABLE slots of a calendar whose slots were just replaced are the replacements. */
  lemma ListedAreGenerated(before: map<SlotId, TimeSlot>, after: map<SlotId, TimeSlot>, calendarId: CalendarId,
                           firstId: nat, generated: seq<TimeSlot>, listed: seq<AvailableSlot>)
    requires SlotsReplaced(before, after, calendarId, firstId, generated)
    requires forall t :: t in generated ==> t.status == Available
    requires forall x :: x in listed <==>
               && x.id in after && after[x.id].calendarId == calendarId
               && after[x.id].status == Available && x == SlotView(x.id, after[x.id])
    ensures forall x :: x in listed <==> exists k :: 0 <= k < |generated| && x == SlotView(firstId + k, generated[k])
  {
    forall x ensures x in listed <==> exists k :: 0 <= k < |generated| && x == SlotView(firstId + k, generated[k])
    {
      if x in listed {
        var k := x.id - firstId;
        assert x == SlotView(firstId + k, generated[k]);
      }
      if exists k :: 0 <= k < |generated| && x == SlotView(firstId + k, generated[k]) {
        var k :| 0 <= k < |generated| && x == SlotView(firstId + k, generated[k]);
        assert generated[k] in generated;
      }
    }
  }

  /**
   * A booking takes its slot out of every date's availability, leaves every
   * other listed slot as it was, and a second booking of the same slot fails.
   */
  lemma BookingTakesSlotOffTheMarket(s: Store, payload: AppointmentPayload, date: DateKey, other: AppointmentPayload)
    requires Valid(s)
    requires CreateAppointment(s, payload).result.Ok?
    requires other.timeSlotId == payload.timeSlotId
    ensures var s' := CreateAppointment(s, payload).store;
            && (forall x :: x in AvailableSlots(s', date).availableSlots ==> x.id != payload.timeSlotId)
            && (forall x: AvailableSlot :: x.id != payload.timeSlotId ==>
                  (x in AvailableSlots(s', date).availableSlots <==> x in AvailableSlots(s, date).availableSlots))
            && CreateAppointment(s', other) == Step(Err(ApiError(BAD_REQUEST, "Time slot is not available")), s')
  {
  }

  /** The slot's calendar is a working day exactly when its date's row says so. */
  lemma OffDayOfCalendar(s: Store, date: DateKey)
    requires Valid(s) && date in s.calendars
    ensures CalendarIsOffDay(s, s.calendars[date].id) <==> s.calendars[date].isOffDay
  {
    if CalendarIsOffDay(s, s.calendars[date].id) {
      var d :| d in s.calendars && s.calendars[d].id == s.calendars[date].id && s.calendars[d].isOffDay;
      assert d == date;
    }
  }

  /**
   * Cancelling an appointment on a working date lists its slot again and makes
   * it bookable by anyone.
   */
  lemma CancelReopensSlot(s: Store, id: AppointmentId, userId: UserId, date: DateKey, next: AppointmentPayload)
    requires Valid(s)
    requires CancelAppointment(s, id, userId).result.Ok?
    requires date in s.calendars && !s.calendars[date].isOffDay
    requires id in s.appointments && s.appointments[id].timeSlotId in s.slots
    requires s.slots[s.appointments[id].timeSlotId].calendarId == s.calendars[date].id
    requires next.timeSlotId == s.appointments[id].timeSlotId
    ensures var s' := CancelAppointment(s, id, userId).store;
            && next.timeSlotId in s'.slots
            && SlotView(next.timeSlotId, s'.slots[next.timeSlotId]) in AvailableSlots(s', date).availableSlots
            && CreateAppointment(s', next).result.Ok?
  {
    var s' := CancelAppointment(s, id, userId).store;
    assert s'.calendars == s.calendars;
    OffDayOfCalendar(s', date);
  }

  /**
   * Marking a date as an off day hides its slots and refuses bookings on them,
   * but leaves the appointments already made, and their slots, as they were.
   */
  lemma OffDayClosesDate(s: Store, payload: CalendarPayload, booking: AppointmentPayload)
    requires Valid(s)
    requires payload.isOffDay == Some(true)
    ensures var st := SetOffDay(s, payload);
            && AvailableSlots(st.store, payload.date) == AvailabilityView(payload.date, true, [])
            && st.store.appointments == s.appointments && st.store.slots == s.slots
            && (booking.timeSlotId in s.slots && s.slots[booking.timeSlotId].calendarId == st.result.value.id ==>
                  CreateAppointment(st.store, booking).result.Err?)
  {
    var st := SetOffDay(s, payload);
    OffDayOfCalendar(st.store, payload.date);
  }
}
