/**
 * The booking store as a value: the calendar table (keyed by date), the
 * time-slot table and the appointment table, with the counters that hand out
 * fresh ids. Each service operation is a function from the store before the
 * call to its result and the store after it; a call that fails leaves the
 * store as it was (each call is one atomic step).
 *
 * These functions specify the methods of the service class in
 * service.dfy, which updates the same three tables in place.
 */
module AppointmentStore {
  import opened AppointmentTypes
  import SlotTiling

  datatype Store = Store(
    calendars: map<DateKey, Calendar>,
    slots: map<SlotId, TimeSlot>,
    appointments: map<AppointmentId, Appointment>,
    nextCalendarId: nat,
    nextSlotId: nat,
    nextAppointmentId: nat)

  /** The result of one service call and the store it leaves behind. */
  datatype Step<T> = Step(result: Result<T>, store: Store)

  const EmptyStore: Store := Store(map[], map[], map[], 0, 0, 0)

  // ------------------------------------------------------------- invariants

  /** Some calendar row has this id. */
  ghost predicate HasCalendar(s: Store, calendarId: CalendarId) {
    exists d :: d in s.calendars && s.calendars[d].id == calendarId
  }

  /** Some appointment that is not CANCELLED refers to this slot. */
  ghost predicate HeldByActive(s: Store, slotId: SlotId) {
    exists a :: a in s.appointments && s.appointments[a].timeSlotId == slotId && s.appointments[a].status != Cancelled
  }

  ghost predicate CalendarIdsFresh(s: Store) {
    && (forall d :: d in s.calendars ==> s.calendars[d].id < s.nextCalendarId)
    && (forall d1, d2 :: d1 in s.calendars && d2 in s.calendars && d1 != d2 ==> s.calendars[d1].id != s.calendars[d2].id)
  }

  ghost predicate SlotsWellFormed(s: Store) {
    forall id :: id in s.slots ==> id < s.nextSlotId && HasCalendar(s, s.slots[id].calendarId)
  }

  ghost predicate AppointmentIdsFresh(s: Store) {
    forall a :: a in s.appointments ==> a < s.nextAppointmentId
  }

  /** No slot is BOOKED without an appointment that holds it. */
  ghost predicate BookedSlotsHeld(s: Store) {
    forall id :: id in s.slots && s.slots[id].status == Booked ==> HeldByActive(s, id)
  }

  /**
   * The store invariant: ids are below their counters, calendar ids are
   * distinct, every slot belongs to an existing calendar, and every BOOKED
   * slot is held by an appointment that is not CANCELLED.
   */
  ghost predicate Valid(s: Store) {
    CalendarIdsFresh(s) && SlotsWellFormed(s) && AppointmentIdsFresh(s) && BookedSlotsHeld(s)
  }

  // ------------------------------------------------------------ helpers

  /** The calendar with this id is marked as an off day. */
  predicate CalendarIsOffDay(s: Store, calendarId: CalendarId) {
    exists d | d in s.calendars :: s.calendars[d].id == calendarId && s.calendars[d].isOffDay
  }

  /** A field update that leaves the old value when the payload omits the field. */
  function Patch<T>(field: Option<T>, current: T): T {
    field.GetOr(current)
  }

  /** `deleteMany` of the slots belonging to one calendar. */
  function DeleteSlotsOf(slots: map<SlotId, TimeSlot>, calendarId: CalendarId): (r: map<SlotId, TimeSlot>)
    ensures forall id :: id in r <==> id in slots && slots[id].calendarId != calendarId
    ensures forall id :: id in r ==> r[id] == slots[id]
  {
    map id | id in slots && slots[id].calendarId != calendarId :: slots[id]
  }

  /** `createMany` of `created`, numbered from `firstId` on. */
  function InsertSlots(slots: map<SlotId, TimeSlot>, firstId: nat, created: seq<TimeSlot>): (r: map<SlotId, TimeSlot>)
    requires forall id :: id in slots ==> id < firstId
    ensures forall id :: id in r <==> id in slots || firstId <= id < firstId + |created|
    ensures forall id :: id in slots ==> r[id] == slots[id]
    ensures forall k :: 0 <= k < |created| ==> r[firstId + k] == created[k]
    ensures forall id :: id in r && id !in slots ==> r[id] in created
    decreases |created|
  {
    if created == [] then slots
    else
      var r := InsertSlots(slots[firstId := created[0]], firstId + 1, created[1..]);
      assert forall id :: id in r && id !in slots ==> r[id] in created by {
        forall id | id in r && id !in slots ensures r[id] in created {
          if id != firstId {
            assert r[id] in created[1..];
          }
        }
      }
      assert forall k :: 1 <= k < |created| ==> r[firstId + k] == created[k] by {
        forall k | 1 <= k < |created| ensures r[firstId + k] == created[k] {
          assert created[1..][k - 1] == created[k];
          assert firstId + 1 + (k - 1) == firstId + k;
        }
      }
      r
  }

  // ------------------------------------------------------------ setOffDay

  /**
   * Upsert of the calendar row for `payload.date`. A new row gets a fresh id,
   * `isOffDay` defaulting to false and the given description; an existing row
   * keeps its id and takes the fields the payload supplies. No slot and no
   * appointment changes.
   */
  function SetOffDay(s: Store, payload: CalendarPayload): (st: Step<Calendar>)
    requires Valid(s)
    ensures Valid(st.store)
    ensures st.result.Ok? && payload.date in st.store.calendars && st.result.value == st.store.calendars[payload.date]
    ensures payload.date !in s.calendars ==>
              && st.result.value == Calendar(s.nextCalendarId, payload.isOffDay.GetOr(false), payload.description)
              && (forall d :: d in s.calendars ==> s.calendars[d].id != st.result.value.id)
    ensures payload.date in s.calendars ==>
              && st.result.value.id == s.calendars[payload.date].id
              && st.result.value.isOffDay == payload.isOffDay.GetOr(s.calendars[payload.date].isOffDay)
              && st.result.value.description == (if payload.description.Some? then payload.description else s.calendars[payload.date].description)
    ensures st.store.calendars.Keys == s.calendars.Keys + {payload.date}
    ensures forall d :: d in s.calendars && d != payload.date ==> st.store.calendars[d] == s.calendars[d]
    ensures st.store.slots == s.slots && st.store.appointments == s.appointments
  {
    if payload.date in s.calendars then
      var existing := s.calendars[payload.date];
      var updated := Calendar(existing.id, Patch(payload.isOffDay, existing.isOffDay),
                              if payload.description.Some? then payload.description else existing.description);
      var s' := s.(calendars := s.calendars[payload.date := updated]);
      assert forall c :: HasCalendar(s, c) ==> HasCalendar(s', c) by {
        forall c | HasCalendar(s, c) ensures HasCalendar(s', c) {
          var d :| d in s.calendars && s.calendars[d].id == c;
          assert s'.calendars[d].id == c;
        }
      }
      Step(Ok(updated), s')
    else
      var created := Calendar(s.nextCalendarId, payload.isOffDay.GetOr(false), payload.description);
      var s' := s.(calendars := s.calendars[payload.date := created], nextCalendarId := s.nextCalendarId + 1);
      assert forall c :: HasCalendar(s, c) ==> HasCalendar(s', c) by {
        forall c | HasCalendar(s, c) ensures HasCalendar(s', c) {
          var d :| d in s.calendars && s.calendars[d].id == c;
          assert s'.calendars[d].id == c;
        }
      }
      Step(Ok(created), s')
  }

  // ------------------------------------------------------- createTimeSlots

  /** The calendar row `createTimeSlots` works on: the existing one, or a new non-off-day row. */
  function CalendarEntry(s: Store, date: DateKey): Calendar {
    if date in s.calendars then s.calendars[date] else Calendar(s.nextCalendarId, false, None)
  }

  /**
   * Refuses an off day; otherwise makes sure a calendar row exists, tiles the
   * window, deletes every slot of that calendar (BOOKED ones included) and
   * inserts the generated slots under fresh ids. Returns how many were created.
   */
  function CreateTimeSlots(s: Store, payload: TimeSlotsPayload): (st: Step<nat>)
    requires Valid(s)
    requires !(payload.date in s.calendars && s.calendars[payload.date].isOffDay) && payload.startTime < payload.endTime ==>
               payload.slotDuration + payload.breakTime.GetOr(0) > 0
    ensures Valid(st.store)
    ensures st.store.appointments == s.appointments
    ensures payload.date in s.calendars && s.calendars[payload.date].isOffDay ==>
              st == Step(Err(ApiError(BAD_REQUEST, "Cannot create slots for off day")), s)
    ensures !(payload.date in s.calendars && s.calendars[payload.date].isOffDay) ==>
              var generated := SlotTiling.Tiles(CalendarEntry(s, payload.date).id, payload.startTime, payload.endTime,
                                                payload.slotDuration, payload.breakTime.GetOr(0));
              && st.result == Ok(|generated|)
              && payload.date in st.store.calendars
              && st.store.calendars[payload.date] == CalendarEntry(s, payload.date)
              && !st.store.calendars[payload.date].isOffDay
              && st.store.calendars.Keys == s.calendars.Keys + {payload.date}
              && (forall d :: d in s.calendars ==> st.store.calendars[d] == s.calendars[d])
              && SlotsReplaced(s.slots, st.store.slots, CalendarEntry(s, payload.date).id, s.nextSlotId, generated)
  {
    if payload.date in s.calendars && s.calendars[payload.date].isOffDay then
      Step(Err(ApiError(BAD_REQUEST, "Cannot create slots for off day")), s)
    else
      var entry := CalendarEntry(s, payload.date);
      var s1 := if payload.date in s.calendars then s
                else s.(calendars := s.calendars[payload.date := entry], nextCalendarId := s.nextCalendarId + 1);
      assert s1.calendars.Keys == s.calendars.Keys + {payload.date};
      var breakTime := payload.breakTime.GetOr(0);
      var generated := SlotTiling.Tiles(entry.id, payload.startTime, payload.endTime, payload.slotDuration, breakTime);
      SlotTiling.TilesWithinWindow(entry.id, payload.startTime, payload.endTime, payload.slotDuration, breakTime);
      var kept := DeleteSlotsOf(s.slots, entry.id);
      var slots' := InsertSlots(kept, s.nextSlotId, generated);
      var s' := s1.(slots := slots', nextSlotId := s.nextSlotId + |generated|);
      ReplaceSlotsOfCalendar(s.slots, entry.id, s.nextSlotId, generated);
      CreateTimeSlotsValid(s, s1, s', payload.date, entry, generated);
      Step(Ok(|generated|), s')
  }

  /**
   * `after` holds exactly `generated` as the slots of `calendarId`, under the
   * ids from `firstId` on, and every slot of any other calendar as it was.
   */
  ghost predicate SlotsReplaced(before: map<SlotId, TimeSlot>, after: map<SlotId, TimeSlot>, calendarId: CalendarId,
                                firstId: nat, generated: seq<TimeSlot>) {
    && (forall id :: id in after && after[id].calendarId == calendarId <==> firstId <= id < firstId + |generated|)
    && (forall k :: 0 <= k < |generated| ==> firstId + k in after && after[firstId + k] == generated[k])
    && (forall id :: id in before && before[id].calendarId != calendarId ==> id in after && after[id] == before[id])
    && (forall id :: id in after && after[id].calendarId != calendarId ==> id in before)
    && (forall id :: id in after && id < firstId ==> id in before && after[id] == before[id])
  }

  lemma ReplaceSlotsOfCalendar(before: map<SlotId, TimeSlot>, calendarId: CalendarId, firstId: nat, generated: seq<TimeSlot>)
    requires forall id :: id in before ==> id < firstId
    requires forall t :: t in generated ==> t.calendarId == calendarId
    ensures SlotsReplaced(before, InsertSlots(DeleteSlotsOf(before, calendarId), firstId, generated), calendarId, firstId, generated)
  {
    var kept := DeleteSlotsOf(before, calendarId);
    var after := InsertSlots(kept, firstId, generated);
    forall id | id in after && after[id].calendarId == calendarId ensures firstId <= id < firstId + |generated| {
      assert id !in kept;
    }
    forall id | firstId <= id < firstId + |generated| ensures id in after && after[id].calendarId == calendarId {
      assert id !in kept;
      assert after[id] in generated;
    }
  }

  lemma CreateTimeSlotsValid(s: Store, s1: Store, s': Store, date: DateKey, entry: Calendar, generated: seq<TimeSlot>)
    requires Valid(s)
    requires date in s1.calendars && s1.calendars[date] == entry
    requires s1.slots == s.slots && s1.appointments == s.appointments && s1.nextSlotId == s.nextSlotId
    requires CalendarIdsFresh(s1) && s1.nextAppointmentId == s.nextAppointmentId
    requires forall d :: d in s.calendars ==> d in s1.calendars && s1.calendars[d] == s.calendars[d]
    requires forall t :: t in generated ==> t.calendarId == entry.id && t.status == Available
    requires s' == s1.(slots := InsertSlots(DeleteSlotsOf(s.slots, entry.id), s.nextSlotId, generated),
                       nextSlotId := s.nextSlotId + |generated|)
    ensures Valid(s')
  {
    var kept := DeleteSlotsOf(s.slots, entry.id);
    var slots' := s'.slots;
    forall id | id in slots' ensures id < s'.nextSlotId && HasCalendar(s', slots'[id].calendarId) {
      if id in kept {
        var d :| d in s.calendars && s.calendars[d].id == s.slots[id].calendarId;
        assert s'.calendars[d].id == slots'[id].calendarId;
      } else {
        assert slots'[id] in generated;
        assert s'.calendars[date].id == slots'[id].calendarId;
      }
    }
    assert SlotsWellFormed(s');
    assert BookedSlotsHeld(s') by {
      forall id | id in slots' && slots'[id].status == Booked ensures HeldByActive(s', id) {
        assert id in kept && slots'[id] == s.slots[id];
        assert HeldByActive(s, id);
      }
    }
  }

  // ----------------------------------------------------- getAvailableSlots

  function SlotView(id: SlotId, slot: TimeSlot): AvailableSlot {
    AvailableSlot(id, slot.startTime, slot.endTime, slot.status)
  }

  /** The AVAILABLE slots of one calendar among ids below `bound`, in increasing id order. */
  function CollectAvailable(slots: map<SlotId, TimeSlot>, calendarId: CalendarId, bound: nat): (r: seq<AvailableSlot>)
    ensures forall v :: v in r <==>
              v.id < bound && v.id in slots && slots[v.id].calendarId == calendarId
              && slots[v.id].status == Available && v == SlotView(v.id, slots[v.id])
    ensures forall i, j :: 0 <= i < j < |r| ==> r[i].id < r[j].id
    decreases bound
  {
    if bound == 0 then []
    else
      var rest := CollectAvailable(slots, calendarId, bound - 1);
      var id := bound - 1;
      if id in slots && slots[id].calendarId == calendarId && slots[id].status == Available
      then rest + [SlotView(id, slots[id])]
      else rest
  }

  predicate SortedByStart(xs: seq<AvailableSlot>) {
    forall i, j :: 0 <= i < j < |xs| ==> xs[i].startTime <= xs[j].startTime
  }

  predicate NoDuplicates(xs: seq<AvailableSlot>) {
    forall i, j :: 0 <= i < j < |xs| ==> xs[i] != xs[j]
  }

  function InsertByStart(x: AvailableSlot, xs: seq<AvailableSlot>): (r: seq<AvailableSlot>)
    requires SortedByStart(xs)
    ensures SortedByStart(r)
    ensures |r| == |xs| + 1
    ensures multiset(r) == multiset(xs) + multiset{x}
    ensures forall y :: y in r <==> y == x || y in xs
    ensures NoDuplicates(xs) && x !in xs ==> NoDuplicates(r)
  {
    if xs == [] then [x]
    else if x.startTime <= xs[0].startTime then [x] + xs
    else
      var tail := InsertByStart(x, xs[1..]);
      assert xs == [xs[0]] + xs[1..];
      forall y | y in tail ensures xs[0].startTime <= y.startTime {
        if y != x {
          var k :| 0 <= k < |xs[1..]| && xs[1..][k] == y;
          assert xs[k + 1] == y;
        }
      }
      PrependKeepsSorted(xs[0], tail);
      HeadNotRepeated(xs);
      PrependKeepsNoDuplicates(xs[0], tail);
      [xs[0]] + tail
  }

  lemma PrependKeepsSorted(h: AvailableSlot, tail: seq<AvailableSlot>)
    requires SortedByStart(tail)
    requires forall y :: y in tail ==> h.startTime <= y.startTime
    ensures SortedByStart([h] + tail)
  {
    var r := [h] + tail;
    forall i, j | 0 <= i < j < |r| ensures r[i].startTime <= r[j].startTime {
      assert r[j] == tail[j - 1];
      if i > 0 {
        assert r[i] == tail[i - 1];
      }
    }
  }

  lemma PrependKeepsNoDuplicates(h: AvailableSlot, tail: seq<AvailableSlot>)
    ensures NoDuplicates(tail) && h !in tail ==> NoDuplicates([h] + tail)
  {
    if NoDuplicates(tail) && h !in tail {
      var r := [h] + tail;
      forall i, j | 0 <= i < j < |r| ensures r[i] != r[j] {
        assert r[j] == tail[j - 1];
        if i > 0 {
          assert r[i] == tail[i - 1];
        }
      }
    }
  }

  lemma HeadNotRepeated(xs: seq<AvailableSlot>)
    requires xs != []
    ensures NoDuplicates(xs) ==> xs[0] !in xs[1..] && NoDuplicates(xs[1..])
  {
  }

  /** Ascending order of start time (`orderBy: { startTime: "asc" }`). */
  function SortByStart(xs: seq<AvailableSlot>): (r: seq<AvailableSlot>)
    ensures SortedByStart(r)
    ensures |r| == |xs|
    ensures multiset(r) == multiset(xs)
    ensures forall y :: y in r <==> y in xs
    ensures NoDuplicates(xs) ==> NoDuplicates(r)
  {
    if xs == [] then []
    else
      assert xs == [xs[0]] + xs[1..];
      InsertByStart(xs[0], SortByStart(xs[1..]))
  }

  /**
   * The read-only availability query. A date without a calendar row, or an off
   * day, reads as an off day with no slots; otherwise the answer lists exactly
   * that calendar's AVAILABLE slots, each once, in ascending start order.
   */
  function AvailableSlots(s: Store, date: DateKey): (v: AvailabilityView)
    requires Valid(s)
    ensures v.date == date
    ensures date !in s.calendars || s.calendars[date].isOffDay ==> v.isOffDay && v.availableSlots == []
    ensures date in s.calendars && !s.calendars[date].isOffDay ==>
              && !v.isOffDay
              && (forall x :: x in v.availableSlots <==>
                    && x.id in s.slots
                    && s.slots[x.id].calendarId == s.calendars[date].id
                    && s.slots[x.id].status == Available
                    && x == SlotView(x.id, s.slots[x.id]))
              && SortedByStart(v.availableSlots)
              && (forall i, j :: 0 <= i < j < |v.availableSlots| ==> v.availableSlots[i].id != v.availableSlots[j].id)
  {
    if date !in s.calendars || s.calendars[date].isOffDay then
      AvailabilityView(date, true, [])
    else
      var collected := CollectAvailable(s.slots, s.calendars[date].id, s.nextSlotId);
      assert NoDuplicates(collected);
      var sorted := SortByStart(collected);
      assert forall i, j :: 0 <= i < j < |sorted| ==> sorted[i].id != sorted[j].id by {
        forall i, j | 0 <= i < j < |sorted| ensures sorted[i].id != sorted[j].id {
          assert sorted[i] in collected && sorted[j] in collected;
        }
      }
      AvailabilityView(date, false, sorted)
  }

  // ----------------------------------------------------- createAppointment

  /** The appointment row a successful booking inserts. */
  function NewAppointment(payload: AppointmentPayload): Appointment {
    Appointment(payload.userId, payload.timeSlotId, payload.firstName, payload.lastName, payload.email,
                payload.phoneNumber, payload.dateOfBirth, payload.address, payload.appointmentDate, payload.notes,
                Pending, payload.consultationFee, payload.isPaid.GetOr(false))
  }

  /**
   * Check-then-book. Fails with NOT_FOUND when the slot does not exist, and
   * with BAD_REQUEST when it is not AVAILABLE or its calendar is an off day;
   * otherwise books the slot and inserts one PENDING appointment for it.
   */
  function CreateAppointment(s: Store, payload: AppointmentPayload): (st: Step<AppointmentRecord>)
    requires Valid(s)
    ensures Valid(st.store)
    ensures payload.timeSlotId !in s.slots ==>
              st == Step(Err(ApiError(NOT_FOUND, "Time slot not found")), s)
    ensures payload.timeSlotId in s.slots && s.slots[payload.timeSlotId].status != Available ==>
              st == Step(Err(ApiError(BAD_REQUEST, "Time slot is not available")), s)
    ensures payload.timeSlotId in s.slots && s.slots[payload.timeSlotId].status == Available
            && CalendarIsOffDay(s, s.slots[payload.timeSlotId].calendarId) ==>
              st == Step(Err(ApiError(BAD_REQUEST, "Cannot book appointment on off day")), s)
    ensures st.result.Err? ==> st.store == s
    ensures st.result.Ok? <==>
              payload.timeSlotId in s.slots && s.slots[payload.timeSlotId].status == Available
              && !CalendarIsOffDay(s, s.slots[payload.timeSlotId].calendarId)
    ensures st.result.Ok? ==>
              var rec := st.result.value;
              && rec.id == s.nextAppointmentId && rec.id !in s.appointments
              && rec.appointment.status == Pending
              && rec.appointment.timeSlotId == payload.timeSlotId
              && rec.appointment.userId == payload.userId
              && rec.appointment.isPaid == (payload.isPaid == Some(true))
              && rec.appointment == NewAppointment(payload)
              && st.store.appointments == s.appointments[rec.id := rec.appointment]
              && st.store.slots == s.slots[payload.timeSlotId := s.slots[payload.timeSlotId].(status := Booked)]
              && st.store.calendars == s.calendars
  {
    if payload.timeSlotId !in s.slots then
      Step(Err(ApiError(NOT_FOUND, "Time slot not found")), s)
    else
      var slot := s.slots[payload.timeSlotId];
      if slot.status != Available then
        Step(Err(ApiError(BAD_REQUEST, "Time slot is not available")), s)
      else if CalendarIsOffDay(s, slot.calendarId) then
        Step(Err(ApiError(BAD_REQUEST, "Cannot book appointment on off day")), s)
      else
        var id := s.nextAppointmentId;
        var appointment := NewAppointment(payload);
        var s' := s.(slots := s.slots[payload.timeSlotId := slot.(status := Booked)],
                     appointments := s.appointments[id := appointment],
                     nextAppointmentId := id + 1);
        assert s'.appointments[id].timeSlotId == payload.timeSlotId;
        forall sid | sid in s'.slots && s'.slots[sid].status == Booked ensures HeldByActive(s', sid) {
          if sid != payload.timeSlotId {
            var a :| a in s.appointments && s.appointments[a].timeSlotId == sid && s.appointments[a].status != Cancelled;
            assert s'.appointments[a] == s.appointments[a];
          }
        }
        Step(Ok(AppointmentRecord(id, appointment)), s')
  }

  // ----------------------------------------------- updateAppointmentStatus

  /**
   * Sets the appointment's status to any of the four values, with no check of
   * the current one. Setting CANCELLED also makes the linked slot AVAILABLE,
   * in the same transaction. The first read includes the required slot
   * relation, so when that slot no longer exists the read fails and nothing
   * is written, whatever the status.
   */
  function UpdateAppointmentStatus(s: Store, id: AppointmentId, status: AppointmentStatus): (st: Step<AppointmentRecord>)
    requires Valid(s)
    ensures Valid(st.store)
    ensures st.store.calendars == s.calendars
    ensures id !in s.appointments ==> st == Step(Err(ApiError(NOT_FOUND, "Appointment not found")), s)
    ensures id in s.appointments && s.appointments[id].timeSlotId !in s.slots ==>
              st == Step(Err(InconsistentQueryResult), s)
    ensures st.result.Err? ==> st.store == s
    ensures st.result.Ok? <==> id in s.appointments && s.appointments[id].timeSlotId in s.slots
    ensures st.result.Ok? ==>
              && st.result.value == AppointmentRecord(id, s.appointments[id].(status := status))
              && st.store.appointments == s.appointments[id := s.appointments[id].(status := status)]
    ensures st.result.Ok? && status == Cancelled ==>
              var slotId := s.appointments[id].timeSlotId;
              st.store.slots == s.slots[slotId := s.slots[slotId].(status := Available)]
    ensures st.result.Ok? && status != Cancelled ==> st.store.slots == s.slots
  {
    if id !in s.appointments then
      Step(Err(ApiError(NOT_FOUND, "Appointment not found")), s)
    else if s.appointments[id].timeSlotId !in s.slots then
      Step(Err(InconsistentQueryResult), s)
    else
      var appointment := s.appointments[id];
      var updated := appointment.(status := status);
      if status == Cancelled then
        var slotId := appointment.timeSlotId;
        var s' := s.(appointments := s.appointments[id := updated],
                     slots := s.slots[slotId := s.slots[slotId].(status := Available)]);
        forall sid | sid in s'.slots && s'.slots[sid].status == Booked ensures HeldByActive(s', sid) {
          var a :| a in s.appointments && s.appointments[a].timeSlotId == sid && s.appointments[a].status != Cancelled;
          assert a != id;
          assert s'.appointments[a] == s.appointments[a];
        }
        Step(Ok(AppointmentRecord(id, updated)), s')
      else
        var s' := s.(appointments := s.appointments[id := updated]);
        forall sid | sid in s'.slots && s'.slots[sid].status == Booked ensures HeldByActive(s', sid) {
          var a :| a in s.appointments && s.appointments[a].timeSlotId == sid && s.appointments[a].status != Cancelled;
          assert s'.appointments[a].timeSlotId == sid && s'.appointments[a].status != Cancelled;
        }
        Step(Ok(AppointmentRecord(id, updated)), s')
  }

  // ----------------------------------------------------- cancelAppointment

  /**
   * The requester's cancel: NOT_FOUND unless the appointment exists and belongs
   * to `userId`, BAD_REQUEST when it is COMPLETED, and otherwise exactly the
   * status update to CANCELLED.
   */
  function CancelAppointment(s: Store, id: AppointmentId, userId: UserId): (st: Step<AppointmentRecord>)
    requires Valid(s)
    ensures Valid(st.store)
    ensures id !in s.appointments || s.appointments[id].userId != userId ==>
              st == Step(Err(ApiError(NOT_FOUND, "Appointment not found or you don't have permission")), s)
    ensures id in s.appointments && s.appointments[id].userId == userId && s.appointments[id].status == Completed ==>
              st == Step(Err(ApiError(BAD_REQUEST, "Cannot cancel completed appointment")), s)
    ensures id in s.appointments && s.appointments[id].userId == userId && s.appointments[id].status != Completed ==>
              st == UpdateAppointmentStatus(s, id, Cancelled)
    ensures st.result.Err? ==> st.store == s
  {
    if id !in s.appointments || s.appointments[id].userId != userId then
      Step(Err(ApiError(NOT_FOUND, "Appointment not found or you don't have permission")), s)
    else if s.appointments[id].status == Completed then
      Step(Err(ApiError(BAD_REQUEST, "Cannot cancel completed appointment")), s)
    else
      UpdateAppointmentStatus(s, id, Cancelled)
  }
}
