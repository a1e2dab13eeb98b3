/**
 * Two ways the service as written lets appointment state and slot state drift
 * apart, each shown on a concrete store, and a corrected variant of the two
 * operations involved under which the intended coupling holds after every
 * call: an appointment that is not CANCELLED holds a slot that exists and is
 * BOOKED, and no two such appointments hold the same slot.
 *
 * 1. `updateAppointmentStatus` never checks the current status, so a CANCELLED
 *    appointment can be cancelled again (through `cancelAppointment` too) or
 *    reopened; the second release frees a slot someone else has since booked,
 *    and a third party can then book it again.
 * 2. `createTimeSlots` deletes every slot of the date, BOOKED ones included,
 *    leaving an active appointment that refers to no slot; cancelling it then
 *    fails for good, because the slot update finds no row.
 */
module LifecycleFindings {
  import opened AppointmentTypes
  import opened AppointmentStore
  import SlotTiling

  /** Every active appointment holds an existing BOOKED slot, and holds it alone. */
  ghost predicate Coupled(s: Store) {
    && (forall a :: a in s.appointments && s.appointments[a].status != Cancelled ==>
          s.appointments[a].timeSlotId in s.slots && s.slots[s.appointments[a].timeSlotId].status == Booked)
    && (forall a, b ::
          (a in s.appointments && b in s.appointments && a != b
           && s.appointments[a].status != Cancelled && s.appointments[b].status != Cancelled) ==>
          s.appointments[a].timeSlotId != s.appointments[b].timeSlotId)
  }

  // ------------------------------------------------------ concrete scenario

  /** One working date (key 7, calendar id 0) with one slot 09:00-10:00 (slot id 0). */
  const WorkingDay: map<DateKey, Calendar> := map[7 := Calendar(0, false, None)]

  function Slot0(status: SlotStatus): map<SlotId, TimeSlot> {
    map[0 := TimeSlot(0, 540, 600, status)]
  }

  function Booking(userId: UserId): AppointmentPayload {
    AppointmentPayload(userId, 0, "First", "Last", "user@example.com", "0123456789", None, None, 0, None,
                       None, None, None)
  }

  function Held(userId: UserId, status: AppointmentStatus): Appointment {
    NewAppointment(Booking(userId)).(status := status)
  }

  const OneSlotDay: Store := Store(WorkingDay, Slot0(Available), map[], 1, 1, 0)
  /** alice has booked slot 0 */
  const AliceBooked: Store := Store(WorkingDay, Slot0(Booked), map[0 := Held("alice", Pending)], 1, 1, 1)
  /** alice has cancelled */
  const AliceCancelled: Store := Store(WorkingDay, Slot0(Available), map[0 := Held("alice", Cancelled)], 1, 1, 1)
  /** bob has booked the freed slot */
  const BobBooked: Store :=
    Store(WorkingDay, Slot0(Booked), map[0 := Held("alice", Cancelled), 1 := Held("bob", Pending)], 1, 1, 2)
  /** alice has cancelled a second time: bob still holds a PENDING appointment, the slot is AVAILABLE */
  const BobReleased: Store :=
    Store(WorkingDay, Slot0(Available), map[0 := Held("alice", Cancelled), 1 := Held("bob", Pending)], 1, 1, 2)
  /** carol has booked slot 0 as well */
  const CarolBooked: Store :=
    Store(WorkingDay, Slot0(Booked),
          map[0 := Held("alice", Cancelled), 1 := Held("bob", Pending), 2 := Held("carol", Pending)], 1, 1, 3)

  lemma OneSlotDayValid()
    ensures Valid(OneSlotDay) && Coupled(OneSlotDay)
  {
    assert OneSlotDay.calendars[7].id == 0;
  }

  lemma WorkingDayNotOff(s: Store)
    requires s.calendars == WorkingDay
    ensures !CalendarIsOffDay(s, 0)
  {
  }

  lemma AliceBooks()
    ensures Valid(OneSlotDay)
    ensures CreateAppointment(OneSlotDay, Booking("alice")) == Step(Ok(AppointmentRecord(0, Held("alice", Pending))), AliceBooked)
  {
    OneSlotDayValid();
    WorkingDayNotOff(OneSlotDay);
  }

  lemma AliceCancels()
    requires Valid(AliceBooked)
    ensures CancelAppointment(AliceBooked, 0, "alice") == Step(Ok(AppointmentRecord(0, Held("alice", Cancelled))), AliceCancelled)
  {
  }

  lemma BobBooks()
    requires Valid(AliceCancelled)
    ensures CreateAppointment(AliceCancelled, Booking("bob")) == Step(Ok(AppointmentRecord(1, Held("bob", Pending))), BobBooked)
  {
    WorkingDayNotOff(AliceCancelled);
  }

  lemma AliceCancelsAgain()
    requires Valid(BobBooked)
    ensures CancelAppointment(BobBooked, 0, "alice") == Step(Ok(AppointmentRecord(0, Held("alice", Cancelled))), BobReleased)
  {
  }

  lemma CarolBooks()
    requires Valid(BobReleased)
    ensures CreateAppointment(BobReleased, Booking("carol")) == Step(Ok(AppointmentRecord(2, Held("carol", Pending))), CarolBooked)
  {
    WorkingDayNotOff(BobReleased);
  }

  /**
   * As written: alice books and cancels, bob books the freed slot, alice cancels
   * her cancelled appointment again, which frees bob's slot, and carol books it:
   * bob and carol both hold PENDING appointments on slot 0.
   */
  lemma RecancelDoubleBooksSlot()
    ensures Valid(OneSlotDay)
    ensures var s1 := CreateAppointment(OneSlotDay, Booking("alice")).store;
            var s2 := CancelAppointment(s1, 0, "alice").store;
            var s3 := CreateAppointment(s2, Booking("bob")).store;
            var s4 := CancelAppointment(s3, 0, "alice");
            var s5 := CreateAppointment(s4.store, Booking("carol"));
            && s4.result.Ok?
            && s5.result.Ok?
            && s5.store == CarolBooked
            && CarolBooked.appointments[1].status == Pending && CarolBooked.appointments[1].timeSlotId == 0
            && CarolBooked.appointments[2].status == Pending && CarolBooked.appointments[2].timeSlotId == 0
            && !Coupled(CarolBooked)
  {
    AliceBooks();
    var s1 := CreateAppointment(OneSlotDay, Booking("alice")).store;
    assert s1 == AliceBooked;
    AliceCancels();
    var s2 := CancelAppointment(s1, 0, "alice").store;
    assert s2 == AliceCancelled;
    BobBooks();
    var s3 := CreateAppointment(s2, Booking("bob")).store;
    assert s3 == BobBooked;
    AliceCancelsAgain();
    var s4 := CancelAppointment(s3, 0, "alice");
    assert s4.store == BobReleased;
    CarolBooks();
    DoubleBookedNotCoupled();
  }

  lemma DoubleBookedNotCoupled()
    ensures !Coupled(CarolBooked)
  {
    var a := CarolBooked.appointments;
    assert 1 in a && 2 in a && a[1].timeSlotId == a[2].timeSlotId;
    assert a[1].status != Cancelled && a[2].status != Cancelled;
  }

  /** As written: a cancelled appointment can be reopened while its slot stays AVAILABLE. */
  lemma ReopenLeavesSlotAvailable()
    ensures Valid(AliceCancelled)
    ensures var s3 := UpdateAppointmentStatus(AliceCancelled, 0, Confirmed);
            && s3.result.Ok?
            && s3.store.appointments[0].status == Confirmed
            && s3.store.slots[0].status == Available
            && !Coupled(s3.store)
  {
    AliceBooks();
    AliceCancels();
  }

  /**
   * As written: regenerating the slots of alice's date deletes her BOOKED slot;
   * her PENDING appointment then refers to no slot, and her cancel, like any
   * status update of it, fails.
   */
  lemma RegenerationOrphansBooking()
    ensures Valid(AliceBooked)
    ensures var s2 := CreateTimeSlots(AliceBooked, TimeSlotsPayload(7, 540, 600, 60, None));
            && s2.result == Ok(1)
            && s2.store.appointments[0].status == Pending
            && 0 !in s2.store.slots
            && !Coupled(s2.store)
            && CancelAppointment(s2.store, 0, "alice") == Step(Err(InconsistentQueryResult), s2.store)
            && UpdateAppointmentStatus(s2.store, 0, Confirmed) == Step(Err(InconsistentQueryResult), s2.store)
  {
    AliceBooks();
    assert CalendarEntry(AliceBooked, 7).id == 0;
    SlotTilingOneHour();
  }

  lemma SlotTilingOneHour()
    ensures |SlotTiling.Tiles(0, 540, 600, 60, 0)| == 1
  {
    assert SlotTiling.Tiles(0, 600, 600, 60, 0) == [];
  }

  // ------------------------------------------------------ corrected variant

  /** A status update that refuses to touch an appointment that is already CANCELLED. */
  function UpdateAppointmentStatusChecked(s: Store, id: AppointmentId, status: AppointmentStatus): (st: Step<AppointmentRecord>)
    requires Valid(s)
    ensures Valid(st.store)
    ensures id in s.appointments && s.appointments[id].status == Cancelled ==> st.store == s && st.result.Err?
    ensures !(id in s.appointments && s.appointments[id].status == Cancelled) ==> st == UpdateAppointmentStatus(s, id, status)
  {
    if id in s.appointments && s.appointments[id].status == Cancelled then
      Step(Err(ApiError(BAD_REQUEST, "Cannot change a cancelled appointment")), s)
    else
      UpdateAppointmentStatus(s, id, status)
  }

  /** The requester's cancel on top of the checked status update. */
  function CancelAppointmentChecked(s: Store, id: AppointmentId, userId: UserId): (st: Step<AppointmentRecord>)
    requires Valid(s)
    ensures Valid(st.store)
    ensures st.result.Err? ==> st.store == s
    ensures id in s.appointments && s.appointments[id].status == Cancelled ==> st.store == s && st.result.Err?
    ensures !(id in s.appointments && s.appointments[id].status == Cancelled) ==> st == CancelAppointment(s, id, userId)
  {
    if id !in s.appointments || s.appointments[id].userId != userId then
      Step(Err(ApiError(NOT_FOUND, "Appointment not found or you don't have permission")), s)
    else if s.appointments[id].status == Completed then
      Step(Err(ApiError(BAD_REQUEST, "Cannot cancel completed appointment")), s)
    else
      UpdateAppointmentStatusChecked(s, id, Cancelled)
  }

  /** The date's calendar holds a BOOKED slot. */
  predicate HasBookedSlot(s: Store, date: DateKey) {
    date in s.calendars &&
    exists id | id in s.slots :: s.slots[id].calendarId == s.calendars[date].id && s.slots[id].status == Booked
  }

  /** The corrected regeneration passes both refusals and runs the tiling loop over a non-empty window. */
  predicate ReachesLoop(s: Store, payload: TimeSlotsPayload) {
    && !HasBookedSlot(s, payload.date)
    && !(payload.date in s.calendars && s.calendars[payload.date].isOffDay)
    && payload.startTime < payload.endTime
  }

  /** Slot regeneration that refuses a date whose calendar already has a BOOKED slot. */
  function CreateTimeSlotsChecked(s: Store, payload: TimeSlotsPayload): (st: Step<nat>)
    requires Valid(s)
    requires ReachesLoop(s, payload) ==> payload.slotDuration + payload.breakTime.GetOr(0) > 0
    ensures Valid(st.store)
    ensures HasBookedSlot(s, payload.date) ==> st.store == s && st.result.Err?
    ensures !HasBookedSlot(s, payload.date) ==> st == CreateTimeSlots(s, payload)
  {
    if HasBookedSlot(s, payload.date) then
      Step(Err(ApiError(BAD_REQUEST, "Cannot replace slots that are booked")), s)
    else
      CreateTimeSlots(s, payload)
  }

  datatype Operation =
    | SetOffDayOp(calendar: CalendarPayload)
    | CreateTimeSlotsOp(window: TimeSlotsPayload)
    | CreateAppointmentOp(booking: AppointmentPayload)
    | UpdateStatusOp(id: AppointmentId, status: AppointmentStatus)
    | CancelOp(cancelId: AppointmentId, userId: UserId)

  /** A regeneration that reaches the tiling loop advances by a positive step. */
  predicate Terminates(s: Store, op: Operation) {
    op.CreateTimeSlotsOp? ==>
      ReachesLoop(s, op.window) ==> op.window.slotDuration + op.window.breakTime.GetOr(0) > 0
  }

  /** The store after one call of the corrected service. */
  function ApplyChecked(s: Store, op: Operation): Store
    requires Valid(s) && Terminates(s, op)
  {
    match op
    case SetOffDayOp(p) => SetOffDay(s, p).store
    case CreateTimeSlotsOp(p) => CreateTimeSlotsChecked(s, p).store
    case CreateAppointmentOp(p) => CreateAppointment(s, p).store
    case UpdateStatusOp(id, status) => UpdateAppointmentStatusChecked(s, id, status).store
    case CancelOp(id, userId) => CancelAppointmentChecked(s, id, userId).store
  }

  /** Under the corrected service every call keeps appointments and slots coupled. */
  lemma CheckedOperationsKeepCoupled(s: Store, op: Operation)
    requires Valid(s) && Coupled(s) && Terminates(s, op)
    ensures Coupled(ApplyChecked(s, op))
  {
    match op
    case SetOffDayOp(p) =>
    case CreateTimeSlotsOp(p) => CreateTimeSlotsKeepsCoupled(s, p);
    case CreateAppointmentOp(p) => CreateAppointmentKeepsCoupled(s, p);
    case UpdateStatusOp(id, status) => CheckedUpdateKeepsCoupled(s, id, status);
    case CancelOp(id, userId) =>
      if id in s.appointments && s.appointments[id].userId == userId && s.appointments[id].status != Completed {
        CheckedUpdateKeepsCoupled(s, id, Cancelled);
      }
  }

  lemma CreateTimeSlotsKeepsCoupled(s: Store, p: TimeSlotsPayload)
    requires Valid(s) && Coupled(s)
    requires ReachesLoop(s, p) ==> p.slotDuration + p.breakTime.GetOr(0) > 0
    ensures Coupled(CreateTimeSlotsChecked(s, p).store)
  {
    var st := CreateTimeSlotsChecked(s, p);
    if !HasBookedSlot(s, p.date) && !(p.date in s.calendars && s.calendars[p.date].isOffDay) {
      var calendarId := CalendarEntry(s, p.date).id;
      forall a | a in st.store.appointments && st.store.appointments[a].status != Cancelled
        ensures st.store.appointments[a].timeSlotId in st.store.slots
             && st.store.slots[st.store.appointments[a].timeSlotId].status == Booked
      {
        var slotId := s.appointments[a].timeSlotId;
        assert slotId in s.slots && s.slots[slotId].status == Booked;
        assert s.slots[slotId].calendarId != calendarId by {
          if p.date !in s.calendars {
            var d :| d in s.calendars && s.calendars[d].id == s.slots[slotId].calendarId;
            assert s.calendars[d].id < s.nextCalendarId;
          }
        }
      }
    }
  }

  lemma CreateAppointmentKeepsCoupled(s: Store, p: AppointmentPayload)
    requires Valid(s) && Coupled(s)
    ensures Coupled(CreateAppointment(s, p).store)
  {
    var st := CreateAppointment(s, p);
    if st.result.Ok? {
      var newId := st.result.value.id;
      forall a | a in st.store.appointments && st.store.appointments[a].status != Cancelled
        ensures st.store.appointments[a].timeSlotId in st.store.slots
             && st.store.slots[st.store.appointments[a].timeSlotId].status == Booked
      {
        if a != newId {
          assert st.store.appointments[a] == s.appointments[a];
        }
      }
      forall a, b | a in st.store.appointments && b in st.store.appointments && a != b
          && st.store.appointments[a].status != Cancelled && st.store.appointments[b].status != Cancelled
        ensures st.store.appointments[a].timeSlotId != st.store.appointments[b].timeSlotId
      {
        if a == newId {
          assert st.store.appointments[b] == s.appointments[b];
        } else if b == newId {
          assert st.store.appointments[a] == s.appointments[a];
        } else {
          assert st.store.appointments[a] == s.appointments[a] && st.store.appointments[b] == s.appointments[b];
        }
      }
    }
  }

  lemma CheckedUpdateKeepsCoupled(s: Store, id: AppointmentId, status: AppointmentStatus)
    requires Valid(s) && Coupled(s)
    ensures Coupled(UpdateAppointmentStatusChecked(s, id, status).store)
  {
    var st := UpdateAppointmentStatusChecked(s, id, status);
    if id in s.appointments && s.appointments[id].status != Cancelled {
      var slotId := s.appointments[id].timeSlotId;
      forall a | a in st.store.appointments && st.store.appointments[a].status != Cancelled
        ensures st.store.appointments[a].timeSlotId in st.store.slots
             && st.store.slots[st.store.appointments[a].timeSlotId].status == Booked
      {
        if a != id {
          assert st.store.appointments[a] == s.appointments[a];
          assert s.appointments[a].timeSlotId != slotId;
        }
      }
      forall a, b | a in st.store.appointments && b in st.store.appointments && a != b
          && st.store.appointments[a].status != Cancelled && st.store.appointments[b].status != Cancelled
        ensures st.store.appointments[a].timeSlotId != st.store.appointments[b].timeSlotId
      {
        assert s.appointments[a].status != Cancelled && s.appointments[b].status != Cancelled;
      }
    }
  }
}
