# Appointment booking core, modelled in Dafny

This project models the booking core of the appointment module of a lawyer-hiring backend.

**The service.** `AppointmentService` keeps three tables:
- a calendar row per date, holding its id, an off-day flag and a description;
- time slots, each with a calendar, a start, an end and a status of AVAILABLE or BOOKED;
- appointments, each with a requester, a slot, contact fields, a status of PENDING, CONFIRMED, CANCELLED or COMPLETED, and a paid flag.

Its operations:
- an admin marks a date as an off day (`setOffDay`);
- an admin tiles a working window into slots, replacing the date's old slots (`createTimeSlots`);
- anyone lists a date's bookable slots (`getAvailableSlots`);
- a user books a slot (`createAppointment`);
- an admin changes an appointment's status, which releases the slot on CANCELLED (`updateAppointmentStatus`);
- a user cancels their own appointment (`cancelAppointment`).

**The validators.** The module also declares request-body schemas: date and HH:MM strings, bounds on duration and break, required contact fields, and the status enum.

**Modules:**
- `AppointmentTypes` (`types.dfy`): the records, payloads, status enums and the error type, with the two HTTP codes used.
- `SlotTiling` (`tiling.dfy`):
  - the tiling loop as a `while` loop, `GenerateSlots`;
  - the function `Tiles` that specifies it;
  - lemmas for bounds, closed form, count, order and two worked examples.
- `AppointmentStore` (`store.dfy`):
  - the three tables as one `Store` value with its id counters;
  - the store invariant;
  - each operation as a function from the store before a call to the result and the store after it. A call that fails returns the store unchanged.
- `BookingService` (`service.dfy`): the class `AppointmentService`, whose fields are the three maps and the counters. Its methods update them in place and are proved to do exactly what the step functions say, keeping the invariant.
- `BookingProperties` (`properties.dfy`): properties that span several calls.
- `AppointmentValidation` (`validation.dfy`): the schemas as predicates with defaults.
- `LifecycleFindings` (`findings.dfy`): two ways appointment state and slot state drift apart under the code as written, and a corrected variant under which they stay coupled.

**Representation:**
- A date is an abstract integer key.
- Times are integer minutes after that date's midnight, so a window `startTime..endTime` is a pair of integers.
- Row ids are natural numbers handed out by counters.

**Store invariant.** Every BOOKED slot is held by an appointment that is not CANCELLED. The code keeps this in every call. The converse does not hold, as `## Findings` shows: an active appointment need not hold a BOOKED slot, or any slot at all.

**Where the code and its evident intent differ, this model follows the code:**
- No status transition is ever refused except cancelling a COMPLETED appointment by its requester. CANCELLED and COMPLETED are not terminal.
- Regenerating slots deletes BOOKED slots as well.
- Updating an existing calendar row patches only the fields the payload carries. An absent `isOffDay` or `description` is skipped by the ORM's update and keeps its old value.

The stricter behaviour is modelled as the corrected variant in `LifecycleFindings`: a CANCELLED appointment accepts no further status change, and slots are not regenerated over a BOOKED slot.

## Model

| member | source | states |
|---|---|---|
| SlotTiling.GenerateSlots | src/app/modules/Appoinment/appointment.service.ts:72-89 | the loop that advances the cursor by duration plus break and pushes every slot that ends inside the window returns exactly `Tiles` of the window |
| SlotTiling.TilesWithinWindow | src/app/modules/Appoinment/appointment.service.ts:72-89 | every generated slot belongs to the calendar, is AVAILABLE, lasts exactly `slotDuration`, starts at or after the window start and before its end, and ends no later than the window end |
| SlotTiling.EmptyWindowNoTiles | src/app/modules/Appoinment/appointment.service.ts:75 | a window whose end is not after its start yields no slots, whatever the duration and break |
| SlotTiling.TilesClosedForm | src/app/modules/Appoinment/appointment.service.ts:73-89 | the k-th slot starts at windowStart + k·(slotDuration + breakTime), and there are exactly as many slots as advances k at which a slot still fits |
| SlotTiling.ConsecutiveStartsOneStepApart | src/app/modules/Appoinment/appointment.service.ts:88 | consecutive slots start exactly slotDuration + breakTime apart |
| SlotTiling.TilesSortedAndDisjoint | src/app/modules/Appoinment/appointment.service.ts:75-89 | with a non-negative break the slots are strictly ordered by start and no two overlap |
| SlotTiling.NineToFiveHourly | src/app/modules/Appoinment/appointment.service.ts:72-89 | 09:00–17:00 with 60-minute slots and no break gives 8 slots, from 09:00–10:00 to 16:00–17:00 |
| SlotTiling.MorningWithBreaks | src/app/modules/Appoinment/appointment.service.ts:72-89 | 09:00–12:30 with 60-minute slots and 15-minute breaks gives 09:00, 10:15 and 11:30, and no fourth slot that would overrun the window |
| AppointmentStore.DeleteSlotsOf | src/app/modules/Appoinment/appointment.service.ts:92-94 | exactly the slots of the other calendars remain, unchanged |
| AppointmentStore.InsertSlots | src/app/modules/Appoinment/appointment.service.ts:96-98 | the old slots stay, and the k-th created slot is stored under id firstId + k, with no other new id |
| AppointmentStore.SetOffDay | src/app/modules/Appoinment/appointment.service.ts:16-38 | upsert: afterwards the date has exactly one row and no other date changes. A new row gets a fresh id, `isOffDay` defaulting to false and the given description. An existing row keeps its id and takes only the supplied fields. Slots and appointments are unchanged and the invariant is kept |
| AppointmentStore.CreateTimeSlots | src/app/modules/Appoinment/appointment.service.ts:40-104 | an off day fails with 400 "Cannot create slots for off day" and the store unchanged. Otherwise the date's calendar row exists and is not off. Its slots are exactly the tiled window under fresh ids, BOOKED ones included in the deletion. Other calendars' slots are unchanged and no new slot of another calendar appears. No date other than the payload's gains a row, and existing rows are unchanged. The appointments are unchanged, and the count returned is the number generated |
| AppointmentStore.ReplaceSlotsOfCalendar | src/app/modules/Appoinment/appointment.service.ts:91-98 | delete-then-insert leaves the calendar holding exactly the new slots, and every other calendar holding exactly the slots it had |
| AppointmentStore.CreateTimeSlotsValid | src/app/modules/Appoinment/appointment.service.ts:91-98 | replacing a calendar's slots by AVAILABLE ones keeps the store invariant: no BOOKED slot survives without its holder |
| AppointmentStore.CollectAvailable | src/app/modules/Appoinment/appointment.service.ts:111-114 | lists a slot exactly when it belongs to the calendar and is AVAILABLE, as its id, start, end and status, each once |
| AppointmentStore.InsertByStart | src/app/modules/Appoinment/appointment.service.ts:115-117 | inserting into a list sorted by start keeps it sorted, and the result is the input's multiset plus the one element. A list free of duplicates stays free of them when the inserted element is new |
| AppointmentStore.SortByStart | src/app/modules/Appoinment/appointment.service.ts:115-117 | the result is sorted by start and is a permutation of the input (equal multisets). It has no duplicates when the input has none |
| AppointmentStore.AvailableSlots | src/app/modules/Appoinment/appointment.service.ts:107-140 | a date with no calendar row, or an off day, reads as an off day with no slots. Otherwise the list holds exactly that calendar's AVAILABLE slots, each once, in ascending start order |
| AppointmentStore.CreateAppointment | src/app/modules/Appoinment/appointment.service.ts:143-207 | fails with 404 "Time slot not found", 400 "Time slot is not available" or 400 "Cannot book appointment on off day", leaving the store unchanged, and succeeds exactly when none applies. On success the slot becomes BOOKED and one new PENDING appointment for that slot exists under a fresh id. It copies every contact, date, notes and fee field of the payload, with `isPaid` false unless the payload says true. The invariant is kept |
| AppointmentStore.UpdateAppointmentStatus | src/app/modules/Appoinment/appointment.service.ts:321-364 | an unknown id fails with 404 "Appointment not found". Otherwise any status is set, with no transition check. When the appointment's slot no longer exists, the first read, which includes the required slot, fails for every status and leaves the store unchanged. CANCELLED also makes the linked slot AVAILABLE. Any other status leaves every slot as it was. The invariant is kept |
| AppointmentStore.CancelAppointment | src/app/modules/Appoinment/appointment.service.ts:367-393 | 404 "Appointment not found or you don't have permission" unless the appointment exists and belongs to the requester. 400 "Cannot cancel completed appointment" when it is COMPLETED. Otherwise it is exactly the status update to CANCELLED |
| BookingService.AppointmentService.SetOffDay | src/app/modules/Appoinment/appointment.service.ts:16-38 | the tables after the call, and the returned row, are those of `AppointmentStore.SetOffDay` on the tables before it, and the invariant holds |
| BookingService.AppointmentService.CreateTimeSlots | src/app/modules/Appoinment/appointment.service.ts:40-104 | the in-place upsert, tiling loop, deletion and insertion leave the tables, and return the result, that `AppointmentStore.CreateTimeSlots` specifies |
| BookingService.AppointmentService.CreateAppointment | src/app/modules/Appoinment/appointment.service.ts:143-207 | the checks and the in-place booking agree with `AppointmentStore.CreateAppointment`, and the invariant holds |
| BookingService.AppointmentService.UpdateAppointmentStatus | src/app/modules/Appoinment/appointment.service.ts:321-364 | the in-place status update and slot release agree with `AppointmentStore.UpdateAppointmentStatus`, and the invariant holds |
| BookingService.AppointmentService.GetAvailableSlots | src/app/modules/Appoinment/appointment.service.ts:107-140 | read from the service's own tables: a date with no row, or an off day, reads as off with no slots. Otherwise the list holds exactly that calendar's AVAILABLE slots, ascending by start |
| BookingService.AppointmentService.CancelAppointment | src/app/modules/Appoinment/appointment.service.ts:367-393 | the ownership and COMPLETED checks followed by the status update agree with `AppointmentStore.CancelAppointment`, and the invariant holds |
| BookingProperties.SetOffDayIdempotent | src/app/modules/Appoinment/appointment.service.ts:16-38 | repeating the same upsert returns the same row and changes nothing further |
| BookingProperties.AvailabilityAfterCreateTimeSlots | src/app/modules/Appoinment/appointment.service.ts:91-139 | right after slots are generated for a working date, that date's availability lists exactly the generated slots under their new ids |
| BookingProperties.BookingTakesSlotOffTheMarket | src/app/modules/Appoinment/appointment.service.ts:150-171 | after a booking, its slot is listed for no date, every other listing is unchanged, and a second booking of the slot fails with 400 "Time slot is not available" |
| BookingProperties.CancelReopensSlot | src/app/modules/Appoinment/appointment.service.ts:352-357 | after a cancel on a working date, the slot is listed again and a new booking of it succeeds |
| BookingProperties.OffDayClosesDate | src/app/modules/Appoinment/appointment.service.ts:21-37 | marking a date off hides all its slots and makes any booking of one of them fail. Existing appointments and slots stay as they were |
| AppointmentValidation.ValidateSetOffDay | src/app/modules/Appoinment/appointment.validation.ts:4-10 | a body is accepted exactly when it has a date. `isOffDay` defaults to false and `description` passes through |
| AppointmentValidation.ClockMinutes | src/app/modules/Appoinment/appointment.service.ts:63-70 | the minutes after midnight that the split-and-setHours reading of a two-digit HH:MM string selects, between 0 and 99·60 + 99 |
| AppointmentValidation.FormatThenReadClock | src/app/modules/Appoinment/appointment.validation.ts:15-16 | any two-digit hour and minute pair, formatted, matches the pattern and reads back as the same fields and minute count |
| AppointmentValidation.ReadThenFormatClock | src/app/modules/Appoinment/appointment.validation.ts:15-16 | every string the pattern accepts is the formatting of its own fields, so the pattern accepts exactly the formatted pairs |
| AppointmentValidation.ClockPatternHasNoRangeCheck | src/app/modules/Appoinment/appointment.validation.ts:15-16 | "99:99" is accepted, meaning 6039 minutes, and "09:00" means 540. "9:00", "09:00:00" and "09-00" are rejected |
| AppointmentValidation.AcceptedTimeSlotsAreBounded | src/app/modules/Appoinment/appointment.validation.ts:12-20 | an accepted body yields a record carrying the body's date, times and duration, and its break or 0. The duration is in [15, 480], the break in [0, 60], and both times match the pattern, so the loop advances by a positive step |
| AppointmentValidation.WellFormedTimeSlotsAccepted | src/app/modules/Appoinment/appointment.validation.ts:12-20 | a body with a date, two pattern-matching times, a duration in [15, 480] and no break or one in [0, 60] is accepted |
| AppointmentValidation.TimeSlotsRangeRejections | src/app/modules/Appoinment/appointment.validation.ts:17-18 | a missing or out-of-range duration, or an out-of-range break, is rejected |
| AppointmentValidation.AcceptedAppointmentFields | src/app/modules/Appoinment/appointment.validation.ts:22-38 | an accepted body yields a record carrying the body's slot id, names, e-mail, phone number, appointment date and fee. The names are non-empty, the e-mail passes the e-mail check, the phone number has at least 10 characters and a given fee is positive. The optional fields pass through |
| AppointmentValidation.WellFormedAppointmentAccepted | src/app/modules/Appoinment/appointment.validation.ts:22-38 | a body with a slot id, an appointment date, non-empty names, an accepted e-mail, a phone number of at least 10 characters and no fee or a positive one is accepted |
| AppointmentValidation.AppointmentRejections | src/app/modules/Appoinment/appointment.validation.ts:25-36 | a short phone number, an empty name or a non-positive fee is rejected |
| AppointmentValidation.StatusNamesRoundTrip | src/app/modules/Appoinment/appointment.validation.ts:40-44 | the enum accepts a string exactly when it is one of the four upper-case status names, and parses each name back to its status |
| LifecycleFindings.RecancelDoubleBooksSlot | src/app/modules/Appoinment/appointment.service.ts:367-393 | as written, a second cancel of a cancelled appointment releases a slot someone else has since booked, so two PENDING appointments end up on one slot |
| LifecycleFindings.ReopenLeavesSlotAvailable | src/app/modules/Appoinment/appointment.service.ts:321-364 | as written, CANCELLED to CONFIRMED succeeds while the slot stays AVAILABLE |
| LifecycleFindings.RegenerationOrphansBooking | src/app/modules/Appoinment/appointment.service.ts:91-98 | as written, regenerating a date deletes a BOOKED slot. The PENDING appointment then refers to no slot and its cancel fails for good |
| LifecycleFindings.UpdateAppointmentStatusChecked | src/app/modules/Appoinment/appointment.service.ts:321-364 | the corrected update refuses any change to a CANCELLED appointment, leaving the store unchanged. Otherwise it is exactly the update as written |
| LifecycleFindings.CancelAppointmentChecked | src/app/modules/Appoinment/appointment.service.ts:367-393 | the corrected cancel refuses an appointment that is already CANCELLED, leaving the store unchanged. Otherwise it is exactly the cancel as written: the ownership and COMPLETED refusals, then the update to CANCELLED. A failure leaves the store unchanged and the invariant is kept |
| LifecycleFindings.CreateTimeSlotsChecked | src/app/modules/Appoinment/appointment.service.ts:91-98 | the corrected regeneration refuses a date whose calendar has a BOOKED slot, leaving the store unchanged. Otherwise it is exactly the regeneration as written |
| LifecycleFindings.CheckedOperationsKeepCoupled | src/app/modules/Appoinment/appointment.service.ts:143-393 | under the corrected calls, every call keeps two facts. Each appointment that is not CANCELLED holds an existing BOOKED slot. No two such appointments hold the same slot |
| LifecycleFindings.CreateTimeSlotsKeepsCoupled | src/app/modules/Appoinment/appointment.service.ts:91-98 | corrected regeneration deletes only slots no active appointment holds |
| LifecycleFindings.CreateAppointmentKeepsCoupled | src/app/modules/Appoinment/appointment.service.ts:150-201 | booking an AVAILABLE slot gives it to one new active appointment and touches no other holder |
| LifecycleFindings.CheckedUpdateKeepsCoupled | src/app/modules/Appoinment/appointment.service.ts:334-361 | the corrected status update releases only the slot its own active appointment held |

## Left out

- `getUserAppointments` and `getAllAppointments` (appointment.service.ts:210-318) are not modelled. They build database queries with pagination, whose helper is not part of this model, and leave case-insensitive search to the database.
- The controller, the routes, the payment service and the Stripe client are not part of this model. They are HTTP plumbing, authentication and calls to an external payment API.
- Concurrency is not modelled. The availability checks in `createAppointment` run outside its transaction, so two concurrent bookings can both pass them. Each call here is one atomic step, so that race does not arise.
- Real dates, time zones and daylight saving are not modelled. A date is an abstract key and times are minutes after its midnight. `setHours` with hours past 23 rolls into later days, and the minute count carries that over without naming the day.
- The service's own `split(":").map(Number)` reading of times is modelled only for two-digit `HH:MM` strings (`ClockMinutes`). The service takes its window already in minutes, and other strings, which yield `NaN` or shifted fields, are not modelled.
- The success message of `createTimeSlots` is not modelled. It is built with `toDateString`, and the model returns the slot count that comes with it.
- The string-to-`Date` transforms of the schemas, JSON type checks and non-integer numbers are not modelled. Durations and breaks are integers.
- The schema library's e-mail pattern is a parameter `isEmail` of `ValidateAppointment`.
- The schemas are not attached to any route (appointment.routes.ts:13-16). Each service function states its own precondition, such as a positive advance for the tiling loop. That precondition leaves out an input the routed service accepts and never finishes: with `slotDuration` 0 and no break, `currentTime` never advances at appointment.service.ts:88. If the window is non-empty, a slot is pushed at appointment.service.ts:80 on every pass, so the request runs until the process runs out of memory. A non-positive step is likewise excluded when the break is negative.
- The service is modelled at its declared TypeScript types: `date` is a `Date` (modelled as a date key) and `status` is one of the four statuses. The model thereby assumes what the schemas' date transform (appointment.validation.ts:14) and status enum (appointment.validation.ts:42) would provide. As routed, the controller passes the request body on unchecked (appointment.controller.ts:24), and this is not modelled:
  - `date` arrives as a JSON string, so `date.toDateString()` at appointment.service.ts:101 throws. It throws after the `deleteMany` and `createMany` at appointment.service.ts:92-98, which run outside any transaction. The admin then gets an error while the date's slots have already been replaced, whereas `AppointmentStore.CreateTimeSlots` returns the count.
  - An absent or unknown `status` reaches the update at appointment.service.ts:336-338. An absent one is skipped by the ORM, so the update changes nothing and succeeds.
- Related rows that the ORM's `include`/`select` embed in returned records (the slot, the calendar, the user's name and e-mail) are not modelled. An appointment result is its id and row.
- Referential actions of the database schema are not part of this model. Deleting a slot is modelled as leaving any appointment that refers to it in place, with a dangling slot id. The model takes the relation from appointment to slot as required, as `timeSlotId: string` in appointment.interface.ts declares it. So a later read that includes the slot (appointment.service.ts:325-328) fails with an inconsistent query result, and every status update of such an appointment fails.
- Unique constraints of the database schema are not part of this model either. The model assumes no unique constraint on an appointment's slot id. So a slot freed by a cancel can be booked again by a new appointment. This matters to `BookingProperties.CancelReopensSlot` and to the first finding. With a one-to-one relation between appointment and slot, the `create` at appointment.service.ts:174 would refuse that second booking.
- AppointmentValidation.ValidateAppointment: string lengths count Unicode scalar values, while the schema's `.min(10)` on the phone number (appointment.validation.ts:28) and `.min(1)` on the names count UTF-16 code units. So a string of five characters outside the Basic Multilingual Plane passes the schema's phone check but is rejected here.
- Row ids are counters. The database's string ids are not modelled.
- The relative order of two available slots with the same start time is left open. The query orders by start only.

## Findings

| source | as written | input that shows it | evidently intended | confidence | as-written member | corrected member |
|---|---|---|---|---|---|---|
| src/app/modules/Appoinment/appointment.service.ts:367-393 | the cancel checks only for COMPLETED, and the status update releases the slot on every CANCELLED, including a second one | alice books slot 0 and cancels. bob books slot 0. alice cancels again, which makes slot 0 AVAILABLE while bob is PENDING. carol books slot 0, so bob and carol both hold it | a cancelled appointment is final and releases its slot only once | medium; not executed | LifecycleFindings.RecancelDoubleBooksSlot | LifecycleFindings.CancelAppointmentChecked |
| src/app/modules/Appoinment/appointment.service.ts:321-364 | any status may follow CANCELLED, and a reopened appointment does not re-book its slot | alice books slot 0 and cancels. An admin sets her appointment to CONFIRMED. It is CONFIRMED while slot 0 is AVAILABLE and bookable by others | CANCELLED accepts no further transition | medium; not executed | LifecycleFindings.ReopenLeavesSlotAvailable | LifecycleFindings.UpdateAppointmentStatusChecked |
| src/app/modules/Appoinment/appointment.service.ts:91-98 | regeneration deletes all slots of the date, BOOKED ones included | alice books slot 0 (09:00–10:00 on date 7). An admin regenerates 09:00–10:00 with 60-minute slots. Slot 0 is gone, alice's appointment is PENDING with no slot, and her cancel, like any status update of it, fails because the read that includes her slot finds none | refuse regeneration while the date has a BOOKED slot | low, since it depends on the schema's referential action, which is not part of this model; not executed | LifecycleFindings.RegenerationOrphansBooking | LifecycleFindings.CreateTimeSlotsChecked |
