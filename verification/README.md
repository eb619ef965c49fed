# Verified model of the appointment engine

A Dafny model of how the booking platform decides, records and reports: which
start times are free, how bookings and moves are accepted and serialised, how the
weekly hours become offers, how appointments are closed and counted as revenue,
how memberships account for paid time, and how reminders and campaigns avoid
writing to a client twice. `dafny verify dfyconfig.toml` checks everything.

The model follows the code's shape. Objects that change their fields are classes
(`Appointment`, `Membership`, `Database`, `HourTable`), loops are loops with
invariants, and each method is proved equal to a specification function. The
theorems are about those functions, over every input, every run and every
interleaving.

| file | content |
|---|---|
| `wrappers.dfy`, `text.dfy` | results, slices, blank strings |
| `appointment.dfy` | the appointment row, its lifecycle rules, the entity |
| `occupancy.dfy` | the occupancy rule, its loop and its order-free meaning |
| `database.dfy`, `queries.dfy` | tables, repository queries, book / move / close |
| `freeslots.dfy`, `requests.dfy`, `offered.dfy`, `decisions.dfy` | what is answered, accepted, offered and refused, said about the fields of the tables |
| `runs.dfy`, `lifecycle.dfy`, `ledger.dfy`, `revenue.dfy` | what sequential runs keep and count |
| `protocol.dfy`, `anomalies.dfy` | transactions as interleaved steps under the service row lock; undisturbed ones; races outside the lock |
| `latewrites.dfy`, `lostupdates.dfy`, `counters.dfy` | updates that rest on rows read earlier: capacity, closed appointments, revenue, client counters |
| `hours.dfy`, `availability.dfy`, `daily.dfy` | weekly hours, offered starts, and the way from hours through offers to bookings |
| `membership.dfy` | renewal, freezing, expiry and the time ledger |
| `campaign.dfy`, `keys.dfy` | claim-before-send, the per-business cap, dedupe keys |
| `reminder.dfy`, `button.dfy` | the polling reminder scheduler and the reply buttons |
| `messages.dfy` | the alternating message list handed to the language model |

Times are integer seconds (UTC) and durations are minutes, as in the tables. A day
is a start instant (local midnight in UTC) plus offsets. Clocks, fresh identifiers
and the outcome of sends are parameters. "Live" is the repository's notion of an
active appointment: PENDING, CONFIRMED or RESCHEDULED.

## What the proofs say about the code

The guarantees that hold:

- In every sequential run, seats stay within capacity for each professional value
  and overlapping sessions are compatible.
- In every interleaving of bookings, of moves that take the lock, and of closings that
  write on what they read earlier, seats stay within capacity for each professional
  value and overlapping sessions of one service are one session, as long as no update
  brings to life what nobody evaluated. That in turn only asks something of closings:
  a confirm must find the appointment still live, and a cancellation, completion or
  no-show must find it at the start it had read
  (`BookingProtocol.CalmRunsAreGuarded`).
- Which requests, moves and closings go through is characterised from both sides,
  about the fields of the tables: by status, interval, professional, capacity and
  clock (`BookingCriteria`, `MoveCriteria`, `ClosingCriteria`). So is what the query
  offers, from the submitted schedule on (`OfferCriteria.ScheduleIsOffered`).
- What is offered is what booking accepts, with the same number of places, and one
  booking changes the offer by exactly the starts it should.
- In sequential runs, revenue of a window is exactly what completions collected in
  it, and counters equal rows. A membership's end date is accounted for to the
  second.
- Campaign messages are attempted at most once. An appointment that stays open gets
  exactly one reminder if the polls are at most two hours apart and the first of them
  is at least 23 hours ahead, no crash occurs, and its message is delivered.

Where the code does less than its comments or its callers may expect, the exact
condition or a concrete run is proved:

- Capacity is counted per professional value. A class with one place can hold two
  appointments with two professionals (`Runs.CapacityIsPerProfessional`), and a
  booking keeps the whole session within capacity iff a place was left over all
  professionals (`Runs.SessionTotalAfterBooking`).
- A move without a service repository, as the REST route makes it, takes no lock.
  One such move racing one booking overfills a slot
  (`ProtocolAnomalies.UnlockedMoveBreaksSafety`). A commit is safe iff the row as it
  is written fits the rows committed by then, or takes no more than it did
  (`ProtocolAnomalies.WriteIsSafeIff`).
- The idempotency check runs before the lock: two simultaneous requests of one
  client take two seats (`ProtocolAnomalies.SimultaneousRepeatTakesTwoSeats`,
  `ProtocolAnomalies.SecondSeatIff`).
- The confirm button reads the status and later updates it without looking again or
  locking. If the appointment is cancelled and its slot booked in between, the
  confirm overfills the slot (`LateWrites.LateConfirmBreaksSafety`). Its write is
  safe iff the row is still live or fits again (`LateWrites.ConfirmLandsSafelyIff`).
- A repository update merges the entity as it was read: it writes the columns in which
  the entity differs from the row that the merge selects. A late cancellation can so
  write back an old start, and a move that then brings the appointment to life does so
  where nobody evaluated it, although every move takes the lock
  (`LateWrites.StartWrittenBackBreaksSafety`).
- A move that read an appointment open and updates it after its completion or
  cancellation undoes that, and revenue falls (`LostUpdates.MoveUndoesCompletion`). A
  closed appointment stays closed iff no update that writes another status reaches it:
  that of a move whose merge did not select RESCHEDULED, a confirm's, or that of a
  no-show whose merge did not select NO_SHOW (`LostUpdates.StaysClosedIff`). Only
  someone who read it open can do that (`LostUpdates.ReopenerReadItOpen`). Revenue
  never falls iff no update takes a completed row's status, start or amount back
  (`LostUpdates.RevenueNeverFallsIff`).
- Two bookings of one client at once count as one in the client's counter
  (`CounterRace.SimultaneousBookingsCountOnce`). Counter and rows stay equal iff no
  booking of the client finishes between another's read and its finish
  (`CounterRace.CountsStayEqualIff`).
- A client's number is looked up as given but stored stripped, under a unique key.
  With white space around it a first booking goes through and the same request
  again fails on the key (`BookingLedger.PaddedRepeatFails`). A repeat is idempotent
  iff the number equals its own strip (`BookingLedger.RepeatedBooking`). A number
  whose only client is inactive cannot book either (`DailyOffer.OfferedCanBeBooked`).
- A move does not look for a seat the client already holds, so it can double one.
  Seats stay unique throughout a run iff no move does that
  (`BookingLedger.SeatsStayUniqueIff`).
- Freezing a membership that is ACTIVE on record but past its end succeeds, unless
  the expiry sweep came first. The two agree iff the membership is not overdue
  (`Memberships.FreezeSeesSweepIffOverdue`).
- A moved appointment has status RESCHEDULED and is never reminded
  (`Reminders.MovedIsNotReminded`). A crash between a reminder's delivery and its
  mark repeats the reminder (`Reminders.CrashRepeatsAReminder`), and so do two
  scheduler processes that poll at the same time (`Reminders.TwoSchedulersRemindTwice`).
- The summary's per-status figures leave out moved appointments
  (`Revenue.SummaryOmitsMoved`).
- Opening hours are cut to whole minutes, so a first session may start up to a
  minute before opening (`DailyOffer.InsideRealHours`).
- The appointment's documentation gives cancelling and moving to PENDING and
  CONFIRMED only; the code also accepts RESCHEDULED and NO_SHOW. A NO_SHOW can so
  become live again, and only by a move (`Lifecycle.RevivedOnlyByMove`).
- The campaign setting called a daily cap is a cap per campaign and cycle
  (`CampaignCycle.CapIsExact`).
- `Appointment.reschedule` writes the new start before it checks the new duration,
  so the entity is left moved when that check raises
  (`Appointments.Appointment.Reschedule`).

## Model

| member | source | states |
|---|---|---|
| SlotOccupancy.EvaluateSlot | src/application/appointment/slot_occupancy.py:29-98 | The filtering and the two cases give the order-free meaning: a one-to-one slot is free iff nothing overlaps; otherwise blocked iff some overlapping row is exclusive or the same service at another start, else capacity minus same-session rows, at least 0. |
| SlotOccupancy.EvaluateGroupClass | src/application/appointment/slot_occupancy.py:63-94 | The loop with its two early returns decides that same order-free meaning for the rows it is given. |
| SlotOccupancy.EvaluateAntitone | src/application/appointment/slot_occupancy.py:25-94 | For any sub-multiset of the booked rows: bookable stays bookable, places do not decrease, a block was a block before. |
| SlotOccupancy.EvaluateOrderIndependent | src/application/appointment/slot_occupancy.py:29-94 | Permuting the booked rows changes nothing in the evaluation. |
| SlotOccupancy.CapacityBlindAcceptance | src/application/appointment/reschedule_appointment.py:62-97 | A slot accepted with capacity 1 and an empty capacity map is free, with all its places, under every capacity and every map. |
| SlotOccupancy.EvaluateLocal | src/application/appointment/slot_occupancy.py:63-94 | Two row lists with the same overlapping rows, and maps that agree on the services of those, evaluate alike. |
| SlotOccupancy.EvaluateAppend | src/application/appointment/slot_occupancy.py:63-98 | Exact effect of one more row: none if it does not overlap or is of another group class, blocked if exclusive or misaligned, one place less if it joins the session. |
| Scheduling.TwoStageFilter | src/infrastructure/persistence/repositories/appointment_repository.py:80-112 | SQL condition on the start followed by the loop on the end selects the same rows in the same order as the half-open overlap predicate. |
| Scheduling.Database.ListActiveInRange | src/infrastructure/persistence/repositories/appointment_repository.py:80-112 | The query's loop returns the visible live overlapping rows. |
| Queries.ActiveInRangeExact | src/infrastructure/persistence/repositories/appointment_repository.py:80-112 | Each row occurs in the answer as often as in the table if it is live, of the business, visible for the professional and overlapping, and not at all otherwise. |
| Queries.PlacesTakenIsActiveCount | src/infrastructure/persistence/repositories/appointment_repository.py:139-160 | Without a professional filter, the places the evaluation counts as taken equal count_active_for_service_at. |
| Queries.RemainingFromActiveCount | src/application/appointment/slot_occupancy.py:89-94 | So remaining is max(0, capacity - count) unless the slot is blocked. |
| Queries.FindSeatExact | src/infrastructure/persistence/repositories/appointment_repository.py:114-137 | A seat is found iff the client has a live row of that service at that start, and what is found is one. |
| FreeSlots.EvaluationIsExact | src/application/appointment/slot_occupancy.py:63-98 | The evaluation of the listed rows is bookable iff, one-to-one, no active appointment seen for that professional, other than the one being moved, shares an instant; for a class, iff none of those is exclusive or of the same service at another start and fewer than capacity share the session. Remaining is what is left. |
| FreeSlots.RecheckIsExact | src/application/appointment/book_appointment.py:179-217 | Booking's re-check accepts exactly the free times, with the places left, and tells a full class from a taken slot. |
| FreeSlots.CountIsExact | src/infrastructure/persistence/repositories/appointment_repository.py:139-160 | The count is the number of pending, confirmed and moved rows of the service at that start. |
| BookingCriteria.AdmissionIsExact | src/application/appointment/book_appointment.py:79-108 | A request passes the entry checks iff name and number say something, the time has a zone, the service is active and of the business, and a professional who is looked up is of the business, active, and on the staff list if there is one. |
| BookingCriteria.AdmissionErrors | src/application/appointment/book_appointment.py:79-108 | Which of two errors any other request gets. |
| BookingCriteria.BookingSucceedsIff | src/application/appointment/book_appointment.py:78-177 | A booking is answered iff the request is in order, its client can be identified, and that client has the seat or the time is free and in the future; every other one changes nothing. |
| BookingCriteria.RefusalIsExact | src/application/appointment/book_appointment.py:179-217 | A request in order is refused for a duplicate key, a past time, a full class or a taken slot, each exactly when. |
| BookingCriteria.SeatedIsAnswered | src/application/appointment/book_appointment.py:121-144 | A client who has the seat gets an appointment in it and nothing changes. |
| BookingCriteria.BookingAddsOneRow | src/application/appointment/book_appointment.py:110-177 | Any other answered booking adds one pending row with the request's fields and the service's length, counts it for the first active client under the number or a new one under the stripped number, and leaves all else; spots_left is what then is left. |
| BookingCriteria.RunsStayStaffed | src/application/appointment/book_appointment.py:86-108 | In every run whose bookings look professionals up, every appointment with a professional is with an active one of its business who may perform its service. |
| MoveCriteria.MoveSucceedsIff | src/application/appointment/reschedule_appointment.py:53-110 | A move goes through iff the time has a zone, the appointment exists and is neither completed nor cancelled, the start is in the future, and the time is free for it with itself left out (one place without services); it then changes start and status of that row only. |
| MoveCriteria.MoveRefusalIsExact | src/application/appointment/reschedule_appointment.py:54-97 | Which error every refused move gets. |
| ClosingCriteria.ClosingSucceedsIff | src/domain/appointment/appointment.py:81-154 | Each closing goes through iff the appointment exists in a status that allows it (and the amount is not negative), and writes exactly its columns; the error otherwise. |
| ClosingCriteria.RevenueRisesIff | src/application/appointment/complete_appointment.py:41-57 | The revenue of a window rises by a completion's amount exactly when the appointment was pending, confirmed or moved and lies in the window; no other closing moves it. |
| Scheduling.Database.Admit | src/application/appointment/book_appointment.py:79-108 | The first check that fails, in the code's order, decides the error; otherwise the active service of the business is returned. |
| Scheduling.Database.Book | src/application/appointment/book_appointment.py:78-217 | Result and new tables for every branch: entry checks, professional checks, client lookup by the number as given, insert under the stripped number with its unique key, idempotent answer, re-check, row rules, row and counter written together; errors leave the tables as they were. |
| Scheduling.Database.Reschedule | src/application/appointment/reschedule_appointment.py:53-110 | Result and new tables for every branch, with and without a service repository. |
| Scheduling.Database.CancelAppointment | src/application/appointment/cancel_appointment.py:30-43 | Result and new tables; a refused cancel changes nothing. |
| Scheduling.Database.CompleteAppointment | src/application/appointment/complete_appointment.py:35-65 | Result and new tables; a second completion is reported as already closed. |
| Appointments.Appointment.Confirm | src/domain/appointment/appointment.py:81-87 | Goes through from PENDING only; changes the status and nothing else. |
| Appointments.Appointment.Cancel | src/domain/appointment/appointment.py:89-97 | Refused exactly on COMPLETED and CANCELLED. |
| Appointments.Appointment.Reschedule | src/domain/appointment/appointment.py:99-126 | When it goes through, the moved row; when it raises, which fields it has already written. |
| Appointments.Appointment.Complete | src/domain/appointment/appointment.py:128-146 | From live statuses with a non-negative amount only; amount and time recorded. |
| Appointments.Appointment.MarkNoShow | src/domain/appointment/appointment.py:148-154 | From live statuses only. |
| Runs.AcceptedFits | src/application/appointment/slot_occupancy.py:63-98 | If the evaluation accepts a row, the row is compatible with every other row in the table and its session has a seat left over. |
| Runs.StepKeeps | src/application/appointment/book_appointment.py:78-217 | Each action keeps: valid rows, unique ids, no clash of live rows of one professional value, seats within capacity. |
| Runs.RunKeeps | src/application/appointment/reschedule_appointment.py:53-110 | So does every run of bookings, moves with or without the catalogue, confirms, cancels, button cancels, completions, no-shows and catalogue edits. |
| Runs.EveryRunIsSafe | src/application/appointment/slot_occupancy.py:29-98 | From an empty agenda: two overlapping live rows of one professional value are group classes, aligned if of one service, and every session is within capacity. |
| Runs.SessionTotalAfterBooking | src/infrastructure/persistence/repositories/appointment_repository.py:100-101 | Over all professionals, a booking leaves a session within capacity iff it had a place before; always so for a booking that names no professional. |
| Runs.CapacityIsPerProfessional | src/infrastructure/persistence/repositories/appointment_repository.py:100-101 | A safe agenda and a booking after which a service with one place has two live appointments at one start. |
| Lifecycle.StepEvolves | src/domain/appointment/appointment.py:81-154 | An action changes at most the row it names, along the lifecycle, and never its identity, client, service, length or reminder mark. |
| Lifecycle.RunEvolves | src/domain/appointment/appointment.py:81-154 | Over any run COMPLETED and CANCELLED rows are frozen, and a row that is pending or confirmed at the end was so all along and never moved. |
| Lifecycle.RevivedOnlyByMove | src/domain/appointment/appointment.py:99-112 | A row that is not live becomes live only by moving a NO_SHOW. |
| BookingLedger.CountLedger | src/application/appointment/book_appointment.py:160-164 | In every run the sum of the clients' counters grows by exactly the number of rows added. |
| BookingLedger.SeatsStayUniqueIff | src/application/appointment/book_appointment.py:121-144 | One live appointment per client, service and start at every point of a run iff no move goes to a seat its client already holds; so always without moves. |
| BookingLedger.RepeatedBooking | src/application/appointment/book_appointment.py:110-144 | Repeating a booking after any run, while its appointment is live and unmoved, changes nothing. If the number equals its own strip the answer is a live appointment in that seat, the same one if seats are unique; if not, it is a duplicate key error. |
| BookingLedger.RunStoresNumbers | src/domain/client/client.py:60-70 | Over any run every stored number is stripped and equals the external id. |
| BookingLedger.PaddedRepeatFails | src/domain/client/client.py:60-70 | From empty tables, a booking for " +573001234567" succeeds and the same request again fails on the unique key. |
| BookingLedger.MoveCanDoubleASeat | src/application/appointment/reschedule_appointment.py:62-98 | A safe agenda with unique seats and a move that doubles one. |
| Revenue.RevenueAdditive | src/infrastructure/persistence/repositories/reports_repository.py:33-58 | Revenue of adjacent half-open periods adds up. |
| Revenue.SummarySplitsRevenue | src/infrastructure/persistence/repositories/reports_repository.py:74-83 | The two compared periods together have the revenue of the whole span, whatever dates are asked for. |
| Revenue.SummaryOmitsMoved | src/infrastructure/persistence/repositories/reports_repository.py:116-161 | The total exceeds the per-status figures by exactly the RESCHEDULED rows. |
| Revenue.SummaryIsExact | src/infrastructure/persistence/repositories/reports_repository.py:74-161 | Each figure of both periods is the number of appointments of the business in that half-open period with that status, and the revenue is that period's. |
| Revenue.RevenueIsWhatWasCollected | src/infrastructure/persistence/repositories/reports_repository.py:33-58 | Over any run and for any window, revenue grows by the sum of the amounts of successful completions scheduled in it, never falls, and no price edit moves it. |
| Revenue.CompletedOnce | src/application/appointment/complete_appointment.py:35-65 | After a completion and any run, a second completion is refused and changes nothing. |
| BookingProtocol.ListingPromises | src/application/appointment/book_appointment.py:179-217 | An evaluation accepted on the committed rows means that the row fits all of them. |
| BookingProtocol.OthersSurviveCommit | src/infrastructure/persistence/repositories/service_repository.py:50-63 | A commit, whichever columns its merge wrote, invalidates no other transaction's accepted evaluation, because the service lock is exclusive. |
| BookingProtocol.StepKeepsProtocol | src/application/appointment/book_appointment.py:121-217 | Every step of every transaction (begin, seat check, lock, list, decide, the merge's select, flush, commit, abort) and of every closing (read, the merge's select, update) keeps safety, lock ownership and all pending promises, if moves lock and no update brings to life what nobody evaluated. |
| BookingProtocol.InterleavingsAreSafe | src/infrastructure/persistence/repositories/service_repository.py:50-63 | In every interleaving of any number of bookings, locking moves and closings that write on what they read earlier, committed seats stay within capacity per professional value and overlapping rows of a service are one session, as long as no update brings to life what nobody evaluated. |
| BookingProtocol.CalmRunsAreGuarded | src/infrastructure/persistence/repositories/appointment_repository.py:166-168 | That condition holds of every run in which moves lock, confirms land on live rows, and other closings select the start they had read and a row that does not come to life afterwards: the lock sees to the moves. |
| BookingProtocol.QuietStateIsSafe | src/application/appointment/book_appointment.py:78-164 | Every agenda sequential runs can reach is a start for such interleavings. |
| ProtocolAnomalies.UndisturbedIsSequential | src/application/appointment/book_appointment.py:78-164 | A transaction whose steps are not interrupted commits exactly the rows of the sequential booking. |
| ProtocolAnomalies.UndisturbedMoveIsSequential | src/application/appointment/reschedule_appointment.py:53-99 | A move whose steps are not interrupted, with the lock or without, ends in the tables of the sequential move. |
| ProtocolAnomalies.MergedAtOnce | src/infrastructure/persistence/repositories/appointment_repository.py:166-168 | A merge whose select and update are not interrupted writes the whole entity. |
| ProtocolAnomalies.UnlockedMoveBreaksSafety | src/presentation/api/v1/appointment_routes.py:336-350 | A run of bookings and moves alone, without any closing, from a quiet safe agenda to an unsafe one; what every such run needs is a move that takes no lock. |
| ProtocolAnomalies.WriteIsSafeIff | src/application/appointment/reschedule_appointment.py:64-98 | A booking's write keeps a safe agenda safe iff its row fits the rows committed by then, a move's iff the row as updated fits or takes no more than it did. |
| LateWrites.UndisturbedCloseIsSequential | src/application/appointment/complete_appointment.py:41-57 | A closing whose read, select and update are not interrupted is the sequential one. |
| LateWrites.LandsSafelyIff | src/infrastructure/persistence/repositories/appointment_repository.py:166-168 | Any closing's update keeps a safe agenda safe iff the row takes no more than it did or fits. |
| LateWrites.LateConfirmBreaksSafety | src/presentation/webhooks/router.py:282-295 | A run without any move, from a quiet safe agenda, in which a confirm lands after a cancellation and a new booking and the agenda ends unsafe. |
| LateWrites.ConfirmLandsSafelyIff | src/presentation/webhooks/router.py:288-295 | A confirm's write keeps a safe agenda safe iff the row is still live at the write or fits the rows committed by then. |
| LateWrites.StartWrittenBackBreaksSafety | src/infrastructure/persistence/repositories/appointment_repository.py:166-168 | A run from a quiet safe agenda to an unsafe one in which every move locks and every closing is a cancellation. |
| LostUpdates.MoveUndoesCompletion | src/infrastructure/persistence/repositories/appointment_repository.py:166-168 | A run in which a locking move is accepted, its appointment is then completed, and the move's update and commit make the revenue of a window fall. |
| LostUpdates.StaysClosedIff | src/infrastructure/persistence/repositories/appointment_repository.py:166-168 | A COMPLETED or CANCELLED appointment is closed at every point of an interleaving iff no update writes it another status: no move whose merge selected it in a status other than RESCHEDULED, no confirm, no no-show whose merge selected a status other than NO_SHOW. |
| LostUpdates.RevenueNeverFallsIff | src/infrastructure/persistence/repositories/reports_repository.py:33-58 | No window's revenue falls at any step of an interleaving iff no update takes a completed row's status, start or positive amount back. |
| LostUpdates.ReopenerReadItOpen | src/domain/appointment/appointment.py:99-112 | Whoever does that is an unfinished transaction or closing that had read the appointment open. |
| LostUpdates.ClosedForGood | src/domain/appointment/appointment.py:81-154 | Once nobody unfinished has read it open, a closed appointment keeps every field in every continuation. |
| ProtocolAnomalies.SimultaneousRepeatTakesTwoSeats | src/application/appointment/book_appointment.py:121-147 | A run of bookings alone, from an empty agenda, in which one client ends with two live seats of a session. |
| ProtocolAnomalies.SecondSeatIff | src/application/appointment/book_appointment.py:121-158 | A booking's commit keeps seats unique iff its client's seat is free at that moment. |
| ProtocolDecisions.DecisionIsExact | src/application/appointment/reschedule_appointment.py:64-98 | A transaction that has listed is accepted iff the time is free, in the future, and a moved appointment was read open; otherwise it changes nothing and lets go of its lock. |
| ProtocolDecisions.SeatCheckIsExact | src/application/appointment/book_appointment.py:121-144 | A booking ends before the lock iff its client has an active appointment in the seat. |
| ProtocolDecisions.LockWaitsIff | src/infrastructure/persistence/repositories/service_repository.py:50-63 | Taking the lock waits exactly while another transaction holds it. |
| ProtocolDecisions.UpdateWaitsIff | src/infrastructure/persistence/repositories/appointment_repository.py:166-168 | A move's update waits exactly for an uncommitted update of the same row. |
| ProtocolDecisions.LandingWaitsIff | src/infrastructure/persistence/repositories/appointment_repository.py:166-168 | So does a closing's. |
| CounterRace.CountsStayEqualIff | src/application/appointment/book_appointment.py:110-162 | A client's counter equals the number of rows throughout a run of concurrent bookings iff no booking of the client finishes between another's read and its finish. |
| CounterRace.SimultaneousBookingsCountOnce | src/domain/client/client.py:82-85 | A run of two bookings that ends with two rows and a counter of one. |
| BusinessHours.ApartMeansDisjoint | src/application/business_hours/set_business_hours.py:106-120 | For real hours the two comparisons say that no instant lies in both ranges. |
| BusinessHours.ValidateInput | src/application/business_hours/set_business_hours.py:94-120 | The grouping and nested loops accept iff the schedule is not empty, its days are weekdays and the open entries of each day are pairwise apart. |
| BusinessHours.AcceptanceIsExact | src/domain/business_hours/business_hour.py:40-98 | Validation and construction together accept exactly the non-empty schedules of proper hours in which no instant of a day is open twice. |
| BusinessHours.SortCorrect | src/infrastructure/persistence/repositories/business_hour_repository.py:113 | The sort orders by opening and permutes. |
| BusinessHours.SortStable | src/infrastructure/persistence/repositories/business_hour_repository.py:113 | Entries that open at the same time keep their order. |
| BusinessHours.ReplacedDay | src/infrastructure/persistence/repositories/business_hour_repository.py:98-132 | Deleting and inserting one day leaves it with the sorted items numbered from 1 and every other day with its rows. |
| BusinessHours.StoredIsExact | src/infrastructure/persistence/repositories/business_hour_repository.py:112-131 | A stored day is a permutation of its items, in order of opening, numbered 1, 2, 3 and so on. |
| BusinessHours.HourTable.UpsertMany | src/infrastructure/persistence/repositories/business_hour_repository.py:76-135 | Each (business, day) in the input ends with exactly its items, sorted and numbered; all others keep their rows. |
| BusinessHours.HourTable.SetBusinessHours | src/application/business_hours/set_business_hours.py:58-120 | Accepted iff acceptable; then stored per day as above; otherwise nothing changes. |
| Availability.SlotsInRange | src/application/appointment/get_available_slots.py:183-217 | The loop terminates with the bookable starts of the range, in order. |
| Availability.StartsExact | src/application/appointment/get_available_slots.py:196-215 | The starts visited are exactly open + k * step with start + duration <= close. |
| Availability.OffersExact | src/application/appointment/get_available_slots.py:198-214 | An offer is returned iff its start is visited and bookable, with the evaluation's places. |
| Availability.OffersBounded | src/application/appointment/get_available_slots.py:194-217 | At most (close - open - duration) / step + 1 offers when the range fits the service, otherwise none. |
| Availability.GetAvailableSlots | src/application/appointment/get_available_slots.py:79-180 | The query over all ranges of the day yields the specified offers, none when the day has no open range, and an error for an unknown service. |
| DailyOffer.StoredRangesChain | src/infrastructure/persistence/repositories/business_hour_repository.py:50-70 | After an accepted schedule is stored, the day's open ranges, read by sequence, are proper, disjoint, ascending, and entries of the schedule. |
| DailyOffer.HoursAlwaysChain | src/application/business_hours/set_business_hours.py:58-120 | After any sequence of submitted schedules from an empty table, the open ranges of every business and day are proper, disjoint and ascending. |
| DailyOffer.OfferFollowsSchedule | src/application/appointment/get_available_slots.py:153-171 | Then the day's offers strictly increase across ranges and each session lies inside one open entry, cut to minutes. |
| DailyOffer.InsideRealHours | src/application/appointment/get_available_slots.py:156-157 | All offered sessions of a range are inside the uncut hours iff it opens on a whole minute or its first start is not on offer. |
| DailyOffer.DayEvaluationIsBookingEvaluation | src/application/appointment/book_appointment.py:191-208 | Booking's re-check against the overlapping rows gives the evaluation the offer got from the whole day's rows and capacities. |
| DailyOffer.OfferedIffAccepted | src/application/appointment/book_appointment.py:179-217 | A start of the grid is on offer with n places iff booking's check accepts it and finds n. |
| DailyOffer.OfferedCanBeBooked | src/application/appointment/book_appointment.py:78-177 | An admitted request for an offered future start succeeds iff an active client has the number as given or no client has the stripped one as external id; it then adds the row with spots_left one less than offered, or finds the client's seat there; otherwise nothing changes. |
| DailyOffer.BookingUpdatesOffer | src/application/appointment/get_available_slots.py:141-171 | Booking an offered t: a query that sees it loses exactly the starts u with abs(u - t) below the duration (one-to-one) or exactly one place at t (class); other professionals' queries lose nothing. |
| DailyOffer.SpotsLeftIsNextOffer | src/application/appointment/book_appointment.py:176 | The next query offers t with n places iff n > 0 and spots_left was n. |
| OfferCriteria.RangesAreComplete | src/application/appointment/get_available_slots.py:100-110 | Every open row of the business and day is one of the day's ranges, and nothing else is. |
| OfferCriteria.OfferIsExact | src/application/appointment/get_available_slots.py:79-217 | t is offered with n places iff some open row of the day has it on its grid (every 900 seconds, or every session length for a class) with room for the session, and it is free with n places left; the query fails iff the service is unknown. |
| OfferCriteria.ScheduleIsOffered | src/application/appointment/get_available_slots.py:153-171 | The same from the schedule: after an accepted one that mentions the day, exactly the free grid starts of its open entries are offered. |
| Memberships.Membership.Renew | src/domain/membership/membership.py:113-132 | From the later of end and now; refused when CANCELLED or FROZEN. |
| Memberships.Membership.Freeze | src/domain/membership/membership.py:134-142 | From recorded ACTIVE only, without looking at the end date. |
| Memberships.Membership.Unfreeze | src/domain/membership/membership.py:144-164 | Credits the frozen time in whole days, rounded up. |
| Memberships.CommandsGoThroughIff | src/domain/membership/membership.py:113-184 | The recorded status alone decides: renew from ACTIVE or EXPIRED, freeze from ACTIVE, unfreeze from FROZEN, expire from ACTIVE past its end, cancel always; and the status each leaves. |
| Memberships.FrozenOnlyThaws | src/domain/membership/membership.py:117-122 | While a membership is FROZEN only an unfreeze or a cancellation changes anything. |
| Memberships.GrantsAreRecorded | src/domain/membership/membership.py:134-164 | Over any run from a grant, frozen_at is set on FROZEN memberships and on no ACTIVE or EXPIRED one. |
| Memberships.RenewalExtends | src/domain/membership/membership.py:113-132 | A renewal adds 30, 90 or 365 days to the later of end and now and changes nothing else but period, status and count. |
| Memberships.UnfreezeCredits | src/domain/membership/membership.py:144-164 | An unfreeze credits the least number of whole days that covers the time since the freeze, none if the clock went back, and changes nothing else but status and frozen_at. |
| Memberships.CancellationIsRecorded | src/domain/membership/membership.py:175-184 | A cancellation records its time and nothing else; a second one changes nothing. |
| Memberships.PlansLast | src/domain/membership/value_objects.py:19-28 | Grants end 30, 90 or 365 days after their start, in seconds. |
| Memberships.RenewalsAreCounted | src/domain/membership/membership.py:132 | Over any run renewal_count grows by the renewals that went through. |
| Memberships.CurrentIff | src/domain/membership/membership.py:83-102 | What effective_status and is_current say, by recorded status, start and end. |
| Memberships.DaysReachTheEnd | src/domain/membership/membership.py:104-111 | days_remaining is the least number of days that reaches the end, never negative. |
| Memberships.SweepsAreInvisible | src/domain/membership/membership.py:166-173 | With and without expiry sweeps anywhere in a run, the same commands go through and the terms agree up to a persisted expiry, unless a freeze reaches an overdue membership. |
| Memberships.LazyExpiryIsEagerExpiry | src/domain/membership/membership.py:83-111 | So every later effective_status, is_current, days_remaining and end date agree, and all terms agree after a renewal or cancel. |
| Memberships.FreezeSeesSweepIffOverdue | src/domain/membership/membership.py:134-142 | A freeze acts the same after a sweep iff the membership is not overdue; if it is, the freeze succeeds unswept and fails swept. |
| Memberships.TimeLedger | src/domain/membership/membership.py:113-164 | Over any run the end date moves by renewed days, frozen days and lapsed time, to the second; the start never moves. |
| Memberships.GrantedTimeLedger | src/domain/membership/membership.py:49-79 | ends_at = starts_at + granted and renewed periods + frozen_days_used + time lapsed before renewals. |
| Memberships.CancelledIsFinal | src/domain/membership/membership.py:175-184 | CANCELLED absorbs every command with all terms. |
| Memberships.FreezeConservesTime | src/domain/membership/membership.py:134-164 | A freeze and unfreeze never shorten the remaining time and lengthen it by less than a day. |
| Memberships.FrozenTimeIsCovered | src/domain/membership/membership.py:144-164 | Over any run, credited days cover the time frozen and exceed it by less than a day per cycle. |
| CampaignClaims.StepKeeps | src/infrastructure/scheduler/campaign_scheduler.py:222-302 | Every step, crashes included, keeps: one holder per unattempted claim, attempts only under committed claims, and forgets no attempt. |
| CampaignClaims.AtMostOnce | src/infrastructure/scheduler/campaign_scheduler.py:222-302 | For any number of processes, interleavings and crashes, each (tenant, key) is attempted at most once, under a committed claim, and marked sent only if attempted. |
| CampaignClaims.FreshStartIsSafe | src/infrastructure/scheduler/campaign_scheduler.py:275-302 | With no claim, no process at work and no attempt, the invariant that AtMostOnce starts from holds. |
| CampaignClaims.NeverRetried | src/infrastructure/scheduler/campaign_scheduler.py:258-270 | An attempted message, failed or not, is never attempted again. |
| CampaignClaims.SentMeansDelivered | src/infrastructure/scheduler/campaign_scheduler.py:258-270 | Over any run a row gets sent_at only for a message the channel took. |
| CampaignClaims.ClaimsStay | src/infrastructure/scheduler/campaign_scheduler.py:258-270 | Over any run, crashes included, a committed claim stays, and a sent_at stays set. |
| CampaignClaims.InsertIsExact | src/infrastructure/scheduler/campaign_scheduler.py:285-302 | An insert waits for another open one of the claim, moves on from a committed claim, and else holds it. |
| CampaignClaims.CrashIsExact | src/infrastructure/scheduler/campaign_scheduler.py:285-302 | A crash leaves a claim row behind only if it strikes a commit that the database has done. |
| CampaignClaims.OnlyAttemptsAttempt | src/infrastructure/scheduler/campaign_scheduler.py:236-256 | No other step attempts a message, and an attempt attempts the one its process has claimed. |
| CampaignClaims.UndisturbedDelivers | src/infrastructure/scheduler/campaign_scheduler.py:222-264 | Whatever the others are at, a process with an unclaimed message claims it, delivers it once and marks it. |
| CampaignCycle.RunCycle | src/infrastructure/scheduler/campaign_scheduler.py:111-143 | The loop tries exactly the candidates whose business has fewer than cap deliverable ones before them, and counts what went out. |
| CampaignCycle.CapIsExact | src/infrastructure/scheduler/campaign_scheduler.py:185-216 | So a cycle sends each business min(cap, deliverable) messages. |
| DedupeKeys.KeysAreInjective | src/infrastructure/scheduler/campaign_scheduler.py:122-125 | Keys differ for different campaigns, memberships or clients, end dates or ISO weeks. |
| DedupeKeys.WeekStampInjective | src/infrastructure/scheduler/campaign_scheduler.py:183 | Two ISO weeks share a stamp only if they are the same week of the same year. |
| DedupeKeys.KeysRead | src/infrastructure/scheduler/campaign_scheduler.py:183-204 | A win-back key is the campaign's name, the client, the year and the two-digit week, in that order. |
| DedupeKeys.ExpiringKeysRead | src/infrastructure/scheduler/campaign_scheduler.py:122-125 | An expiry key is the campaign's name, the membership and the ISO date, in that order. |
| Reminders.DueExact | src/infrastructure/scheduler/reminder_scheduler.py:39-51 | A poll selects an id iff it belongs to an open, unmarked appointment 23 to 25 hours ahead, ends included. |
| Reminders.PollsAreExact | src/infrastructure/scheduler/reminder_scheduler.py:30-51 | An idle scheduler's poll selects exactly the pending or confirmed appointments without reminder that start 82800 to 90000 seconds later; a busy one does not poll; a crash forgets the selection and nothing else. |
| Reminders.SendRemindersOnce | src/infrastructure/scheduler/reminder_scheduler.py:35-114 | A pass without interference is a poll and one turn per selected appointment, sent iff business, client, service and phone number id exist and delivery succeeds. |
| Reminders.PassIsExact | src/infrastructure/scheduler/reminder_scheduler.py:39-114 | Such a pass messages an appointment exactly once, and marks it, iff it is pending or confirmed, 82800 to 90000 seconds ahead and without reminder, its business has a phone number id, client and service exist, and delivery succeeds; otherwise not at all. |
| Reminders.PassSendsTheDue | src/infrastructure/scheduler/reminder_scheduler.py:65-114 | It messages exactly the selected appointments for which everything exists and delivery succeeds, once each. |
| Reminders.PassMarks | src/infrastructure/scheduler/reminder_scheduler.py:102-109 | A pass marks the rows it has messaged with the time and leaves every other row alone. |
| Reminders.RemindedAtMostOnce | src/infrastructure/scheduler/reminder_scheduler.py:102-114 | However actions, polls, turns and crashes interleave, messages sent for an appointment equal its mark plus its lost marks: at most one when none is lost. |
| Reminders.SomePollInWindow | src/infrastructure/scheduler/reminder_scheduler.py:30-39 | Polls at most two hours apart around a start include one inside its window. |
| Reminders.RemindedExactlyOnce | src/infrastructure/scheduler/reminder_scheduler.py:35-114 | With such polls, no crash and successful sends, an appointment still pending or confirmed at the end got exactly one reminder, with arbitrary actions in between. |
| Reminders.MovedIsNotReminded | src/infrastructure/scheduler/reminder_scheduler.py:44 | An appointment that is no longer pending or confirmed is never selected again in any run. |
| Reminders.CrashRepeatsAReminder | src/infrastructure/scheduler/reminder_scheduler.py:96-109 | A run with one crash in which an appointment gets two reminders. |
| Reminders.BothSelect | src/infrastructure/scheduler/reminder_scheduler.py:42-51 | Two processes that poll before either has marked a due appointment both select it. |
| Reminders.TwoSchedulersRemindTwice | src/infrastructure/scheduler/reminder_scheduler.py:96-109 | Both then send its reminder, although the first has marked it. |
| ReminderButtons.SplitInvertsJoin | src/presentation/webhooks/router.py:267-269 | Splitting a button id gives three parts iff it was joined from them with the first two free of underscores. |
| ReminderButtons.HandleReminderButton | src/presentation/webhooks/router.py:254-319 | Handled iff the id names an appointment and a confirm or cancel; then the tables change as by that closing, otherwise not at all. |
| ReminderButtons.ButtonsRoundTrip | src/infrastructure/scheduler/reminder_scheduler.py:90-95 | The handler reads back from a reminder's button the appointment and the closing it was made for. |
| ReminderButtons.HandledIff | src/presentation/webhooks/router.py:267-316 | A reply is dealt with iff its id is a confirm or cancel button of an appointment there is. |
| ReminderButtons.ConfirmButtonConfirms | src/presentation/webhooks/router.py:287-297 | "rem_confirm_" and an id confirms that appointment if it is pending and else changes nothing. |
| ReminderButtons.CancelButtonCancels | src/presentation/webhooks/router.py:299-313 | "rem_cancel_" and an id cancels that appointment, with the time, if it is pending or confirmed and else changes nothing. |
| ReminderButtons.RescheduleButtonIsLeft | src/presentation/webhooks/router.py:272-274 | A reschedule button is left to the agent. |
| ReminderButtons.LateReplyChangesNothing | src/presentation/webhooks/router.py:288-312 | A reply handled in one go changes the tables iff the row is PENDING, or CONFIRMED and the button cancels. |
| Conversation.CollapseSameRole | src/infrastructure/ai/booking_agent.py:177-187 | The loop that merges into the last turn computes the collapsed list. |
| Conversation.BuildMessageList | src/infrastructure/ai/booking_agent.py:155-174 | The list is the collapsed non-blank history with the client's new message added. |
| Conversation.MessageListIsFaithful | src/infrastructure/ai/booking_agent.py:155-174 | Roles strictly alternate, the last turn is the client's, and the joined contents are those of the non-blank history and the new message. |
| Conversation.CollapseIdempotent | src/infrastructure/ai/booking_agent.py:177-187 | Collapsing twice is collapsing once. |
| Conversation.CollapseKeepsSpeakers | src/infrastructure/ai/booking_agent.py:177-187 | Each role's contents read the same before and after collapsing: nothing is attributed to the other speaker. |
| Conversation.EveryoneSpeaksForThemselves | src/infrastructure/ai/booking_agent.py:155-174 | The user turns read like the client's non-blank messages and the new one, the assistant turns like the others, with blank lines between. |

## Left out

- The language model call, tool dispatch, prompts, webhooks, HTTP, authentication, e-mail and schemas: input and output.
- SQL, the ORM and migrations: tables are sequences and maps, the row lock is an entry in a map held to the end of the transaction, and the unique index is a test-and-set.
- Tenants: every table is that of one tenant, except campaign claims, which carry the tenant.
- Time zones: a day is a start instant plus offsets, without daylight saving changes; times have no fraction of a second.
- Descriptive fields (notes, reasons, e-mail, created and updated times) and messages to staff: they decide nothing here.
- Identifiers: integers; those drawn for new rows and clients are assumed fresh, as random UUIDs are.
- Clients of other channels: only the number lookup that booking uses.
- BookingProtocol.InterleavingsAreSafe: says nothing about overlaps of two different services under interleaving, because the lock is on one service row; sequential runs do exclude them.
- Catalogue edits and new professionals while booking transactions are open: the protocol keeps the catalogue fixed; in sequential runs only capacities are.
- BookingProtocol.StepKeepsProtocol: keeps rows well placed and the agenda safe, not that an amount is set exactly on completed rows, which merges can break.
- BookingProtocol.Merged: the merge's select always reads the database, because nothing keeps the first loaded object alive and the session's identity map holds it weakly; a session that kept it would compare with the row as first read.
- Reminders.RemindedExactlyOnce: actions are atomic there; a late confirm of a moved appointment, or a write-back of a row read before its reminder was marked, is outside it.
- Reminders.SendRemindersOnce: whether a message is delivered is given, and the lookups are made on the tables as they were at the poll.
- Client creation under interleaving: two first bookings of one number that both find no client are outside the protocol.
- CounterRace.CountsStayEqualIff: one client at a time, and only the counter; last_appointment_at is overwritten in the same way.
- CampaignCycle.RunCycle: which candidates the SQL selects, which business a win-back client belongs to, and how each send fares are inputs; the claims are in CampaignClaims.
- Reminders.RemindedAtMostOnce: one scheduler process; for two see Reminders.TwoSchedulersRemindTwice.
- ReminderButtons.HandleReminderButton: one undisturbed call; its read and its write as separate steps are in BookingProtocol. The reply text is left out; it says confirmed or cancelled even when nothing changed.
- UUID parsing of a button: a map from texts to identifiers stands for it.
- UpdateDayHours and BusinessHour.update: edits of one range without the overlap check, so DailyOffer.HoursAlwaysChain does not speak of them.
- Percentages, trends, top lists and heat maps of the reports: rounding and grouping of figures modelled here.
- Plans, membership use cases and sweeps of many memberships: the entity is what they call.
- DedupeKeys.KeysAreInjective: for UUIDs in canonical text and four-digit years, as the database and the calendar give them.
- Date parsing, slugs, onboarding and the other create, read, update and delete use cases: easy members.
