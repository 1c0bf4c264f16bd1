# Gravit event-booking server: a verified Dafny model of its seat logic

Gravit's server sells numbered seats for events. Two parts of it decide who
gets which seat:

* the **booking allocator**. `createBooking` normalises the requested seat list
  with `parseSeats`. Inside one row-locked transaction it then runs a fixed
  ladder of checks: the event exists, is not closed, has enough capacity, the
  seats are not taken, and they are in range. Then it decrements
  `available_seats` and appends one booking row;
* the **seat-lock registry** in `server.js`. This is an in-memory map
  event → seat → (holder, timestamp) that socket clients lock, unlock and
  snapshot. A sweep every minute drops locks older than five minutes.

Around them sit small decision ladders and table operations:
* the booking read side and its access rules;
* the admin-only status update;
* the seat-availability grid;
* the booking and role middlewares;
* the event create/update/delete operations that set the allocator's starting
  state.

## Layout

| file | module | models |
|---|---|---|
| `wrappers.dfy` | `Wrappers` | `Option` and `Result` |
| `http.dfy` | `Http` | the caller (`req.user`), roles, and a middleware's verdict (`next()` or a status) |
| `js_text.dfy` | `JsText` | the JavaScript primitives the seat code uses: `JSON.parse` on the JSON fragment seat lists use, `JSON.stringify` of an integer array, `Number()` on text, `String.split`, truthiness |
| `seat_parser.dfy` | `SeatParser` | `parseSeats` |
| `ledger.dfy` | `Ledger` | the `events` and `bookings` tables (the class `Ledger`), the per-event views of the bookings table, cascade delete and status update |
| `booking_allocation.dfy` | `BookingAllocation` | `getBookedSeats` and `createBooking`: request checks, the transaction as a specification function `Allocate`, and the step-by-step method `CreateBooking` proved against it |
| `booking_access.dfy` | `BookingAccess` | `transformBooking`, the access rules of `getAllBookings` and `getUserBookings`, `getBookingById`, `updateBooking` |
| `seat_controller.dfy` | `SeatController` | `getSeatAvailability` |
| `event_controller.dfy` | `EventController` | `transformEvent`, `getEventById`, `createEvent`, `updateEvent`, `deleteEvent` |
| `booking_middleware.dfy` | `BookingMiddleware` | `checkUserRole`, `checkEventStatus`, and the `POST /bookings` chain |
| `role_middleware.dfy` | `RoleMiddleware` | `authorizeRole` |
| `lock_registry.dfy` | `LockRegistry` | `lockedSeats` and its `lockSeat`, `unlockSeat` and `joinEvent` handlers, plus the sweep (class `SeatLocks`) |

State changed in place is modelled as classes:
* the tables are the fields of `Ledger`;
* the registry is the field of `SeatLocks`.

Each changing method is proved against a pure step function, or states its
whole new state. The laws are lemmas about those functions. Loops in the source
are methods with loop invariants:
* the `forEach` that fills the booked-seat `Set`;
* the grid loop `1..total_seats`;
* the snapshot and sweep loops over object keys.

Things the code does that a reader might not expect. The model follows the
code in each case, and a lemma exhibits each one:

* `parseSeats` keeps duplicates and input order (`SeatParser.DuplicatesKept`).
  A lone number written as a string is valid JSON but not an array, so it yields
  no seats (`SeatParser.LoneNumberStringGivesNothing`). `"5,6"` is not JSON, so
  it is split on commas (`SeatParser.CommaListFallsBack`).
* The conflict scan of `createBooking` reads every booking of the event with a
  non-NULL seats column, cancelled ones included. A cancelled booking's seats
  can therefore never be booked again (`BookingAllocation.HeldSeatNeverReallocated`,
  `BookingAccess.CancelledSeatStaysTaken`). The seat grid, however, leaves
  cancelled bookings out and shows those seats as free
  (`SeatController.CancelledSeatShownFreeButTaken`).
* The conflict check comes before the range check (`BookingAllocation.AllocateLadder`).
* `quantityVal` is `quantity || seats.length`, so it can differ from the seat
  count. A negative quantity is truthy: it passes the capacity check
  (`BookingAllocation.NegativeQuantityPassesCapacity`). A commit then raises
  `available_seats` by its size, past `total_seats` whenever the count was
  already within that size of the total
  (`BookingAllocation.NegativeQuantityRaisesCapacity`), as long as the new
  count stays within the INT range of the column.
* The inserted row takes the column default `pending`, while the 201 response
  says `confirmed` (`BookingAccess.ListedRowDisagreesWithReceipt`).
* Two checks in `createBooking` can never fire:
  * the per-user duplicate check, because it only re-scans a subset of the
    seats the global scan already rejected (`BookingAllocation.DuplicateCheckUnreachable`);
  * the re-read of `available_seats` after the decrement (`BookingAllocation.AllocateLadder`).

  The method `BookingAllocation.Transaction` keeps both branches: the first
  returns its error as the code does; the second is proved dead inside the method.
* `updateEvent` overwrites `total_seats` but not `available_seats`
  (`EventController.UpdateBreaksCapacityBound`). An update without a status
  writes NULL, which reads back as `upcoming` and reopens a closed event
  (`EventController.UpdateWithoutStatusReopens`).
* An `unlockSeat` request without a user id releases anyone's lock
  (`LockRegistry.AnonymousUnlockReleasesAnyLock`).

## Model

| member | source | states |
|---|---|---|
| `SeatParser.ParseSeats` | controllers/bookingController.js:9-21 | every returned seat is a positive number; a falsy value, the empty string and any other non-array, non-string value give nothing; an array never gives more seats than it has elements |
| `SeatParser.Positives` | controllers/bookingController.js:11 | the kept entries are all positive, never more than the input |
| `SeatParser.PositivesAppend` | controllers/bookingController.js:11 | filtering distributes over concatenation, so input order is kept |
| `SeatParser.PositivesCount` | controllers/bookingController.js:11 | each positive value occurs exactly as often as in the input: duplicates are kept |
| `SeatParser.PositivesMembers` | controllers/bookingController.js:11 | a value is returned iff it is positive and occurs numerically in the input (NaN and non-positive dropped) |
| `SeatParser.ParseSeatsIdempotent` | controllers/bookingController.js:9-21 | normalising an already normalised list, passed as an array, changes nothing |
| `SeatParser.StoredSeatsRoundTrip` | controllers/bookingController.js:187 | a list of positive seats written with `JSON.stringify` reads back through `parseSeats` unchanged |
| `SeatParser.ParseSeatsRoundTrip` | controllers/bookingController.js:31 | the round trip holds for whatever `parseSeats` returned, which the stored column and the re-read at :31 and :41 rely on |
| `SeatParser.DuplicatesKept` | controllers/bookingController.js:11 | `[3, 3, -1, "x"]` gives `[3, 3]` |
| `SeatParser.LoneNumberStringGivesNothing` | controllers/bookingController.js:14-15 | the string `"5"` parses as a JSON number, not an array, and gives no seats |
| `SeatParser.CommaListFallsBack` | controllers/bookingController.js:16-17 | `"5,6"` is not JSON and is split on commas into `[5, 6]` |
| `JsText.ParseStringify` | controllers/bookingController.js:14 | `JSON.parse(JSON.stringify(xs))` is the array of `xs` for every integer list |
| `JsText.NatTextValue` | controllers/bookingController.js:187 | the decimal text `JSON.stringify` writes for a number reads back as that number |
| `JsText.Parse` | controllers/bookingController.js:14 | `JSON.parse` on the modelled fragment, None where it throws; `JsText.ParseStringify` is its round trip with `Stringify` |
| `JsText.Stringify` | controllers/bookingController.js:187 | `JSON.stringify` of an integer list is bracketed text, read back by `Parse` (`JsText.ParseStringify`) |
| `JsText.Trim` | controllers/bookingController.js:17 | `trim()`: the result neither starts nor ends with JavaScript whitespace or a line terminator |
| `JsText.NumberOfText` | controllers/bookingController.js:17 | `Number()` on text: trimmed, the empty text is 0, an optionally signed run of digits is its value, anything else NaN; its partner is `JsText.NumberOfIntText` |
| `JsText.NumberOfIntText` | controllers/bookingController.js:17 | `Number()` reads the decimal text of every integer back as that integer |
| `JsText.Split` | controllers/bookingController.js:17 | `split(',')` gives at least one piece and no piece holds the separator |
| `Ledger.SeatsOf` | controllers/bookingController.js:31 | a row whose seats column is NULL holds no seats |
| `Ledger.UserSeatsWithinBooked` | controllers/bookingController.js:141-151 | the seats of the user's own bookings of an event are among the seats the conflict scan at :27 reads |
| `Ledger.BookedSeatsHeld` | controllers/bookingController.js:23-38 | a seat is in the event's booked set iff some booking of the event holds it |
| `Ledger.AppendRow` | controllers/bookingController.js:189-201 | appending a row adds exactly its own seats and quantity to its event's views |
| `Ledger.CascadeDelete` | config/createTablesAuto.js:54 | a row survives iff it is a row of the table outside the deleted event |
| `Ledger.CascadeDeleteCount` | config/createTablesAuto.js:54 | exactly the event's bookings are removed: every other row survives unchanged, as many times as it was there |
| `Ledger.CascadeDeleteViews` | config/createTablesAuto.js:54 | after the cascade the deleted event holds no seats and no quantity; every other event's views are unchanged |
| `Ledger.CascadeDeleteOrder` | config/createTablesAuto.js:54 | the surviving rows keep their increasing ids |
| `Ledger.WithStatus` | controllers/bookingController.js:386 | exactly the row with the id gets the new status; the table keeps its length |
| `Ledger.WithStatusViews` | controllers/bookingController.js:386 | a status change, cancellation included, changes no booked seat, holder count or quantity sum |
| `Ledger.Ledger.constructor` | config/createTablesAuto.js:23-56 | empty tables whose id counters start at 1 satisfy the table invariants |
| `BookingAllocation.Found` | controllers/bookingController.js:122 | the kept requested seats are exactly those in the set |
| `BookingAllocation.FoundAppend` | controllers/bookingController.js:122 | the filter works entry by entry, so the reported seats keep request order |
| `BookingAllocation.FoundCount` | controllers/bookingController.js:122 | a requested seat in the set is reported as many times as it was requested, any other seat never |
| `BookingAllocation.OutOfRange` | controllers/bookingController.js:132 | the kept requested seats are exactly those outside `[1, total]` |
| `BookingAllocation.OutOfRangeAppend` | controllers/bookingController.js:132 | the filter works entry by entry, so the reported seats keep request order |
| `BookingAllocation.OutOfRangeCount` | controllers/bookingController.js:132 | a requested seat outside `[1, total]` is reported as many times as it was requested, any other seat never |
| `BookingAllocation.StatusCode` | controllers/bookingController.js:95-179 | 404 exactly for the missing event, 403 exactly for the closed event, 400 for every other refusal |
| `BookingAllocation.NewRow` | controllers/bookingController.js:187-201 | the inserted row: the next id, the request's event, quantity and amount, the caller, the seats as `JSON.stringify` text, the column default `pending`; `AllocateCommitEffect` states what it adds |
| `BookingAllocation.ReceiptOf` | controllers/bookingController.js:205-216 | the 201 body: the row's id and user, the request's event, seats, quantity and amount, status `confirmed`; `ListedRowDisagreesWithReceipt` compares it with the row |
| `BookingAllocation.Allocate` | controllers/bookingController.js:88-203 | the check ladder of :95-179 in source order, then the decrement, the re-read and the insert; `AllocateLadder` and `AllocateCommitEffect` characterise it |
| `BookingAllocation.CreateBookingSpec` | controllers/bookingController.js:57-216 | the body checks of :61-83, then `Allocate` on the validated request; `EarlyRejectionIgnoresTables` and `CreateBooking` are stated against it |
| `BookingAllocation.ValidateBody` | controllers/bookingController.js:61-83 | accepts iff eventId, seats and totalAmount are truthy, the normalised list is non-empty and the amount is positive; the quantity is `quantity` when truthy, else the seat count; every refusal is a 400 |
| `BookingAllocation.AddSeats` | controllers/bookingController.js:32 | the loop adds exactly the listed seats to the set |
| `BookingAllocation.GetBookedSeats` | controllers/bookingController.js:23-38 | the collected set is the seats of every booking of the event with a non-NULL seats column, whatever its status |
| `BookingAllocation.GetUserSeats` | controllers/bookingController.js:141-151 | the collected set is the seats of the user's own bookings of the event |
| `BookingAllocation.CreateBooking` | controllers/bookingController.js:57-245 | the handler does what `CreateBookingSpec` says: an error leaves both tables and the id counter untouched; a success commits the decremented event and the appended row and answers with the receipt of that row: its id, the request's event, seats, quantity and amount, the caller, and status `confirmed`; the table invariants are kept |
| `BookingAllocation.Transaction` | controllers/bookingController.js:85-203 | the transaction does what `Allocate` says: each rollback leaves both tables and the id counter untouched; the commit installs the decremented event and the appended row and answers with the receipt of that row (`ReceiptOf`: the row's id and user, the request's seats, quantity and amount, status `confirmed`); the table invariants are kept |
| `BookingAllocation.EarlyRejectionIgnoresTables` | controllers/bookingController.js:61-83 | a request refused by the body checks gets the same 400 whatever the tables hold |
| `BookingAllocation.AllocateLadder` | controllers/bookingController.js:95-179 | each error fires iff every earlier check passed and its own failed: 404 missing event, 403 closed, 400 capacity, 400 taken seats (cancelled bookings included), 400 out of range. It commits iff all pass. The duplicate and re-read checks never fire |
| `BookingAllocation.RejectionListsOffendingSeats` | controllers/bookingController.js:122-139 | the taken and out-of-range errors carry exactly the conflict and range filters of the request, so the offending requested seats in request order with repeats |
| `BookingAllocation.DuplicateCheckUnreachable` | controllers/bookingController.js:121-161 | once no requested seat is booked for the event, none is among the user's own bookings |
| `BookingAllocation.FoundEmpty` | controllers/bookingController.js:122-124 | the conflict filter is empty iff no requested seat is in the set |
| `BookingAllocation.OutOfRangeEmpty` | controllers/bookingController.js:132-133 | the range filter is empty iff every requested seat is in `[1, total]` |
| `BookingAllocation.AllocateCommitEffect` | controllers/bookingController.js:163-201 | a commit lowers the event's `available_seats` by exactly `quantityVal`, never below zero. No other event changes. Exactly one row is appended: the next id, the request's event, user, quantity and amount, status `pending`, and a seats column that reads back as the requested list. Every seat is in range and was free |
| `BookingAllocation.AllocatePreservesRows` | controllers/bookingController.js:163-201 | a commit keeps the table invariants: ids fresh and increasing, every booking on an existing event, no seat held by two bookings |
| `BookingAllocation.AppendFreshRow` | controllers/bookingController.js:189-201 | appending a row with the next id, an existing event and only free seats keeps the table invariants |
| `BookingAllocation.AllocatePreservesAccounting` | controllers/bookingController.js:163-166 | if an event's available count plus its booked quantity equalled its total before a commit, it still does after |
| `BookingAllocation.HeldSeatNeverReallocated` | controllers/bookingController.js:27 | a seat held by any booking of the event, cancelled or not, is never allocated again |
| `BookingAllocation.HeldSeatIsBooked` | controllers/bookingController.js:26-33 | every seat of a booking of the event with a seats column is in the conflict scan |
| `BookingAllocation.NegativeQuantityRaisesCapacity` | controllers/bookingController.js:69 | a commit with a negative quantity raises `available_seats` by the quantity's size and leaves `total_seats` alone; when the count was within that size of the total, it ends above the total |
| `BookingAllocation.NegativeQuantityPassesCapacity` | controllers/bookingController.js:69-119 | a negative quantity is never refused by the capacity check while the event has seats left |
| `BookingAllocation.NegativeQuantityCommits` | controllers/bookingController.js:69-119 | ten of ten seats free and quantity -5: the booking commits and leaves 15 seats available |
| `BookingAllocation.NegativeQuantityLeavesIntRange` | controllers/bookingController.js:163-201 | quantity -3000000000 on a ten-seat event with five seats left commits here, leaving `available_seats` above the largest INT and a row quantity below the smallest |
| `BookingAllocation.SameSeatTwice` | controllers/bookingController.js:121-130 | two requests for the same seat: the first commits, the second is refused listing that seat |
| `BookingAllocation.QuantityFromSeatCount` | controllers/bookingController.js:68-69 | without a quantity, `[3, 3, -1, "x"]` asks for seats `[3, 3]` and quantity 2 |
| `BookingAccess.TransformBooking` | controllers/bookingController.js:40-55 | the reported seats are the stored column read back through `parseSeats`; ids and status are copied |
| `BookingAccess.ListingAccess` | controllers/bookingController.js:252-284 | a refusal is a 403; an allowed query filters on user and event exactly when those parameters are given |
| `BookingAccess.Matches` | controllers/bookingController.js:264-284 | a row passes the filter when its user id equals the user filter and its event id the event filter, each only when given; `Listing` is stated with it |
| `BookingAccess.Listing` | controllers/bookingController.js:259-293 | the listed bookings are exactly the transformed rows that match every given filter |
| `BookingAccess.ListingAccessRule` | controllers/bookingController.js:252-278 | an admin is never refused. Anyone else is refused iff they give no filter at all, or filter on a user id other than their own. The event filter alone is open to all |
| `BookingAccess.NonAdminSeesOwnOrNamedEvent` | controllers/bookingController.js:252-284 | everything a non-admin may list is their own booking or a booking of the event they named |
| `BookingAccess.UserBookingsTarget` | controllers/bookingController.js:314-321 | a refusal is a 403 |
| `BookingAccess.UserBookingsTargetRule` | controllers/bookingController.js:314-321 | a non-admin is served iff they ask for no user or for themselves, and then always reads their own bookings; an admin reads the user named in the path |
| `BookingAccess.IndexOf` | controllers/bookingController.js:346-349 | the position found holds the id; nothing is found iff no row has it |
| `BookingAccess.GetBookingById` | controllers/bookingController.js:344-358 | 404 iff no row has the id; otherwise the transformed row with that id |
| `BookingAccess.UpdateBooking` | controllers/bookingController.js:374-398 | a missing status is a 400 that changes nothing. Otherwise the row's status is overwritten and the row is reported, 404 when no row has the id. Events and counters are untouched and the table invariants are kept |
| `BookingAccess.WithStatusKeepsRows` | controllers/bookingController.js:386 | a status change keeps the table invariants |
| `BookingAccess.UpdateBookingResult` | controllers/bookingController.js:386-398 | the update answers 404 iff no row has the id, and otherwise reports that row with the new status |
| `BookingAccess.CancelledSeatStaysTaken` | controllers/bookingController.js:27 | after a booking is cancelled, a request for any of its seats is still refused |
| `BookingAccess.ListedRowDisagreesWithReceipt` | controllers/bookingController.js:205-216 | a new booking read back shows the seats it was made with, but status `pending` where the 201 response said `confirmed` |
| `SeatController.RowValues` | controllers/seatController.js:42-48 | the values one row adds: the elements of its seats text when that parses as a JSON array, nothing when the text is empty or does not parse, or parses to something else |
| `SeatController.Live` | controllers/seatController.js:33-36 | the rows the query selects: the event's, not cancelled, with a seats column |
| `SeatController.Contribution` | controllers/seatController.js:41-49 | a selected row adds its values, any other row nothing; `SilentRowSkipped` and `UnreadableRowSkipped` are stated with it |
| `SeatController.CollectBooked` | controllers/seatController.js:40-50 | the contributions concatenated in table order; `CollectBookedAppend` and `CollectedFromLiveRow` are its laws |
| `SeatController.GetSeatAvailability` | controllers/seatController.js:13-81 | 404 iff the event is missing. Otherwise `bookedSeats` is the values of the event's non-cancelled bookings whose seats column parses as a JSON array, concatenated in table order. The grid has `max(total_seats, 0)` cells; cell i is seat i+1, booked iff that number is among the values. `availableSeats` is copied from the event row |
| `SeatController.CollectBookedSeats` | controllers/seatController.js:33-50 | the loop collects exactly `CollectBooked`: the array values of the event's non-cancelled bookings, in table order |
| `SeatController.BuildGrid` | controllers/seatController.js:53-60 | the grid has `max(total, 0)` cells; cell i is seat i+1, booked iff that number is among the collected values |
| `SeatController.CollectBookedAppend` | controllers/seatController.js:40-50 | collecting over two stretches of the table is collecting over each, in order |
| `SeatController.UnreadableRowSkipped` | controllers/seatController.js:43-48 | a booking whose seats text cannot be parsed is skipped and the others still count |
| `SeatController.SilentRowSkipped` | controllers/seatController.js:40-50 | a booking that adds no values (cancelled, for another event, or not an array) can be removed without changing the collected values |
| `SeatController.StoredSeatCollected` | controllers/seatController.js:41-46 | every seat of a live booking written by the allocator shows as booked |
| `SeatController.CollectedFromLiveRow` | controllers/seatController.js:33-36 | every collected value comes from a booking of the event that is not cancelled and has a seats column |
| `SeatController.CancelledSeatShownFreeButTaken` | controllers/seatController.js:35 | a seat whose only booking is cancelled shows as free, yet the allocator still refuses it |
| `EventController.TransformEvent` | controllers/eventController.js:9-20 | counts are copied; a NULL status reads as `upcoming` |
| `EventController.GetEventById` | controllers/eventController.js:41-65 | 404 iff the event is missing; otherwise the event with its stored available count |
| `EventController.NewEvent` | controllers/eventController.js:78-81 | a new event has every seat available and a status, `upcoming` unless given |
| `EventController.CreateAccepted` | controllers/eventController.js:71 | the create is accepted when title, date, totalSeats and price are all truthy; `CreateEvent` answers 400 exactly otherwise |
| `EventController.CreateEvent` | controllers/eventController.js:67-97 | 400 unless title, date, totalSeats and price are all truthy. Otherwise one event is inserted under the next id, its books balance, and bookings are untouched |
| `EventController.NoBookingsForNewEvent` | controllers/eventController.js:78-81 | no booking refers to an id the counter has not handed out, so a new event starts with nothing booked |
| `EventController.NoRowsOfEvent` | controllers/eventController.js:80 | an event no booking refers to has no booked quantity and no booked seats |
| `EventController.NewEventAccounted` | controllers/eventController.js:80 | a freshly created event's available count plus booked quantity equals its total |
| `EventController.ApplyUpdate` | controllers/eventController.js:104-107 | the update writes the new total and status but keeps `available_seats` |
| `EventController.UpdateEvent` | controllers/eventController.js:99-130 | 404 and no change iff the event is missing; otherwise the row is overwritten (available count kept) and reported |
| `EventController.UpdateBreaksCapacityBound` | controllers/eventController.js:104-107 | shrinking a fully available event leaves available above total and unbalances its books |
| `EventController.UpdateWithoutStatusReopens` | controllers/eventController.js:104-107 | an update without a status turns a closed event into one reported as `upcoming` that the allocator accepts |
| `EventController.DeleteEvent` | controllers/eventController.js:132-156 | 404 and no change iff the event is missing; otherwise the event and, by cascade, all its bookings are gone |
| `EventController.DeleteKeepsRows` | config/createTablesAuto.js:54 | deleting an event with its bookings keeps the table invariants |
| `EventController.DeleteKeepsOtherAccounting` | controllers/eventController.js:136 | deleting one event leaves every other event's books balanced and none of the deleted event's seats held |
| `BookingMiddleware.CheckUserRole` | middleware/bookingMiddleware.js:9-32 | 401 iff no caller, 403 iff the caller is an admin, passes on iff the caller is a non-admin |
| `BookingMiddleware.CheckEventStatus` | middleware/bookingMiddleware.js:34-69 | 400 iff the event id is falsy, 404 iff it names no event, 403 iff the event is closed, passes on otherwise |
| `BookingMiddleware.BookingRoute` | routes/bookingRoutes.js:21 | `POST /bookings`: `checkUserRole`, then `checkEventStatus`, then `createBooking`, the first to stop answering; `BookingRouteGate` is its law |
| `BookingMiddleware.BookingRouteGate` | routes/bookingRoutes.js:21 | `createBooking` runs iff the caller is an authenticated non-admin booking an existing event that is not closed; when the tables do not change between the middleware's read and the transaction, the handler's own 404 and 403 then never fire |
| `RoleMiddleware.AuthorizeRole` | middleware/roleMiddleware.js:7-24 | 401 iff no caller, 403 iff the role is not allowed, passes on iff it is |
| `RoleMiddleware.AuthorizeRoleOutcomes` | middleware/roleMiddleware.js:10-24 | exactly one of 401, 403 and passing on happens |
| `RoleMiddleware.NoRolesDeniesEveryone` | middleware/roleMiddleware.js:17 | with no allowed roles every authenticated caller gets 403 |
| `RoleMiddleware.UpdateBookingAdminOnly` | routes/bookingRoutes.js:25 | the booking status update is reached exactly by admins |
| `LockRegistry.ActivePart` | server.js:82-93 | the kept seats of an event are exactly those whose lock is in force, with their locks |
| `LockRegistry.Swept` | server.js:82-93 | a sweep keeps every event key and, per event, exactly the locks in force |
| `LockRegistry.Snapshot` | server.js:102-111 | the snapshot maps exactly the event's seats under a lock in force to their holders |
| `LockRegistry.SeatLocks.constructor` | server.js:78 | the registry starts empty |
| `LockRegistry.LockResult` | server.js:118-148 | `lockSeat`: the registry afterwards and the messages sent; `LockCases`, `LockExclusive` and `LockTouchesOneSeat` are its laws |
| `LockRegistry.UnlockResult` | server.js:150-167 | `unlockSeat`: the registry afterwards and the messages sent; `UnlockRule` is its law |
| `LockRegistry.SeatLocks.LockSeat` | server.js:118-148 | the handler's new registry and messages are those of the lock step |
| `LockRegistry.SeatLocks.UnlockSeat` | server.js:150-167 | the handler's new registry and messages are those of the unlock step |
| `LockRegistry.SeatLocks.JoinEvent` | server.js:98-116 | sends the requester the snapshot of the event's locks in force, changing nothing |
| `LockRegistry.SeatLocks.SweepEvent` | server.js:85-91 | one event's expired locks are removed and each is announced once to its room; nothing else changes |
| `LockRegistry.SeatLocks.Sweep` | server.js:82-93 | the registry becomes its sweep; an unlock message is sent for exactly the expired locks, each once, to the event's room |
| `LockRegistry.JoinNoRepeats` | server.js:84-92 | messages for different rooms never repeat one another |
| `LockRegistry.LockInvalidRequest` | server.js:120-123 | a request missing the event, the seat or the user is refused to the requester alone and changes nothing |
| `LockRegistry.LockCases` | server.js:125-143 | another user's lock in force: refused, no change. The holder: only the timestamp is refreshed, nothing sent. A free or expired seat: locked for the requester and announced to the room |
| `LockRegistry.LockTouchesOneSeat` | server.js:125-143 | a lock request changes no lock other than the seat it names |
| `LockRegistry.LockExclusive` | server.js:128-142 | another user cannot take a lock in force. After a request, the requester holds the seat as of now iff the request was not refused |
| `LockRegistry.UnlockRule` | server.js:150-163 | the entry is deleted and the room told iff it exists and the request names no user, names its holder, or the lock has expired; otherwise nothing happens |
| `LockRegistry.AnonymousUnlockReleasesAnyLock` | server.js:159 | an unlock without a user id releases even another user's lock in force |
| `LockRegistry.SameBoundary` | server.js:87 | the same five-minute boundary everywhere: a lock shows in a join snapshot iff it survives a sweep iff it refuses another user's lock request and unlock request |
| `LockRegistry.SweepKeepsSnapshot` | server.js:82-111 | a sweep does not change what a join at the same instant sees |
| `LockRegistry.SweepIdempotent` | server.js:82-93 | a second sweep at the same instant removes nothing |
| `LockRegistry.SweepMonotone` | server.js:87 | a lock removed by a sweep would also be removed by any later sweep |
| `LockRegistry.LockLastsFiveMinutes` | server.js:79 | a new lock shows in joins up to exactly five minutes later and not one millisecond after |

## Left out

* Transport:
  * socket.io rooms, `socket.join` and emission are modelled only as returned
    message lists, each with its audience;
  * the Express routing and error middleware appear only as the middleware
    order of routes/bookingRoutes.js;
  * process handlers and startup are not part of this model.
* Time: `Date.now()` is a `now` parameter. The one-minute `setInterval` is a
  `Sweep` method that the caller runs whenever it likes.
* Concurrency and the database engine: each handler is one atomic step on the
  tables. Connection pooling, `FOR UPDATE` and the isolation level are not
  modelled, and neither are the `catch` blocks that answer 500 on a driver error.
* `BookingMiddleware.BookingRouteGate`: `checkEventStatus` reads the event in its
  own query before `createBooking` opens its transaction. The model runs both on
  the same tables. A delete or a close that lands in between is not modelled,
  and it would let the handler's own 404 or 403 fire.
* `BookingAllocation.Allocate`: the INT width of `total_seats`,
  `available_seats` and `quantity` (config/createTablesAuto.js:30-31, :49) is
  not modelled. Counts are unbounded integers, so a quantity that pushes
  `available_seats` or the stored `quantity` outside the INT range commits here
  (`BookingAllocation.NegativeQuantityLeavesIntRange`). MySQL in strict mode
  refuses that UPDATE or INSERT, and the handler rolls back and answers 500;
  without strict mode MySQL clamps the value instead. The `NegativeQuantity`
  lemmas describe the source only for results within the INT range. Request
  numbers beyond 2^53, where a JavaScript number loses precision, are not
  modelled either.
* The `ER_BAD_FIELD_ERROR` fallback of `getBookedSeats` belongs to databases
  without a seats column, which this model does not have.
* Contact fields (name, email, mobile), the user lookup before the insert,
  descriptions, locations, images and timestamps are not modelled.
* The `ORDER BY booking_date DESC` ordering of the listings, and the join with
  `events`. Listings come back in table order. The cascade guarantees that
  every booking has its event.
* JavaScript values are modelled on these fragments:
  * numbers are integers;
  * `JSON.parse` covers whitespace, integers without leading zeros, `true`,
    `false`, `null` and flat arrays of these. Any other text is treated as
    throwing, which also covers strings, objects, nested arrays, fractions and
    exponents;
  * `Number()` on text covers optional signs and decimal digits, with the
    surrounding JavaScript whitespace and line terminators stripped as `trim()`
    does; hex, exponent, `Infinity` and fractional forms are NaN here;
  * array elements of a request are given already converted by `Number()`.

  Fractional seats such as `2.5`, which the source keeps, are therefore outside
  the model. So is the difference between `Number(queryUserId)` and MySQL's own
  string-to-number conversion in the `WHERE` clause.
* `totalAmount` is an integer checked only for positivity, not a DECIMAL.
* Booking status values outside the column's enum: the update takes one of
  `pending`, `confirmed`, `cancelled`, or none.
* Event fields that `updateEvent` would set to NULL when the body leaves them
  out (title, date, totalSeats, price). The update carries all of them; only
  the status may be NULL.
* Authentication (`authMiddleware.js`, `authController.js`): the caller is
  given, or absent.
* Analytics, `getAllEvents`, scripts and the table-creation code, except for the
  column defaults and the cascading foreign key that the model takes from it.
* `LockRegistry.SeatLocks.Sweep`: the order in which `Object.keys` visits events
  and seats, and so the order of the unlock messages, is not stated. The
  contract fixes which messages are sent and that none repeats.
* `LockRegistry.SeatLocks.LockSeat`: the empty inner map that the handler
  creates for an unknown event before checking the seat is only visible when
  the request succeeds, and then it is filled. It is not stated separately.
