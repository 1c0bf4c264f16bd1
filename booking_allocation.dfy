/**
 * `createBooking` (controllers/bookingController.js): the request checks
 * made before any connection is taken, then, inside one row-locked
 * transaction, a fixed ladder of checks followed by an all-or-nothing
 * effect (decrement `available_seats`, append one booking row).
 */
module BookingAllocation {
  import opened Wrappers
  import opened JsText
  import opened SeatParser
  import opened Ledger

  /** The fields of the request body the allocator reads (contact details are not modelled). */
  datatype BookingBody = BookingBody(eventId: Option<int>, seats: SeatInput, quantity: Option<int>,
                                     totalAmount: Option<int>)

  /** A request that passed the checks made before the transaction. */
  datatype BookingRequest = BookingRequest(eventId: int, seats: seq<int>, quantity: int, totalAmount: int)

  datatype BookingError =
    | MissingFields                                   // 400 'EventId, seats, and totalAmount are required'
    | NoValidSeats                                    // 400 'At least one valid seat is required'
    | NonPositiveAmount                               // 400 'Total amount must be greater than 0'
    | EventNotFound                                   // 404
    | EventClosed                                     // 403
    | NotEnoughSeats                                  // 400 'Not enough seats available'
    | SeatsTaken(seats: seq<int>)                     // 400 'Seats … are already booked'
    | SeatsOutOfRange(seats: seq<int>, total: int)    // 400 'Invalid seat numbers: …'
    | SeatsAlreadyYours(seats: seq<int>)              // 400 'You have already booked seats …'
    | SeatCountCheckFailed                            // 400 'Seat count validation failed'

  /** The HTTP status each refusal is answered with. */
  function StatusCode(e: BookingError): (r: int)
    ensures r == 404 <==> e.EventNotFound?
    ensures r == 403 <==> e.EventClosed?
    ensures r == 400 <==> !e.EventNotFound? && !e.EventClosed?
  {
    match e
    case EventNotFound => 404
    case EventClosed => 403
    case _ => 400
  }

  /** What the 201 response reports about the new booking. */
  datatype Receipt = Receipt(id: int, eventId: int, userId: int, seats: seq<int>, quantity: int,
                             totalAmount: int, status: BookingStatus)

  /** Either the typed error the transaction rolled back with, or the tables it committed. */
  datatype AllocOutcome =
    | Rejected(error: BookingError)
    | Committed(events: map<int, Event>, bookings: seq<Booking>, row: Booking)

  /** JavaScript truthiness of the seats field: absent values and "" are falsy. */
  predicate SeatsGiven(x: SeatInput) { !x.Absent? && x != Text("") }

  /** `xs.filter(x => s.has(x))`: the entries of `xs` found in `s`, in order. */
  function Found(xs: seq<int>, s: set<int>): (r: seq<int>)
    ensures |r| <= |xs|
    ensures forall x :: x in r <==> x in xs && x in s
  {
    if xs == [] then [] else (if xs[0] in s then [xs[0]] else []) + Found(xs[1..], s)
  }

  /** `xs.filter(x => x < 1 || x > total)`: the entries outside `[1, total]`, in order. */
  function OutOfRange(xs: seq<int>, total: int): (r: seq<int>)
    ensures |r| <= |xs|
    ensures forall x :: x in r <==> x in xs && (x < 1 || x > total)
  {
    if xs == [] then [] else (if xs[0] < 1 || xs[0] > total then [xs[0]] else []) + OutOfRange(xs[1..], total)
  }

  // ---------------------------------------------------------------------------
  // The specification of the handler

  /**
   * The checks made before a connection is taken: the three required fields,
   * a non-empty normalised seat list, a positive amount. The quantity is the
   * given one when truthy, otherwise the number of normalised seats.
   */
  function ValidateBody(body: BookingBody): (r: Result<BookingRequest, BookingError>)
    ensures r.Success? <==>
      && Truthy(body.eventId) && SeatsGiven(body.seats) && Truthy(body.totalAmount)
      && ParseSeats(body.seats) != [] && body.totalAmount.value > 0
    ensures r.Success? ==>
      && r.value.eventId == body.eventId.value
      && r.value.seats == ParseSeats(body.seats)
      && r.value.quantity == (if Truthy(body.quantity) then body.quantity.value else |ParseSeats(body.seats)|)
      && r.value.totalAmount == body.totalAmount.value
    ensures r.Failure? ==> StatusCode(r.error) == 400
  {
    if !Truthy(body.eventId) || !SeatsGiven(body.seats) || !Truthy(body.totalAmount) then Failure(MissingFields)
    else
      var seats := ParseSeats(body.seats);
      var quantity := if Truthy(body.quantity) then body.quantity.value else |seats|;
      if seats == [] then Failure(NoValidSeats)
      else if body.totalAmount.value <= 0 then Failure(NonPositiveAmount)
      else Success(BookingRequest(body.eventId.value, seats, quantity, body.totalAmount.value))
  }

  /** The row the INSERT adds: the column default gives it status 'pending'. */
  function NewRow(id: int, userId: int, req: BookingRequest): Booking
  {
    Booking(id, req.eventId, userId, req.quantity, req.totalAmount, Some(Stringify(req.seats)), Pending)
  }

  /** The body of the 201 response, which reports status 'confirmed'. */
  function ReceiptOf(row: Booking, req: BookingRequest): Receipt
  {
    Receipt(row.id, req.eventId, row.userId, req.seats, req.quantity, req.totalAmount, Confirmed)
  }

  /** The transaction, check by check, in the order the handler makes them. */
  function Allocate(events: map<int, Event>, bookings: seq<Booking>, nextBookingId: int, userId: int,
                    req: BookingRequest): AllocOutcome
  {
    if req.eventId !in events then Rejected(EventNotFound)
    else
      var ev := events[req.eventId];
      if ev.status == Some(Closed) then Rejected(EventClosed)
      else if ev.available < req.quantity then Rejected(NotEnoughSeats)
      else
        var taken := Found(req.seats, BookedSeats(bookings, req.eventId));
        if taken != [] then Rejected(SeatsTaken(taken))
        else
          var bad := OutOfRange(req.seats, ev.total);
          if bad != [] then Rejected(SeatsOutOfRange(bad, ev.total))
          else
            var mine := Found(req.seats, UserSeats(bookings, req.eventId, userId));
            if mine != [] then Rejected(SeatsAlreadyYours(mine))
            else
              var decremented := ev.(available := ev.available - req.quantity);
              if decremented.available < 0 then Rejected(SeatCountCheckFailed)
              else
                var row := NewRow(nextBookingId, userId, req);
                Committed(events[req.eventId := decremented], bookings + [row], row)
  }

  /** The whole handler: the early checks, then the transaction. */
  function CreateBookingSpec(events: map<int, Event>, bookings: seq<Booking>, nextBookingId: int,
                             userId: int, body: BookingBody): AllocOutcome
  {
    match ValidateBody(body)
    case Failure(e) => Rejected(e)
    case Success(req) => Allocate(events, bookings, nextBookingId, userId, req)
  }

  // ---------------------------------------------------------------------------
  // The handler

  /** `seats.forEach(seat => set.add(seat))`. */
  method AddSeats(acc: set<int>, seats: seq<int>) returns (r: set<int>)
    ensures r == acc + set x | x in seats
  {
    r := acc;
    var j := 0;
    while j < |seats|
      invariant 0 <= j <= |seats|
      invariant r == acc + set x | x in seats[..j]
    {
      assert seats[..j + 1] == seats[..j] + [seats[j]];
      r := r + {seats[j]};
      j := j + 1;
    }
    assert seats[..j] == seats;
  }

  /** `getBookedSeats`: every seat of every booking of the event whose seats column is not NULL. */
  method GetBookedSeats(bookings: seq<Booking>, eventId: int) returns (booked: set<int>)
    ensures booked == BookedSeats(bookings, eventId)
  {
    booked := {};
    var i := 0;
    while i < |bookings|
      invariant 0 <= i <= |bookings|
      invariant booked == BookedSeats(bookings[..i], eventId)
    {
      var b := bookings[i];
      assert bookings[..i + 1][..i] == bookings[..i];
      if b.eventId == eventId && b.seats.Some? {
        booked := AddSeats(booked, SeatsOf(b));
      }
      i := i + 1;
    }
    assert bookings[..i] == bookings;
  }

  /** The seats of the user's own bookings of the event (the second SELECT and its loop). */
  method GetUserSeats(bookings: seq<Booking>, eventId: int, userId: int) returns (held: set<int>)
    ensures held == UserSeats(bookings, eventId, userId)
  {
    held := {};
    var i := 0;
    while i < |bookings|
      invariant 0 <= i <= |bookings|
      invariant held == UserSeats(bookings[..i], eventId, userId)
    {
      var b := bookings[i];
      assert bookings[..i + 1][..i] == bookings[..i];
      if b.eventId == eventId && b.userId == userId {
        held := AddSeats(held, SeatsOf(b));
      }
      i := i + 1;
    }
    assert bookings[..i] == bookings;
  }

  /**
   * `createBooking`: a body the early checks refuse is answered before any
   * table is touched; otherwise the transaction runs.
   */
  method CreateBooking(db: Ledger, userId: int, body: BookingBody) returns (r: Result<Receipt, BookingError>)
    requires db.Valid()
    modifies db
    ensures db.Valid()
    ensures db.nextEventId == old(db.nextEventId)
    ensures match CreateBookingSpec(old(db.events), old(db.bookings), old(db.nextBookingId), userId, body)
      case Rejected(e) =>
        && r == Failure(e)
        && db.events == old(db.events) && db.bookings == old(db.bookings)
        && db.nextBookingId == old(db.nextBookingId)
      case Committed(events, bookings, row) =>
        && r == Success(ReceiptOf(row, ValidateBody(body).value))
        && db.events == events && db.bookings == bookings
        && db.nextBookingId == old(db.nextBookingId) + 1
  {
    var v := ValidateBody(body);
    if v.Failure? {
      return Failure(v.error);
    }
    r := Transaction(db, userId, v.value);
  }

  /**
   * The transaction of `createBooking`: every early exit rolls back and
   * leaves the tables as they were; a commit decrements the event's
   * capacity and appends exactly one row.
   */
  method Transaction(db: Ledger, userId: int, req: BookingRequest) returns (r: Result<Receipt, BookingError>)
    requires db.Valid()
    modifies db
    ensures db.Valid()
    ensures db.nextEventId == old(db.nextEventId)
    ensures match Allocate(old(db.events), old(db.bookings), old(db.nextBookingId), userId, req)
      case Rejected(e) =>
        && r == Failure(e)
        && db.events == old(db.events) && db.bookings == old(db.bookings)
        && db.nextBookingId == old(db.nextBookingId)
      case Committed(events, bookings, row) =>
        && r == Success(ReceiptOf(row, req))
        && db.events == events && db.bookings == bookings
        && db.nextBookingId == old(db.nextBookingId) + 1
  {
    ghost var outcome := Allocate(db.events, db.bookings, db.nextBookingId, userId, req);

    // SELECT … FOR UPDATE on the event row.
    if req.eventId !in db.events {
      assert outcome == Rejected(EventNotFound);
      return Failure(EventNotFound);
    }
    var ev := db.events[req.eventId];
    if ev.status == Some(Closed) {
      assert outcome == Rejected(EventClosed);
      return Failure(EventClosed);
    }
    if ev.available < req.quantity {
      assert outcome == Rejected(NotEnoughSeats);
      return Failure(NotEnoughSeats);
    }
    var booked := GetBookedSeats(db.bookings, req.eventId);
    var taken := Found(req.seats, booked);
    if taken != [] {
      assert outcome == Rejected(SeatsTaken(taken));
      return Failure(SeatsTaken(taken));
    }
    var bad := OutOfRange(req.seats, ev.total);
    if bad != [] {
      assert outcome == Rejected(SeatsOutOfRange(bad, ev.total));
      return Failure(SeatsOutOfRange(bad, ev.total));
    }
    var held := GetUserSeats(db.bookings, req.eventId, userId);
    var mine := Found(req.seats, held);
    if mine != [] {
      assert outcome == Rejected(SeatsAlreadyYours(mine));
      return Failure(SeatsAlreadyYours(mine));
    }

    // UPDATE events SET available_seats = available_seats - ?, then read it back.
    ghost var before := db.events;
    db.events := db.events[req.eventId := ev.(available := ev.available - req.quantity)];
    if db.events[req.eventId].available < 0 {
      // The capacity check above has already ruled this out.
      assert false;
    }

    // INSERT INTO bookings …, then COMMIT.
    var row := NewRow(db.nextBookingId, userId, req);
    assert outcome == Committed(db.events, db.bookings + [row], row);
    AllocatePreservesRows(before, db.bookings, db.nextEventId, db.nextBookingId, userId, req);
    db.bookings := db.bookings + [row];
    db.nextBookingId := db.nextBookingId + 1;
    r := Success(ReceiptOf(row, req));
  }

  // ---------------------------------------------------------------------------
  // Laws of the transaction

  /**
   * Once no requested seat is among the event's booked seats, none is among
   * the user's own: the per-user duplicate check can never fire.
   */
  lemma DuplicateCheckUnreachable(bookings: seq<Booking>, eventId: int, userId: int, seats: seq<int>)
    requires Found(seats, BookedSeats(bookings, eventId)) == []
    ensures Found(seats, UserSeats(bookings, eventId, userId)) == []
  {
    UserSeatsWithinBooked(bookings, eventId, userId);
    FoundEmpty(seats, BookedSeats(bookings, eventId));
    FoundEmpty(seats, UserSeats(bookings, eventId, userId));
  }

  /** The conflict filter works entry by entry: it keeps request order. */
  lemma {:induction false} FoundAppend(a: seq<int>, b: seq<int>, s: set<int>)
    ensures Found(a + b, s) == Found(a, s) + Found(b, s)
  {
    if a == [] {
      assert a + b == b;
    } else {
      assert (a + b)[0] == a[0];
      assert (a + b)[1..] == a[1..] + b;
      FoundAppend(a[1..], b, s);
    }
  }

  /** A seat found in the set is reported as often as it was requested; any other not at all. */
  lemma {:induction false} FoundCount(xs: seq<int>, s: set<int>, x: int)
    ensures multiset(Found(xs, s))[x] == if x in s then multiset(xs)[x] else 0
  {
    if xs != [] {
      assert xs == [xs[0]] + xs[1..];
      FoundCount(xs[1..], s, x);
    }
  }

  /** The range filter works entry by entry: it keeps request order. */
  lemma {:induction false} OutOfRangeAppend(a: seq<int>, b: seq<int>, total: int)
    ensures OutOfRange(a + b, total) == OutOfRange(a, total) + OutOfRange(b, total)
  {
    if a == [] {
      assert a + b == b;
    } else {
      assert (a + b)[0] == a[0];
      var head := if a[0] < 1 || a[0] > total then [a[0]] else [];
      assert (a + b)[1..] == a[1..] + b;
      assert OutOfRange(a + b, total) == head + OutOfRange(a[1..] + b, total);
      assert OutOfRange(a, total) == head + OutOfRange(a[1..], total);
      OutOfRangeAppend(a[1..], b, total);
      assert head + (OutOfRange(a[1..], total) + OutOfRange(b, total))
          == (head + OutOfRange(a[1..], total)) + OutOfRange(b, total);
    }
  }

  /** A seat outside `[1, total]` is reported as often as it was requested; any other not at all. */
  lemma {:induction false} OutOfRangeCount(xs: seq<int>, total: int, x: int)
    ensures multiset(OutOfRange(xs, total))[x] == if x < 1 || x > total then multiset(xs)[x] else 0
  {
    if xs != [] {
      assert xs == [xs[0]] + xs[1..];
      OutOfRangeCount(xs[1..], total, x);
    }
  }

  /** The filter finds nothing exactly when no entry is in the set. */
  lemma FoundEmpty(xs: seq<int>, s: set<int>)
    ensures Found(xs, s) == [] <==> forall x :: x in xs ==> x !in s
  {
    if Found(xs, s) != [] {
      var y := Found(xs, s)[0];
      assert y in Found(xs, s);
      assert y in xs && y in s;
    }
  }

  /** The range filter finds nothing exactly when every entry is in `[1, total]`. */
  lemma OutOfRangeEmpty(xs: seq<int>, total: int)
    ensures OutOfRange(xs, total) == [] <==> forall x :: x in xs ==> 1 <= x <= total
  {
    if OutOfRange(xs, total) != [] {
      var y := OutOfRange(xs, total)[0];
      assert y in OutOfRange(xs, total);
      assert y in xs && (y < 1 || y > total);
    }
  }

  /**
   * The request checks come before any table is read: a request they
   * refuse gets the same 400 whatever the tables hold.
   */
  lemma EarlyRejectionIgnoresTables(body: BookingBody, userId: int,
                                    events1: map<int, Event>, bookings1: seq<Booking>, next1: int,
                                    events2: map<int, Event>, bookings2: seq<Booking>, next2: int)
    requires ValidateBody(body).Failure?
    ensures CreateBookingSpec(events1, bookings1, next1, userId, body)
         == CreateBookingSpec(events2, bookings2, next2, userId, body)
         == Rejected(ValidateBody(body).error)
    ensures StatusCode(ValidateBody(body).error) == 400
  {
  }

  /**
   * The ladder, check by check: which error the transaction rolls back with
   * is decided by the first failing check, in the handler's order, and it
   * commits exactly when every check passes. The per-user check and the
   * re-read of the capacity never decide anything.
   */
  lemma AllocateLadder(events: map<int, Event>, bookings: seq<Booking>, nextBookingId: int, userId: int,
                       req: BookingRequest)
    ensures var r := Allocate(events, bookings, nextBookingId, userId, req);
      && (r == Rejected(EventNotFound) <==> req.eventId !in events)
      && (r == Rejected(EventClosed) <==> req.eventId in events && events[req.eventId].status == Some(Closed))
      && (r == Rejected(NotEnoughSeats) <==>
            req.eventId in events && events[req.eventId].status != Some(Closed)
            && events[req.eventId].available < req.quantity)
      && (r.Rejected? && r.error.SeatsTaken? <==>
            req.eventId in events && events[req.eventId].status != Some(Closed)
            && events[req.eventId].available >= req.quantity
            && exists x :: x in req.seats && x in BookedSeats(bookings, req.eventId))
      && (r.Rejected? && r.error.SeatsOutOfRange? <==>
            req.eventId in events && events[req.eventId].status != Some(Closed)
            && events[req.eventId].available >= req.quantity
            && (forall x :: x in req.seats ==> x !in BookedSeats(bookings, req.eventId))
            && exists x :: x in req.seats && (x < 1 || x > events[req.eventId].total))
      && (r.Committed? <==>
            req.eventId in events && events[req.eventId].status != Some(Closed)
            && events[req.eventId].available >= req.quantity
            && (forall x :: x in req.seats ==> x !in BookedSeats(bookings, req.eventId))
            && (forall x :: x in req.seats ==> 1 <= x <= events[req.eventId].total))
      && !(r.Rejected? && r.error.SeatsAlreadyYours?)
      && r != Rejected(SeatCountCheckFailed)
  {
    var booked := BookedSeats(bookings, req.eventId);
    FoundEmpty(req.seats, booked);
    if Found(req.seats, booked) == [] {
      DuplicateCheckUnreachable(bookings, req.eventId, userId, req.seats);
    }
    if req.eventId in events {
      OutOfRangeEmpty(req.seats, events[req.eventId].total);
    }
  }

  /**
   * The error reports list exactly the offending requested seats: the
   * filters themselves, so in request order with repeats (FoundAppend,
   * FoundCount, OutOfRangeAppend, OutOfRangeCount).
   */
  lemma RejectionListsOffendingSeats(events: map<int, Event>, bookings: seq<Booking>, nextBookingId: int,
                                     userId: int, req: BookingRequest)
    ensures var r := Allocate(events, bookings, nextBookingId, userId, req);
      && (r.Rejected? && r.error.SeatsTaken? ==>
            && r.error.seats == Found(req.seats, BookedSeats(bookings, req.eventId))
            && forall x :: x in r.error.seats <==> x in req.seats && x in BookedSeats(bookings, req.eventId))
      && (r.Rejected? && r.error.SeatsOutOfRange? ==>
            req.eventId in events && r.error.total == events[req.eventId].total
            && r.error.seats == OutOfRange(req.seats, events[req.eventId].total)
            && forall x :: x in r.error.seats <==> x in req.seats && (x < 1 || x > events[req.eventId].total))
  {
  }

  /**
   * A commit lowers the event's `available_seats` by exactly the quantity,
   * never below zero, changes no other event, and appends exactly one row
   * whose stored seats read back as the requested list, all of them in
   * `[1, total_seats]` and free before the call.
   */
  lemma AllocateCommitEffect(events: map<int, Event>, bookings: seq<Booking>, nextBookingId: int, userId: int,
                             req: BookingRequest)
    requires Allocate(events, bookings, nextBookingId, userId, req).Committed?
    ensures var r := Allocate(events, bookings, nextBookingId, userId, req);
      && req.eventId in events
      && r.events.Keys == events.Keys
      && r.events[req.eventId] == events[req.eventId].(available := events[req.eventId].available - req.quantity)
      && r.events[req.eventId].available >= 0
      && (forall id :: id in events && id != req.eventId ==> r.events[id] == events[id])
      && r.bookings == bookings + [r.row]
      && r.row.id == nextBookingId && r.row.eventId == req.eventId && r.row.userId == userId
      && r.row.quantity == req.quantity && r.row.totalAmount == req.totalAmount
      && r.row.status == Pending
      && SeatsOf(r.row) == req.seats
      && (forall x :: x in req.seats ==> 1 <= x <= events[req.eventId].total)
      && (forall x :: x in req.seats ==> x !in BookedSeats(bookings, req.eventId))
  {
    FoundEmpty(req.seats, BookedSeats(bookings, req.eventId));
    OutOfRangeEmpty(req.seats, events[req.eventId].total);
    assert forall i :: 0 <= i < |req.seats| ==> req.seats[i] in req.seats;
    StoredSeatsRoundTrip(req.seats);
  }

  /** A commit keeps the table invariants: fresh ids, existing events, no seat held twice. */
  lemma AllocatePreservesRows(events: map<int, Event>, bookings: seq<Booking>, nextEventId: int,
                              nextBookingId: int, userId: int, req: BookingRequest)
    requires RowsValid(events, bookings, nextEventId, nextBookingId)
    requires Allocate(events, bookings, nextBookingId, userId, req).Committed?
    ensures var r := Allocate(events, bookings, nextBookingId, userId, req);
      RowsValid(r.events, r.bookings, nextEventId, nextBookingId + 1)
  {
    var r := Allocate(events, bookings, nextBookingId, userId, req);
    AllocateCommitEffect(events, bookings, nextBookingId, userId, req);
    AppendFreshRow(events, r.events, bookings, r.row, nextEventId, nextBookingId);
  }

  /** Appending a row with the next id, an existing event and only free seats keeps the table invariants. */
  lemma AppendFreshRow(events: map<int, Event>, events': map<int, Event>, bookings: seq<Booking>, row: Booking,
                       nextEventId: int, nextBookingId: int)
    requires RowsValid(events, bookings, nextEventId, nextBookingId)
    requires events'.Keys == events.Keys
    requires row.id == nextBookingId && row.eventId in events
    requires forall x :: x in SeatsOf(row) ==> x !in BookedSeats(bookings, row.eventId)
    ensures RowsValid(events', bookings + [row], nextEventId, nextBookingId + 1)
  {
    var bs := bookings + [row];
    forall i | 0 <= i < |bs|
      ensures 1 <= bs[i].id < nextBookingId + 1 && bs[i].eventId in events'
    {
      if i < |bookings| {
        assert bs[i] == bookings[i];
      } else {
        assert bs[i] == row && row.eventId in events'.Keys;
      }
    }
    forall i, j | 0 <= i < j < |bs|
      ensures bs[i].id < bs[j].id
    {
      assert bs[i] == bookings[i];
    }
    forall e, x
      ensures Holders(bs, e, x) <= 1
    {
      AppendRow(bookings, row, e, x);
      if row.eventId == e && x in SeatsOf(row) {
        BookedSeatsHeld(bookings, e, x);
      }
    }
  }

  /** A commit keeps every event's books balanced: the decrement matches the new row's quantity. */
  lemma AllocatePreservesAccounting(events: map<int, Event>, bookings: seq<Booking>, nextBookingId: int,
                                    userId: int, req: BookingRequest, e: int)
    requires Accounted(events, bookings, e)
    ensures var r := Allocate(events, bookings, nextBookingId, userId, req);
      r.Committed? ==> Accounted(r.events, r.bookings, e)
  {
    var r := Allocate(events, bookings, nextBookingId, userId, req);
    if r.Committed? {
      AllocateCommitEffect(events, bookings, nextBookingId, userId, req);
      AppendRow(bookings, r.row, e, 0);
    }
  }

  /**
   * The conflict scan does not look at status: a seat held by any booking
   * of the event, a cancelled one included, can never be booked again.
   */
  lemma HeldSeatNeverReallocated(events: map<int, Event>, bookings: seq<Booking>, nextBookingId: int,
                                 userId: int, req: BookingRequest, i: int, x: int)
    requires 0 <= i < |bookings| && bookings[i].eventId == req.eventId && bookings[i].seats.Some?
    requires x in SeatsOf(bookings[i]) && x in req.seats
    ensures !Allocate(events, bookings, nextBookingId, userId, req).Committed?
  {
    HeldSeatIsBooked(bookings, i, x);
    AllocateLadder(events, bookings, nextBookingId, userId, req);
  }

  lemma {:induction false} HeldSeatIsBooked(bookings: seq<Booking>, i: int, x: int)
    requires 0 <= i < |bookings| && bookings[i].seats.Some? && x in SeatsOf(bookings[i])
    ensures x in BookedSeats(bookings, bookings[i].eventId)
  {
    if i < |bookings| - 1 {
      HeldSeatIsBooked(bookings[..|bookings| - 1], i, x);
    }
  }

  /**
   * A negative quantity is truthy, so it is taken as given; the capacity
   * check never refuses it while the event has any seats left.
   */
  lemma NegativeQuantityPassesCapacity(events: map<int, Event>, bookings: seq<Booking>, nextBookingId: int,
                                       userId: int, req: BookingRequest)
    requires req.quantity < 0 && req.eventId in events && events[req.eventId].available >= 0
    ensures Allocate(events, bookings, nextBookingId, userId, req) != Rejected(NotEnoughSeats)
  {
    AllocateLadder(events, bookings, nextBookingId, userId, req);
  }

  /**
   * A commit with a negative quantity raises `available_seats` by its size;
   * when the count was already within that size of `total_seats`, it ends
   * above the total.
   */
  lemma NegativeQuantityRaisesCapacity(events: map<int, Event>, bookings: seq<Booking>, nextBookingId: int,
                                       userId: int, req: BookingRequest)
    requires req.quantity < 0
    requires Allocate(events, bookings, nextBookingId, userId, req).Committed?
    ensures var ev := events[req.eventId];
      var after := Allocate(events, bookings, nextBookingId, userId, req).events[req.eventId];
      && after.available == ev.available + (-req.quantity) > ev.available
      && after.total == ev.total
      && (ev.available > ev.total + req.quantity ==> after.available > after.total)
  {
    AllocateCommitEffect(events, bookings, nextBookingId, userId, req);
  }

  /** An instance: ten of ten seats free, quantity -5, one seat asked for: it commits with 15 available. */
  lemma NegativeQuantityCommits()
    ensures var events := map[1 := Event("Gig", "2025-01-01", 10, 10, 5, Some(Upcoming))];
      var r := Allocate(events, [], 1, 7, BookingRequest(1, [1], -5, 50));
      r.Committed? && r.events[1].available == 15 && r.events[1].available > r.events[1].total
  {
    var events := map[1 := Event("Gig", "2025-01-01", 10, 10, 5, Some(Upcoming))];
    AllocateLadder(events, [], 1, 7, BookingRequest(1, [1], -5, 50));
  }

  /**
   * The INT columns are not bounded here: on a ten-seat event with five seats
   * left, quantity -3000000000 commits, leaving an available count above
   * the largest INT and a row whose quantity is below the smallest.
   */
  lemma NegativeQuantityLeavesIntRange()
    ensures var events := map[1 := Event("Gig", "2025-01-01", 10, 5, 5, Some(Upcoming))];
      var r := Allocate(events, [], 1, 7, BookingRequest(1, [1], -3000000000, 50));
      r.Committed? && r.events[1].available == 3000000005 > IntMax && r.row.quantity < -IntMax - 1
  {
    var events := map[1 := Event("Gig", "2025-01-01", 10, 5, 5, Some(Upcoming))];
    AllocateLadder(events, [], 1, 7, BookingRequest(1, [1], -3000000000, 50));
  }

  /**
   * Two users ask for seat 1 of a two-seat event, one after the other: the
   * first commits (one seat left, one row holding seat 1), the second is
   * rejected listing seat 1.
   */
  lemma SameSeatTwice()
    ensures var events := map[1 := Event("Gig", "2025-01-01", 2, 2, 5, Some(Upcoming))];
      var req := BookingRequest(1, [1], 1, 50);
      var first := Allocate(events, [], 1, 7, req);
      && first.Committed? && first.events[1].available == 1 && SeatsOf(first.row) == [1]
      && Allocate(first.events, first.bookings, 2, 8, req) == Rejected(SeatsTaken([1]))
  {
    var events := map[1 := Event("Gig", "2025-01-01", 2, 2, 5, Some(Upcoming))];
    var req := BookingRequest(1, [1], 1, 50);
    AllocateLadder(events, [], 1, 7, req);
    AllocateCommitEffect(events, [], 1, 7, req);
    var first := Allocate(events, [], 1, 7, req);
    HeldSeatIsBooked(first.bookings, 0, 1);
    assert Found([1], BookedSeats(first.bookings, 1)) == [1];
  }

  /** Quantity follows the normalised seat count when no quantity is sent: [3, 3, -1, "x"] asks for two seats. */
  lemma QuantityFromSeatCount()
    ensures var body := BookingBody(Some(5), Items([Num(3), Num(3), Num(-1), NaN]), None, Some(100));
      ValidateBody(body) == Success(BookingRequest(5, [3, 3], 2, 100))
  {
    DuplicatesKept();
  }
}
