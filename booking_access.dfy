/**
 * The read side of controllers/bookingController.js (`transformBooking`,
 * the access rules of `getAllBookings` and `getUserBookings`,
 * `getBookingById`) and the admin's `updateBooking`.
 */
module BookingAccess {
  import opened Wrappers
  import opened JsText
  import opened SeatParser
  import opened Ledger
  import opened Http
  import opened BookingAllocation

  /** A booking as the API reports it. */
  datatype BookingView = BookingView(id: int, eventId: int, userId: int, seats: seq<int>, quantity: int,
                                     totalAmount: int, status: BookingStatus)

  /** `transformBooking`: the stored seats text is read back through `parseSeats`. */
  function TransformBooking(b: Booking): (r: BookingView)
    ensures r.seats == SeatsOf(b)
    ensures r.id == b.id && r.eventId == b.eventId && r.userId == b.userId && r.status == b.status
  {
    BookingView(b.id, b.eventId, b.userId, SeatsOf(b), b.quantity, b.totalAmount, b.status)
  }

  /** The query string of `GET /bookings`; an absent parameter is the empty (falsy) string. */
  datatype ListQuery = ListQuery(eventId: string, userId: string)

  /** The WHERE clause `getAllBookings` builds: each present filter is a number the column must equal. */
  datatype Filter = Filter(userId: Option<Number>, eventId: Option<Number>)

  /** The access rule of `getAllBookings`: the filter to run, or 403. */
  function ListingAccess(caller: Caller, q: ListQuery): (r: Result<Filter, int>)
    ensures r.Failure? ==> r.error == 403
    ensures r.Success? ==>
      && (r.value.userId.Some? <==> q.userId != "")
      && (r.value.eventId.Some? <==> q.eventId != "")
  {
    if q.eventId == "" && q.userId == "" && caller.role != Admin then Failure(403)
    else if q.userId != "" && caller.role != Admin && NumberOfText(q.userId) != Num(caller.id) then Failure(403)
    else
      Success(Filter(if q.userId != "" then Some(NumberOfText(q.userId)) else None,
                     if q.eventId != "" then Some(NumberOfText(q.eventId)) else None))
  }

  predicate Matches(b: Booking, f: Filter)
  {
    && (f.userId.Some? ==> f.userId.value == Num(b.userId))
    && (f.eventId.Some? ==> f.eventId.value == Num(b.eventId))
  }

  /** The rows the query returns, transformed, in table order. */
  function Listing(bs: seq<Booking>, f: Filter): (r: seq<BookingView>)
    ensures |r| <= |bs|
    ensures forall v :: v in r <==> exists b :: b in bs && Matches(b, f) && v == TransformBooking(b)
  {
    if bs == [] then []
    else
      var front, b := bs[..|bs| - 1], bs[|bs| - 1];
      assert bs == front + [b];
      Listing(front, f) + if Matches(b, f) then [TransformBooking(b)] else []
  }

  /**
   * The access rule, both ways: an admin is never refused; anyone else is
   * refused exactly when they give no filter at all or filter on a user id
   * other than their own; the event filter alone is open to anyone.
   */
  lemma ListingAccessRule(caller: Caller, q: ListQuery)
    ensures caller.role == Admin ==> ListingAccess(caller, q).Success?
    ensures caller.role != Admin ==>
      (ListingAccess(caller, q).Failure? <==>
        (q.eventId == "" && q.userId == "") || (q.userId != "" && NumberOfText(q.userId) != Num(caller.id)))
    ensures q.eventId != "" && q.userId == "" ==> ListingAccess(caller, q).Success?
  {
  }

  /**
   * Whatever a non-admin is allowed to list holds only their own bookings
   * or bookings of the event they named.
   */
  lemma NonAdminSeesOwnOrNamedEvent(caller: Caller, q: ListQuery, bs: seq<Booking>)
    requires caller.role != Admin && ListingAccess(caller, q).Success?
    ensures forall v :: v in Listing(bs, ListingAccess(caller, q).value) ==>
      v.userId == caller.id || (q.eventId != "" && NumberOfText(q.eventId) == Num(v.eventId))
  {
  }

  /**
   * The access rule of `getUserBookings`: the user whose bookings are read,
   * or 403. Only an admin reads the user named in the path.
   */
  function UserBookingsTarget(caller: Caller, requested: string): (r: Result<Number, int>)
    ensures r.Failure? ==> r.error == 403
  {
    if requested != "" && caller.role != Admin && NumberOfText(requested) != Num(caller.id) then Failure(403)
    else Success(if caller.role == Admin && requested != "" then NumberOfText(requested) else Num(caller.id))
  }

  /** A non-admin only ever reads their own bookings; an admin reads the path's user. */
  lemma UserBookingsTargetRule(caller: Caller, requested: string)
    ensures caller.role != Admin ==>
      (UserBookingsTarget(caller, requested).Success? <==> requested == "" || NumberOfText(requested) == Num(caller.id))
    ensures caller.role != Admin && UserBookingsTarget(caller, requested).Success? ==>
      UserBookingsTarget(caller, requested).value == Num(caller.id)
    ensures caller.role == Admin && requested != "" ==> UserBookingsTarget(caller, requested) == Success(NumberOfText(requested))
  {
  }

  /** The position of the row with id `id`, if any. */
  function IndexOf(bs: seq<Booking>, id: int): (r: Option<nat>)
    ensures r.Some? ==> r.value < |bs| && bs[r.value].id == id
    ensures r.None? <==> forall i :: 0 <= i < |bs| ==> bs[i].id != id
  {
    if bs == [] then None
    else if bs[0].id == id then Some(0)
    else match IndexOf(bs[1..], id)
      case None => None
      case Some(k) => Some(k + 1)
  }

  /** `getBookingById`: the transformed row, or 404. */
  function GetBookingById(bs: seq<Booking>, id: int): (r: Result<BookingView, int>)
    ensures r.Failure? <==> forall i :: 0 <= i < |bs| ==> bs[i].id != id
    ensures r.Failure? ==> r.error == 404
    ensures r.Success? ==> exists i :: 0 <= i < |bs| && bs[i].id == id && r.value == TransformBooking(bs[i])
  {
    match IndexOf(bs, id)
    case None => Failure(404)
    case Some(i) => Success(TransformBooking(bs[i]))
  }

  /**
   * `updateBooking`: a missing status is a 400 that changes nothing; otherwise
   * the row's status is overwritten (no seat is released and no capacity
   * returned) and the row is read back, 404 when there is none.
   */
  method UpdateBooking(db: Ledger, id: int, status: Option<BookingStatus>) returns (r: Result<BookingView, int>)
    requires db.Valid()
    modifies db
    ensures db.Valid()
    ensures db.events == old(db.events)
    ensures db.nextEventId == old(db.nextEventId) && db.nextBookingId == old(db.nextBookingId)
    ensures status.None? ==> r == Failure(400) && db.bookings == old(db.bookings)
    ensures status.Some? ==>
      && db.bookings == WithStatus(old(db.bookings), id, status.value)
      && r == GetBookingById(db.bookings, id)
  {
    if status.None? {
      return Failure(400);
    }
    WithStatusKeepsRows(db.events, db.bookings, db.nextEventId, db.nextBookingId, id, status.value);
    db.bookings := WithStatus(db.bookings, id, status.value);
    r := GetBookingById(db.bookings, id);
  }

  /** A status change keeps the table invariants. */
  lemma WithStatusKeepsRows(events: map<int, Event>, bs: seq<Booking>, nextEventId: int, nextBookingId: int,
                            id: int, st: BookingStatus)
    requires RowsValid(events, bs, nextEventId, nextBookingId)
    ensures RowsValid(events, WithStatus(bs, id, st), nextEventId, nextBookingId)
  {
    forall e, x
      ensures Holders(WithStatus(bs, id, st), e, x) <= 1
    {
      WithStatusViews(bs, id, st, e, 0, x);
    }
  }

  /**
   * The update reports exactly the row it changed, with the new status, and
   * 404 exactly when no row has that id.
   */
  lemma UpdateBookingResult(bs: seq<Booking>, id: int, st: BookingStatus)
    ensures GetBookingById(WithStatus(bs, id, st), id).Failure? <==> forall i :: 0 <= i < |bs| ==> bs[i].id != id
    ensures GetBookingById(WithStatus(bs, id, st), id).Success? ==>
      exists i :: 0 <= i < |bs| && bs[i].id == id
        && GetBookingById(WithStatus(bs, id, st), id).value == TransformBooking(bs[i]).(status := st)
  {
  }

  /**
   * Cancelling a booking does not free its seats: a later request for any of
   * them is still rejected.
   */
  lemma CancelledSeatStaysTaken(events: map<int, Event>, bs: seq<Booking>, nextBookingId: int, userId: int,
                                req: BookingRequest, i: int, x: int)
    requires 0 <= i < |bs| && bs[i].eventId == req.eventId && bs[i].seats.Some?
    requires x in SeatsOf(bs[i]) && x in req.seats
    ensures !Allocate(events, WithStatus(bs, bs[i].id, Cancelled), nextBookingId, userId, req).Committed?
  {
    var bs' := WithStatus(bs, bs[i].id, Cancelled);
    assert SeatsOf(bs'[i]) == SeatsOf(bs[i]);
    HeldSeatNeverReallocated(events, bs', nextBookingId, userId, req, i, x);
  }

  /**
   * A booking read back after it was made shows the seats it was made with,
   * but status 'pending' where the creation response said 'confirmed'.
   */
  lemma ListedRowDisagreesWithReceipt(id: int, userId: int, req: BookingRequest)
    requires forall i :: 0 <= i < |req.seats| ==> req.seats[i] > 0
    ensures var row := NewRow(id, userId, req);
      && TransformBooking(row).seats == ReceiptOf(row, req).seats
      && TransformBooking(row).status == Pending && ReceiptOf(row, req).status == Confirmed
  {
    StoredSeatsRoundTrip(req.seats);
  }
}
