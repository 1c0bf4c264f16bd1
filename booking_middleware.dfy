/**
 * The two middlewares in front of `createBooking`
 * (middleware/bookingMiddleware.js): `checkUserRole` and `checkEventStatus`.
 */
module BookingMiddleware {
  import opened Wrappers
  import opened Http
  import opened JsText
  import opened Ledger
  import opened BookingAllocation

  /** `checkUserRole`: 401 without a caller, 403 for an admin, otherwise on to the next step. */
  function CheckUserRole(user: Option<Caller>): (r: Verdict)
    ensures r == Next <==> user.Some? && user.value.role != Admin
    ensures r == Halt(401) <==> user.None?
    ensures r == Halt(403) <==> user.Some? && user.value.role == Admin
  {
    if user.None? then Halt(401)
    else if user.value.role == Admin then Halt(403)
    else Next
  }

  /** `checkEventStatus`: 400 without a (truthy) event id, 404 for an unknown event, 403 when it is closed. */
  function CheckEventStatus(eventId: Option<int>, events: map<int, Event>): (r: Verdict)
    ensures r == Halt(400) <==> !Truthy(eventId)
    ensures r == Halt(404) <==> Truthy(eventId) && eventId.value !in events
    ensures r == Halt(403) <==> Truthy(eventId) && eventId.value in events && events[eventId.value].status == Some(Closed)
    ensures r == Next <==> Truthy(eventId) && eventId.value in events && events[eventId.value].status != Some(Closed)
  {
    if !Truthy(eventId) then Halt(400)
    else if eventId.value !in events then Halt(404)
    else if events[eventId.value].status == Some(Closed) then Halt(403)
    else Next
  }

  /** What `POST /bookings` answers: the first middleware that stops, or the handler. */
  datatype RouteOutcome = Stopped(status: int) | Handled(outcome: AllocOutcome)

  /** The route `POST /bookings`: checkUserRole, then checkEventStatus, then createBooking. */
  function BookingRoute(user: Option<Caller>, body: BookingBody, events: map<int, Event>,
                        bookings: seq<Booking>, nextBookingId: int): RouteOutcome
  {
    match CheckUserRole(user)
    case Halt(s) => Stopped(s)
    case Next =>
      match CheckEventStatus(body.eventId, events)
      case Halt(s) => Stopped(s)
      case Next => Handled(CreateBookingSpec(events, bookings, nextBookingId, user.value.id, body))
  }

  /**
   * The handler runs only for an authenticated non-admin booking an
   * existing event that is not closed; with the tables unchanged in
   * between, its own 404 and 403 checks then never fire.
   */
  lemma BookingRouteGate(user: Option<Caller>, body: BookingBody, events: map<int, Event>,
                         bookings: seq<Booking>, nextBookingId: int)
    ensures var r := BookingRoute(user, body, events, bookings, nextBookingId);
      && (r.Handled? <==>
            user.Some? && user.value.role != Admin && Truthy(body.eventId)
            && body.eventId.value in events && events[body.eventId.value].status != Some(Closed))
      && (r.Handled? ==> r.outcome != Rejected(EventNotFound) && r.outcome != Rejected(EventClosed))
  {
  }
}
