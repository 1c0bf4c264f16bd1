/**
 * controllers/eventController.js as operations on the `events` table:
 * `transformEvent`, `getEventById`, `createEvent`, `updateEvent`,
 * `deleteEvent` (whose foreign key cascades to the event's bookings).
 */
module EventController {
  import opened Wrappers
  import opened Ledger

  /** An event as the API reports it. */
  datatype EventView = EventView(id: int, title: string, date: string, totalSeats: int, availableSeats: int,
                                 price: int, status: EventStatus)

  /** `transformEvent`: fields are copied; a NULL status reads as 'upcoming'. */
  function TransformEvent(id: int, e: Event): (r: EventView)
    ensures r.totalSeats == e.total && r.availableSeats == e.available
    ensures e.status.Some? ==> r.status == e.status.value
    ensures e.status.None? ==> r.status == Upcoming
  {
    EventView(id, e.title, e.date, e.total, e.available, e.price, if e.status.Some? then e.status.value else Upcoming)
  }

  /** `getEventById`: the transformed row, or 404. */
  function GetEventById(events: map<int, Event>, id: int): (r: Result<EventView, int>)
    ensures r.Failure? <==> id !in events
    ensures r.Failure? ==> r.error == 404
    ensures r.Success? ==> r.value.id == id && r.value.availableSeats == events[id].available
  {
    if id !in events then Failure(404) else Success(TransformEvent(id, events[id]))
  }

  /** The fields of a create request the model keeps; absent strings are "" and absent numbers 0. */
  datatype EventBody = EventBody(title: string, date: string, totalSeats: int, price: int,
                                 status: Option<EventStatus>)

  /** The four required fields must all be truthy; nothing else is checked (a negative size passes). */
  predicate CreateAccepted(body: EventBody)
  {
    body.title != "" && body.date != "" && body.totalSeats != 0 && body.price != 0
  }

  /** The row `createEvent` inserts: every seat available, status 'upcoming' unless given. */
  function NewEvent(body: EventBody): (r: Event)
    ensures r.available == r.total == body.totalSeats
    ensures r.status.Some?
  {
    Event(body.title, body.date, body.totalSeats, body.totalSeats, body.price,
          Some(if body.status.Some? then body.status.value else Upcoming))
  }

  /**
   * `createEvent`: 400 unless the required fields are given; otherwise one
   * event is inserted under the next id and reported back.
   */
  method CreateEvent(db: Ledger, body: EventBody) returns (r: Result<EventView, int>)
    requires db.Valid()
    modifies db
    ensures db.Valid()
    ensures db.bookings == old(db.bookings) && db.nextBookingId == old(db.nextBookingId)
    ensures !CreateAccepted(body) ==>
      r == Failure(400) && db.events == old(db.events) && db.nextEventId == old(db.nextEventId)
    ensures CreateAccepted(body) ==>
      && old(db.nextEventId) !in old(db.events)
      && db.events == old(db.events)[old(db.nextEventId) := NewEvent(body)]
      && db.nextEventId == old(db.nextEventId) + 1
      && r == Success(TransformEvent(old(db.nextEventId), NewEvent(body)))
      && Accounted(db.events, db.bookings, old(db.nextEventId))
  {
    if !CreateAccepted(body) {
      return Failure(400);
    }
    var id := db.nextEventId;
    NoBookingsForNewEvent(db.events, db.bookings, db.nextEventId, db.nextBookingId);
    db.events := db.events[id := NewEvent(body)];
    db.nextEventId := db.nextEventId + 1;
    r := Success(TransformEvent(id, db.events[id]));
  }

  /** No booking references an id the events counter has not handed out yet. */
  lemma NoBookingsForNewEvent(events: map<int, Event>, bs: seq<Booking>, nextEventId: int, nextBookingId: int)
    requires RowsValid(events, bs, nextEventId, nextBookingId)
    ensures nextEventId !in events
    ensures SumQuantity(bs, nextEventId) == 0
    ensures BookedSeats(bs, nextEventId) == {}
  {
    NoRowsOfEvent(bs, nextEventId);
  }

  lemma {:induction false} NoRowsOfEvent(bs: seq<Booking>, e: int)
    requires forall i :: 0 <= i < |bs| ==> bs[i].eventId != e
    ensures SumQuantity(bs, e) == 0 && BookedSeats(bs, e) == {}
  {
    if bs != [] {
      NoRowsOfEvent(bs[..|bs| - 1], e);
    }
  }

  /** A freshly created event is open to the allocator with its whole capacity. */
  lemma NewEventAccounted(body: EventBody, bs: seq<Booking>, id: int)
    requires forall i :: 0 <= i < |bs| ==> bs[i].eventId != id
    ensures Accounted(map[id := NewEvent(body)], bs, id)
  {
    NoRowsOfEvent(bs, id);
  }

  /** The fields of an update request; a missing status writes NULL. */
  datatype EventUpdate = EventUpdate(title: string, date: string, totalSeats: int, price: int,
                                     status: Option<EventStatus>)

  /** The row after `UPDATE events SET … WHERE id = ?`: `available_seats` is not among the columns written. */
  function ApplyUpdate(e: Event, upd: EventUpdate): (r: Event)
    ensures r.available == e.available
    ensures r.total == upd.totalSeats && r.status == upd.status
  {
    Event(upd.title, upd.date, upd.totalSeats, e.available, upd.price, upd.status)
  }

  /** `updateEvent`: the row is overwritten and read back; 404 when there is none. */
  method UpdateEvent(db: Ledger, id: int, upd: EventUpdate) returns (r: Result<EventView, int>)
    requires db.Valid()
    modifies db
    ensures db.Valid()
    ensures db.bookings == old(db.bookings)
    ensures db.nextEventId == old(db.nextEventId) && db.nextBookingId == old(db.nextBookingId)
    ensures id !in old(db.events) ==> r == Failure(404) && db.events == old(db.events)
    ensures id in old(db.events) ==>
      && db.events == old(db.events)[id := ApplyUpdate(old(db.events)[id], upd)]
      && r == Success(TransformEvent(id, db.events[id]))
  {
    if id in db.events {
      db.events := db.events[id := ApplyUpdate(db.events[id], upd)];
    }
    r := GetEventById(db.events, id);
  }

  /**
   * Shrinking an event leaves its available count alone, so it can exceed
   * the new total and the books no longer balance.
   */
  lemma UpdateBreaksCapacityBound()
    ensures var e := Event("Gig", "2025-01-01", 10, 10, 5, Some(Upcoming));
      var e' := ApplyUpdate(e, EventUpdate("Gig", "2025-01-01", 5, 5, Some(Upcoming)));
      && Accounted(map[1 := e], [], 1)
      && e'.available > e'.total
      && !Accounted(map[1 := e'], [], 1)
  {
  }

  /**
   * An update without a status writes NULL: the API then reports the event
   * as 'upcoming', even if it was closed, and the allocator takes bookings for it again.
   */
  lemma UpdateWithoutStatusReopens(e: Event, upd: EventUpdate, id: int)
    requires e.status == Some(Closed) && upd.status.None?
    ensures ApplyUpdate(e, upd).status != Some(Closed)
    ensures TransformEvent(id, ApplyUpdate(e, upd)).status == Upcoming
  {
  }

  /**
   * `deleteEvent`: 404 exactly when no event has the id; otherwise the event
   * and, by cascade, all its bookings are gone.
   */
  method DeleteEvent(db: Ledger, id: int) returns (status: int)
    requires db.Valid()
    modifies db
    ensures db.Valid()
    ensures db.nextEventId == old(db.nextEventId) && db.nextBookingId == old(db.nextBookingId)
    ensures id !in old(db.events) ==>
      status == 404 && db.events == old(db.events) && db.bookings == old(db.bookings)
    ensures id in old(db.events) ==>
      status == 200 && db.events == old(db.events) - {id} && db.bookings == CascadeDelete(old(db.bookings), id)
  {
    if id !in db.events {
      return 404;
    }
    DeleteKeepsRows(db.events, db.bookings, db.nextEventId, db.nextBookingId, id);
    db.events := db.events - {id};
    db.bookings := CascadeDelete(db.bookings, id);
    status := 200;
  }

  /** Deleting an event and its bookings keeps the table invariants. */
  lemma DeleteKeepsRows(events: map<int, Event>, bs: seq<Booking>, nextEventId: int, nextBookingId: int, id: int)
    requires RowsValid(events, bs, nextEventId, nextBookingId)
    ensures RowsValid(events - {id}, CascadeDelete(bs, id), nextEventId, nextBookingId)
  {
    var r := CascadeDelete(bs, id);
    CascadeDeleteOrder(bs, id);
    forall i | 0 <= i < |r|
      ensures 1 <= r[i].id < nextBookingId && r[i].eventId in events - {id}
    {
      var j :| 0 <= j < |bs| && bs[j] == r[i];
    }
    forall e, x
      ensures Holders(r, e, x) <= 1
    {
      CascadeDeleteViews(bs, id, e, x);
    }
  }

  /** Deleting one event leaves every other event's books as they were, and none of the deleted one's seats held. */
  lemma DeleteKeepsOtherAccounting(events: map<int, Event>, bs: seq<Booking>, id: int, e: int, x: int)
    requires e != id && Accounted(events, bs, e)
    ensures Accounted(events - {id}, CascadeDelete(bs, id), e)
    ensures Holders(CascadeDelete(bs, id), id, x) == 0
  {
    CascadeDeleteViews(bs, id, e, x);
    CascadeDeleteViews(bs, id, id, x);
  }
}
