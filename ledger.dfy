/**
 * The `events` and `bookings` tables as the controllers see them
 * (their columns, enums and defaults are those of config/createTablesAuto.js),
 * and the per-event views of the bookings table the allocator computes.
 */
module Ledger {
  import opened Wrappers
  import opened SeatParser

  /** The largest value an INT column holds. */
  const IntMax: int := 0x7FFF_FFFF

  datatype EventStatus = Upcoming | Live | Closed

  /** A row of `events`; `status` is None when the column holds NULL. */
  datatype Event = Event(title: string, date: string, total: int, available: int, price: int,
                         status: Option<EventStatus>)

  datatype BookingStatus = Pending | Confirmed | Cancelled

  /** A row of `bookings`; `seats` is the TEXT column, None when it holds NULL. */
  datatype Booking = Booking(id: int, eventId: int, userId: int, quantity: int, totalAmount: int,
                             seats: Option<string>, status: BookingStatus)

  /** The seat numbers a booking row holds, as `parseSeats` reads its column. */
  function SeatsOf(b: Booking): (r: seq<int>)
    ensures b.seats.None? ==> r == []
  {
    ParseSeats(ColumnInput(b.seats))
  }

  // ---------------------------------------------------------------------------
  // Per-event views of the bookings table (each defined from the last row back,
  // so that a scan in table order extends them one row at a time)

  /**
   * The seats of every booking of `e` whose seats column is not NULL, whatever
   * its status: the rows `getBookedSeats` reads.
   */
  function BookedSeats(bs: seq<Booking>, e: int): set<int>
  {
    if bs == [] then {}
    else
      var b := bs[|bs| - 1];
      BookedSeats(bs[..|bs| - 1], e) + if b.eventId == e && b.seats.Some? then (set x | x in SeatsOf(b)) else {}
  }

  /** The seats of every booking of `e` made by user `u`: the rows of the per-user check. */
  function UserSeats(bs: seq<Booking>, e: int, u: int): set<int>
  {
    if bs == [] then {}
    else
      var b := bs[|bs| - 1];
      UserSeats(bs[..|bs| - 1], e, u) + if b.eventId == e && b.userId == u then (set x | x in SeatsOf(b)) else {}
  }

  /** How many bookings of `e` hold seat `x`. */
  function Holders(bs: seq<Booking>, e: int, x: int): nat
  {
    if bs == [] then 0
    else
      var b := bs[|bs| - 1];
      Holders(bs[..|bs| - 1], e, x) + if b.eventId == e && x in SeatsOf(b) then 1 else 0
  }

  /** The total `quantity` of the bookings of `e`, whatever their status. */
  function SumQuantity(bs: seq<Booking>, e: int): int
  {
    if bs == [] then 0
    else
      var b := bs[|bs| - 1];
      SumQuantity(bs[..|bs| - 1], e) + if b.eventId == e then b.quantity else 0
  }

  /** No seat of any event is held by two bookings. */
  ghost predicate Exclusive(bs: seq<Booking>)
  {
    forall e, x :: Holders(bs, e, x) <= 1
  }

  /** Every seat the event has handed out is counted: available plus booked equals total. */
  ghost predicate Accounted(events: map<int, Event>, bs: seq<Booking>, e: int)
  {
    e in events ==> events[e].available + SumQuantity(bs, e) == events[e].total
  }

  /**
   * The table-level facts: ids come from AUTO_INCREMENT counters, every
   * booking references an existing event (foreign key with ON DELETE
   * CASCADE), and no seat is held twice.
   */
  ghost predicate RowsValid(events: map<int, Event>, bs: seq<Booking>, nextEventId: int, nextBookingId: int)
  {
    && 1 <= nextEventId && 1 <= nextBookingId
    && (forall id :: id in events ==> 1 <= id < nextEventId)
    && (forall i :: 0 <= i < |bs| ==> 1 <= bs[i].id < nextBookingId && bs[i].eventId in events)
    && IdsIncreasing(bs)
    && Exclusive(bs)
  }

  /** Booking ids increase along the table: each insert takes the next counter value. */
  ghost predicate IdsIncreasing(bs: seq<Booking>)
  {
    forall i, j :: 0 <= i < j < |bs| ==> bs[i].id < bs[j].id
  }

  // ---------------------------------------------------------------------------
  // Table updates other than the allocator's insert

  /** The bookings that survive `DELETE FROM events WHERE id = ?` (ON DELETE CASCADE). */
  function CascadeDelete(bs: seq<Booking>, id: int): (r: seq<Booking>)
    ensures |r| <= |bs|
    ensures forall i :: 0 <= i < |r| ==> r[i] in bs && r[i].eventId != id
    ensures forall i :: 0 <= i < |bs| && bs[i].eventId != id ==> bs[i] in r
  {
    if bs == [] then []
    else
      var b := bs[|bs| - 1];
      CascadeDelete(bs[..|bs| - 1], id) + if b.eventId == id then [] else [b]
  }

  /** The bookings after `UPDATE bookings SET status = ? WHERE id = ?`. */
  function WithStatus(bs: seq<Booking>, id: int, st: BookingStatus): (r: seq<Booking>)
    ensures |r| == |bs|
    ensures forall i :: 0 <= i < |bs| ==> r[i] == if bs[i].id == id then bs[i].(status := st) else bs[i]
  {
    seq(|bs|, i requires 0 <= i < |bs| => if bs[i].id == id then bs[i].(status := st) else bs[i])
  }

  // ---------------------------------------------------------------------------
  // Laws of the views

  /**
   * The per-user scan only ever finds seats the event-wide scan also finds:
   * a NULL seats column parses to no seats at all.
   */
  lemma {:induction false} UserSeatsWithinBooked(bs: seq<Booking>, e: int, u: int)
    ensures UserSeats(bs, e, u) <= BookedSeats(bs, e)
  {
    if bs != [] {
      UserSeatsWithinBooked(bs[..|bs| - 1], e, u);
    }
  }

  /** A seat is in the event-wide scan exactly when some booking of the event holds it. */
  lemma {:induction false} BookedSeatsHeld(bs: seq<Booking>, e: int, x: int)
    ensures x in BookedSeats(bs, e) <==> Holders(bs, e, x) > 0
  {
    if bs != [] {
      BookedSeatsHeld(bs[..|bs| - 1], e, x);
    }
  }

  /** Appending one row adds that row's contribution to every view. */
  lemma AppendRow(bs: seq<Booking>, b: Booking, e: int, x: int)
    ensures Holders(bs + [b], e, x) == Holders(bs, e, x) + if b.eventId == e && x in SeatsOf(b) then 1 else 0
    ensures SumQuantity(bs + [b], e) == SumQuantity(bs, e) + if b.eventId == e then b.quantity else 0
  {
    assert (bs + [b])[..|bs|] == bs;
  }

  /** Deleting an event's bookings empties its views and leaves every other event's alone. */
  lemma {:induction false} CascadeDeleteViews(bs: seq<Booking>, id: int, e: int, x: int)
    ensures Holders(CascadeDelete(bs, id), e, x) == if e == id then 0 else Holders(bs, e, x)
    ensures SumQuantity(CascadeDelete(bs, id), e) == if e == id then 0 else SumQuantity(bs, e)
  {
    if bs != [] {
      var front := bs[..|bs| - 1];
      var b := bs[|bs| - 1];
      var r := CascadeDelete(front, id);
      CascadeDeleteViews(front, id, e, x);
      CascadeDeleteLast(bs, id);
      assert Holders(bs, e, x) == Holders(front, e, x) + if b.eventId == e && x in SeatsOf(b) then 1 else 0;
      assert SumQuantity(bs, e) == SumQuantity(front, e) + if b.eventId == e then b.quantity else 0;
      if b.eventId != id {
        assert CascadeDelete(bs, id) == r + [b];
        AppendRow(r, b, e, x);
      } else {
        assert CascadeDelete(bs, id) == r;
      }
    }
  }

  /** The cascade over a table is the cascade over all but its last row, plus that row if it stays. */
  lemma CascadeDeleteLast(bs: seq<Booking>, id: int)
    requires bs != []
    ensures var b := bs[|bs| - 1];
      CascadeDelete(bs, id) == CascadeDelete(bs[..|bs| - 1], id) + if b.eventId == id then [] else [b]
  {
  }

  /**
   * The cascade removes exactly the event's bookings: every other row
   * survives, unchanged and as often as it was there.
   */
  lemma {:induction false} CascadeDeleteCount(bs: seq<Booking>, id: int, b: Booking)
    ensures multiset(CascadeDelete(bs, id))[b] == if b.eventId == id then 0 else multiset(bs)[b]
  {
    if bs != [] {
      var front := bs[..|bs| - 1];
      assert bs == front + [bs[|bs| - 1]];
      CascadeDeleteCount(front, id, b);
    }
  }

  /** Rows kept by the cascade keep their relative order. */
  lemma {:induction false} CascadeDeleteOrder(bs: seq<Booking>, id: int)
    requires IdsIncreasing(bs)
    ensures IdsIncreasing(CascadeDelete(bs, id))
  {
    if bs != [] {
      var front := bs[..|bs| - 1];
      var b := bs[|bs| - 1];
      CascadeDeleteOrder(front, id);
      CascadeDeleteLast(bs, id);
      var r := CascadeDelete(front, id);
      if b.eventId != id {
        KeptBelowLast(bs, front, id);
        AppendIncreasing(r, b);
      }
    }
  }

  /** Every row the cascade keeps from all but the last row has a smaller id than the last row. */
  lemma KeptBelowLast(bs: seq<Booking>, front: seq<Booking>, id: int)
    requires bs != [] && front == bs[..|bs| - 1] && IdsIncreasing(bs)
    ensures forall k :: 0 <= k < |CascadeDelete(front, id)| ==> CascadeDelete(front, id)[k].id < bs[|bs| - 1].id
  {
    var r := CascadeDelete(front, id);
    forall k | 0 <= k < |r|
      ensures r[k].id < bs[|bs| - 1].id
    {
      assert r[k] in front;
      var i :| 0 <= i < |front| && front[i] == r[k];
      assert bs[i] == front[i];
    }
  }

  /** A row whose id exceeds every id of an increasing table extends it increasingly. */
  lemma AppendIncreasing(r: seq<Booking>, b: Booking)
    requires IdsIncreasing(r)
    requires forall k :: 0 <= k < |r| ==> r[k].id < b.id
    ensures IdsIncreasing(r + [b])
  {
    var r' := r + [b];
    forall i, j | 0 <= i < j < |r'|
      ensures r'[i].id < r'[j].id
    {
      if j < |r| {
        assert r'[i] == r[i] && r'[j] == r[j];
      } else {
        assert r'[i] == r[i] && r'[j] == b;
      }
    }
  }

  /**
   * A status change, cancellation included, releases no seat and returns no
   * capacity: every view of the table is as before.
   */
  lemma {:induction false} WithStatusViews(bs: seq<Booking>, id: int, st: BookingStatus, e: int, u: int, x: int)
    ensures BookedSeats(WithStatus(bs, id, st), e) == BookedSeats(bs, e)
    ensures UserSeats(WithStatus(bs, id, st), e, u) == UserSeats(bs, e, u)
    ensures Holders(WithStatus(bs, id, st), e, x) == Holders(bs, e, x)
    ensures SumQuantity(WithStatus(bs, id, st), e) == SumQuantity(bs, e)
  {
    if bs != [] {
      var front := bs[..|bs| - 1];
      var b, b' := bs[|bs| - 1], WithStatus(bs, id, st)[|bs| - 1];
      assert WithStatus(bs, id, st)[..|bs| - 1] == WithStatus(front, id, st);
      assert b'.eventId == b.eventId && b'.userId == b.userId && b'.seats == b.seats && b'.quantity == b.quantity;
      assert SeatsOf(b') == SeatsOf(b);
      WithStatusViews(front, id, st, e, u, x);
    }
  }

  // ---------------------------------------------------------------------------
  // The tables themselves

  /** The `events` and `bookings` tables, with their AUTO_INCREMENT counters. */
  class Ledger {
    var events: map<int, Event>
    var bookings: seq<Booking>
    var nextEventId: int
    var nextBookingId: int

    ghost predicate Valid()
      reads this
    {
      RowsValid(events, bookings, nextEventId, nextBookingId)
    }

    /** Freshly created, empty tables. */
    constructor ()
      ensures Valid()
      ensures events == map[] && bookings == [] && nextEventId == 1 && nextBookingId == 1
    {
      events := map[];
      bookings := [];
      nextEventId := 1;
      nextBookingId := 1;
    }
  }
}
