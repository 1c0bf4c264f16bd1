/**
 * `getSeatAvailability` (controllers/seatController.js): the seats held by
 * the event's live bookings, and a grid of seats 1..total_seats marking each
 * as booked or free.
 */
module SeatController {
  import opened Wrappers
  import opened JsText
  import opened SeatParser
  import opened Ledger
  import opened BookingAllocation

  /** One cell of the grid. */
  datatype SeatCell = SeatCell(number: int, isBooked: bool)

  /** The response body: the event's counters, the collected values and the grid. */
  datatype SeatReport = SeatReport(eventId: int, totalSeats: int, availableSeats: int,
                                   bookedSeats: seq<Scalar>, seats: seq<SeatCell>)

  /**
   * What one booking adds to `bookedSeats`: the elements of its seats text
   * when it is JSON holding an array. Text that does not parse, and JSON
   * that is not an array (spreading it throws), add nothing.
   */
  function RowValues(b: Booking): seq<Scalar>
  {
    if b.seats.None? || b.seats.value == "" then []
    else match Parse(b.seats.value)
      case Some(JArray(items)) => items
      case _ => []
  }

  /** The bookings the query selects: the event's, not cancelled, with a seats column. */
  predicate Live(b: Booking, e: int)
  {
    b.eventId == e && b.status != Cancelled && b.seats.Some?
  }

  /** What one booking adds to `bookedSeats` for event `e`. */
  function Contribution(b: Booking, e: int): seq<Scalar>
  {
    if Live(b, e) then RowValues(b) else []
  }

  /** The concatenation of `f` over `xs`, in order. */
  function FlatMap<A, B>(f: A -> seq<B>, xs: seq<A>): seq<B>
  {
    if xs == [] then [] else FlatMap(f, xs[..|xs| - 1]) + f(xs[|xs| - 1])
  }

  /** `bookedSeats`: the values of the selected bookings, concatenated in table order, duplicates kept. */
  function CollectBooked(bs: seq<Booking>, e: int): seq<Scalar>
  {
    FlatMap((b: Booking) => Contribution(b, e), bs)
  }

  /** The grid's size: the loop from 1 to `total_seats` runs no times when the total is below 1. */
  function GridSize(total: int): nat
  {
    if total > 0 then total else 0
  }

  /**
   * `getSeatAvailability`: 404 when the event does not exist; otherwise the
   * collected values and a grid whose cell i is seat i+1, booked exactly
   * when that number is among the collected values. The available count is
   * the event's own column, not recomputed from the grid.
   */
  method GetSeatAvailability(events: map<int, Event>, bookings: seq<Booking>, eventId: int)
    returns (r: Result<SeatReport, int>)
    ensures r.Failure? <==> eventId !in events
    ensures r.Failure? ==> r.error == 404
    ensures r.Success? ==>
      && r.value.eventId == eventId
      && r.value.totalSeats == events[eventId].total
      && r.value.availableSeats == events[eventId].available
      && r.value.bookedSeats == CollectBooked(bookings, eventId)
      && |r.value.seats| == GridSize(events[eventId].total)
      && forall k :: 0 <= k < |r.value.seats| ==>
           r.value.seats[k].number == k + 1 && (r.value.seats[k].isBooked <==> JInt(k + 1) in r.value.bookedSeats)
  {
    if eventId !in events {
      return Failure(404);
    }
    var ev := events[eventId];
    var booked := CollectBookedSeats(bookings, eventId);
    var seats := BuildGrid(ev.total, booked);
    r := Success(SeatReport(eventId, ev.total, ev.available, booked, seats));
  }

  /** The `forEach` over the selected bookings that fills `bookedSeats`. */
  method CollectBookedSeats(bookings: seq<Booking>, eventId: int) returns (booked: seq<Scalar>)
    ensures booked == CollectBooked(bookings, eventId)
  {
    booked := [];
    var i := 0;
    while i < |bookings|
      invariant 0 <= i <= |bookings|
      invariant booked == CollectBooked(bookings[..i], eventId)
    {
      var b := bookings[i];
      CollectBookedLast(bookings[..i + 1], eventId);
      assert bookings[..i + 1][..i] == bookings[..i];
      assert bookings[..i + 1][i] == b;
      if Live(b, eventId) && b.seats.value != "" {
        var parsed := Parse(b.seats.value);
        if parsed.Some? && parsed.value.JArray? {
          booked := booked + parsed.value.items;
        }
      }
      i := i + 1;
    }
    assert bookings[..i] == bookings;
  }

  /** The loop from 1 to `total_seats` that builds the grid. */
  method BuildGrid(total: int, booked: seq<Scalar>) returns (seats: seq<SeatCell>)
    ensures |seats| == GridSize(total)
    ensures forall k :: 0 <= k < |seats| ==> seats[k] == SeatCell(k + 1, JInt(k + 1) in booked)
  {
    seats := [];
    var n := 1;
    while n <= total
      invariant 1 <= n <= GridSize(total) + 1
      invariant |seats| == n - 1
      invariant forall k :: 0 <= k < |seats| ==> seats[k] == SeatCell(k + 1, JInt(k + 1) in booked)
    {
      seats := seats + [SeatCell(n, JInt(n) in booked)];
      n := n + 1;
    }
  }

  // ---------------------------------------------------------------------------
  // Laws

  /** Mapping over two stretches and concatenating is mapping over each, in order. */
  lemma {:induction false} FlatMapAppend<A, B>(f: A -> seq<B>, a: seq<A>, c: seq<A>)
    ensures FlatMap(f, a + c) == FlatMap(f, a) + FlatMap(f, c)
  {
    if c == [] {
      assert a + c == a;
    } else {
      var c' := c[..|c| - 1];
      assert (a + c)[..|a + c| - 1] == a + c';
      assert (a + c)[|a + c| - 1] == c[|c| - 1];
      FlatMapAppend(f, a, c');
    }
  }

  /** Collecting over two stretches of the table is collecting over each, in order. */
  lemma CollectBookedAppend(a: seq<Booking>, c: seq<Booking>, e: int)
    ensures CollectBooked(a + c, e) == CollectBooked(a, e) + CollectBooked(c, e)
  {
    FlatMapAppend((b: Booking) => Contribution(b, e), a, c);
  }

  /** The last row's share comes last. */
  lemma CollectBookedLast(bs: seq<Booking>, e: int)
    requires bs != []
    ensures CollectBooked(bs, e) == CollectBooked(bs[..|bs| - 1], e) + Contribution(bs[|bs| - 1], e)
  {
  }

  /** A booking whose seats text cannot be read is skipped; the others still count. */
  lemma UnreadableRowSkipped(a: seq<Booking>, b: Booking, c: seq<Booking>, e: int)
    requires b.seats.Some? && Parse(b.seats.value).None?
    ensures CollectBooked(a + [b] + c, e) == CollectBooked(a + c, e)
  {
    assert RowValues(b) == [];
    SilentRowSkipped(a, b, c, e);
  }

  /** A booking that contributes nothing leaves the collected values as they were without it. */
  lemma SilentRowSkipped(a: seq<Booking>, b: Booking, c: seq<Booking>, e: int)
    requires Contribution(b, e) == []
    ensures CollectBooked(a + [b] + c, e) == CollectBooked(a + c, e)
  {
    assert CollectBooked([b], e) == [] by {
      CollectBookedLast([b], e);
      assert [b][..0] == [];
    }
    CollectBookedAppend(a + [b], c, e);
    CollectBookedAppend(a, [b], e);
    CollectBookedAppend(a, c, e);
  }

  /** Every seat of a live booking the allocator wrote shows as booked in the grid. */
  lemma {:induction false} StoredSeatCollected(bs: seq<Booking>, e: int, i: int, xs: seq<int>, x: int)
    requires 0 <= i < |bs| && Live(bs[i], e) && bs[i].seats == Some(Stringify(xs)) && x in xs
    ensures JInt(x) in CollectBooked(bs, e)
  {
    if i == |bs| - 1 {
      ParseStringify(xs);
      var k :| 0 <= k < |xs| && xs[k] == x;
      assert Ints(xs)[k] == JInt(x);
      assert JInt(x) in RowValues(bs[i]);
    } else {
      StoredSeatCollected(bs[..|bs| - 1], e, i, xs, x);
    }
  }

  /** Only live bookings contribute: every collected value comes from one. */
  lemma {:induction false} CollectedFromLiveRow(bs: seq<Booking>, e: int, v: Scalar)
    requires v in CollectBooked(bs, e)
    ensures exists i :: 0 <= i < |bs| && Live(bs[i], e) && v in RowValues(bs[i])
  {
    var front := bs[..|bs| - 1];
    if v in CollectBooked(front, e) {
      CollectedFromLiveRow(front, e, v);
      var i :| 0 <= i < |front| && Live(front[i], e) && v in RowValues(front[i]);
      assert bs[i] == front[i];
    }
  }

  /**
   * The grid and the allocator disagree about cancelled bookings: a seat
   * whose only booking was cancelled is shown free, yet a request for it is
   * still rejected.
   */
  lemma CancelledSeatShownFreeButTaken()
    ensures var events := map[1 := Event("Gig", "2025-01-01", 2, 1, 5, Some(Upcoming))];
      var bs := [Booking(1, 1, 7, 1, 50, Some(Stringify([1])), Cancelled)];
      && JInt(1) !in CollectBooked(bs, 1)
      && !Allocate(events, bs, 2, 8, BookingRequest(1, [1], 1, 50)).Committed?
  {
    var bs := [Booking(1, 1, 7, 1, 50, Some(Stringify([1])), Cancelled)];
    assert bs[..0] == [];
    StoredSeatsRoundTrip([1]);
    var events := map[1 := Event("Gig", "2025-01-01", 2, 1, 5, Some(Upcoming))];
    HeldSeatNeverReallocated(events, bs, 2, 8, BookingRequest(1, [1], 1, 50), 0, 1);
  }
}
