/** Seat availability as both controllers derive it: from the FIRST
    confirmed booking of a schedule only (a findOne query), not from every
    confirmed booking. */
module Availability {
  import opened Schemas
  import opened Store

  /** The seat numbers of a passenger list, in order. */
  function SeatNumbers(ps: seq<Passenger>): (seats: seq<int>)
    ensures |seats| == |ps|
    ensures forall k :: 0 <= k < |ps| ==> seats[k] == ps[k].seatNumber
  {
    seq(|ps|, k requires 0 <= k < |ps| => ps[k].seatNumber)
  }

  predicate ConfirmedFor(sid: Id, b: Booking)
  {
    b.scheduleId == sid && b.status == Confirmed
  }

  /** Booking.findOne({ scheduleId, status: 'confirmed' }). */
  function FirstConfirmed(bookings: seq<Booking>, sid: Id): (r: Option<nat>)
    ensures r.Some? ==> r.value < |bookings| && ConfirmedFor(sid, bookings[r.value])
    ensures r.Some? ==> forall j :: 0 <= j < r.value ==> !ConfirmedFor(sid, bookings[j])
    ensures r.None? <==> forall j :: 0 <= j < |bookings| ==> !ConfirmedFor(sid, bookings[j])
  {
    FindOne(bookings, (b: Booking) => ConfirmedFor(sid, b))
  }

  /** The seats the booking controller treats as taken on schedule sid. */
  function BookedSeats(bookings: seq<Booking>, sid: Id): (seats: seq<int>)
    ensures FirstConfirmed(bookings, sid).None? ==> seats == []
    ensures FirstConfirmed(bookings, sid).Some? ==>
      seats == SeatNumbers(bookings[FirstConfirmed(bookings, sid).value].passengers)
  {
    match FirstConfirmed(bookings, sid)
    case None => []
    case Some(i) => SeatNumbers(bookings[i].passengers)
  }

  /** The number of seats the search controller treats as taken on schedule sid. */
  function BookedCount(bookings: seq<Booking>, sid: Id): (n: nat)
    ensures n == |BookedSeats(bookings, sid)|
  {
    match FirstConfirmed(bookings, sid)
    case None => 0
    case Some(i) => |bookings[i].passengers|
  }

  /** A seat held by a confirmed booking of the schedule that is not the first
      one is invisible to both controllers. */
  lemma LaterBookingsUnseen(bookings: seq<Booking>, sid: Id, i: nat, seat: int)
    requires i < |bookings| && ConfirmedFor(sid, bookings[i])
    requires seat in SeatNumbers(bookings[i].passengers)
    requires FirstConfirmed(bookings, sid).Some? && FirstConfirmed(bookings, sid).value != i
    requires seat !in SeatNumbers(bookings[FirstConfirmed(bookings, sid).value].passengers)
    ensures seat !in BookedSeats(bookings, sid)
    ensures FirstConfirmed(bookings, sid).value < i
  {
  }

  /** Adding bookings after the first confirmed one does not change the booked seats. */
  lemma {:induction false} BookedSeatsStableUnderAppend(bookings: seq<Booking>, more: seq<Booking>, sid: Id)
    requires FirstConfirmed(bookings, sid).Some?
    ensures FirstConfirmed(bookings + more, sid) == FirstConfirmed(bookings, sid)
    ensures BookedSeats(bookings + more, sid) == BookedSeats(bookings, sid)
  {
    assert forall j :: 0 <= j < |bookings| ==> (bookings + more)[j] == bookings[j];
  }
}
