/** What the booking rules imply across requests: a seat cannot be booked
    twice in a row, cancelling frees it, and the places where the
    first-booking-only seat check lets a seat be booked twice. */
module BookingProperties {
  import opened Schemas
  import opened Store
  import opened Availability
  import opened Bookings

  /** After a successful booking on a schedule with no confirmed booking yet,
      any request for one of its seats on that schedule fails with a seat conflict. */
  lemma SameSeatTwiceFails(
    schedules: seq<Schedule>, bookings: seq<Booking>,
    user1: UserId, req1: BookingRequest, now1: nat,
    user2: UserId, req2: BookingRequest, now2: nat, seat: int)
    requires BookingOutcome(schedules, bookings, user1, req1, now1).Ok?
    requires FirstConfirmed(bookings, req1.scheduleId.value).None?
    requires HasRequiredFields(req2) && req2.scheduleId == req1.scheduleId
    requires seat in SeatNumbers(req1.passengers.value) && seat in SeatNumbers(req2.passengers.value)
    ensures var after := bookings + [BookingOutcome(schedules, bookings, user1, req1, now1).value];
      var r := BookingOutcome(schedules, after, user2, req2, now2);
      r.Err? && r.failure.SeatAlreadyBooked? && r.failure.seat in SeatNumbers(req1.passengers.value)
  {
    var sid := req1.scheduleId.value;
    var b := BookingOutcome(schedules, bookings, user1, req1, now1).value;
    var after := bookings + [b];
    assert forall j :: 0 <= j < |bookings| ==> after[j] == bookings[j];
    assert ConfirmedFor(sid, after[|bookings|]);
    assert FirstConfirmed(after, sid) == Some(|bookings|);
    assert BookedSeats(after, sid) == SeatNumbers(req1.passengers.value);
  }

  /** Cancelling the only confirmed booking of a schedule frees its seats:
      a new request for that schedule can then succeed, whatever its seats. */
  lemma CancelFreesSeats(
    schedules: seq<Schedule>, bookings: seq<Booking>, ticketId: string, owner: UserId,
    user: UserId, req: BookingRequest, now: nat)
    requires CancelTarget(bookings, ticketId, owner).Ok?
    requires HasRequiredFields(req) && req.scheduleId.value < |schedules|
    requires forall j :: 0 <= j < |bookings| && j != CancelTarget(bookings, ticketId, owner).value ==>
      !ConfirmedFor(req.scheduleId.value, bookings[j])
    requires forall j :: 0 <= j < |bookings| ==> bookings[j].ticketId != TicketId(now)
    ensures BookingOutcome(schedules, AfterCancel(bookings, ticketId, owner), user, req, now).Ok?
  {
    var after := AfterCancel(bookings, ticketId, owner);
    var sid := req.scheduleId.value;
    assert forall j :: 0 <= j < |after| ==> !ConfirmedFor(sid, after[j]);
    assert BookedSeats(after, sid) == [];
  }

  /** A confirmed booking that is not the first one for its schedule is not
      checked: its seat can be booked again, leaving two confirmed bookings on it. */
  lemma DoubleBookingThroughSecondBooking()
    ensures
      var schedules := [Schedule(0, 0, 0, "08:00", "11:00", 0)];
      var first := Booking(1, 0, "TKT1", 1, Confirmed, [Passenger(1, "A", 30, Male)]);
      var second := Booking(2, 0, "TKT2", 2, Confirmed, [Passenger(2, "B", 30, Female)]);
      var req := BookingRequest(Some(0), Some([Passenger(2, "C", 30, Other)]));
      var r := BookingOutcome(schedules, [first, second], 3, req, 3);
      r.Ok? && r.value.status == Confirmed && r.value.scheduleId == second.scheduleId
      && r.value.passengers[0].seatNumber == second.passengers[0].seatNumber
  {
    var first := Booking(1, 0, "TKT1", 1, Confirmed, [Passenger(1, "A", 30, Male)]);
    var second := Booking(2, 0, "TKT2", 2, Confirmed, [Passenger(2, "B", 30, Female)]);
    assert FirstConfirmed([first, second], 0) == Some(0);
    assert BookedSeats([first, second], 0) == [1];
    assert TicketId(3) == "TKT3";
  }

  /** Neither duplicates inside one request nor the bus's seat count are
      checked: two passengers on seat 99 of a schedule are accepted. */
  lemma NoDuplicateOrRangeCheck()
    ensures
      var schedules := [Schedule(0, 0, 0, "08:00", "11:00", 0)];
      var req := BookingRequest(Some(0), Some([Passenger(99, "A", 30, Male), Passenger(99, "B", 30, Male)]));
      var r := BookingOutcome(schedules, [], 1, req, 5);
      r.Ok? && |r.value.passengers| == 2 && r.value.passengers[0].seatNumber == r.value.passengers[1].seatNumber == 99
  {
    assert BookedSeats([], 0) == [];
  }
}
