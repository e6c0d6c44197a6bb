/** The booking controller: booking a ticket, cancelling it, and the two
    booking queries. The caller's user id is the one the authentication
    layer resolved. */
module Bookings {
  import opened Schemas
  import opened Store
  import opened Availability
  import opened Decimal
  import opened Ordering

  /** The request body; None stands for a missing (or falsy) field. */
  datatype BookingRequest = BookingRequest(scheduleId: Option<Id>, passengers: Option<seq<Passenger>>)

  predicate HasRequiredFields(req: BookingRequest)
  {
    req.scheduleId.Some? && req.passengers.Some? && |req.passengers.value| > 0
  }

  /** The ticket id 'TKT' + Date.now(). */
  function TicketId(now: nat): (t: string)
    ensures |t| > 3 && t[..3] == "TKT" && t[3..] == NatToDecimal(now)
  {
    "TKT" + NatToDecimal(now)
  }

  /** Bookings made at different instants get different ticket ids. */
  lemma TicketIdInjective(m: nat, n: nat)
    ensures TicketId(m) == TicketId(n) ==> m == n
  {
    if TicketId(m) == TicketId(n) {
      assert NatToDecimal(m) == TicketId(m)[3..];
      NatToDecimalInjective(m, n);
    }
  }

  predicate HasTicket(t: string, b: Booking) { b.ticketId == t }

  /** What bookTicket answers, given the schedules and bookings it reads. */
  function BookingOutcome(schedules: seq<Schedule>, bookings: seq<Booking>, user: UserId, req: BookingRequest, now: nat): (r: Result<Booking>)
    ensures r == Err(MissingFields) <==> !HasRequiredFields(req)
    ensures r == Err(ScheduleNotFound) <==> HasRequiredFields(req) && req.scheduleId.value >= |schedules|
    ensures r.Err? && r.failure.SeatAlreadyBooked? ==>
      var requested := SeatNumbers(req.passengers.value);
      var booked := BookedSeats(bookings, req.scheduleId.value);
      exists k :: 0 <= k < |requested| && requested[k] == r.failure.seat && requested[k] in booked
                  && forall j :: 0 <= j < k ==> requested[j] !in booked
    ensures HasRequiredFields(req) && req.scheduleId.value < |schedules|
            && (exists seat :: seat in SeatNumbers(req.passengers.value) && seat in BookedSeats(bookings, req.scheduleId.value))
            ==> r.Err? && r.failure.SeatAlreadyBooked?
    ensures r == Err(DuplicateKey) <==>
      && HasRequiredFields(req)
      && req.scheduleId.value < |schedules|
      && (forall seat :: seat in SeatNumbers(req.passengers.value) ==> seat !in BookedSeats(bookings, req.scheduleId.value))
      && (exists j :: 0 <= j < |bookings| && bookings[j].ticketId == TicketId(now))
    ensures r.Ok? <==>
      && HasRequiredFields(req)
      && req.scheduleId.value < |schedules|
      && (forall seat :: seat in SeatNumbers(req.passengers.value) ==> seat !in BookedSeats(bookings, req.scheduleId.value))
      && (forall j :: 0 <= j < |bookings| ==> bookings[j].ticketId != TicketId(now))
    ensures r.Ok? ==> r.value == NewBooking(user, req.scheduleId.value, TicketId(now), req.passengers.value, now)
    ensures r.Err? ==> r.failure in {MissingFields, ScheduleNotFound, DuplicateKey} || r.failure.SeatAlreadyBooked?
  {
    if !HasRequiredFields(req) then Err(MissingFields)
    else if req.scheduleId.value >= |schedules| then Err(ScheduleNotFound)
    else
      var sid := req.scheduleId.value;
      var requested := SeatNumbers(req.passengers.value);
      var booked := BookedSeats(bookings, sid);
      match FindOne(requested, (seat: int) => seat in booked)
      case Some(k) => Err(SeatAlreadyBooked(requested[k]))
      case None =>
        if FindOne(bookings, (b: Booking) => HasTicket(TicketId(now), b)).Some? then Err(DuplicateKey)
        else Ok(NewBooking(user, sid, TicketId(now), req.passengers.value, now))
  }

  /** bookTicket: validate, look the schedule up, reject the first requested
      seat already booked, then save a confirmed booking. */
  method BookTicket(db: Database, user: UserId, req: BookingRequest, now: nat) returns (r: Result<Booking>)
    requires db.Valid()
    modifies db`bookings
    ensures db.Valid()
    ensures r == BookingOutcome(db.schedules, old(db.bookings), user, req, now)
    ensures db.bookings == if r.Ok? then old(db.bookings) + [r.value] else old(db.bookings)
  {
    if !HasRequiredFields(req) {
      return Err(MissingFields);
    }
    var sid := req.scheduleId.value;
    var passengers := req.passengers.value;
    if sid >= |db.schedules| {
      return Err(ScheduleNotFound);
    }
    var booked := BookedSeats(db.bookings, sid);
    var requested := SeatNumbers(passengers);
    for i := 0 to |requested|
      invariant forall j :: 0 <= j < i ==> requested[j] !in booked
    {
      if requested[i] in booked {
        return Err(SeatAlreadyBooked(requested[i]));
      }
    }
    var ticketId := TicketId(now);
    if FindOne(db.bookings, (b: Booking) => HasTicket(ticketId, b)).Some? {
      return Err(DuplicateKey);
    }
    var booking := NewBooking(user, sid, ticketId, passengers, now);
    db.bookings := db.bookings + [booking];
    r := Ok(booking);
  }

  /** The booking a cancellation request targets, or why there is none. */
  function CancelTarget(bookings: seq<Booking>, ticketId: string, user: UserId): (r: Result<nat>)
    ensures r == Err(BookingNotFound) <==> forall j :: 0 <= j < |bookings| ==> bookings[j].ticketId != ticketId
    ensures r.Ok? ==> r.value < |bookings| && bookings[r.value].ticketId == ticketId && bookings[r.value].userId == user
    ensures r.Ok? ==> forall j :: 0 <= j < r.value ==> bookings[j].ticketId != ticketId
    ensures r == Err(Unauthorized) <==>
      exists i :: 0 <= i < |bookings| && bookings[i].ticketId == ticketId && bookings[i].userId != user
                  && forall j :: 0 <= j < i ==> bookings[j].ticketId != ticketId
    ensures r.Err? ==> r.failure in {BookingNotFound, Unauthorized}
  {
    match FindOne(bookings, (b: Booking) => HasTicket(ticketId, b))
    case None => Err(BookingNotFound)
    case Some(i) => if bookings[i].userId != user then Err(Unauthorized) else Ok(i)
  }

  /** The bookings after a cancellation request: the owner's booking is
      marked cancelled, everything else is as it was. */
  function AfterCancel(bookings: seq<Booking>, ticketId: string, user: UserId): (after: seq<Booking>)
    ensures |after| == |bookings|
    ensures forall j :: 0 <= j < |bookings| ==>
      after[j] == if CancelTarget(bookings, ticketId, user) == Ok(j) then bookings[j].(status := Cancelled) else bookings[j]
  {
    match CancelTarget(bookings, ticketId, user)
    case Err(_) => bookings
    case Ok(i) => bookings[i := bookings[i].(status := Cancelled)]
  }

  /** cancelBooking: not found, not the owner, or the status flips to cancelled. */
  method CancelBooking(db: Database, ticketId: string, user: UserId) returns (r: Outcome)
    requires db.Valid()
    modifies db`bookings
    ensures db.Valid()
    ensures r == (match CancelTarget(old(db.bookings), ticketId, user)
                  case Ok(_) => Done
                  case Err(f) => Failed(f))
    ensures db.bookings == AfterCancel(old(db.bookings), ticketId, user)
  {
    var found := FindOne(db.bookings, (b: Booking) => HasTicket(ticketId, b));
    if found.None? {
      return Failed(BookingNotFound);
    }
    var i := found.value;
    if db.bookings[i].userId != user {
      return Failed(Unauthorized);
    }
    db.bookings := db.bookings[i := db.bookings[i].(status := Cancelled)];
    r := Done;
  }

  /** Cancelling changes no ticket id, so the target of the request stays the same. */
  lemma {:induction false} CancelKeepsTarget(bookings: seq<Booking>, ticketId: string, user: UserId)
    ensures CancelTarget(AfterCancel(bookings, ticketId, user), ticketId, user) == CancelTarget(bookings, ticketId, user)
  {
    var after := AfterCancel(bookings, ticketId, user);
    assert forall j :: 0 <= j < |bookings| ==> after[j].ticketId == bookings[j].ticketId && after[j].userId == bookings[j].userId;
    var p := (b: Booking) => HasTicket(ticketId, b);
    assert forall j :: 0 <= j < |bookings| ==> p(after[j]) == p(bookings[j]);
    FindOneAgrees(bookings, after, p);
  }

  lemma {:induction false} FindOneAgrees<T>(s: seq<T>, t: seq<T>, p: T -> bool)
    requires |s| == |t|
    requires forall j :: 0 <= j < |s| ==> p(s[j]) == p(t[j])
    ensures FindOne(s, p) == FindOne(t, p)
  {
    if s != [] {
      FindOneAgrees(s[1..], t[1..], p);
    }
  }

  /** Cancelling twice is cancelling once: the second request also succeeds
      and changes nothing more. */
  lemma CancelIdempotent(bookings: seq<Booking>, ticketId: string, user: UserId)
    ensures CancelTarget(AfterCancel(bookings, ticketId, user), ticketId, user) == CancelTarget(bookings, ticketId, user)
    ensures AfterCancel(AfterCancel(bookings, ticketId, user), ticketId, user) == AfterCancel(bookings, ticketId, user)
  {
    CancelKeepsTarget(bookings, ticketId, user);
  }

  /** getBookingDetails: the booking with that ticket id (any caller may ask). */
  function GetBookingDetails(bookings: seq<Booking>, ticketId: string): (r: Result<Booking>)
    ensures r.Err? <==> forall j :: 0 <= j < |bookings| ==> bookings[j].ticketId != ticketId
    ensures r.Err? ==> r.failure == BookingNotFound
    ensures r.Ok? ==> r.value in bookings && r.value.ticketId == ticketId
  {
    match FindOne(bookings, (b: Booking) => HasTicket(ticketId, b))
    case None => Err(BookingNotFound)
    case Some(i) => Ok(bookings[i])
  }

  /** When ticket ids are unique, the booking found is the only one with that id. */
  lemma GetBookingDetailsUnique(bookings: seq<Booking>, ticketId: string, i: nat)
    requires UniqueTicketIds(bookings)
    requires i < |bookings| && bookings[i].ticketId == ticketId
    ensures GetBookingDetails(bookings, ticketId) == Ok(bookings[i])
  {
    var r := FindOne(bookings, (b: Booking) => HasTicket(ticketId, b));
    assert r.Some?;
    assert !(r.value < i) && !(r.value > i);
  }

  /** The bookings of one user. */
  function OwnedBy(bookings: seq<Booking>, user: UserId): (r: seq<Booking>)
    ensures forall b :: b in r <==> b in bookings && b.userId == user
    ensures |r| <= |bookings|
  {
    if bookings == [] then []
    else
      assert bookings == [bookings[0]] + bookings[1..];
      (if bookings[0].userId == user then [bookings[0]] else []) + OwnedBy(bookings[1..], user)
  }

  /** The comparison of .sort({ bookingTime: -1 }): a later booking time first. */
  function NewestFirst(): (le: (Booking, Booking) -> bool)
    ensures TotalPreorder(le)
    ensures forall a: Booking, b: Booking :: le(a, b) <==> a.bookingTime >= b.bookingTime
  {
    (a: Booking, b: Booking) => a.bookingTime >= b.bookingTime
  }

  /** getMyBookings: the caller's bookings and no other, newest first. */
  function GetMyBookings(bookings: seq<Booking>, user: UserId): (r: seq<Booking>)
    ensures forall b :: b in r <==> b in bookings && b.userId == user
    ensures multiset(r) == multiset(OwnedBy(bookings, user))
    ensures forall i, j :: 0 <= i < j < |r| ==> r[i].bookingTime >= r[j].bookingTime
  {
    var sorted := SortBy(OwnedBy(bookings, user), NewestFirst());
    assert forall b :: b in sorted <==> b in multiset(sorted);
    sorted
  }
}
