/** The in-memory document store that stands in for the database: the four
    collections, the first-match query, and the error kinds the controllers
    answer with. */
module Store {
  import opened Schemas

  /** Why a request failed. */
  datatype Failure =
    | MissingFields            // a required request field is missing or falsy
    | ScheduleNotFound
    | SeatAlreadyBooked(seat: int)
    | BookingNotFound
    | Unauthorized             // the caller does not own the booking
    | DuplicateBusNumber
    | ValidationFailed         // the schema rejects the record on save
    | DuplicateKey             // a unique index rejects the record on save
    | DanglingReference        // a populated reference resolves to nothing

  /** The HTTP status each failure is answered with. */
  function StatusCode(f: Failure): (code: int)
    ensures code in {400, 403, 404, 500}
    ensures code == 404 <==> (f == ScheduleNotFound || f == BookingNotFound)
    ensures code == 403 <==> f == Unauthorized
    ensures code == 400 <==> (f == MissingFields || f.SeatAlreadyBooked? || f == DuplicateBusNumber)
    ensures code == 500 <==> f in {ValidationFailed, DuplicateKey, DanglingReference}
  {
    match f
    case MissingFields => 400
    case ScheduleNotFound => 404
    case SeatAlreadyBooked(_) => 400
    case BookingNotFound => 404
    case Unauthorized => 403
    case DuplicateBusNumber => 400
    case ValidationFailed => 500
    case DuplicateKey => 500
    case DanglingReference => 500
  }

  datatype Result<+T> = Ok(value: T) | Err(failure: Failure)

  /** A request that returns no record. */
  datatype Outcome = Done | Failed(failure: Failure)

  /** findOne: the position of the first record satisfying p, if any. */
  function FindOne<T>(s: seq<T>, p: T -> bool): (r: Option<nat>)
    ensures r.Some? ==> r.value < |s| && p(s[r.value])
    ensures r.Some? ==> forall j :: 0 <= j < r.value ==> !p(s[j])
    ensures r.None? ==> forall j :: 0 <= j < |s| ==> !p(s[j])
  {
    if s == [] then None
    else if p(s[0]) then Some(0)
    else
      match FindOne(s[1..], p)
      case None => None
      case Some(i) => Some(i + 1)
  }

  /** The database: one sequence per collection, in insertion order. */
  class Database {
    var buses: seq<Bus>
    var routes: seq<Route>
    var schedules: seq<Schedule>
    var bookings: seq<Booking>

    /** What the schemas and the unique indexes guarantee of every stored record. */
    ghost predicate Valid()
      reads this
    {
      && (forall i :: 0 <= i < |buses| ==> ValidBus(buses[i]))
      && (forall i :: 0 <= i < |routes| ==> ValidRoute(routes[i]))
      && (forall i :: 0 <= i < |schedules| ==> ValidSchedule(schedules[i]))
      && (forall i :: 0 <= i < |bookings| ==> ValidBooking(bookings[i]))
      && UniqueBusNumbers(buses)
      && UniqueTicketIds(bookings)
    }

    constructor ()
      ensures Valid()
      ensures buses == [] && routes == [] && schedules == [] && bookings == []
    {
      buses, routes, schedules, bookings := [], [], [], [];
    }
  }
}
