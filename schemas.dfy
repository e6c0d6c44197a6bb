/** The record types of the four document collections (Bus, Route, Schedule,
    Booking with its embedded Passenger list), their enumerations and the
    constraints their schemas declare. */
module Schemas {

  datatype Option<+T> = None | Some(value: T)

  /** A reference to a stored record: its position in its collection.
      Records are never deleted, so a position identifies a record for good. */
  type Id = nat

  /** Milliseconds in one day; instants (Date values) are milliseconds since the epoch. */
  const DayMs := 86_400_000

  /** A reference to a user; users live outside the modelled core. */
  type UserId = nat

  datatype BusType = Deluxe | Sleeper | Standard

  /** The string the schema stores for each bus type. */
  function BusTypeName(t: BusType): string
  {
    match t
    case Deluxe => "Deluxe"
    case Sleeper => "Sleeper"
    case Standard => "Standard"
  }

  /** Enum validation of a bus type given as a string: only the three names
      of the enumeration are accepted. */
  function ParseBusType(s: string): (r: Option<BusType>)
    ensures r.Some? <==> (s == "Deluxe" || s == "Sleeper" || s == "Standard")
    ensures r.Some? ==> BusTypeName(r.value) == s
  {
    if s == "Deluxe" then Some(Deluxe)
    else if s == "Sleeper" then Some(Sleeper)
    else if s == "Standard" then Some(Standard)
    else None
  }

  datatype Gender = Male | Female | Other

  datatype BookingStatus = Confirmed | Cancelled

  datatype Passenger = Passenger(seatNumber: int, passengerName: string, age: int, gender: Gender)

  datatype Booking = Booking(
    userId: UserId,
    scheduleId: Id,
    ticketId: string,
    bookingTime: int,
    status: BookingStatus,
    passengers: seq<Passenger>)

  datatype Bus = Bus(busNumber: string, totalSeats: int, busType: BusType, createdAt: int)

  /** travelTime is in minutes. */
  datatype Route = Route(source: string, destination: string, travelTime: int, createdAt: int)

  /** dateOfJourney is an instant in milliseconds since the epoch. */
  datatype Schedule = Schedule(
    busId: Id,
    routeId: Id,
    dateOfJourney: int,
    departureTime: string,
    arrivalTime: string,
    createdAt: int)

  /** A booking as the schema creates it: status and bookingTime take their
      defaults (confirmed, and the creation instant). */
  function NewBooking(userId: UserId, scheduleId: Id, ticketId: string, passengers: seq<Passenger>, now: int): (b: Booking)
    ensures b.status == Confirmed && b.bookingTime == now
    ensures b.userId == userId && b.scheduleId == scheduleId && b.ticketId == ticketId
    ensures b.passengers == passengers
  {
    Booking(userId, scheduleId, ticketId, now, Confirmed, passengers)
  }

  // A required String field rejects the empty string; a required Number
  // accepts every number, zero included.

  predicate ValidBus(b: Bus) { b.busNumber != "" }

  predicate ValidRoute(r: Route) { r.source != "" && r.destination != "" }

  predicate ValidSchedule(s: Schedule) { s.departureTime != "" && s.arrivalTime != "" }

  predicate ValidBooking(b: Booking) { b.ticketId != "" }

  /** The unique index on busNumber. */
  predicate UniqueBusNumbers(buses: seq<Bus>)
  {
    forall i, j :: 0 <= i < j < |buses| ==> buses[i].busNumber != buses[j].busNumber
  }

  /** The unique index on ticketId. */
  predicate UniqueTicketIds(bookings: seq<Booking>)
  {
    forall i, j :: 0 <= i < j < |bookings| ==> bookings[i].ticketId != bookings[j].ticketId
  }
}
