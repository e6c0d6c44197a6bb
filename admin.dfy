/** The admin controller: adding buses, routes and schedules after checking
    the request, and listing the three collections. A missing field is
    given as its falsy value: "" for a string, 0 for a number, None for a
    reference or a date. */
module Admin {
  import opened Schemas
  import opened Store

  datatype BusRequest = BusRequest(busNumber: string, totalSeats: int, busType: string)

  datatype RouteRequest = RouteRequest(source: string, destination: string, travelTime: int)

  /** dateOfJourney is the instant the request's date string denotes. */
  datatype ScheduleRequest = ScheduleRequest(
    busId: Option<Id>,
    routeId: Option<Id>,
    dateOfJourney: Option<int>,
    departureTime: string,
    arrivalTime: string)

  /** !busNumber || !totalSeats || !busType: zero seats counts as missing. */
  predicate BusRequestComplete(req: BusRequest)
  {
    req.busNumber != "" && req.totalSeats != 0 && req.busType != ""
  }

  predicate RouteRequestComplete(req: RouteRequest)
  {
    req.source != "" && req.destination != "" && req.travelTime != 0
  }

  predicate ScheduleRequestComplete(req: ScheduleRequest)
  {
    && req.busId.Some? && req.routeId.Some? && req.dateOfJourney.Some?
    && req.departureTime != "" && req.arrivalTime != ""
  }

  /** What addBus answers, given the buses already stored: missing fields,
      an existing bus number, or a bus type outside the enumeration (which
      the schema rejects on save) fail; otherwise the new bus. */
  function AddBusOutcome(buses: seq<Bus>, req: BusRequest, now: int): (r: Result<Bus>)
    ensures r == Err(MissingFields) <==> !BusRequestComplete(req)
    ensures r == Err(DuplicateBusNumber) <==>
      BusRequestComplete(req) && exists i :: 0 <= i < |buses| && buses[i].busNumber == req.busNumber
    ensures r.Ok? <==>
      && BusRequestComplete(req)
      && (forall i :: 0 <= i < |buses| ==> buses[i].busNumber != req.busNumber)
      && ParseBusType(req.busType).Some?
    ensures r.Err? ==> r.failure in {MissingFields, DuplicateBusNumber, ValidationFailed}
    ensures r.Ok? ==> r.value.busNumber == req.busNumber && r.value.totalSeats == req.totalSeats
                      && BusTypeName(r.value.busType) == req.busType && r.value.createdAt == now
  {
    if !BusRequestComplete(req) then Err(MissingFields)
    else if FindOne(buses, (b: Bus) => b.busNumber == req.busNumber).Some? then Err(DuplicateBusNumber)
    else match ParseBusType(req.busType)
      case None => Err(ValidationFailed)
      case Some(t) => Ok(Bus(req.busNumber, req.totalSeats, t, now))
  }

  /** addBus: stores the bus AddBusOutcome accepts, and nothing otherwise. */
  method AddBus(db: Database, req: BusRequest, now: int) returns (r: Result<Bus>)
    requires db.Valid()
    modifies db`buses
    ensures db.Valid()
    ensures r == AddBusOutcome(old(db.buses), req, now)
    ensures db.buses == if r.Ok? then old(db.buses) + [r.value] else old(db.buses)
  {
    if !BusRequestComplete(req) {
      return Err(MissingFields);
    }
    var existing := FindOne(db.buses, (b: Bus) => b.busNumber == req.busNumber);
    if existing.Some? {
      return Err(DuplicateBusNumber);
    }
    var busType := ParseBusType(req.busType);
    if busType.None? {
      return Err(ValidationFailed);
    }
    var bus := Bus(req.busNumber, req.totalSeats, busType.value, now);
    db.buses := db.buses + [bus];
    r := Ok(bus);
  }

  /** A bus addBus accepts keeps bus numbers unique, and is a valid record. */
  lemma AddBusKeepsUnique(buses: seq<Bus>, req: BusRequest, now: int)
    requires UniqueBusNumbers(buses)
    requires AddBusOutcome(buses, req, now).Ok?
    ensures UniqueBusNumbers(buses + [AddBusOutcome(buses, req, now).value])
    ensures ValidBus(AddBusOutcome(buses, req, now).value)
  {
  }

  /** Repeating an accepted addBus request is refused as a duplicate, at any later time. */
  lemma {:induction false} AddBusTwiceRejected(buses: seq<Bus>, req: BusRequest, now: int, later: int)
    requires AddBusOutcome(buses, req, now).Ok?
    ensures AddBusOutcome(buses + [AddBusOutcome(buses, req, now).value], req, later) == Err(DuplicateBusNumber)
  {
    var after := buses + [AddBusOutcome(buses, req, now).value];
    assert after[|buses|].busNumber == req.busNumber;
  }

  /** addRoute: missing fields fail; otherwise one route is appended, even when
      a route with the same source and destination already exists. */
  method AddRoute(db: Database, req: RouteRequest, now: int) returns (r: Result<Route>)
    requires db.Valid()
    modifies db`routes
    ensures db.Valid()
    ensures r.Ok? <==> RouteRequestComplete(req)
    ensures r.Err? ==> r.failure == MissingFields
    ensures r.Ok? ==> r.value == Route(req.source, req.destination, req.travelTime, now)
    ensures db.routes == if r.Ok? then old(db.routes) + [r.value] else old(db.routes)
  {
    if !RouteRequestComplete(req) {
      return Err(MissingFields);
    }
    var route := Route(req.source, req.destination, req.travelTime, now);
    db.routes := db.routes + [route];
    r := Ok(route);
  }

  /** addSchedule: missing fields fail; otherwise one schedule is appended.
      The bus and route references are not checked. */
  method AddSchedule(db: Database, req: ScheduleRequest, now: int) returns (r: Result<Schedule>)
    requires db.Valid()
    modifies db`schedules
    ensures db.Valid()
    ensures r.Ok? <==> ScheduleRequestComplete(req)
    ensures r.Err? ==> r.failure == MissingFields
    ensures r.Ok? ==> r.value == Schedule(req.busId.value, req.routeId.value, req.dateOfJourney.value,
                                          req.departureTime, req.arrivalTime, now)
    ensures db.schedules == if r.Ok? then old(db.schedules) + [r.value] else old(db.schedules)
  {
    if !ScheduleRequestComplete(req) {
      return Err(MissingFields);
    }
    var schedule := Schedule(req.busId.value, req.routeId.value, req.dateOfJourney.value,
                             req.departureTime, req.arrivalTime, now);
    db.schedules := db.schedules + [schedule];
    r := Ok(schedule);
  }

  /** getBuses: the whole collection, in store order. */
  method GetBuses(db: Database) returns (r: seq<Bus>)
    ensures r == db.buses
  {
    r := db.buses;
  }

  /** getRoutes: the whole collection, in store order. */
  method GetRoutes(db: Database) returns (r: seq<Route>)
    ensures r == db.routes
  {
    r := db.routes;
  }

  /** A schedule with its bus and route references populated; a reference
      that resolves to nothing populates as None. */
  datatype PopulatedSchedule = PopulatedSchedule(schedule: Schedule, bus: Option<Bus>, route: Option<Route>)

  /** getSchedules: every schedule, in store order, with its bus and route. */
  method GetSchedules(db: Database) returns (r: seq<PopulatedSchedule>)
    ensures |r| == |db.schedules|
    ensures forall i :: 0 <= i < |r| ==> r[i].schedule == db.schedules[i]
    ensures forall i :: 0 <= i < |r| ==>
      (r[i].bus.Some? <==> db.schedules[i].busId < |db.buses|)
      && (r[i].bus.Some? ==> r[i].bus.value == db.buses[db.schedules[i].busId])
    ensures forall i :: 0 <= i < |r| ==>
      (r[i].route.Some? <==> db.schedules[i].routeId < |db.routes|)
      && (r[i].route.Some? ==> r[i].route.value == db.routes[db.schedules[i].routeId])
  {
    r := [];
    for i := 0 to |db.schedules|
      invariant |r| == i
      invariant forall k :: 0 <= k < i ==> r[k] == Populate(db.buses, db.routes, db.schedules[k])
    {
      r := r + [Populate(db.buses, db.routes, db.schedules[i])];
    }
  }

  function Populate(buses: seq<Bus>, routes: seq<Route>, s: Schedule): PopulatedSchedule
  {
    PopulatedSchedule(s,
      if s.busId < |buses| then Some(buses[s.busId]) else None,
      if s.routeId < |routes| then Some(routes[s.routeId]) else None)
  }
}
