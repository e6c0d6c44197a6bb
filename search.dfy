/** The search controller: the routes matching a query, the schedules on
    those routes on the requested day, one offer per schedule, sorted by
    departure time. */
module Search {
  import opened Schemas
  import opened Store
  import opened Availability
  import opened Ordering
  import opened TimeOfDay

  /** The request body; an empty string or None stands for a missing field.
      The date is a day number (days since the epoch). */
  datatype SearchQuery = SearchQuery(from: string, to: string, date: Option<int>)

  predicate QueryComplete(q: SearchQuery)
  {
    q.from != "" && q.to != "" && q.date.Some?
  }

  datatype Offer = Offer(
    scheduleId: Id,
    busNumber: string,
    busType: BusType,
    totalSeats: int,
    availableSeats: int,
    departureTime: string,
    arrivalTime: string,
    travelTime: int,
    price: int)

  /** priceMap[busType] || 30, with the map Deluxe 50, Sleeper 40,
      Standard 30: a type outside the map (or priced 0) costs 30. */
  function Price(busType: string): (p: int)
    ensures busType == "Deluxe" ==> p == 50
    ensures busType == "Sleeper" ==> p == 40
    ensures busType != "Deluxe" && busType != "Sleeper" ==> p == 30
  {
    if busType == "Deluxe" then 50
    else if busType == "Sleeper" then 40
    else 30
  }

  /** Route.find({ source: from, destination: to }): positions in store order. */
  function RoutesMatching(routes: seq<Route>, from: string, to: string): (ids: seq<Id>)
    ensures forall id: Id :: id in ids <==> id < |routes| && routes[id].source == from && routes[id].destination == to
    ensures forall k :: 0 <= k < |ids| ==> ids[k] < |routes|
    ensures forall k, l :: 0 <= k < l < |ids| ==> ids[k] < ids[l]
  {
    if routes == [] then []
    else
      var n := |routes| - 1;
      var ids := RoutesMatching(routes[..n], from, to);
      assert forall id: Id :: id < n ==> routes[..n][id] == routes[id];
      assert forall k :: 0 <= k < |ids| ==> ids[k] in ids;
      ids + (if routes[n].source == from && routes[n].destination == to then [n] else [])
  }

  /** The instant lies in [day 00:00, day + 1 00:00). */
  predicate OnDay(instant: int, day: int)
  {
    day * DayMs <= instant < (day + 1) * DayMs
  }

  /** The window holds exactly the instants of that calendar day, whatever
      their time of day. */
  lemma OnDayIsCalendarDay(instant: int, day: int)
    ensures OnDay(instant, day) <==> instant / DayMs == day
  {
    var q := instant / DayMs;
    var r := instant % DayMs;
    assert instant == q * DayMs + r && 0 <= r < DayMs;
    if q < day {
      assert q * DayMs <= (day - 1) * DayMs;
    } else if q > day {
      assert (day + 1) * DayMs <= q * DayMs;
    }
  }

  /** Schedule.find({ routeId: { $in: routeIds }, dateOfJourney in the day }). */
  function SchedulesMatching(schedules: seq<Schedule>, routeIds: seq<Id>, day: int): (ids: seq<Id>)
    ensures forall id: Id :: id in ids <==> id < |schedules| && schedules[id].routeId in routeIds && OnDay(schedules[id].dateOfJourney, day)
    ensures forall k :: 0 <= k < |ids| ==> ids[k] < |schedules|
    ensures forall k, l :: 0 <= k < l < |ids| ==> ids[k] < ids[l]
  {
    if schedules == [] then []
    else
      var n := |schedules| - 1;
      var ids := SchedulesMatching(schedules[..n], routeIds, day);
      assert forall id: Id :: id < n ==> schedules[..n][id] == schedules[id];
      assert forall k :: 0 <= k < |ids| ==> ids[k] in ids;
      ids + (if schedules[n].routeId in routeIds && OnDay(schedules[n].dateOfJourney, day) then [n] else [])
  }

  /** The offer for schedule sid, from its bus, its route and its first confirmed booking. */
  function OfferFor(buses: seq<Bus>, routes: seq<Route>, schedules: seq<Schedule>, bookings: seq<Booking>, sid: Id): (o: Offer)
    requires sid < |schedules|
    requires schedules[sid].busId < |buses| && schedules[sid].routeId < |routes|
    ensures o.scheduleId == sid && o.availableSeats <= o.totalSeats
  {
    var s := schedules[sid];
    var bus := buses[s.busId];
    Offer(sid, bus.busNumber, bus.busType, bus.totalSeats, bus.totalSeats - BookedCount(bookings, sid),
          s.departureTime, s.arrivalTime, routes[s.routeId].travelTime, Price(BusTypeName(bus.busType)))
  }

  /** Each offer describes its schedule: bus fields copied from the bus, times
      from the schedule, travel time from the route, the seats left after the
      first confirmed booking, and the price of the bus type. */
  lemma OfferDescribesSchedule(buses: seq<Bus>, routes: seq<Route>, schedules: seq<Schedule>, bookings: seq<Booking>, sid: Id)
    requires sid < |schedules|
    requires schedules[sid].busId < |buses| && schedules[sid].routeId < |routes|
    ensures var o := OfferFor(buses, routes, schedules, bookings, sid);
      var s := schedules[sid]; var bus := buses[s.busId];
      && o.scheduleId == sid
      && o.busNumber == bus.busNumber && o.busType == bus.busType && o.totalSeats == bus.totalSeats
      && o.availableSeats == bus.totalSeats - |BookedSeats(bookings, sid)|
      && o.departureTime == s.departureTime && o.arrivalTime == s.arrivalTime
      && o.travelTime == routes[s.routeId].travelTime
      && o.price in {30, 40, 50}
      && (o.price == 50 <==> bus.busType == Deluxe)
      && (o.price == 40 <==> bus.busType == Sleeper)
  {
  }

  /** The bus and route of each of the first n schedules resolve. */
  predicate ResolvableUpTo(buses: seq<Bus>, routes: seq<Route>, schedules: seq<Schedule>, ids: seq<Id>, n: nat)
    requires n <= |ids|
  {
    forall k :: 0 <= k < n ==>
      ids[k] < |schedules| && schedules[ids[k]].busId < |buses| && schedules[ids[k]].routeId < |routes|
  }

  predicate Resolvable(buses: seq<Bus>, routes: seq<Route>, schedules: seq<Schedule>, ids: seq<Id>)
  {
    ResolvableUpTo(buses, routes, schedules, ids, |ids|)
  }

  /** The offers of the first n schedules, in order. */
  function OffersUpTo(buses: seq<Bus>, routes: seq<Route>, schedules: seq<Schedule>, bookings: seq<Booking>, ids: seq<Id>, n: nat): (offers: seq<Offer>)
    requires n <= |ids| && ResolvableUpTo(buses, routes, schedules, ids, n)
    ensures |offers| == n
    ensures forall k :: 0 <= k < n ==> offers[k] == OfferFor(buses, routes, schedules, bookings, ids[k])
  {
    if n == 0 then []
    else
      var prev := OffersUpTo(buses, routes, schedules, bookings, ids, n - 1);
      var last := [OfferFor(buses, routes, schedules, bookings, ids[n - 1])];
      assert forall k :: 0 <= k < n - 1 ==> (prev + last)[k] == prev[k];
      prev + last
  }

  /** One offer per schedule, in the order of the schedules. */
  function Offers(buses: seq<Bus>, routes: seq<Route>, schedules: seq<Schedule>, bookings: seq<Booking>, ids: seq<Id>): (offers: seq<Offer>)
    requires Resolvable(buses, routes, schedules, ids)
    ensures |offers| == |ids|
    ensures forall k :: 0 <= k < |ids| ==> offers[k] == OfferFor(buses, routes, schedules, bookings, ids[k])
  {
    OffersUpTo(buses, routes, schedules, bookings, ids, |ids|)
  }

  /** The sort comparator: departure strings compared character by character. */
  function DepartsNoLater(): (Offer, Offer) -> bool
  {
    (a: Offer, b: Offer) => LexLessEq(a.departureTime, b.departureTime)
  }

  lemma DepartsNoLaterIsTotalPreorder()
    ensures TotalPreorder(DepartsNoLater())
  {
    var le := DepartsNoLater();
    forall a: Offer, b: Offer ensures le(a, b) || le(b, a) {
      LexTotal(a.departureTime, b.departureTime);
    }
    forall a: Offer, b: Offer, c: Offer | le(a, b) && le(b, c) ensures le(a, c) {
      LexTransitive(a.departureTime, b.departureTime, c.departureTime);
    }
  }

  /** buses.sort((a, b) => a.departureTime.localeCompare(b.departureTime)). */
  function SortByDeparture(offers: seq<Offer>): (r: seq<Offer>)
    ensures SortedBy(r, DepartsNoLater())
    ensures multiset(r) == multiset(offers)
  {
    DepartsNoLaterIsTotalPreorder();
    SortBy(offers, DepartsNoLater())
  }

  /** The schedules a complete query selects. */
  function Selected(routes: seq<Route>, schedules: seq<Schedule>, q: SearchQuery): (ids: seq<Id>)
    requires QueryComplete(q)
    ensures forall k :: 0 <= k < |ids| ==> ids[k] < |schedules| && schedules[ids[k]].routeId < |routes|
  {
    SchedulesMatching(schedules, RoutesMatching(routes, q.from, q.to), q.date.value)
  }

  /** One iteration of the loop: the offer of schedule i joins the list. */
  method AppendOffer(buses: seq<Bus>, routes: seq<Route>, schedules: seq<Schedule>, bookings: seq<Booking>, ids: seq<Id>, i: nat, offers: seq<Offer>)
    returns (more: seq<Offer>)
    requires i < |ids| && ResolvableUpTo(buses, routes, schedules, ids, i + 1)
    requires offers == OffersUpTo(buses, routes, schedules, bookings, ids, i)
    ensures more == OffersUpTo(buses, routes, schedules, bookings, ids, i + 1)
  {
    more := offers + [OfferFor(buses, routes, schedules, bookings, ids[i])];
  }

  /** The loop of searchBuses: one offer per selected schedule, in order,
      failing on the first schedule whose bus does not resolve. */
  method CollectOffers(buses: seq<Bus>, routes: seq<Route>, schedules: seq<Schedule>, bookings: seq<Booking>, matched: seq<Id>)
    returns (r: Result<seq<Offer>>)
    requires forall k :: 0 <= k < |matched| ==> matched[k] < |schedules| && schedules[matched[k]].routeId < |routes|
    ensures r.Ok? <==> Resolvable(buses, routes, schedules, matched)
    ensures r.Err? ==> r.failure == DanglingReference
    ensures r.Ok? ==> r.value == Offers(buses, routes, schedules, bookings, matched)
  {
    var offers: seq<Offer> := [];
    for i := 0 to |matched|
      invariant ResolvableUpTo(buses, routes, schedules, matched, i)
      invariant offers == OffersUpTo(buses, routes, schedules, bookings, matched, i)
    {
      var sid := matched[i];
      if schedules[sid].busId >= |buses| {
        assert !(matched[i] < |schedules| && schedules[matched[i]].busId < |buses|);
        return Err(DanglingReference);
      }
      offers := AppendOffer(buses, routes, schedules, bookings, matched, i, offers);
    }
    r := Ok(offers);
  }

  /** searchBuses. A schedule whose bus reference resolves to nothing makes
      the handler fail (its populated bus is null). */
  method SearchBuses(db: Database, q: SearchQuery) returns (r: Result<seq<Offer>>)
    ensures !QueryComplete(q) ==> r == Err(MissingFields)
    ensures QueryComplete(q) && RoutesMatching(db.routes, q.from, q.to) == [] ==> r == Ok([])
    ensures QueryComplete(q) ==> (r.Ok? <==> Resolvable(db.buses, db.routes, db.schedules, Selected(db.routes, db.schedules, q)))
    ensures QueryComplete(q) && r.Err? ==> r.failure == DanglingReference
    ensures QueryComplete(q) && r.Ok? ==>
      && SortedBy(r.value, DepartsNoLater())
      && multiset(r.value) == multiset(Offers(db.buses, db.routes, db.schedules, db.bookings, Selected(db.routes, db.schedules, q)))
  {
    if !QueryComplete(q) {
      return Err(MissingFields);
    }
    var routeIds := RoutesMatching(db.routes, q.from, q.to);
    if |routeIds| == 0 {
      return Ok([]);
    }
    var matched := SchedulesMatching(db.schedules, routeIds, q.date.value);
    var offers := CollectOffers(db.buses, db.routes, db.schedules, db.bookings, matched);
    if offers.Err? {
      return offers;
    }
    r := Ok(SortByDeparture(offers.value));
  }

  /** A schedule is offered exactly when its route matches the query and its
      journey date falls on the requested calendar day. */
  lemma SelectedIffRouteAndDay(routes: seq<Route>, schedules: seq<Schedule>, q: SearchQuery, sid: Id)
    requires QueryComplete(q)
    ensures sid in Selected(routes, schedules, q) <==>
      && sid < |schedules|
      && schedules[sid].routeId < |routes|
      && routes[schedules[sid].routeId].source == q.from
      && routes[schedules[sid].routeId].destination == q.to
      && schedules[sid].dateOfJourney / DayMs == q.date.value
  {
    if sid < |schedules| {
      OnDayIsCalendarDay(schedules[sid].dateOfJourney, q.date.value);
    }
  }

  /** For "HH:MM" clock readings the string order is the chronological order;
      for unpadded strings it is not. */
  lemma LexOrderIsChronological(a: string, b: string)
    requires IsClockTime(a) && IsClockTime(b)
    ensures LexLessEq(a, b) <==> MinuteOfDay(a) <= MinuteOfDay(b)
  {
    assert a[1..][1..][1..][1..][1..] == [];
    assert LexLessEq(a[4..], b[4..]) <==> a[4] <= b[4] by {
      assert a[4..][1..] == [];
    }
    assert a[3..][1..] == a[4..] && b[3..][1..] == b[4..];
    assert a[2..][1..] == a[3..] && b[2..][1..] == b[3..];
    assert a[1..][1..] == a[2..] && b[1..][1..] == b[2..];
    assert LexLessEq(a[3..], b[3..]) <==> Minutes(a) <= Minutes(b);
    assert LexLessEq(a[2..], b[2..]) <==> Minutes(a) <= Minutes(b);
    assert LexLessEq(a[1..], b[1..]) <==> a[1] < b[1] || (a[1] == b[1] && Minutes(a) <= Minutes(b));
    assert LexLessEq(a, b) <==> Hours(a) < Hours(b) || (Hours(a) == Hours(b) && Minutes(a) <= Minutes(b));
  }

  /** Two zero-padded times compare the other way round when one is written
      without its leading zero: the sort relies on the padding. */
  lemma UnpaddedTimeMisorders()
    ensures LexLessEq("10:00", "9:00") && !LexLessEq("9:00", "10:00")
  {
    assert "10:00"[0] < "9:00"[0];
  }

  /** Availability counts only the first confirmed booking: with two confirmed
      single-seat bookings on a 40-seat bus, the offer still shows 39 seats. */
  lemma AvailabilityIgnoresLaterBookings()
    ensures
      var buses := [Bus("BUS-1", 40, Deluxe, 0)];
      var routes := [Route("Mumbai", "Pune", 180, 0)];
      var schedules := [Schedule(0, 0, 0, "08:00", "11:00", 0)];
      var bookings := [Booking(1, 0, "TKT1", 1, Confirmed, [Passenger(1, "A", 30, Male)]),
                       Booking(2, 0, "TKT2", 2, Confirmed, [Passenger(2, "B", 30, Male)])];
      OfferFor(buses, routes, schedules, bookings, 0).availableSeats == 39
  {
    var bookings := [Booking(1, 0, "TKT1", 1, Confirmed, [Passenger(1, "A", 30, Male)]),
                     Booking(2, 0, "TKT2", 2, Confirmed, [Passenger(2, "B", 30, Male)])];
    assert FirstConfirmed(bookings, 0) == Some(0);
  }

  /** Availability is not clamped at zero: an over-full booking makes it negative. */
  lemma AvailabilityNotClamped()
    ensures
      var buses := [Bus("BUS-1", 1, Standard, 0)];
      var routes := [Route("Mumbai", "Pune", 180, 0)];
      var schedules := [Schedule(0, 0, 0, "08:00", "11:00", 0)];
      var bookings := [Booking(1, 0, "TKT1", 1, Confirmed, [Passenger(1, "A", 30, Male), Passenger(2, "B", 30, Male)])];
      OfferFor(buses, routes, schedules, bookings, 0).availableSeats == -1
  {
    var bookings := [Booking(1, 0, "TKT1", 1, Confirmed, [Passenger(1, "A", 30, Male), Passenger(2, "B", 30, Male)])];
    assert FirstConfirmed(bookings, 0) == Some(0);
  }
}
