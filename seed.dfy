/** The seeding script: make sure eight fixed routes and at least thirty
    buses exist, then give every route two or three schedules on each of the
    next fourteen days, never storing the same (bus, route, date, departure)
    twice. Math.random() is replaced by draws the caller supplies.

    Each of the three phases is a method over the database, proved equal to
    a function that describes the collection after the first i steps; what
    the script guarantees is proved about those functions. */
module Seed {
  import opened Schemas
  import opened Store
  import opened Decimal
  import opened TimeOfDay

  datatype RoutePair = RoutePair(source: string, destination: string, travelTime: int)

  const RoutePairs: seq<RoutePair> := [
    RoutePair("Mumbai", "Pune", 180),
    RoutePair("Mumbai", "Ahmedabad", 600),
    RoutePair("Delhi", "Jaipur", 270),
    RoutePair("Bangalore", "Chennai", 360),
    RoutePair("Hyderabad", "Bangalore", 300),
    RoutePair("Kolkata", "Delhi", 1440),
    RoutePair("Pune", "Goa", 300),
    RoutePair("Lucknow", "Varanasi", 240)
  ]

  const DesiredBusCount := 30
  const SeatOptions: seq<int> := [36, 40, 44, 48, 50]
  const BusTypes: seq<BusType> := [Deluxe, Sleeper, Standard]
  const Days := 14
  const PerDayMin := 2
  const PerDayMax := 3
  const BaseTimes: seq<string> := ["06:00", "08:30", "11:00", "13:30", "16:00", "18:30", "21:00"]

  lemma RoutePairsWellFormed()
    ensures forall k :: 0 <= k < |RoutePairs| ==> RoutePairs[k].source != "" && RoutePairs[k].destination != ""
  {
  }

  lemma BaseTimesAreClockTimes()
    ensures forall t :: t in BaseTimes ==> IsClockTime(t)
  {
  }

  /** tt is ss with records appended. */
  predicate Extends<T(==)>(tt: seq<T>, ss: seq<T>)
  {
    |ss| <= |tt| && forall j :: 0 <= j < |ss| ==> tt[j] == ss[j]
  }

  lemma ExtendsTransitive<T>(a: seq<T>, b: seq<T>, c: seq<T>)
    requires Extends(a, b) && Extends(b, c)
    ensures Extends(a, c)
  {
  }

  /* ---------------- routes ---------------- */

  predicate Serves(pair: RoutePair, r: Route)
  {
    r.source == pair.source && r.destination == pair.destination
  }

  function NewRoute(pair: RoutePair, now: int): Route
  {
    Route(pair.source, pair.destination, pair.travelTime, now)
  }

  /** Route.findOne({ source, destination }). */
  function FirstServing(routes: seq<Route>, pair: RoutePair): (r: Option<nat>)
    ensures r.Some? ==> r.value < |routes| && Serves(pair, routes[r.value])
    ensures r.Some? ==> forall j :: 0 <= j < r.value ==> !Serves(pair, routes[j])
    ensures r.None? <==> forall j :: 0 <= j < |routes| ==> !Serves(pair, routes[j])
  {
    FindOne(routes, (x: Route) => Serves(pair, x))
  }

  /** The routes and the chosen route ids after the first i pairs. */
  function EnsureRoutes(routes: seq<Route>, pairs: seq<RoutePair>, now: int, i: nat): (r: (seq<Route>, seq<Id>))
    requires i <= |pairs|
    ensures |r.1| == i
  {
    if i == 0 then (routes, [])
    else
      var prev := EnsureRoutes(routes, pairs, now, i - 1);
      match FirstServing(prev.0, pairs[i - 1])
      case Some(j) => (prev.0, prev.1 + [j])
      case None => (prev.0 + [NewRoute(pairs[i - 1], now)], prev.1 + [|prev.0|])
  }

  /** One step of EnsureRoutes: reuse the first route serving the pair, or append a new one. */
  lemma EnsureRoutesStep(routes: seq<Route>, pairs: seq<RoutePair>, now: int, i: nat)
    requires 0 < i <= |pairs|
    ensures var prev := EnsureRoutes(routes, pairs, now, i - 1);
      var r := EnsureRoutes(routes, pairs, now, i);
      && Extends(r.1, prev.1)
      && Extends(r.0, prev.0)
      && r.1[i - 1] < |r.0| && Serves(pairs[i - 1], r.0[r.1[i - 1]])
      && (forall j :: 0 <= j < r.1[i - 1] ==> !Serves(pairs[i - 1], r.0[j]))
      && (|r.0| == |prev.0| || (|r.0| == |prev.0| + 1 && r.1[i - 1] == |prev.0| && r.0[|prev.0|] == NewRoute(pairs[i - 1], now)))
  {
  }

  /** Later pairs only append routes and ids. */
  lemma {:induction false} EnsureRoutesPrefix(routes: seq<Route>, pairs: seq<RoutePair>, now: int, i: nat, n: nat)
    requires i <= n <= |pairs|
    ensures Extends(EnsureRoutes(routes, pairs, now, n).0, EnsureRoutes(routes, pairs, now, i).0)
    ensures Extends(EnsureRoutes(routes, pairs, now, n).1, EnsureRoutes(routes, pairs, now, i).1)
  {
    if i < n {
      EnsureRoutesPrefix(routes, pairs, now, i, n - 1);
      EnsureRoutesStep(routes, pairs, now, n);
      ExtendsTransitive(EnsureRoutes(routes, pairs, now, n).0, EnsureRoutes(routes, pairs, now, n - 1).0, EnsureRoutes(routes, pairs, now, i).0);
      ExtendsTransitive(EnsureRoutes(routes, pairs, now, n).1, EnsureRoutes(routes, pairs, now, n - 1).1, EnsureRoutes(routes, pairs, now, i).1);
    }
  }

  /** The route of pair k is the first stored route serving it. */
  lemma RouteOfPair(routes: seq<Route>, pairs: seq<RoutePair>, now: int, i: nat, k: nat)
    requires k < i <= |pairs|
    ensures var r := EnsureRoutes(routes, pairs, now, i);
      && r.1[k] < |r.0| && Serves(pairs[k], r.0[r.1[k]])
      && forall j :: 0 <= j < r.1[k] ==> !Serves(pairs[k], r.0[j])
  {
    EnsureRoutesStep(routes, pairs, now, k + 1);
    EnsureRoutesPrefix(routes, pairs, now, k + 1, i);
  }

  /** A route is created only for a pair no earlier route serves, and becomes that pair's route. */
  lemma {:induction false} CreatedRouteOrigin(routes: seq<Route>, pairs: seq<RoutePair>, now: int, i: nat, j: nat)
    requires i <= |pairs|
    requires |routes| <= j < |EnsureRoutes(routes, pairs, now, i).0|
    ensures var r := EnsureRoutes(routes, pairs, now, i);
      exists k :: 0 <= k < i && r.1[k] == j && r.0[j] == NewRoute(pairs[k], now)
  {
    var prev := EnsureRoutes(routes, pairs, now, i - 1);
    EnsureRoutesStep(routes, pairs, now, i);
    if j < |prev.0| {
      CreatedRouteOrigin(routes, pairs, now, i - 1, j);
      var k :| 0 <= k < i - 1 && prev.1[k] == j && prev.0[j] == NewRoute(pairs[k], now);
      assert EnsureRoutes(routes, pairs, now, i).1[k] == j;
    } else {
      assert EnsureRoutes(routes, pairs, now, i).1[i - 1] == j;
    }
  }

  /** The routes and ids after all pairs: existing routes are kept, and each
      pair's route is the first stored route serving it. */
  lemma EnsureRoutesFacts(routes: seq<Route>, pairs: seq<RoutePair>, now: int)
    ensures var r := EnsureRoutes(routes, pairs, now, |pairs|);
      && Extends(r.0, routes)
      && (forall k :: 0 <= k < |pairs| ==> r.1[k] < |r.0| && Serves(pairs[k], r.0[r.1[k]]))
      && (forall k, j :: 0 <= k < |pairs| && 0 <= j < r.1[k] ==> !Serves(pairs[k], r.0[j]))
  {
    var r := EnsureRoutes(routes, pairs, now, |pairs|);
    EnsureRoutesPrefix(routes, pairs, now, 0, |pairs|);
    assert EnsureRoutes(routes, pairs, now, 0).0 == routes;
    assert Extends(r.0, routes);
    forall k | 0 <= k < |pairs|
      ensures r.1[k] < |r.0| && Serves(pairs[k], r.0[r.1[k]])
      ensures forall j :: 0 <= j < r.1[k] ==> !Serves(pairs[k], r.0[j])
    {
      RouteOfPair(routes, pairs, now, |pairs|, k);
    }
    assert forall k :: 0 <= k < |pairs| ==> r.1[k] < |r.0| && Serves(pairs[k], r.0[r.1[k]]);
    assert forall k, j :: 0 <= k < |pairs| && 0 <= j < r.1[k] ==> !Serves(pairs[k], r.0[j]);
  }

  /** A pair's route is reused exactly when a stored route already served it. */
  lemma ReusedIffStored(routes: seq<Route>, pairs: seq<RoutePair>, now: int, k: nat)
    requires k < |pairs|
    ensures var r := EnsureRoutes(routes, pairs, now, |pairs|);
      r.1[k] < |routes| <==> exists j :: 0 <= j < |routes| && Serves(pairs[k], routes[j])
  {
    EnsureRoutesFacts(routes, pairs, now);
    var r := EnsureRoutes(routes, pairs, now, |pairs|);
    if r.1[k] < |routes| {
      assert routes[r.1[k]] == r.0[r.1[k]];
    }
    if exists j :: 0 <= j < |routes| && Serves(pairs[k], routes[j]) {
      var j :| 0 <= j < |routes| && Serves(pairs[k], routes[j]);
      assert r.0[j] == routes[j];
    }
  }

  /** Routes made from pairs with a source and a destination are valid records. */
  lemma {:induction false} EnsureRoutesValid(routes: seq<Route>, pairs: seq<RoutePair>, now: int, i: nat)
    requires i <= |pairs|
    requires forall k :: 0 <= k < |pairs| ==> pairs[k].source != "" && pairs[k].destination != ""
    requires forall j :: 0 <= j < |routes| ==> ValidRoute(routes[j])
    ensures var r := EnsureRoutes(routes, pairs, now, i);
      forall j :: 0 <= j < |r.0| ==> ValidRoute(r.0[j])
  {
    if i > 0 {
      EnsureRoutesValid(routes, pairs, now, i - 1);
      EnsureRoutesStep(routes, pairs, now, i);
      var prev := EnsureRoutes(routes, pairs, now, i - 1);
      var r := EnsureRoutes(routes, pairs, now, i);
      forall j | 0 <= j < |r.0|
        ensures ValidRoute(r.0[j])
      {
        if j < |prev.0| {
          assert r.0[j] == prev.0[j];
        }
      }
    }
  }

  /** Reuse the first stored route of each pair, creating the missing ones in
      pair order. ids[k] is the route used for RoutePairs[k]. */
  method GetOrCreateRoutes(db: Database, now: int) returns (ids: seq<Id>)
    requires db.Valid()
    modifies db`routes
    ensures db.Valid()
    ensures (db.routes, ids) == EnsureRoutes(old(db.routes), RoutePairs, now, |RoutePairs|)
    ensures |ids| == |RoutePairs| && forall k :: 0 <= k < |ids| ==> ids[k] < |db.routes|
  {
    var pairs := RoutePairs;
    ids := [];
    for i := 0 to |pairs|
      invariant (db.routes, ids) == EnsureRoutes(old(db.routes), pairs, now, i)
    {
      var found := FirstServing(db.routes, pairs[i]);
      if found.Some? {
        ids := ids + [found.value];
      } else {
        var id: Id := |db.routes|;
        db.routes := db.routes + [NewRoute(pairs[i], now)];
        ids := ids + [id];
      }
    }
    RoutePairsWellFormed();
    EnsureRoutesValid(old(db.routes), pairs, now, |pairs|);
    EnsureRoutesFacts(old(db.routes), pairs, now);
  }

  /* ---------------- buses ---------------- */

  /** One bus's random choices: Math.random() scaled to the bus number range,
      to an index into the seat options and to an index into the bus types. */
  datatype BusDraw = BusDraw(number: nat, seats: nat, busType: nat)

  /** 'IND-' followed by a four-digit number between 1000 and 9999. */
  function SeedBusNumber(draw: nat): (n: string)
    ensures |n| > 4 && n[..4] == "IND-"
    ensures AllDigits(n[4..]) && 1000 <= DecimalValue(n[4..]) <= 9999
  {
    DecimalRoundTrip(1000 + draw % 9000);
    "IND-" + NatToDecimal(1000 + draw % 9000)
  }

  function SeedBus(d: BusDraw, now: int): (b: Bus)
    ensures ValidBus(b)
    ensures b.totalSeats in SeatOptions && b.busType in BusTypes && b.createdAt == now
    ensures b.busNumber == SeedBusNumber(d.number)
  {
    Bus(SeedBusNumber(d.number), SeatOptions[d.seats % |SeatOptions|], BusTypes[d.busType % |BusTypes|], now)
  }

  /** The bus each draw describes, in draw order. */
  function Candidates(draws: seq<BusDraw>, now: int): (bs: seq<Bus>)
    ensures |bs| == |draws|
    ensures forall j :: 0 <= j < |draws| ==> bs[j] == SeedBus(draws[j], now) && ValidBus(bs[j])
  {
    seq(|draws|, j requires 0 <= j < |draws| => SeedBus(draws[j], now))
  }

  /** The unique index on busNumber refuses this number. */
  predicate NumberTaken(buses: seq<Bus>, number: string)
  {
    exists j :: 0 <= j < |buses| && buses[j].busNumber == number
  }

  /** The buses after the first i creations, and whether one of them hit the
      unique index (after which nothing more is created). */
  function CreateBuses(buses: seq<Bus>, cands: seq<Bus>, i: nat): (r: (seq<Bus>, Outcome))
    requires i <= |cands|
  {
    if i == 0 then (buses, Done)
    else
      var prev := CreateBuses(buses, cands, i - 1);
      if prev.1.Failed? then prev
      else if NumberTaken(prev.0, cands[i - 1].busNumber) then (prev.0, Failed(DuplicateKey))
      else (prev.0 + [cands[i - 1]], Done)
  }

  /** The bus pool after topping it up to DesiredBusCount from the candidates. */
  function TopUp(buses: seq<Bus>, cands: seq<Bus>): (r: (seq<Bus>, Outcome))
    requires |cands| >= DesiredBusCount
  {
    if |buses| >= DesiredBusCount then (buses, Done)
    else CreateBuses(buses, cands, DesiredBusCount - |buses|)
  }

  /** One step of CreateBuses: nothing after a failure, otherwise a refusal
      on a taken number or one more bus. */
  lemma CreateBusesStep(buses: seq<Bus>, cands: seq<Bus>, i: nat)
    requires 0 < i <= |cands|
    ensures var prev := CreateBuses(buses, cands, i - 1);
      var r := CreateBuses(buses, cands, i);
      && (prev.1.Failed? ==> r == prev)
      && (prev.1 == Done && NumberTaken(prev.0, cands[i - 1].busNumber) ==> r == (prev.0, Failed(DuplicateKey)))
      && (prev.1 == Done && !NumberTaken(prev.0, cands[i - 1].busNumber) ==> r == (prev.0 + [cands[i - 1]], Done))
  {
  }

  /** Bus i is candidate i; creation stops at the first bus number already taken. */
  lemma {:induction false} CreateBusesFacts(buses: seq<Bus>, cands: seq<Bus>, i: nat)
    requires i <= |cands|
    ensures var r := CreateBuses(buses, cands, i);
      && Extends(r.0, buses)
      && |r.0| <= |buses| + i
      && (forall j :: |buses| <= j < |r.0| ==> r.0[j] == cands[j - |buses|])
      && (r.1 == Done ==> |r.0| == |buses| + i)
      && (r.1.Failed? ==>
            && r.1.failure == DuplicateKey
            && |r.0| < |buses| + i
            && NumberTaken(r.0, cands[|r.0| - |buses|].busNumber))
  {
    if i > 0 {
      CreateBusesFacts(buses, cands, i - 1);
      CreateBusesStep(buses, cands, i);
      var prev := CreateBuses(buses, cands, i - 1);
      var r := CreateBuses(buses, cands, i);
      if prev.1 == Done && !NumberTaken(prev.0, cands[i - 1].busNumber) {
        assert r.0 == prev.0 + [cands[i - 1]];
        assert forall j :: 0 <= j < |prev.0| ==> r.0[j] == prev.0[j];
        assert r.0[|prev.0|] == cands[i - 1];
      }
    }
  }

  /** Bus numbers stay unique, and the pool holds only valid records. */
  lemma {:induction false} CreateBusesValid(buses: seq<Bus>, cands: seq<Bus>, i: nat)
    requires i <= |cands|
    requires forall j :: 0 <= j < |cands| ==> ValidBus(cands[j])
    requires UniqueBusNumbers(buses) && forall j :: 0 <= j < |buses| ==> ValidBus(buses[j])
    ensures var r := CreateBuses(buses, cands, i);
      UniqueBusNumbers(r.0) && forall j :: 0 <= j < |r.0| ==> ValidBus(r.0[j])
  {
    if i > 0 {
      CreateBusesValid(buses, cands, i - 1);
    }
  }

  /** Once a creation failed, later steps change nothing. */
  lemma {:induction false} FailureIsFinal(buses: seq<Bus>, cands: seq<Bus>, i: nat, n: nat)
    requires i <= n <= |cands|
    requires CreateBuses(buses, cands, i).1.Failed?
    ensures CreateBuses(buses, cands, n) == CreateBuses(buses, cands, i)
  {
    if n > i {
      FailureIsFinal(buses, cands, i, n - 1);
    }
  }

  /** A pool of DesiredBusCount or more is left alone; a smaller one is filled
      to exactly DesiredBusCount unless a candidate's bus number is taken. */
  lemma TopUpFacts(buses: seq<Bus>, cands: seq<Bus>)
    requires |cands| >= DesiredBusCount
    ensures var r := TopUp(buses, cands);
      && (|buses| >= DesiredBusCount ==> r == (buses, Done))
      && (|buses| < DesiredBusCount ==> |r.0| <= DesiredBusCount)
      && Extends(r.0, buses)
      && (forall j :: |buses| <= j < |r.0| ==> r.0[j] == cands[j - |buses|])
      && (|buses| < DesiredBusCount && r.1 == Done ==> |r.0| == DesiredBusCount)
      && (r.1.Failed? ==>
            && r.1.failure == DuplicateKey
            && |buses| <= |r.0| < DesiredBusCount
            && NumberTaken(r.0, cands[|r.0| - |buses|].busNumber))
  {
    if |buses| < DesiredBusCount {
      CreateBusesFacts(buses, cands, DesiredBusCount - |buses|);
    }
  }

  /** Bus.create: the unique index on busNumber refuses a number already stored. */
  method InsertBus(db: Database, bus: Bus) returns (r: Outcome)
    requires db.Valid() && ValidBus(bus)
    modifies db`buses
    ensures db.Valid()
    ensures r == if NumberTaken(old(db.buses), bus.busNumber) then Failed(DuplicateKey) else Done
    ensures db.buses == if r == Done then old(db.buses) + [bus] else old(db.buses)
  {
    if NumberTaken(db.buses, bus.busNumber) {
      return Failed(DuplicateKey);
    }
    db.buses := db.buses + [bus];
    r := Done;
  }

  /** The script's creation loop: insert the first `count` candidates in
      order, stopping at the first one the unique index refuses. */
  method InsertBuses(db: Database, cands: seq<Bus>, count: nat) returns (r: Outcome)
    requires db.Valid()
    requires count <= |cands| && forall j :: 0 <= j < |cands| ==> ValidBus(cands[j])
    modifies db`buses
    ensures db.Valid()
    ensures (db.buses, r) == CreateBuses(old(db.buses), cands, count)
  {
    for i := 0 to count
      invariant db.Valid()
      invariant (db.buses, Done) == CreateBuses(old(db.buses), cands, i)
    {
      CreateBusesStep(old(db.buses), cands, i + 1);
      r := InsertBus(db, cands[i]);
      if r.Failed? {
        FailureIsFinal(old(db.buses), cands, i + 1, count);
        return;
      }
    }
    r := Done;
  }

  /** Bring the bus pool up to DesiredBusCount, creating bus i from draws[i].
      The script stops at the first bus the unique index refuses, keeping the
      buses created so far. */
  method TopUpBuses(db: Database, draws: seq<BusDraw>, now: int) returns (r: Outcome)
    requires db.Valid()
    requires |draws| >= DesiredBusCount
    modifies db`buses
    ensures db.Valid()
    ensures (db.buses, r) == TopUp(old(db.buses), Candidates(draws, now))
    ensures r == Done ==> |db.buses| >= DesiredBusCount
  {
    if |db.buses| >= DesiredBusCount {
      return Done;
    }
    TopUpFacts(db.buses, Candidates(draws, now));
    r := InsertBuses(db, Candidates(draws, now), DesiredBusCount - |db.buses|);
  }

  /* ---------------- schedules ---------------- */

  /** The random choices for one route on one day: how many departures
      (scaled to PerDayMin..PerDayMax), the shuffled base times, and one bus
      draw per departure (scaled to the bus pool). */
  datatype DayPlan = DayPlan(count: nat, order: seq<string>, buses: seq<nat>)

  /** The shuffle yields a permutation of the (distinct) base times: as many
      times, each a base time, no two alike. There is a bus draw for every
      departure the day can have. */
  predicate ValidPlan(p: DayPlan)
  {
    && |p.order| == |BaseTimes|
    && (forall i :: 0 <= i < |p.order| ==> p.order[i] in BaseTimes)
    && (forall i, j :: 0 <= i < j < |p.order| ==> p.order[i] != p.order[j])
    && |p.buses| >= PerDayMax
  }

  /** A route's plans for each of the next Days days. */
  predicate ValidPlans(plans: seq<DayPlan>)
  {
    |plans| == Days && forall d :: 0 <= d < Days ==> ValidPlan(plans[d])
  }

  predicate ValidRoutePlans(routes: seq<Route>, routeIds: seq<Id>, plans: seq<seq<DayPlan>>)
  {
    && |plans| == |routeIds|
    && forall k :: 0 <= k < |routeIds| ==> routeIds[k] < |routes| && ValidPlans(plans[k])
  }

  /** shuffleArray(baseTimes).slice(0, n). */
  function Departures(p: DayPlan): (times: seq<string>)
    requires ValidPlan(p)
    ensures PerDayMin <= |times| <= PerDayMax
    ensures forall t :: t in times ==> t in BaseTimes && IsClockTime(t)
  {
    BaseTimesAreClockTimes();
    p.order[..PerDayMin + p.count % (PerDayMax - PerDayMin + 1)]
  }

  /** buses[Math.floor(Math.random() * buses.length)]. */
  function PickBus(draw: nat, busCount: nat): (i: Id)
    requires busCount > 0
    ensures i < busCount
  {
    draw % busCount
  }

  /** The schedule planned for departure t of plan p. */
  function Slot(routes: seq<Route>, routeId: Id, day: int, p: DayPlan, t: nat, busCount: nat, now: int): (s: Schedule)
    requires routeId < |routes| && ValidPlan(p) && t < |Departures(p)| && busCount > 0
    ensures ValidSchedule(s)
  {
    var dep := Departures(p)[t];
    assert dep in Departures(p);
    Schedule(PickBus(p.buses[t], busCount), routeId, day * DayMs, dep,
             AddMinutesToTimeString(dep, routes[routeId].travelTime), now)
  }

  /** The schedules planned for one route on one day, in departure order. */
  function DaySlots(routes: seq<Route>, routeId: Id, day: int, p: DayPlan, busCount: nat, now: int): (slots: seq<Schedule>)
    requires routeId < |routes| && ValidPlan(p) && busCount > 0
    ensures |slots| == |Departures(p)|
    ensures forall t :: 0 <= t < |slots| ==> slots[t] == Slot(routes, routeId, day, p, t, busCount, now)
  {
    seq(|Departures(p)|, t requires 0 <= t < |Departures(p)| => Slot(routes, routeId, day, p, t, busCount, now))
  }

  /** The schedules planned for each seeded route (in route order) and each
      day of the window (in day order). */
  function Planned(routes: seq<Route>, routeIds: seq<Id>, today: int, plans: seq<seq<DayPlan>>, busCount: nat, now: int): (g: seq<seq<seq<Schedule>>>)
    requires ValidRoutePlans(routes, routeIds, plans) && busCount > 0
    ensures |g| == |routeIds|
    ensures forall k :: 0 <= k < |g| ==> |g[k]| == Days
    ensures forall k, d :: 0 <= k < |g| && 0 <= d < Days ==>
      g[k][d] == DaySlots(routes, routeIds[k], today + d, plans[k][d], busCount, now)
    ensures forall k, d, t :: 0 <= k < |g| && 0 <= d < |g[k]| && 0 <= t < |g[k][d]| ==> ValidSchedule(g[k][d][t])
  {
    seq(|routeIds|, k requires 0 <= k < |routeIds| =>
      seq(Days, d requires 0 <= d < Days => DaySlots(routes, routeIds[k], today + d, plans[k][d], busCount, now)))
  }

  /** The rows one after the other. */
  function Join<T>(rows: seq<seq<T>>): seq<T>
  {
    if rows == [] then [] else Join(rows[..|rows| - 1]) + rows[|rows| - 1]
  }

  /** The blocks one after the other, each block's rows one after the other. */
  function Join2<T>(g: seq<seq<seq<T>>>): seq<T>
  {
    if g == [] then [] else Join2(g[..|g| - 1]) + Join(g[|g| - 1])
  }

  lemma JoinSnoc<T>(rows: seq<seq<T>>, r: seq<T>)
    ensures Join(rows + [r]) == Join(rows) + r
  {
    assert (rows + [r])[..|rows|] == rows;
  }

  lemma Join2Snoc<T>(g: seq<seq<seq<T>>>, b: seq<seq<T>>)
    ensures Join2(g + [b]) == Join2(g) + Join(b)
  {
    assert (g + [b])[..|g|] == g;
  }

  /** Every element of every row is in the join. */
  lemma {:induction false} JoinCover<T>(rows: seq<seq<T>>, e: nat, t: nat)
    requires e < |rows| && t < |rows[e]|
    ensures rows[e][t] in Join(rows)
  {
    var init := rows[..|rows| - 1];
    if e < |rows| - 1 {
      assert init[e] == rows[e];
      JoinCover(init, e, t);
    } else {
      assert rows[e][t] in rows[|rows| - 1];
    }
  }

  lemma {:induction false} Join2Cover<T>(g: seq<seq<seq<T>>>, i: nat, e: nat, t: nat)
    requires i < |g| && e < |g[i]| && t < |g[i][e]|
    ensures g[i][e][t] in Join2(g)
  {
    var init := g[..|g| - 1];
    if i < |g| - 1 {
      assert init[i] == g[i];
      Join2Cover(init, i, e, t);
    } else {
      JoinCover(g[i], e, t);
    }
  }

  /** Every element of the join comes from some row. */
  lemma {:induction false} JoinElement<T>(rows: seq<seq<T>>, j: nat)
    requires j < |Join(rows)|
    ensures exists e, t :: 0 <= e < |rows| && 0 <= t < |rows[e]| && Join(rows)[j] == rows[e][t]
  {
    var init := rows[..|rows| - 1];
    var last := rows[|rows| - 1];
    if j < |Join(init)| {
      JoinElement(init, j);
      var e, t :| 0 <= e < |init| && 0 <= t < |init[e]| && Join(init)[j] == init[e][t];
      assert Join(rows)[j] == rows[e][t];
    } else {
      assert Join(rows)[j] == last[j - |Join(init)|];
    }
  }

  lemma {:induction false} Join2Element<T>(g: seq<seq<seq<T>>>, j: nat)
    requires j < |Join2(g)|
    ensures exists i, e, t :: 0 <= i < |g| && 0 <= e < |g[i]| && 0 <= t < |g[i][e]| && Join2(g)[j] == g[i][e][t]
  {
    var init := g[..|g| - 1];
    var last := g[|g| - 1];
    if j < |Join2(init)| {
      Join2Element(init, j);
      var i, e, t :| 0 <= i < |init| && 0 <= e < |init[i]| && 0 <= t < |init[i][e]| && Join2(init)[j] == init[i][e][t];
      assert Join2(g)[j] == g[i][e][t];
    } else {
      JoinElement(last, j - |Join2(init)|);
      var e, t :| 0 <= e < |last| && 0 <= t < |last[e]| && Join(last)[j - |Join2(init)|] == last[e][t];
      assert Join2(g)[j] == g[|g| - 1][e][t];
    }
  }

  predicate HasSlot(s: Schedule, busId: Id, routeId: Id, date: int, dep: string)
  {
    s.busId == busId && s.routeId == routeId && s.dateOfJourney == date && s.departureTime == dep
  }

  predicate SameSlot(a: Schedule, b: Schedule)
  {
    HasSlot(a, b.busId, b.routeId, b.dateOfJourney, b.departureTime)
  }

  /** Schedule.findOne on the slot finds nothing. */
  predicate Free(ss: seq<Schedule>, s: Schedule)
  {
    forall j :: 0 <= j < |ss| ==> !SameSlot(ss[j], s)
  }

  function AddIfFree(ss: seq<Schedule>, s: Schedule): seq<Schedule>
  {
    if Free(ss, s) then ss + [s] else ss
  }

  /** The schedules after offering each planned schedule in turn. */
  function AddAll(ss: seq<Schedule>, slots: seq<Schedule>): seq<Schedule>
  {
    if slots == [] then ss
    else AddIfFree(AddAll(ss, slots[..|slots| - 1]), slots[|slots| - 1])
  }

  /** Offering a + b is offering a, then b. */
  lemma {:induction false} AddAllConcat(ss: seq<Schedule>, a: seq<Schedule>, b: seq<Schedule>)
    ensures AddAll(ss, a + b) == AddAll(AddAll(ss, a), b)
  {
    if b == [] {
      assert a + b == a;
    } else {
      var c := a + b;
      assert c[..|c| - 1] == a + b[..|b| - 1];
      assert c[|c| - 1] == b[|b| - 1];
      AddAllConcat(ss, a, b[..|b| - 1]);
    }
  }

  /* -- what the script guarantees about the schedules it adds -- */

  /** A stored schedule has the slot of s. */
  predicate SlotStored(ss: seq<Schedule>, s: Schedule)
  {
    exists j :: 0 <= j < |ss| && SameSlot(ss[j], s)
  }

  /** No schedule from position `from` on repeats the slot of an earlier one. */
  predicate TwinFree(ss: seq<Schedule>, from: nat)
  {
    forall i, j {:trigger SameSlot(ss[i], ss[j])} :: 0 <= i < j < |ss| && from <= j ==> !SameSlot(ss[i], ss[j])
  }

  /** What every schedule the script creates looks like: a seeded route, a
      bus of the pool, a midnight in the day window, a base departure time,
      the arrival the route's travel time gives, and the creation time. */
  predicate Seeded(s: Schedule, routes: seq<Route>, routeIds: seq<Id>, busCount: nat, today: int, now: int)
  {
    && s.routeId in routeIds && s.routeId < |routes|
    && s.busId < busCount
    && today * DayMs <= s.dateOfJourney < (today + Days) * DayMs && s.dateOfJourney % DayMs == 0
    && s.departureTime in BaseTimes && IsTimeString(s.departureTime)
    && s.arrivalTime == AddMinutesToTimeString(s.departureTime, routes[s.routeId].travelTime)
    && s.createdAt == now
  }

  predicate AllSeeded(ss: seq<Schedule>, from: nat, routes: seq<Route>, routeIds: seq<Id>, busCount: nat, today: int, now: int)
  {
    forall j {:trigger Seeded(ss[j], routes, routeIds, busCount, today, now)} ::
      from <= j < |ss| ==> Seeded(ss[j], routes, routeIds, busCount, today, now)
  }

  /** Offering schedules keeps the stored ones and adds at most one per offer. */
  lemma {:induction false} AddAllExtends(ss: seq<Schedule>, slots: seq<Schedule>)
    ensures Extends(AddAll(ss, slots), ss) && |AddAll(ss, slots)| <= |ss| + |slots|
  {
    if slots != [] {
      var prev := AddAll(ss, slots[..|slots| - 1]);
      AddAllExtends(ss, slots[..|slots| - 1]);
      assert Extends(AddAll(ss, slots), prev);
      ExtendsTransitive(AddAll(ss, slots), prev, ss);
    }
  }

  /** Every offered slot ends up stored, whether it was free or not. */
  lemma {:induction false} AddAllStores(ss: seq<Schedule>, slots: seq<Schedule>)
    ensures forall j :: 0 <= j < |slots| ==> SlotStored(AddAll(ss, slots), slots[j])
  {
    if slots != [] {
      var init := slots[..|slots| - 1];
      var last := slots[|slots| - 1];
      AddAllStores(ss, init);
      var prev := AddAll(ss, init);
      var tt := AddAll(ss, slots);
      assert forall i :: 0 <= i < |prev| ==> tt[i] == prev[i];
      forall j | 0 <= j < |slots|
        ensures SlotStored(tt, slots[j])
      {
        if j == |slots| - 1 {
          if Free(prev, last) {
            assert SameSlot(tt[|prev|], last);
          } else {
            var i :| 0 <= i < |prev| && SameSlot(prev[i], last);
            assert SameSlot(tt[i], last);
          }
        } else {
          assert slots[j] == init[j];
          var i :| 0 <= i < |prev| && SameSlot(prev[i], init[j]);
          assert SameSlot(tt[i], slots[j]);
        }
      }
    }
  }

  /** A schedule is only added to a free slot, so no slot is stored twice. */
  lemma {:induction false} AddAllTwinFree(ss: seq<Schedule>, slots: seq<Schedule>, from: nat)
    requires TwinFree(ss, from)
    ensures TwinFree(AddAll(ss, slots), from)
  {
    if slots != [] {
      AddAllTwinFree(ss, slots[..|slots| - 1], from);
    }
  }

  /** Only offered schedules are added. */
  lemma {:induction false} AddAllSeeded(ss: seq<Schedule>, slots: seq<Schedule>, from: nat,
                                        routes: seq<Route>, routeIds: seq<Id>, busCount: nat, today: int, now: int)
    requires AllSeeded(ss, from, routes, routeIds, busCount, today, now)
    requires forall j :: 0 <= j < |slots| ==> Seeded(slots[j], routes, routeIds, busCount, today, now)
    ensures AllSeeded(AddAll(ss, slots), from, routes, routeIds, busCount, today, now)
  {
    if slots != [] {
      var init := slots[..|slots| - 1];
      assert forall j :: 0 <= j < |init| ==> init[j] == slots[j];
      AddAllSeeded(ss, init, from, routes, routeIds, busCount, today, now);
    }
  }

  lemma DayStartIsMidnight(day: int)
    ensures (day * DayMs) % DayMs == 0
  {
  }

  /** A planned schedule of a seeded route on a day of the window is a seeded one. */
  lemma SlotSeeded(routes: seq<Route>, routeIds: seq<Id>, routeId: Id, today: int, day: int,
                   p: DayPlan, t: nat, busCount: nat, now: int)
    requires routeId < |routes| && routeId in routeIds && ValidPlan(p) && t < |Departures(p)| && busCount > 0
    requires today <= day < today + Days
    ensures Seeded(Slot(routes, routeId, day, p, t, busCount, now), routes, routeIds, busCount, today, now)
  {
    DayStartIsMidnight(day);
    assert Departures(p)[t] in Departures(p);
  }

  /** Entry (i, e, t) of the plan is departure t of route i on day e. */
  lemma PlannedAt(g: seq<seq<seq<Schedule>>>, routes: seq<Route>, routeIds: seq<Id>, today: int, plans: seq<seq<DayPlan>>,
                  busCount: nat, now: int, i: nat, e: nat, t: nat)
    requires ValidRoutePlans(routes, routeIds, plans) && busCount > 0
    requires g == Planned(routes, routeIds, today, plans, busCount, now)
    requires i < |routeIds| && e < Days && t < |Departures(plans[i][e])|
    ensures e < |g[i]| && t < |g[i][e]|
    ensures g[i][e][t] == Slot(routes, routeIds[i], today + e, plans[i][e], t, busCount, now)
  {
    assert g[i][e] == DaySlots(routes, routeIds[i], today + e, plans[i][e], busCount, now);
  }

  lemma PlannedSlotSeeded(g: seq<seq<seq<Schedule>>>, routes: seq<Route>, routeIds: seq<Id>, today: int, plans: seq<seq<DayPlan>>,
                          busCount: nat, now: int, i: nat, e: nat, t: nat)
    requires ValidRoutePlans(routes, routeIds, plans) && busCount > 0
    requires g == Planned(routes, routeIds, today, plans, busCount, now)
    requires i < |g| && e < |g[i]| && t < |g[i][e]|
    ensures Seeded(g[i][e][t], routes, routeIds, busCount, today, now)
  {
    assert routeIds[i] in routeIds;
    assert g[i][e] == DaySlots(routes, routeIds[i], today + e, plans[i][e], busCount, now);
    SlotSeeded(routes, routeIds, routeIds[i], today, today + e, plans[i][e], t, busCount, now);
  }

  /** Every planned schedule is a seeded one. */
  lemma PlannedSeeded(g: seq<seq<seq<Schedule>>>, routes: seq<Route>, routeIds: seq<Id>, today: int, plans: seq<seq<DayPlan>>, busCount: nat, now: int)
    requires ValidRoutePlans(routes, routeIds, plans) && busCount > 0
    requires g == Planned(routes, routeIds, today, plans, busCount, now)
    ensures forall j :: 0 <= j < |Join2(g)| ==> Seeded(Join2(g)[j], routes, routeIds, busCount, today, now)
  {
    var slots := Join2(g);
    forall j | 0 <= j < |slots|
      ensures Seeded(slots[j], routes, routeIds, busCount, today, now)
    {
      Join2Element(g, j);
      var i, e, t :| 0 <= i < |g| && 0 <= e < |g[i]| && 0 <= t < |g[i][e]| && slots[j] == g[i][e][t];
      PlannedSlotSeeded(g, routes, routeIds, today, plans, busCount, now, i, e, t);
    }
  }

  /** Offering every planned schedule stores departure t of route i on day e. */
  lemma PlannedSlotStored(ss: seq<Schedule>, g: seq<seq<seq<Schedule>>>, routes: seq<Route>, routeIds: seq<Id>, today: int,
                          plans: seq<seq<DayPlan>>, busCount: nat, now: int, i: nat, e: nat, t: nat)
    requires ValidRoutePlans(routes, routeIds, plans) && busCount > 0
    requires g == Planned(routes, routeIds, today, plans, busCount, now)
    requires i < |routeIds| && e < Days && t < |Departures(plans[i][e])|
    ensures SlotStored(AddAll(ss, Join2(g)), Slot(routes, routeIds[i], today + e, plans[i][e], t, busCount, now))
  {
    var slots := Join2(g);
    PlannedAt(g, routes, routeIds, today, plans, busCount, now, i, e, t);
    Join2Cover(g, i, e, t);
    var j :| 0 <= j < |slots| && slots[j] == g[i][e][t];
    AddAllStores(ss, slots);
    assert SlotStored(AddAll(ss, slots), slots[j]);
  }

  /** What the schedule phase guarantees besides storing every planned
      departure (PlannedSlotStored): existing schedules are kept, no added
      schedule repeats the slot of a stored one, and every added schedule is
      a seeded one. */
  lemma SeededSchedules(ss: seq<Schedule>, routes: seq<Route>, routeIds: seq<Id>, today: int, plans: seq<seq<DayPlan>>, busCount: nat, now: int)
    requires ValidRoutePlans(routes, routeIds, plans) && busCount > 0
    ensures var tt := AddAll(ss, Join2(Planned(routes, routeIds, today, plans, busCount, now)));
      && Extends(tt, ss)
      && TwinFree(tt, |ss|)
      && AllSeeded(tt, |ss|, routes, routeIds, busCount, today, now)
  {
    var g := Planned(routes, routeIds, today, plans, busCount, now);
    var slots := Join2(g);
    AddAllExtends(ss, slots);
    AddAllTwinFree(ss, slots, |ss|);
    PlannedSeeded(g, routes, routeIds, today, plans, busCount, now);
    AddAllSeeded(ss, slots, |ss|, routes, routeIds, busCount, today, now);
  }

  /* -- the schedule phase as the script runs it -- */

  /** Schedule.findOne on the slot, then Schedule.create when it is free. */
  method StoreSlot(db: Database, s: Schedule) returns (added: bool)
    requires db.Valid() && ValidSchedule(s)
    modifies db`schedules
    ensures db.Valid()
    ensures added == Free(old(db.schedules), s)
    ensures db.schedules == AddIfFree(old(db.schedules), s)
  {
    var found := FindOne(db.schedules, (x: Schedule) => SameSlot(x, s));
    if found.Some? {
      return false;
    }
    db.schedules := db.schedules + [s];
    added := true;
  }

  /** The innermost loop: offer each planned departure of one route and day
      in turn, counting the schedules created. */
  method StoreSlots(db: Database, slots: seq<Schedule>) returns (created: nat)
    requires db.Valid() && forall j :: 0 <= j < |slots| ==> ValidSchedule(slots[j])
    modifies db`schedules
    ensures db.Valid()
    ensures db.schedules == AddAll(old(db.schedules), slots)
    ensures created == |db.schedules| - |old(db.schedules)|
  {
    created := 0;
    for t := 0 to |slots|
      invariant db.Valid()
      invariant db.schedules == AddAll(old(db.schedules), slots[..t])
      invariant created == |db.schedules| - |old(db.schedules)|
    {
      assert slots[..t + 1][..t] == slots[..t];
      var added := StoreSlot(db, slots[t]);
      if added {
        created := created + 1;
      }
    }
    assert slots[..|slots|] == slots;
  }

  /** The days loop: offer each day's planned departures in day order. */
  method StoreDays(db: Database, days: seq<seq<Schedule>>) returns (created: nat)
    requires db.Valid()
    requires forall d, t :: 0 <= d < |days| && 0 <= t < |days[d]| ==> ValidSchedule(days[d][t])
    modifies db`schedules
    ensures db.Valid()
    ensures db.schedules == AddAll(old(db.schedules), Join(days))
    ensures created == |db.schedules| - |old(db.schedules)|
  {
    created := 0;
    for d := 0 to |days|
      invariant db.Valid()
      invariant db.schedules == AddAll(old(db.schedules), Join(days[..d]))
      invariant created == |db.schedules| - |old(db.schedules)|
    {
      assert days[..d + 1] == days[..d] + [days[d]];
      JoinSnoc(days[..d], days[d]);
      AddAllConcat(old(db.schedules), Join(days[..d]), days[d]);
      var n := StoreSlots(db, days[d]);
      created := created + n;
    }
    assert days[..|days|] == days;
  }

  /** The routes loop: for each seeded route in turn, its days. */
  method StoreGrid(db: Database, g: seq<seq<seq<Schedule>>>) returns (created: nat)
    requires db.Valid()
    requires forall k, d, t :: 0 <= k < |g| && 0 <= d < |g[k]| && 0 <= t < |g[k][d]| ==> ValidSchedule(g[k][d][t])
    modifies db`schedules
    ensures db.Valid()
    ensures db.schedules == AddAll(old(db.schedules), Join2(g))
    ensures created == |db.schedules| - |old(db.schedules)|
  {
    created := 0;
    for k := 0 to |g|
      invariant db.Valid()
      invariant db.schedules == AddAll(old(db.schedules), Join2(g[..k]))
      invariant created == |db.schedules| - |old(db.schedules)|
    {
      assert g[..k + 1] == g[..k] + [g[k]];
      Join2Snoc(g[..k], g[k]);
      AddAllConcat(old(db.schedules), Join2(g[..k]), Join(g[k]));
      var n := StoreDays(db, g[k]);
      created := created + n;
    }
    assert g[..|g|] == g;
  }

  /** The schedule phase: every seeded route, the next Days days, the planned
      departures of each day; plans[k] are the choices for routeIds[k].
      Returns the number of schedules created. */
  method CreateSchedules(db: Database, routeIds: seq<Id>, plans: seq<seq<DayPlan>>, today: int, now: int) returns (created: nat)
    requires db.Valid()
    requires |db.buses| > 0 && ValidRoutePlans(db.routes, routeIds, plans)
    modifies db`schedules
    ensures db.Valid()
    ensures db.schedules == AddAll(old(db.schedules), Join2(Planned(db.routes, routeIds, today, plans, |db.buses|, now)))
    ensures created == |db.schedules| - |old(db.schedules)|
  {
    created := StoreGrid(db, Planned(db.routes, routeIds, today, plans, |db.buses|, now));
  }

  /* ---------------- the whole script ---------------- */

  /** The script run once: routes, then buses, then schedules. plans[k] are
      the choices for RoutePairs[k]. A refused bus aborts the run before any
      schedule is created. */
  method SeedAll(db: Database, draws: seq<BusDraw>, plans: seq<seq<DayPlan>>, today: int, now: int)
    returns (routeIds: seq<Id>, r: Outcome, created: nat)
    requires db.Valid()
    requires |draws| >= DesiredBusCount
    requires |plans| == |RoutePairs| && forall k :: 0 <= k < |plans| ==> ValidPlans(plans[k])
    modifies db`routes, db`buses, db`schedules
    ensures db.Valid()
    ensures (db.routes, routeIds) == EnsureRoutes(old(db.routes), RoutePairs, now, |RoutePairs|)
    ensures (db.buses, r) == TopUp(old(db.buses), Candidates(draws, now))
    ensures r.Failed? ==> db.schedules == old(db.schedules) && created == 0
    ensures r == Done ==>
      && |db.buses| >= DesiredBusCount
      && ValidRoutePlans(db.routes, routeIds, plans)
      && db.schedules == AddAll(old(db.schedules), Join2(Planned(db.routes, routeIds, today, plans, |db.buses|, now)))
      && created == |db.schedules| - |old(db.schedules)|
  {
    routeIds := GetOrCreateRoutes(db, now);
    r := TopUpBuses(db, draws, now);
    if r.Failed? {
      return routeIds, r, 0;
    }
    created := CreateSchedules(db, routeIds, plans, today, now);
  }
}
