# Bus reservation core, modelled in Dafny

The system is a bus reservation web application. Its back end keeps four
document collections: buses, routes, schedules (one bus on one route at one
departure on one day) and bookings (a ticket holding passengers on seats of
one schedule). Over them it runs three controllers:

- the **booking controller** books a ticket, cancels it, and answers two
  queries (one booking by ticket id, and the caller's bookings, newest first);
- the **search controller** finds the schedules of a route on a calendar day.
  It turns each one into an offer with seats left and a price, sorted by
  departure time;
- the **admin controller** adds buses, routes and schedules after checking
  the request, and lists the collections.

A seeding script gets or creates eight fixed routes. It tops the bus pool up
to thirty buses, then plans two or three departures per route per day for
the next fourteen days, skipping departures already stored. On the booking
page, a seat picker keeps the picked seats and one passenger form per seat
in step. It builds the passenger list the booking request carries, and
shows the total amount.

The model keeps the collections in a `Store.Database` object with one
sequence per collection. A record's id is its position (the core never
deletes a record). The query "find one" is `Store.FindOne`, the first match.
Operations that change the store are methods. Each is proved against a
function of the old store: `BookingOutcome`, `AfterCancel`, `AddBusOutcome`,
`EnsureRoutes`, `TopUp`, `AddAll`. The lemmas state what the controllers and
the script promise about those functions.

Modules:

- `Schemas` holds the record types and their schema constraints.
- `Store` holds the database object, `FindOne` and the failure kinds.
- `Availability` holds the seats taken on a schedule.
- `Bookings` and `BookingProperties` cover the booking controller.
- `Search` and `Admin` cover the other two controllers.
- `Ordering` holds the sort and string order.
- `Decimal` holds numerals.
- `TimeOfDay` holds "HH:MM" times.
- `Seed` covers the seeding script.
- `SeatSelection` covers the booking page.

Where the code and its description differ, the model follows the code. Two
cases matter:

- Booked seats are the seats of the **first** confirmed booking of a
  schedule only, not the union over all confirmed bookings.
- No request is checked for seat numbers beyond the bus's seat count or for
  repeated seats.

Lemmas exhibit both gaps:

- `Availability.LaterBookingsUnseen`
- `BookingProperties.DoubleBookingThroughSecondBooking`
- `BookingProperties.NoDuplicateOrRangeCheck`
- `Search.AvailabilityIgnoresLaterBookings`
- `Search.AvailabilityNotClamped`

## Model

| member | source | states |
|---|---|---|
| Schemas.ParseBusType | mern/backend/models/Bus.js:13-17 | a bus type string is accepted exactly when it is one of Deluxe, Sleeper, Standard, and maps back to the same name |
| Schemas.NewBooking | mern/backend/models/Booking.js:13-38 | a new booking gets status confirmed and booking time "now" by default, and carries the given user, schedule, ticket id and passengers |
| Store.FindOne | mern/backend/controllers/bookingController.js:132 | findOne answers the first record matching the filter, and nothing exactly when no record matches |
| Store.StatusCode | mern/backend/controllers/bookingController.js:8-146 | missing fields, a booked seat and a taken bus number are answered 400; not found 404; a non-owner 403; a schema rejection on save, a unique-index rejection and a dangling reference 500 |
| Store.Database.constructor | mern/backend/models/Booking.js:13-39 | the store starts with four empty collections, which satisfy every schema and unique-index constraint |
| Availability.SeatNumbers | mern/backend/controllers/bookingController.js:30-31 | the seat numbers of a passenger list, position by position |
| Availability.FirstConfirmed | mern/backend/controllers/bookingController.js:25-28 | the first booking that is confirmed and belongs to the schedule, or none exactly when there is no such booking |
| Availability.BookedSeats | mern/backend/controllers/bookingController.js:30 | booked seats are the seat numbers of the first confirmed booking, or empty when there is none |
| Availability.BookedCount | mern/backend/controllers/searchController.js:46-51 | the booked count is the number of passengers of that same first confirmed booking |
| Availability.LaterBookingsUnseen | mern/backend/controllers/bookingController.js:25-34 | a seat held only by a confirmed booking that is not the first one is not among the booked seats |
| Availability.BookedSeatsStableUnderAppend | mern/backend/controllers/bookingController.js:25-30 | once a schedule has a confirmed booking, later bookings never change its booked seats |
| Bookings.TicketId | mern/backend/controllers/bookingController.js:43 | the ticket id is "TKT" followed by the decimal numeral of the current time |
| Bookings.TicketIdInjective | mern/backend/controllers/bookingController.js:43 | tickets issued at different instants have different ids |
| Bookings.HasRequiredFields | mern/backend/controllers/bookingController.js:8-13 | defines a complete request: a schedule id and a non-empty passenger list; `BookingOutcome` answers missing fields exactly when it fails |
| Bookings.BookingOutcome | mern/backend/controllers/bookingController.js:4-57 | missing fields fail exactly when a field is absent or the passenger list is empty; an unknown schedule gives not found; when a requested seat is booked the answer is a seat conflict naming the first such seat, in request order; a ticket id already stored gives a duplicate key exactly when nothing earlier fails; success exactly when no requested seat is booked and the ticket id is fresh, with a confirmed booking of the caller's passengers |
| Bookings.BookTicket | mern/backend/controllers/bookingController.js:4-57 | answers BookingOutcome of the store it read, appends exactly that booking on success and changes nothing otherwise, and keeps the store valid |
| Bookings.CancelTarget | mern/backend/controllers/bookingController.js:132-146 | not found exactly when no booking has the ticket id; unauthorized exactly when the first one with it belongs to someone else; otherwise that first booking, owned by the caller |
| Bookings.AfterCancel | mern/backend/controllers/bookingController.js:148-149 | the target booking, and only it, gets status cancelled; every other booking is unchanged |
| Bookings.CancelBooking | mern/backend/controllers/bookingController.js:128-154 | answers not found, unauthorized or done as CancelTarget says, and leaves the bookings as AfterCancel says |
| Bookings.CancelKeepsTarget | mern/backend/controllers/bookingController.js:132-148 | cancelling changes no ticket id or owner, so a repeated request finds the same booking |
| Bookings.CancelIdempotent | mern/backend/controllers/bookingController.js:128-154 | cancelling twice succeeds both times and leaves the bookings as one cancel does |
| Bookings.GetBookingDetails | mern/backend/controllers/bookingController.js:67-92 | not found exactly when no booking has the ticket id; otherwise a stored booking with that id |
| Bookings.GetBookingDetailsUnique | mern/backend/models/Booking.js:24-28 | with ticket ids unique, the booking found is the only one with that id |
| Bookings.OwnedBy | mern/backend/controllers/bookingController.js:104 | exactly the bookings whose user is the caller |
| Bookings.NewestFirst | mern/backend/controllers/bookingController.js:113 | the comparison puts a booking first exactly when its booking time is not earlier, and is a total preorder, so the sort accepts it |
| Bookings.GetMyBookings | mern/backend/controllers/bookingController.js:102-118 | exactly the caller's bookings, as a permutation of them, ordered newest booking time first |
| BookingProperties.SameSeatTwiceFails | mern/backend/controllers/bookingController.js:25-40 | after the first confirmed booking of a schedule succeeds, any request for one of its seats fails with a seat conflict on one of them |
| BookingProperties.CancelFreesSeats | mern/backend/controllers/bookingController.js:25-51 | once the only confirmed booking of a schedule is cancelled, a new complete request for it succeeds whatever its seats |
| BookingProperties.DoubleBookingThroughSecondBooking | mern/backend/controllers/bookingController.js:25-40 | a seat of the second confirmed booking can be booked again: the request succeeds |
| BookingProperties.NoDuplicateOrRangeCheck | mern/backend/controllers/bookingController.js:31-51 | a request naming seat 99 twice is accepted |
| Ordering.Insert | mern/backend/controllers/bookingController.js:113 | inserting into a sorted list keeps it sorted and adds exactly that element |
| Ordering.LowerBoundKept | mern/backend/controllers/bookingController.js:113 | a bound below the new element and below every old element bounds every element of the result |
| Ordering.ConsSorted | mern/backend/controllers/bookingController.js:113 | a sorted list stays sorted behind a bound below all its elements |
| Ordering.SortBy | mern/backend/controllers/searchController.js:75 | the sort returns a sorted permutation of its input |
| Ordering.LexTotal | mern/backend/controllers/searchController.js:75 | any two strings are comparable character by character |
| Ordering.LexTransitive | mern/backend/controllers/searchController.js:75 | the character order on strings is transitive |
| Ordering.LexAntisymmetric | mern/backend/controllers/searchController.js:75 | two strings that compare both ways are equal |
| Ordering.LexIsTotalPreorder | mern/backend/controllers/searchController.js:75 | the character order is a valid sort key comparison |
| Search.Price | mern/backend/controllers/searchController.js:54-69 | the price is 50 for Deluxe, 40 for Sleeper, and 30 for anything else |
| Search.QueryComplete | mern/backend/controllers/searchController.js:10-15 | defines a complete query: a non-empty from and to and a date; `SearchBuses` answers missing fields exactly when it fails |
| Search.RoutesMatching | mern/backend/controllers/searchController.js:18-21 | exactly the routes with that source and that destination, in store order |
| Search.OnDay | mern/backend/controllers/searchController.js:33-39 | defines the query window, from the day's midnight up to the next midnight, excluded; `OnDayIsCalendarDay` shows it is the calendar day |
| Search.OnDayIsCalendarDay | mern/backend/controllers/searchController.js:33-39 | the one-day window holds exactly the instants of that calendar day |
| Search.SchedulesMatching | mern/backend/controllers/searchController.js:37-40 | exactly the schedules on a matched route whose journey date lies in the window, in store order |
| Search.OfferFor | mern/backend/controllers/searchController.js:60-70 | the offer is for the schedule asked about and never shows more seats left than the bus has; `OfferDescribesSchedule` gives every field |
| Search.OfferDescribesSchedule | mern/backend/controllers/searchController.js:45-70 | an offer copies bus number, type and seats from the bus, the times from the schedule and the travel time from the route; it leaves total seats minus the first confirmed booking's passengers; its price follows the bus type |
| Search.OffersUpTo | mern/backend/controllers/searchController.js:43-71 | one offer for each of the first n selected schedules, in schedule order |
| Search.AppendOffer | mern/backend/controllers/searchController.js:60-70 | one pass of the loop extends the offers of the first i schedules to the first i+1 |
| Search.Offers | mern/backend/controllers/searchController.js:45-71 | one offer per selected schedule, in schedule order |
| Search.DepartsNoLaterIsTotalPreorder | mern/backend/controllers/searchController.js:75 | comparing offers by departure string is a valid sort comparison |
| Search.SortByDeparture | mern/backend/controllers/searchController.js:75 | the offers are reordered, as a permutation, ascending by departure string |
| Search.DepartsNoLater | mern/backend/controllers/searchController.js:75 | defines the sort comparison on departure strings; `DepartsNoLaterIsTotalPreorder` shows the sort may use it |
| Search.Selected | mern/backend/controllers/searchController.js:18-40 | every selected schedule exists and has a stored route |
| Search.CollectOffers | mern/backend/controllers/searchController.js:43-71 | the loop yields Offers of the selected schedules when every bus resolves, and fails exactly when one does not |
| Search.SearchBuses | mern/backend/controllers/searchController.js:6-76 | missing fields fail; no matching route gives an empty list; otherwise the offers of the selected schedules, sorted by departure and a permutation of them, or a failure exactly when a bus reference dangles |
| Search.SelectedIffRouteAndDay | mern/backend/controllers/searchController.js:17-40 | a schedule is offered exactly when its route has the queried source and destination and its date falls on the queried day |
| Search.LexOrderIsChronological | mern/backend/controllers/searchController.js:75 | for "HH:MM" clock times, string order is time order |
| Search.UnpaddedTimeMisorders | mern/backend/controllers/searchController.js:75 | "10:00" sorts before "9:00": the sort relies on zero padding |
| Search.AvailabilityIgnoresLaterBookings | mern/backend/controllers/searchController.js:46-52 | two confirmed one-seat bookings on a 40-seat bus still show 39 seats left |
| Search.AvailabilityNotClamped | mern/backend/controllers/searchController.js:51-52 | an over-full first booking makes the seats left negative |
| Admin.AddBusOutcome | mern/backend/controllers/adminController.js:5-30 | missing fields (zero seats included) fail exactly when a field is falsy; a duplicate number fails exactly when the number is stored; success exactly when complete, new and of a known type, with the request's fields |
| Admin.BusRequestComplete | mern/backend/controllers/adminController.js:9-14 | defines a complete bus request: a number, a non-zero seat count and a type; `AddBusOutcome` answers missing fields exactly when it fails |
| Admin.RouteRequestComplete | mern/backend/controllers/adminController.js:44-49 | defines a complete route request: a source, a destination and a non-zero travel time; `AddRoute` fails exactly when it fails |
| Admin.ScheduleRequestComplete | mern/backend/controllers/adminController.js:71-76 | defines a complete schedule request: bus, route, date, departure and arrival all given; `AddSchedule` fails exactly when it fails |
| Admin.AddBus | mern/backend/controllers/adminController.js:5-38 | answers AddBusOutcome of the stored buses, appends exactly that bus on success and nothing otherwise, and keeps bus numbers unique |
| Admin.AddBusKeepsUnique | mern/backend/models/Bus.js:4-8 | an accepted bus keeps bus numbers unique and is a valid record |
| Admin.AddBusTwiceRejected | mern/backend/controllers/adminController.js:16-22 | repeating an accepted addBus request is refused as a duplicate |
| Admin.AddRoute | mern/backend/controllers/adminController.js:40-65 | succeeds exactly when source, destination and travel time are all given, appending that route, even when an equal one exists |
| Admin.AddSchedule | mern/backend/controllers/adminController.js:67-99 | succeeds exactly when all five fields are given, appending that schedule without checking its references |
| Admin.GetBuses | mern/backend/controllers/adminController.js:101-115 | the whole bus collection |
| Admin.GetRoutes | mern/backend/controllers/adminController.js:117-131 | the whole route collection |
| Admin.GetSchedules | mern/backend/controllers/adminController.js:133-149 | every schedule in order, with its bus and route when the reference resolves and none exactly when it does not |
| Admin.Populate | mern/backend/controllers/adminController.js:135-137 | defines one populated schedule: each reference resolved to its record, or to nothing when it is dangling; `GetSchedules` states this for every schedule |
| Decimal.NatToDecimal | mern/backend/controllers/bookingController.js:43 | a number prints as digits, at least one, without a leading zero |
| Decimal.DecimalRoundTrip | mern/backend/controllers/bookingController.js:43 | reading a printed number back gives the number |
| Decimal.NatToDecimalInjective | mern/backend/controllers/bookingController.js:43 | different numbers print differently |
| TimeOfDay.Pad2 | mern/backend/scripts/seedSchedules.js:106-107 | padStart(2, '0') prints a number below 100 as two digits denoting it |
| TimeOfDay.FormatTime | mern/backend/scripts/seedSchedules.js:106-108 | a minute of the day prints as the clock time denoting it |
| TimeOfDay.AddMinutesToTimeString | mern/backend/scripts/seedSchedules.js:101-109 | the result is a clock time whose minute of the day is the input's plus the minutes, modulo a day |
| TimeOfDay.ClockTimeDeterminedByMinute | mern/backend/scripts/seedSchedules.js:101-109 | two clock times with the same minute of the day are equal |
| TimeOfDay.FormatTimeOfClockTime | mern/backend/scripts/seedSchedules.js:101-109 | printing the minute of a clock time gives the time back |
| TimeOfDay.AddZeroMinutes | mern/backend/scripts/seedSchedules.js:101-109 | adding zero minutes leaves a clock time unchanged |
| TimeOfDay.AddMinutesCompose | mern/backend/scripts/seedSchedules.js:101-109 | adding a then b minutes is adding a + b minutes |
| Seed.RoutePairsWellFormed | mern/backend/scripts/seedSchedules.js:13-22 | every route pair has a source and a destination |
| Seed.BaseTimesAreClockTimes | mern/backend/scripts/seedSchedules.js:56 | every base departure time is an "HH:MM" clock time |
| Seed.FirstServing | mern/backend/scripts/seedSchedules.js:26 | the first stored route with the pair's source and destination, or none exactly when there is none |
| Seed.EnsureRoutes | mern/backend/scripts/seedSchedules.js:24-32 | one route id per pair processed |
| Seed.EnsureRoutesStep | mern/backend/scripts/seedSchedules.js:25-31 | each pair keeps earlier routes and ids; its id is the first route serving it; a route is created only when none served it |
| Seed.EnsureRoutesPrefix | mern/backend/scripts/seedSchedules.js:24-32 | later pairs only extend the routes and the id list |
| Seed.RouteOfPair | mern/backend/scripts/seedSchedules.js:26-31 | a processed pair's id names the first route serving it |
| Seed.CreatedRouteOrigin | mern/backend/scripts/seedSchedules.js:27-29 | every created route is the new route of some pair whose id it is |
| Seed.EnsureRoutesFacts | mern/backend/scripts/seedSchedules.js:24-32 | after all pairs: stored routes are kept; each pair's route serves it, and no earlier route does |
| Seed.ReusedIffStored | mern/backend/scripts/seedSchedules.js:26-30 | a pair reuses a stored route exactly when a stored route already served it |
| Seed.EnsureRoutesValid | mern/backend/models/Route.js:4-11 | routes made from the pairs are valid records |
| Seed.GetOrCreateRoutes | mern/backend/scripts/seedSchedules.js:24-32 | the routes loop leaves the routes and ids EnsureRoutes gives, one id per pair, each naming a stored route |
| Seed.SeedBusNumber | mern/backend/scripts/seedSchedules.js:42 | a bus number is "IND-" followed by a number from 1000 to 9999 |
| Seed.SeedBus | mern/backend/scripts/seedSchedules.js:41-45 | a created bus is valid, has 36, 40, 44, 48 or 50 seats and a type from the three, and carries the drawn number |
| Seed.Candidates | mern/backend/scripts/seedSchedules.js:41-45 | one valid candidate bus per draw |
| Seed.CreateBusesStep | mern/backend/scripts/seedSchedules.js:41-47 | after a failure nothing changes; a taken number fails with a duplicate key; otherwise the candidate is appended |
| Seed.CreateBusesFacts | mern/backend/scripts/seedSchedules.js:41-47 | existing buses are kept; new bus j is candidate j; success creates every bus asked for; failure stops at a candidate whose number is taken |
| Seed.CreateBuses | mern/backend/scripts/seedSchedules.js:41-47 | defines the bus pool after the first i creations, with nothing more created after a refusal; `CreateBusesFacts` states what it holds |
| Seed.TopUp | mern/backend/scripts/seedSchedules.js:35-50 | defines the pool after topping up to thirty buses; `TopUpFacts` states what it holds |
| Seed.CreateBusesValid | mern/backend/models/Bus.js:4-8 | the pool keeps bus numbers unique and holds valid buses |
| Seed.FailureIsFinal | mern/backend/scripts/seedSchedules.js:111-115 | once a creation failed, later steps change nothing |
| Seed.TopUpFacts | mern/backend/scripts/seedSchedules.js:35-50 | a pool of thirty or more is left alone; a smaller one is filled to exactly thirty, unless it stops early at a taken number |
| Seed.InsertBus | mern/backend/scripts/seedSchedules.js:45 | Bus.create refuses a taken number with a duplicate key and otherwise appends the bus |
| Seed.InsertBuses | mern/backend/scripts/seedSchedules.js:41-47 | the creation loop leaves the buses and outcome CreateBuses gives |
| Seed.TopUpBuses | mern/backend/scripts/seedSchedules.js:35-50 | the bus phase leaves what TopUp gives, with at least thirty buses when it succeeds |
| Seed.Departures | mern/backend/scripts/seedSchedules.js:65-66 | two or three departures a day, each one of the base times |
| Seed.PickBus | mern/backend/scripts/seedSchedules.js:69 | the drawn bus is one of the pool |
| Seed.Slot | mern/backend/scripts/seedSchedules.js:68-86 | a planned schedule is a valid record |
| Seed.DaySlots | mern/backend/scripts/seedSchedules.js:65-88 | one planned schedule per departure of the day, in departure order |
| Seed.Planned | mern/backend/scripts/seedSchedules.js:59-90 | fourteen days of planned schedules per seeded route, each day's those of DaySlots on that day |
| Seed.JoinSnoc | mern/backend/scripts/seedSchedules.js:60-89 | flattening days with one more day appends that day's schedules |
| Seed.Join2Snoc | mern/backend/scripts/seedSchedules.js:59-90 | flattening routes with one more route appends that route's schedules |
| Seed.JoinCover | mern/backend/scripts/seedSchedules.js:60-89 | every departure of every day is in the flattened list |
| Seed.Join2Cover | mern/backend/scripts/seedSchedules.js:59-90 | every departure of every route and day is in the flattened list |
| Seed.JoinElement | mern/backend/scripts/seedSchedules.js:60-89 | every element of the flattened list is some day's departure |
| Seed.Join2Element | mern/backend/scripts/seedSchedules.js:59-90 | every element of the flattened list is some route's departure on some day |
| Seed.AddAllConcat | mern/backend/scripts/seedSchedules.js:59-90 | offering two lists of schedules is offering one, then the other |
| Seed.AddIfFree | mern/backend/scripts/seedSchedules.js:72-87 | defines one offer: a schedule is added only when no stored schedule has its bus, route, date and departure |
| Seed.AddAll | mern/backend/scripts/seedSchedules.js:59-90 | defines the schedules after offering each planned schedule in turn; `AddAllExtends`, `AddAllStores`, `AddAllTwinFree` and `AddAllSeeded` state what it holds |
| Seed.AddAllExtends | mern/backend/scripts/seedSchedules.js:72-87 | stored schedules are kept, and each offer adds at most one |
| Seed.AddAllStores | mern/backend/scripts/seedSchedules.js:72-87 | afterwards every offered slot (bus, route, date, departure) is stored |
| Seed.AddAllTwinFree | mern/backend/scripts/seedSchedules.js:72-78 | no added schedule repeats the slot of an earlier one |
| Seed.AddAllSeeded | mern/backend/scripts/seedSchedules.js:80-86 | when every offer is a seeded schedule, so is every added one |
| Seed.DayStartIsMidnight | mern/backend/scripts/seedSchedules.js:61-63 | a day's start is a midnight |
| Seed.SlotSeeded | mern/backend/scripts/seedSchedules.js:61-86 | a planned schedule is seeded: a seeded route, a pool bus, a midnight in the window, a base departure time, the arrival AddMinutesToTimeString gives, the run's creation time |
| Seed.PlannedAt | mern/backend/scripts/seedSchedules.js:59-90 | a planned grid entry is the Slot of its route, day and departure |
| Seed.PlannedSlotSeeded | mern/backend/scripts/seedSchedules.js:59-90 | every entry of the planned grid is seeded |
| Seed.PlannedSeeded | mern/backend/scripts/seedSchedules.js:59-90 | every schedule of the flattened plan is seeded |
| Seed.PlannedSlotStored | mern/backend/scripts/seedSchedules.js:59-90 | afterwards every planned departure of every route and day has its slot stored |
| Seed.SeededSchedules | mern/backend/scripts/seedSchedules.js:58-90 | the schedule phase keeps stored schedules; it adds no duplicate slot, and only seeded schedules |
| Seed.StoreSlot | mern/backend/scripts/seedSchedules.js:72-87 | a schedule is created exactly when its slot is free |
| Seed.StoreSlots | mern/backend/scripts/seedSchedules.js:68-88 | the departure loop leaves AddAll of the offers and counts exactly the schedules created |
| Seed.StoreDays | mern/backend/scripts/seedSchedules.js:60-89 | the day loop leaves AddAll of all days' offers and counts exactly those created |
| Seed.StoreGrid | mern/backend/scripts/seedSchedules.js:59-90 | the route loop leaves AddAll of every offer and counts exactly those created |
| Seed.CreateSchedules | mern/backend/scripts/seedSchedules.js:52-90 | the schedule phase offers the planned schedules of every seeded route and day, and counts exactly those created |
| Seed.SeedAll | mern/backend/scripts/seedSchedules.js:8-115 | routes as EnsureRoutes gives, then buses as TopUp gives; a refused bus stops the run with no schedule created; otherwise the pool has thirty or more buses and the schedules are the plan offered to the store |
| SeatSelection.Without | mern/frontend/src/pages/BookTicket.js:35 | a seat survives the filter exactly when it was picked and is not the clicked seat; the list does not grow |
| SeatSelection.RemoveAt | mern/frontend/src/pages/BookTicket.js:36 | dropping position k shifts every later form down by one and keeps the earlier ones; a list without position k is unchanged |
| SeatSelection.IndexOf | mern/frontend/src/pages/BookTicket.js:36 | indexOf finds the first position of a picked seat |
| SeatSelection.Toggle | mern/frontend/src/pages/BookTicket.js:33-41 | a click toggles whether the clicked seat is picked, and leaves every other seat as it was; a free seat is appended with a blank form (no name, no age, male); a picked seat is filtered out and the form at its indexOf position dropped, the other forms kept in order |
| SeatSelection.WithoutDistinct | mern/frontend/src/pages/BookTicket.js:35-36 | without repeated seats, filtering a seat out drops exactly the position indexOf finds |
| SeatSelection.RemoveAtDistinct | mern/frontend/src/pages/BookTicket.js:34-36 | dropping one position from seats without repeats leaves seats without repeats |
| SeatSelection.RemoveAtKeepsInStep | mern/frontend/src/pages/BookTicket.js:34-36 | dropping the same position from seats and forms keeps them in step |
| SeatSelection.AppendKeepsInStep | mern/frontend/src/pages/BookTicket.js:37-40 | appending a new seat with a blank form for it keeps them in step |
| SeatSelection.ToggleKeepsInStep | mern/frontend/src/pages/BookTicket.js:33-41 | every click keeps the picked seats distinct, one form per seat, form i for seat i |
| SeatSelection.ToggleTwiceRestores | mern/frontend/src/pages/BookTicket.js:33-41 | clicking a free seat twice restores both lists |
| SeatSelection.ReselectResetsForm | mern/frontend/src/pages/BookTicket.js:33-41 | clicking a picked seat twice moves it to the end with a blank form |
| SeatSelection.ToggleTotal | mern/frontend/src/pages/BookTicket.js:167 | each click moves the total by one seat's price: up when the seat was free, down when it was picked |
| SeatSelection.TotalAmount | mern/frontend/src/pages/BookTicket.js:167 | no seat costs nothing, one seat costs the seat price, and a non-negative price never gives a negative total |
| SeatSelection.ToggleStaysOnGrid | mern/frontend/src/pages/BookTicket.js:99-105 | clicks on grid seats keep every picked seat between 1 and the bus's seat count |
| SeatSelection.ChangePassenger | mern/frontend/src/pages/BookTicket.js:43-47 | only the named field of the indexed form changes; the length, its seat and every other form stay |
| SeatSelection.ChangeKeepsInStep | mern/frontend/src/pages/BookTicket.js:43-47 | editing a form keeps seats and forms in step |
| SeatSelection.DigitRun | mern/frontend/src/pages/BookTicket.js:58 | the longest run of leading digits |
| SeatSelection.ParseInt | mern/frontend/src/pages/BookTicket.js:58 | NaN exactly when no digit follows the optional sign, so an empty age is NaN; a negative value needs a leading minus |
| SeatSelection.ParseIntReadsDecimal | mern/frontend/src/pages/BookTicket.js:58 | parseInt reads a printed number back, stopping at the first non-digit |
| SeatSelection.PassengerData | mern/frontend/src/pages/BookTicket.js:55-60 | one entry per form: the seat at the same position, the name and gender copied, the age parsed |
| SeatSelection.SubmittedSeatsArePicked | mern/frontend/src/pages/BookTicket.js:55-60 | from lists in step, the request names each picked seat once, in picking order |
| SeatSelection.SeatPicker.constructor | mern/frontend/src/pages/BookTicket.js:13-14 | both lists start empty and in step |
| SeatSelection.SeatPicker.HandleSeatClick | mern/frontend/src/pages/BookTicket.js:33-41 | the lists become Toggle of their old values, and stay in step |
| SeatSelection.SeatPicker.HandlePassengerChange | mern/frontend/src/pages/BookTicket.js:43-47 | the seats stay; the forms become ChangePassenger of the old forms, and stay in step |

## Left out

- Database plumbing: connections, `populate` joins beyond resolving a
  reference to a record or to nothing, and indexes other than the unique ones.
- Concurrency: the check-then-save race in booking and in the seeding script
  is not modelled; every request runs alone.
- The catch-all 500 answer to unexpected exceptions is not modelled, except
  a populated bus that does not resolve in a search (`DanglingReference`), a
  unique-index rejection on save (`DuplicateKey`), and the schema's rejection
  of a bus type outside the enumeration when `addBus` saves
  (`ValidationFailed`).
- Message texts, response envelopes, logging, authentication middleware
  and routing are not modelled. The caller's user id is a parameter.
- Clocks: `Date.now()` and `new Date()` are parameters (`now`, `today`).
  Dates are integers: instants in milliseconds, days as day numbers.
  Local midnight is `day * DayMs`, so time zones and daylight-saving shifts
  are not modelled.
- Date parsing of request strings (`new Date(date)`) is not modelled: the
  search date is a day number, the schedule date an instant. An unparseable
  date is not modelled.
- Randomness: `Math.random()` is not modelled. The caller supplies the draws
  (`BusDraw`, `DayPlan`).
- `shuffleArray` sorts the base-time list in place with a random comparator.
  It is modelled as an arbitrary ordering of the base times, stated as same
  length, only base times, no repeats.
- `localeCompare` is modelled as lexicographic order on Unicode code points.
  This differs from locale collation on letters and case, and from UTF-16
  code-unit order on characters outside the Basic Multilingual Plane. All
  the seeded departure times are ASCII digits and a colon, where the orders
  agree.
- Mongoose casting of request values is not modelled: numbers given as
  strings, the gender and status enums on save, the passenger sub-documents.
  Passengers arrive as typed records.
- The seeding script's process exit, connection and disconnect are not
  modelled; a failed `Bus.create` ends `SeedAll` with `Failed`.
- The booking page's schedule data is a fixed mock in the page; the price
  is a parameter of `TotalAmount`. Rendering, navigation, the loading and
  error banners, and the request call itself are not modelled.
- SeatSelection.ParseInt: leading white space, which `parseInt` skips, is not
  modelled. The number input of the page never produces it.
- SeatSelection.SeatPicker.HandlePassengerChange: the page edits the form
  object in place, shared with the previous state; the model replaces the
  form, so this aliasing is not captured.
- Seed.PlannedSlotStored: coverage of the planned departures is stated one
  departure at a time rather than as one quantified statement over the grid.
