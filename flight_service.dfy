/**
 * The flight catalogue: creating and updating flights, which checks the
 * request against the stored airports, flights and pilots, and the read
 * projections over the flight table.
 */
module FlightService {

  import opened Results
  import opened Tables
  import opened Clock
  import opened Text
  import opened Entities
  import opened Store
  import opened Views

  const ArrivalBeforeDeparture := "Arrival time cannot be before the departure time"
  const FlightNumberExists := "Flight with this number already exists"
  const DepartureAirportNotFound := "Departure Airport Not Found"
  const ArrivalAirportNotFound := "Arrival Airport Not Found"
  const PilotNotFound := "Pilot Not Found"
  const NotCertifiedPilot := "Claimed pilot is not the certified pilot"
  const FlightNotFound := "Flight Not Found"

  /** What createFlight reads from a `CreateFlightRequest`. */
  datatype NewFlight = NewFlight(
    flightNumber: string,
    departureAirportIataCode: string,
    arrivalAirportIataCode: string,
    departureTime: Time,
    arrivalTime: Time,
    basePrice: Option<Money>,
    pilotId: Option<Id>)

  /** What updateFlight reads from a `CreateFlightRequest`; `None` is a null field. */
  datatype FlightChanges = FlightChanges(
    id: Id,
    departureTime: Option<Time>,
    arrivalTime: Option<Time>,
    basePrice: Option<Money>,
    status: Option<FlightStatus>,
    pilotId: Option<Id>)

  /** Some role of `u` is named "PILOT", compared ignoring case: some role
      name upper-cases to PILOT. */
  function IsPilot(s: Snapshot, u: User): (r: bool)
    requires UserRefsOk(s.roles, u)
    ensures r <==> exists k :: 0 <= k < |u.roles| && ToUpper(s.roles.rows[u.roles[k]].name) == "PILOT"
  {
    var names := RoleNames(s, u);
    assert ToUpper("PILOT") == "PILOT" by { UpperCaseIsFixed("PILOT"); }
    exists k :: 0 <= k < |names| && EqualsIgnoreCase(names[k], "PILOT")
  }

  /** The pilot check createFlight and updateFlight share: the user must
      exist and hold a role whose upper-case name is PILOT. */
  function CheckPilot(s: Snapshot, pilotId: Id): (r: Result<Id>)
    requires Consistent(s)
    ensures pilotId !in s.users.rows ==> r == Err(NotFound(PilotNotFound))
    ensures r.Ok? <==> pilotId in s.users.rows &&
                       exists k :: 0 <= k < |s.users.rows[pilotId].roles| &&
                                   ToUpper(s.roles.rows[s.users.rows[pilotId].roles[k]].name) == "PILOT"
    ensures r.Ok? ==> r.value == pilotId
    ensures pilotId in s.users.rows && r.Err? ==> r == Err(BadRequest(NotCertifiedPilot))
  {
    if pilotId !in s.users.rows then Err(NotFound(PilotNotFound))
    else
      var u := s.users.rows[pilotId];
      if IsPilot(s, u) then Ok(pilotId) else Err(BadRequest(NotCertifiedPilot))
  }

  /** The checks of createFlight that come before the pilot check pass. */
  predicate RequestChecksPass(s: Snapshot, req: NewFlight) {
    && !IsBefore(req.arrivalTime, req.departureTime)
    && !Taken(s.flights, FlightNumberOf, req.flightNumber)
    && Taken(s.airports, IataCodeOf, req.departureAirportIataCode)
    && Taken(s.airports, IataCodeOf, req.arrivalAirportIataCode)
  }

  /** The flight createFlight saves, or the first check it fails: arrival
      before departure, a taken flight number, an unknown departure or
      arrival IATA code, then the pilot check when a pilot is named. */
  function FlightToSave(s: Snapshot, req: NewFlight): (r: Result<Flight>)
    requires Consistent(s)
    ensures IsBefore(req.arrivalTime, req.departureTime) ==>
              r == Err(BadRequest(ArrivalBeforeDeparture))
    ensures !IsBefore(req.arrivalTime, req.departureTime)
            && Taken(s.flights, FlightNumberOf, req.flightNumber) ==>
              r == Err(BadRequest(FlightNumberExists))
    ensures !IsBefore(req.arrivalTime, req.departureTime)
            && !Taken(s.flights, FlightNumberOf, req.flightNumber)
            && !Taken(s.airports, IataCodeOf, req.departureAirportIataCode) ==>
              r == Err(NotFound(DepartureAirportNotFound))
    ensures !IsBefore(req.arrivalTime, req.departureTime)
            && !Taken(s.flights, FlightNumberOf, req.flightNumber)
            && Taken(s.airports, IataCodeOf, req.departureAirportIataCode)
            && !Taken(s.airports, IataCodeOf, req.arrivalAirportIataCode) ==>
              r == Err(NotFound(ArrivalAirportNotFound))
    ensures RequestChecksPass(s, req) && req.pilotId.Some? && CheckPilot(s, req.pilotId.value).Err? ==>
              r == Err(CheckPilot(s, req.pilotId.value).error)
    ensures r.Ok? <==> RequestChecksPass(s, req) && (req.pilotId.None? || CheckPilot(s, req.pilotId.value).Ok?)
    ensures r.Ok? ==>
              && r.value.flightNumber == req.flightNumber
              && !Taken(s.flights, FlightNumberOf, req.flightNumber)
              && r.value.status == Scheduled
              && r.value.departureTime == req.departureTime
              && r.value.arrivalTime == req.arrivalTime
              && req.departureTime <= req.arrivalTime
              && r.value.basePrice == req.basePrice
              && FlightRefsOk(s.airports, s.users, r.value)
              && s.airports.rows[r.value.departureAirport].iataCode == req.departureAirportIataCode
              && s.airports.rows[r.value.arrivalAirport].iataCode == req.arrivalAirportIataCode
              && r.value.assignedPilot == req.pilotId
              && (req.pilotId.Some? ==> CheckPilot(s, req.pilotId.value).Ok?)
  {
    if IsBefore(req.arrivalTime, req.departureTime) then Err(BadRequest(ArrivalBeforeDeparture))
    else if Taken(s.flights, FlightNumberOf, req.flightNumber) then Err(BadRequest(FlightNumberExists))
    else
      var dep := FindBy(s.airports, IataCodeOf, req.departureAirportIataCode);
      if dep.None? then Err(NotFound(DepartureAirportNotFound))
      else
        var arr := FindBy(s.airports, IataCodeOf, req.arrivalAirportIataCode);
        if arr.None? then Err(NotFound(ArrivalAirportNotFound))
        else
          var flight := Flight(req.flightNumber, Scheduled, dep.value, arr.value,
                               req.departureTime, req.arrivalTime, req.basePrice, None);
          if req.pilotId.None? then Ok(flight)
          else
            var pilot := CheckPilot(s, req.pilotId.value);
            if pilot.Err? then Err(pilot.error)
            else Ok(flight.(assignedPilot := Some(pilot.value)))
  }

  /** createFlight: runs the checks in order, fills a new flight field by
      field and saves it; a failed check saves nothing. */
  method CreateFlight(db: Database, req: NewFlight) returns (r: Result<()>)
    requires db.Valid()
    modifies db
    ensures db.Valid()
    ensures var v := FlightToSave(old(db.State()), req);
            && (v.Err? ==> r == Err(v.error) && db.State() == old(db.State()))
            && (v.Ok? ==> r == Ok(())
                          && db.State() == old(db.State()).(flights := old(db.flights).Insert(v.value)))
  {
    if IsBefore(req.arrivalTime, req.departureTime) {
      return Err(BadRequest(ArrivalBeforeDeparture));
    }
    if Taken(db.flights, FlightNumberOf, req.flightNumber) {
      return Err(BadRequest(FlightNumberExists));
    }
    var departure := FindBy(db.airports, IataCodeOf, req.departureAirportIataCode);
    if departure.None? {
      return Err(NotFound(DepartureAirportNotFound));
    }
    var arrival := FindBy(db.airports, IataCodeOf, req.arrivalAirportIataCode);
    if arrival.None? {
      return Err(NotFound(ArrivalAirportNotFound));
    }
    var flight := Flight(req.flightNumber, Scheduled, departure.value, arrival.value,
                         req.departureTime, req.arrivalTime, req.basePrice, None);
    if req.pilotId.Some? {
      var pilot := CheckPilot(db.State(), req.pilotId.value);
      if pilot.Err? {
        return Err(pilot.error);
      }
      flight := flight.(assignedPilot := Some(pilot.value));
    }
    var saved := db.SaveFlight(flight);
    r := Ok(());
  }

  /** The flight updateFlight saves, or why it fails: an unknown id, then
      the pilot check when a pilot is named. Each non-null field overwrites
      the stored one; the flight number and the airports are kept, and the
      time order is not checked again. */
  function UpdatedFlight(s: Snapshot, req: FlightChanges): (r: Result<Flight>)
    requires Consistent(s)
    ensures req.id !in s.flights.rows ==> r == Err(NotFound(FlightNotFound))
    ensures req.id in s.flights.rows ==>
              (r.Ok? <==> req.pilotId.None? || CheckPilot(s, req.pilotId.value).Ok?)
    ensures req.id in s.flights.rows && r.Err? ==> r == Err(CheckPilot(s, req.pilotId.value).error)
    ensures r.Ok? ==>
              var old_ := s.flights.rows[req.id];
              && req.id in s.flights.rows
              && r.value.flightNumber == old_.flightNumber
              && r.value.departureAirport == old_.departureAirport
              && r.value.arrivalAirport == old_.arrivalAirport
              && r.value.departureTime == req.departureTime.UnwrapOr(old_.departureTime)
              && r.value.arrivalTime == req.arrivalTime.UnwrapOr(old_.arrivalTime)
              && r.value.basePrice == (if req.basePrice.Some? then req.basePrice else old_.basePrice)
              && r.value.status == req.status.UnwrapOr(old_.status)
              && r.value.assignedPilot == (if req.pilotId.Some? then req.pilotId else old_.assignedPilot)
              && FlightRefsOk(s.airports, s.users, r.value)
  {
    if req.id !in s.flights.rows then Err(NotFound(FlightNotFound))
    else
      var f := s.flights.rows[req.id];
      var changed := f.(departureTime := req.departureTime.UnwrapOr(f.departureTime),
                        arrivalTime := req.arrivalTime.UnwrapOr(f.arrivalTime),
                        basePrice := if req.basePrice.Some? then req.basePrice else f.basePrice,
                        status := req.status.UnwrapOr(f.status));
      if req.pilotId.None? then Ok(changed)
      else
        var pilot := CheckPilot(s, req.pilotId.value);
        if pilot.Err? then Err(pilot.error)
        else Ok(changed.(assignedPilot := Some(pilot.value)))
  }

  /** updateFlight: loads the flight, overwrites the fields the request
      carries one at a time and saves it; a failed check (the method is
      transactional) leaves the table as it was. */
  method UpdateFlight(db: Database, req: FlightChanges) returns (r: Result<()>)
    requires db.Valid()
    modifies db
    ensures db.Valid()
    ensures var v := UpdatedFlight(old(db.State()), req);
            && (v.Err? ==> r == Err(v.error) && db.State() == old(db.State()))
            && (v.Ok? ==> r == Ok(())
                          && db.State() == old(db.State()).(flights := old(db.flights).Put(req.id, v.value)))
  {
    if req.id !in db.flights.rows {
      return Err(NotFound(FlightNotFound));
    }
    var flight := db.flights.rows[req.id];
    if req.departureTime.Some? {
      flight := flight.(departureTime := req.departureTime.value);
    }
    if req.arrivalTime.Some? {
      flight := flight.(arrivalTime := req.arrivalTime.value);
    }
    if req.basePrice.Some? {
      flight := flight.(basePrice := req.basePrice);
    }
    if req.status.Some? {
      flight := flight.(status := req.status.value);
    }
    if req.pilotId.Some? {
      var pilot := CheckPilot(db.State(), req.pilotId.value);
      if pilot.Err? {
        return Err(pilot.error);
      }
      flight := flight.(assignedPilot := Some(pilot.value));
    }
    db.PutFlight(req.id, flight);
    r := Ok(());
  }

  /** getFlightById. */
  function FlightById(s: Snapshot, id: Id): (r: Result<FlightDto>)
    requires Consistent(s)
    ensures r.Err? <==> id !in s.flights.rows
    ensures r.Err? ==> r.error == NotFound(FlightNotFound)
    ensures r.Ok? ==> r.value.id == id && r.value.flightNumber == s.flights.rows[id].flightNumber
    ensures r.Ok? ==> FlightIsFlat(r.value) && r.value.booking.Some?
    ensures r.Ok? ==> forall bid :: bid in BookingIds(r.value.booking.value) <==>
                                    bid in s.bookings.rows && s.bookings.rows[bid].flight == id
    ensures r.Ok? ==> r.value.(booking := None) == FlightSummary(s, id)
    ensures r.Ok? ==> forall k :: 0 <= k < |r.value.booking.value| ==>
                        var b := r.value.booking.value[k];
                        b.id in s.bookings.rows && b == BookingView(s, b.id, None)
  {
    if id in s.flights.rows then Ok(FlightView(s, id)) else Err(NotFound(FlightNotFound))
  }

  /** The flights `ids`, in that order, each as getFlightById projects it. */
  function FlightViews(s: Snapshot, ids: seq<Id>): (r: seq<FlightDto>)
    requires Consistent(s) && forall id :: id in ids ==> id in s.flights.rows
    ensures FlightIds(r) == ids
    ensures forall k :: 0 <= k < |r| ==> r[k].id in s.flights.rows && r[k] == FlightView(s, r[k].id)
    ensures forall k :: 0 <= k < |r| ==> FlightIsFlat(r[k])
  {
    var r := seq(|ids|, k requires 0 <= k < |ids| => FlightView(s, ids[k]));
    assert FlightIds(r) == ids;
    r
  }

  /** getAllFlights: every stored flight, newest (highest id) first. */
  function AllFlights(s: Snapshot): (r: seq<FlightDto>)
    requires Consistent(s)
    ensures forall id :: id in FlightIds(r) <==> id in s.flights.rows
    ensures |r| == |s.flights.rows|
    ensures Decreasing(FlightIds(r))
    ensures forall k :: 0 <= k < |r| ==> FlightIsFlat(r[k])
    ensures forall k :: 0 <= k < |r| ==>
              r[k].id in s.flights.rows && r[k] == FlightView(s, r[k].id)
  {
    var ids := NewestFirst(s.flights, All);
    ListAllCount(s.flights);
    FlightViews(s, ids)
  }

  /** The flight departs from the airport with IATA code `from` and lands
      at the one with IATA code `to`. */
  predicate OnRoute(s: Snapshot, f: Flight, from: string, to: string) {
    && f.departureAirport in s.airports.rows && s.airports.rows[f.departureAirport].iataCode == from
    && f.arrivalAirport in s.airports.rows && s.airports.rows[f.arrivalAirport].iataCode == to
  }

  /** searchForFlight: the flights on the route with the status whose
      departure time lies between the first and the last nanosecond of
      `date`, each without its pilot and its booking list. */
  function SearchForFlight(s: Snapshot, from: string, to: string, status: FlightStatus, date: Date)
    : (r: seq<FlightDto>)
    requires Consistent(s)
    ensures forall id :: id in FlightIds(r) <==>
              && id in s.flights.rows
              && OnRoute(s, s.flights.rows[id], from, to)
              && s.flights.rows[id].status == status
              && DateOf(s.flights.rows[id].departureTime) == date
    ensures forall k :: 0 <= k < |r| ==> r[k].assignedPilot.None? && r[k].booking.None?
    ensures forall k :: 0 <= k < |r| ==>
              r[k].id in s.flights.rows && r[k] == FlightSummary(s, r[k].id).(assignedPilot := None)
  {
    var start, end := StartOfDay(date), EndOfDay(date);
    var ids := InKeyOrder(s.flights, (f: Flight) =>
                 OnRoute(s, f, from, to) && f.status == status && start <= f.departureTime <= end);
    DayRange(date);
    var r := seq(|ids|, k requires 0 <= k < |ids| => FlightSummary(s, ids[k]).(assignedPilot := None));
    assert FlightIds(r) == ids;
    r
  }
}
