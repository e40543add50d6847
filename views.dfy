/**
 * The DTOs the services return and the ModelMapper projections that build
 * them: each DTO copies its entity field for field, with associations
 * projected in turn. A flight's DTO carries the DTOs of its bookings and a
 * booking's DTO carries the DTO of its flight; the services cut that cycle
 * on one side, and the predicates `FlightIsFlat` and `BookingIsFlat` say
 * that it is cut.
 */
module Views {

  import opened Results
  import opened Tables
  import opened Clock
  import opened Cities
  import opened Entities
  import opened Store

  datatype AirportDto = AirportDto(id: Id, name: string, city: City, country: Country, iataCode: string)

  datatype RoleDto = RoleDto(id: Id, name: string)

  /** The password is write-only in JSON and is left out. */
  datatype UserDto = UserDto(
    id: Id,
    name: string,
    email: string,
    phoneNumber: string,
    emailVerified: bool,
    provider: AuthMethod,
    providerId: Option<string>,
    roles: seq<RoleDto>,
    active: bool,
    createdAt: Time,
    updatedAt: Time)

  datatype PassengerDto = PassengerDto(
    id: Id,
    firstName: string,
    lastName: string,
    passportNumber: string,
    passengerType: PassengerType,
    seatNumber: string,
    specialRequest: string)

  /** `booking` is `None` where a service has cleared it (Java `null`). */
  datatype FlightDto = FlightDto(
    id: Id,
    flightNumber: string,
    status: FlightStatus,
    departureAirport: AirportDto,
    arrivalAirport: AirportDto,
    departureTime: Time,
    arrivalTime: Time,
    basePrice: Option<Money>,
    assignedPilot: Option<UserDto>,
    booking: Option<seq<BookingDto>>)

  /** `flight` is `None` where a service has cleared it (Java `null`). */
  datatype BookingDto = BookingDto(
    id: Id,
    bookingReference: string,
    user: UserDto,
    flight: Option<FlightDto>,
    bookingDate: Time,
    status: BookingStatus,
    passengers: seq<PassengerDto>)

  /** No booking nested in this flight leads back to a flight. */
  predicate FlightIsFlat(f: FlightDto) {
    f.booking.Some? ==> forall k :: 0 <= k < |f.booking.value| ==> f.booking.value[k].flight.None?
  }

  /** The flight nested in this booking does not lead back to bookings. */
  predicate BookingIsFlat(b: BookingDto) {
    b.flight.Some? ==> b.flight.value.booking.None?
  }

  function FlightIds(fs: seq<FlightDto>): seq<Id> {
    seq(|fs|, k requires 0 <= k < |fs| => fs[k].id)
  }

  function BookingIds(bs: seq<BookingDto>): seq<Id> {
    seq(|bs|, k requires 0 <= k < |bs| => bs[k].id)
  }

  function AirportIds(as_: seq<AirportDto>): seq<Id> {
    seq(|as_|, k requires 0 <= k < |as_| => as_[k].id)
  }

  function RoleIds(rs: seq<RoleDto>): seq<Id> {
    seq(|rs|, k requires 0 <= k < |rs| => rs[k].id)
  }

  function UserIds(us: seq<UserDto>): seq<Id> {
    seq(|us|, k requires 0 <= k < |us| => us[k].id)
  }

  /** `user.getRoles()` mapped to `Role::getName`, in list order. */
  function RoleNames(s: Snapshot, u: User): (names: seq<string>)
    requires UserRefsOk(s.roles, u)
    ensures |names| == |u.roles|
    ensures forall k :: 0 <= k < |u.roles| ==> names[k] == s.roles.rows[u.roles[k]].name
  {
    seq(|u.roles|, k requires 0 <= k < |u.roles| => s.roles.rows[u.roles[k]].name)
  }

  function PassengerIds(ps: seq<PassengerDto>): seq<Id> {
    seq(|ps|, k requires 0 <= k < |ps| => ps[k].id)
  }

  /** The airport an airport DTO describes: the DTO drops nothing but the id. */
  function AirportOf(d: AirportDto): Airport {
    Airport(d.name, d.city, d.country, d.iataCode)
  }

  /** The user a user DTO describes, given the password the DTO leaves out. */
  function UserOf(d: UserDto, password: string): User {
    User(d.name, d.email, d.phoneNumber, password, d.emailVerified, d.provider, d.providerId,
         RoleIds(d.roles), d.active, d.createdAt, d.updatedAt)
  }

  /** The passenger a passenger DTO describes, given its booking. */
  function PassengerOf(d: PassengerDto, booking: Id): Passenger {
    Passenger(booking, d.firstName, d.lastName, d.passportNumber, d.passengerType, d.seatNumber,
              d.specialRequest)
  }

  /** `modelMapper.map(airport, AirportDTO.class)`: a copy of the stored airport. */
  function AirportView(s: Snapshot, id: Id): (d: AirportDto)
    requires id in s.airports.rows
    ensures d.id == id && AirportOf(d) == s.airports.rows[id]
  {
    var a := s.airports.rows[id];
    AirportDto(id, a.name, a.city, a.country, a.iataCode)
  }

  function RoleView(s: Snapshot, id: Id): RoleDto
    requires id in s.roles.rows
  {
    RoleDto(id, s.roles.rows[id].name)
  }

  /** `modelMapper.map(user, UserDTO.class)`: every field but the password,
      the roles projected in list order. */
  function UserView(s: Snapshot, id: Id): (d: UserDto)
    requires id in s.users.rows && UserRefsOk(s.roles, s.users.rows[id])
    ensures d.id == id && UserOf(d, s.users.rows[id].password) == s.users.rows[id]
    ensures forall k :: 0 <= k < |d.roles| ==>
              d.roles[k].id in s.roles.rows && d.roles[k].name == s.roles.rows[d.roles[k].id].name
  {
    var u := s.users.rows[id];
    var roles := seq(|u.roles|, k requires 0 <= k < |u.roles| => RoleView(s, u.roles[k]));
    assert RoleIds(roles) == u.roles;
    UserDto(id, u.name, u.email, u.phoneNumber, u.emailVerified, u.provider, u.providerId,
            roles, u.active, u.createdAt, u.updatedAt)
  }

  function PassengerView(s: Snapshot, id: Id): (d: PassengerDto)
    requires id in s.passengers.rows
    ensures d.id == id && PassengerOf(d, s.passengers.rows[id].booking) == s.passengers.rows[id]
  {
    var p := s.passengers.rows[id];
    PassengerDto(id, p.firstName, p.lastName, p.passportNumber, p.passengerType, p.seatNumber, p.specialRequest)
  }

  /** `booking.getPassengers()`: exactly the passengers whose booking is
      `bookingId`, each a copy of the stored row. */
  function PassengerViews(s: Snapshot, bookingId: Id): (ps: seq<PassengerDto>)
    requires s.passengers.Valid()
    ensures forall pid :: pid in PassengerIds(ps) <==>
                          pid in s.passengers.rows && s.passengers.rows[pid].booking == bookingId
    ensures forall k :: 0 <= k < |ps| ==>
              ps[k].id in s.passengers.rows && PassengerOf(ps[k], bookingId) == s.passengers.rows[ps[k].id]
  {
    var ids := InKeyOrder(s.passengers, (p: Passenger) => p.booking == bookingId);
    var ps := seq(|ids|, k requires 0 <= k < |ids| => PassengerView(s, ids[k]));
    assert PassengerIds(ps) == ids;
    ps
  }

  /** A flight projected without its booking list: every other field copied,
      the airports and the pilot projected in turn. */
  function FlightSummary(s: Snapshot, id: Id): (d: FlightDto)
    requires Consistent(s) && id in s.flights.rows
    ensures d.id == id && d.booking.None?
    ensures var f := s.flights.rows[id];
            && d.flightNumber == f.flightNumber && d.status == f.status
            && d.departureAirport == AirportView(s, f.departureAirport)
            && d.arrivalAirport == AirportView(s, f.arrivalAirport)
            && d.departureTime == f.departureTime && d.arrivalTime == f.arrivalTime
            && d.basePrice == f.basePrice
            && (d.assignedPilot.Some? <==> f.assignedPilot.Some?)
            && (f.assignedPilot.Some? ==> d.assignedPilot.value == UserView(s, f.assignedPilot.value))
  {
    var f := s.flights.rows[id];
    FlightDto(id, f.flightNumber, f.status,
              AirportView(s, f.departureAirport), AirportView(s, f.arrivalAirport),
              f.departureTime, f.arrivalTime, f.basePrice,
              if f.assignedPilot.Some? then Some(UserView(s, f.assignedPilot.value)) else None,
              None)
  }

  /** A booking projected with the given flight DTO in its `flight` field:
      every other field copied, the user and the passengers projected. */
  function BookingView(s: Snapshot, id: Id, flight: Option<FlightDto>): (d: BookingDto)
    requires Consistent(s) && id in s.bookings.rows
    ensures d.id == id && d.flight == flight
    ensures var b := s.bookings.rows[id];
            && d.bookingReference == b.bookingReference && d.bookingDate == b.bookingDate
            && d.status == b.status
            && d.user == UserView(s, b.user)
            && d.passengers == PassengerViews(s, id)
  {
    var b := s.bookings.rows[id];
    BookingDto(id, b.bookingReference, UserView(s, b.user), flight, b.bookingDate, b.status,
               PassengerViews(s, id))
  }

  /** A flight as `getFlightById` returns it: its bookings listed, each with
      its `flight` cleared. */
  function FlightView(s: Snapshot, id: Id): (d: FlightDto)
    requires Consistent(s) && id in s.flights.rows
    ensures d.id == id && FlightIsFlat(d) && d.booking.Some?
    ensures forall bid :: bid in BookingIds(d.booking.value) <==>
                          bid in s.bookings.rows && s.bookings.rows[bid].flight == id
    ensures d.(booking := None) == FlightSummary(s, id)
    ensures forall k :: 0 <= k < |d.booking.value| ==>
              d.booking.value[k].id in s.bookings.rows &&
              d.booking.value[k] == BookingView(s, d.booking.value[k].id, None)
  {
    var ids := InKeyOrder(s.bookings, (b: Booking) => b.flight == id);
    var bs := seq(|ids|, k requires 0 <= k < |ids| => BookingView(s, ids[k], None));
    assert BookingIds(bs) == ids;
    FlightSummary(s, id).(booking := Some(bs))
  }

  /** A booking as `getBookingById` returns it: its flight attached, with
      that flight's booking list cleared. */
  function BookingWithFlight(s: Snapshot, id: Id): (d: BookingDto)
    requires Consistent(s) && id in s.bookings.rows
    ensures d.id == id && BookingIsFlat(d)
    ensures d.flight.Some? && d.flight.value.id == s.bookings.rows[id].flight
    ensures d.flight.value == FlightSummary(s, s.bookings.rows[id].flight)
    ensures d.(flight := None) == BookingView(s, id, None)
  {
    BookingView(s, id, Some(FlightSummary(s, s.bookings.rows[id].flight)))
  }
}
