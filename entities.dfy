/**
 * The persisted entities. A reference to another entity (a JPA many-to-one
 * association) is the referenced row's id; the one-to-many back-references
 * (`Flight.booking`, `Booking.passengers`, `User.bookings`) are not stored
 * but read off the owning side.
 */
module Entities {

  import opened Results
  import opened Tables
  import opened Clock
  import opened Cities

  /** A `BigDecimal` amount: carried and compared, never computed with. */
  datatype Money = Money(unscaledValue: int, scale: int)

  /** How an account authenticates; registration always writes `Local`. */
  datatype AuthMethod = Local | External(provider: string)

  datatype FlightStatus = Scheduled | Delayed | Cancelled

  datatype BookingStatus = Confirmed | Cancelled

  /** The passenger type constant's name; the services only copy it. */
  type PassengerType = string

  datatype Role = Role(name: string)

  datatype User = User(
    name: string,
    email: string,
    phoneNumber: string,
    password: string,           // the encoded password
    emailVerified: bool,
    provider: AuthMethod,
    providerId: Option<string>,
    roles: seq<Id>,             // the users_roles join table, in list order
    active: bool,
    createdAt: Time,
    updatedAt: Time)

  datatype Airport = Airport(name: string, city: City, country: Country, iataCode: string)

  datatype Flight = Flight(
    flightNumber: string,
    status: FlightStatus,
    departureAirport: Id,
    arrivalAirport: Id,
    departureTime: Time,
    arrivalTime: Time,
    basePrice: Option<Money>,
    assignedPilot: Option<Id>)

  datatype Booking = Booking(
    bookingReference: string,
    user: Id,
    flight: Id,
    bookingDate: Time,
    status: BookingStatus)

  datatype Passenger = Passenger(
    booking: Id,
    firstName: string,
    lastName: string,
    passportNumber: string,
    passengerType: PassengerType,
    seatNumber: string,
    specialRequest: string)

  /** A request handed to the e-mail notification service. */
  datatype Notification = WelcomeEmail(user: Id) | BookingTicketEmail(booking: Id)

  // The columns declared `unique = true`.
  function EmailOf(u: User): string { u.email }
  function IataCodeOf(a: Airport): string { a.iataCode }
  function FlightNumberOf(f: Flight): string { f.flightNumber }
  function ReferenceOf(b: Booking): string { b.bookingReference }
  function RoleNameOf(r: Role): string { r.name }

  /** `iataCode` is declared `length = 3`: at most three characters fit. */
  const IataColumnLength: nat := 3
}
