/**
 * The database behind the services: one table per JPA repository and the
 * outbox of notification requests handed to the e-mail service. The column
 * constraints of the entities are enforced here, as the database enforces
 * them: a save that would break one fails with a `DataAccess` error.
 */
module Store {

  import opened Results
  import opened Tables
  import opened Cities
  import opened Entities

  /** Everything the database holds at one moment. */
  datatype Snapshot = Snapshot(
    users: Table<User>,
    roles: Table<Role>,
    airports: Table<Airport>,
    flights: Table<Flight>,
    bookings: Table<Booking>,
    passengers: Table<Passenger>,
    outbox: seq<Notification>)

  /** An airport's city lies in its country and its IATA code fits its column. */
  ghost predicate AirportOk(a: Airport) {
    CountryOf(a.city) == a.country && |a.iataCode| <= IataColumnLength
  }

  /** Every role in a user's role list is a stored role. */
  ghost predicate UserRefsOk(roles: Table<Role>, u: User) {
    forall i :: 0 <= i < |u.roles| ==> u.roles[i] in roles.rows
  }

  ghost predicate FlightRefsOk(airports: Table<Airport>, users: Table<User>, f: Flight) {
    && f.departureAirport in airports.rows
    && f.arrivalAirport in airports.rows
    && (f.assignedPilot.Some? ==> f.assignedPilot.value in users.rows)
  }

  ghost predicate BookingRefsOk(users: Table<User>, flights: Table<Flight>, b: Booking) {
    b.user in users.rows && b.flight in flights.rows
  }

  ghost predicate PassengerRefsOk(bookings: Table<Booking>, p: Passenger) {
    p.booking in bookings.rows
  }

  ghost predicate NotificationRefsOk(users: Table<User>, bookings: Table<Booking>, n: Notification) {
    match n
    case WelcomeEmail(u) => u in users.rows
    case BookingTicketEmail(b) => b in bookings.rows
  }

  /**
   * The integrity the schema guarantees: ids below the next id, the unique
   * columns, the IATA column length, every foreign key resolving, and the
   * airport rule that a city lies in its airport's country.
   */
  ghost predicate Consistent(s: Snapshot) {
    && s.roles.Valid()
    && UsersOk(s.roles, s.users)
    && AirportsOk(s.airports)
    && FlightsOk(s.airports, s.users, s.flights)
    && BookingsOk(s.users, s.flights, s.bookings)
    && PassengersOk(s.bookings, s.passengers)
    && OutboxOk(s.users, s.bookings, s.outbox)
  }

  /* One conjunct per table, over the tables it refers to, so that a save
     into one table leaves the others' conjuncts untouched. */

  ghost predicate UsersOk(roles: Table<Role>, users: Table<User>) {
    && users.Valid() && Unique(users, EmailOf)
    && forall id :: id in users.rows ==> UserRefsOk(roles, users.rows[id])
  }

  ghost predicate AirportsOk(airports: Table<Airport>) {
    && airports.Valid() && Unique(airports, IataCodeOf)
    && forall id :: id in airports.rows ==> AirportOk(airports.rows[id])
  }

  ghost predicate FlightsOk(airports: Table<Airport>, users: Table<User>, flights: Table<Flight>) {
    && flights.Valid() && Unique(flights, FlightNumberOf)
    && forall id :: id in flights.rows ==> FlightRefsOk(airports, users, flights.rows[id])
  }

  ghost predicate BookingsOk(users: Table<User>, flights: Table<Flight>, bookings: Table<Booking>) {
    && bookings.Valid() && Unique(bookings, ReferenceOf)
    && forall id :: id in bookings.rows ==> BookingRefsOk(users, flights, bookings.rows[id])
  }

  ghost predicate PassengersOk(bookings: Table<Booking>, passengers: Table<Passenger>) {
    && passengers.Valid()
    && forall id :: id in passengers.rows ==> PassengerRefsOk(bookings, passengers.rows[id])
  }

  ghost predicate OutboxOk(users: Table<User>, bookings: Table<Booking>, outbox: seq<Notification>) {
    forall i :: 0 <= i < |outbox| ==> NotificationRefsOk(users, bookings, outbox[i])
  }

  /** Re-saving a booking with its reference kept leaves the snapshot
      consistent: the booking ids, which passengers and ticket
      notifications refer to, stay the same. */
  lemma PutBookingKeepsConsistent(s: Snapshot, id: Id, b: Booking)
    requires Consistent(s) && id in s.bookings.rows && BookingRefsOk(s.users, s.flights, b)
    requires b.bookingReference == s.bookings.rows[id].bookingReference
    ensures Consistent(s.(bookings := s.bookings.Put(id, b)))
  {
    var t := s.bookings.Put(id, b);
    assert t.rows.Keys == s.bookings.rows.Keys;
    PutKeepsUnique(s.bookings, ReferenceOf, id, b);
    forall i | 0 <= i < |s.outbox|
      ensures NotificationRefsOk(s.users, t, s.outbox[i])
    {
      assert NotificationRefsOk(s.users, s.bookings, s.outbox[i]);
    }
    forall pid | pid in s.passengers.rows
      ensures PassengerRefsOk(t, s.passengers.rows[pid])
    {
      assert PassengerRefsOk(s.bookings, s.passengers.rows[pid]);
    }
  }

  /** Saving a new booking whose reference is free keeps the snapshot
      consistent: existing passengers and notifications still resolve. */
  lemma InsertBookingKeepsConsistent(s: Snapshot, b: Booking)
    requires Consistent(s) && BookingRefsOk(s.users, s.flights, b)
    requires !Taken(s.bookings, ReferenceOf, b.bookingReference)
    ensures Consistent(s.(bookings := s.bookings.Insert(b)))
  {
    var t := s.bookings.Insert(b);
    InsertKeepsUnique(s.bookings, ReferenceOf, b);
    forall i | 0 <= i < |s.outbox|
      ensures NotificationRefsOk(s.users, t, s.outbox[i])
    {
      assert NotificationRefsOk(s.users, s.bookings, s.outbox[i]);
    }
    forall pid | pid in s.passengers.rows
      ensures PassengerRefsOk(t, s.passengers.rows[pid])
    {
      assert PassengerRefsOk(s.bookings, s.passengers.rows[pid]);
    }
  }

  /** Saving a passenger of a stored booking keeps the snapshot consistent. */
  lemma InsertPassengerKeepsConsistent(s: Snapshot, p: Passenger)
    requires Consistent(s) && PassengerRefsOk(s.bookings, p)
    ensures Consistent(s.(passengers := s.passengers.Insert(p)))
  {
    var t := s.passengers.Insert(p);
    forall pid | pid in t.rows
      ensures PassengerRefsOk(s.bookings, t.rows[pid])
    {
      if pid != s.passengers.nextId {
        assert PassengerRefsOk(s.bookings, s.passengers.rows[pid]);
      }
    }
    assert t.Valid();
  }

  /** Saving a list of passengers of stored bookings keeps the snapshot
      consistent. */
  lemma {:induction false} InsertAllPassengersKeepsConsistent(s: Snapshot, ps: seq<Passenger>)
    requires Consistent(s) && forall i :: 0 <= i < |ps| ==> PassengerRefsOk(s.bookings, ps[i])
    ensures Consistent(s.(passengers := InsertAll(s.passengers, ps)))
  {
    if ps != [] {
      var init := ps[..|ps| - 1];
      InsertAllPassengersKeepsConsistent(s, init);
      InsertPassengerKeepsConsistent(s.(passengers := InsertAll(s.passengers, init)), ps[|ps| - 1]);
    }
  }

  /** Re-saving a user with its email kept keeps the snapshot consistent:
      the user ids, which flights, bookings and notifications refer to, stay
      the same. */
  lemma PutUserKeepsConsistent(s: Snapshot, id: Id, u: User)
    requires Consistent(s) && id in s.users.rows && UserRefsOk(s.roles, u)
    requires u.email == s.users.rows[id].email
    ensures Consistent(s.(users := s.users.Put(id, u)))
  {
    var t := s.users.Put(id, u);
    assert t.rows.Keys == s.users.rows.Keys;
    PutKeepsUnique(s.users, EmailOf, id, u);
    forall uid | uid in t.rows
      ensures UserRefsOk(s.roles, t.rows[uid])
    {
      if uid != id {
        assert UserRefsOk(s.roles, s.users.rows[uid]);
      }
    }
    forall fid | fid in s.flights.rows
      ensures FlightRefsOk(s.airports, t, s.flights.rows[fid])
    {
      assert FlightRefsOk(s.airports, s.users, s.flights.rows[fid]);
    }
    forall bid | bid in s.bookings.rows
      ensures BookingRefsOk(t, s.flights, s.bookings.rows[bid])
    {
      assert BookingRefsOk(s.users, s.flights, s.bookings.rows[bid]);
    }
    forall i | 0 <= i < |s.outbox|
      ensures NotificationRefsOk(t, s.bookings, s.outbox[i])
    {
      assert NotificationRefsOk(s.users, s.bookings, s.outbox[i]);
    }
  }

  /** Re-saving a flight with its number kept keeps the snapshot consistent:
      the flight ids, which bookings refer to, stay the same. */
  lemma PutFlightKeepsConsistent(s: Snapshot, id: Id, f: Flight)
    requires Consistent(s) && id in s.flights.rows && FlightRefsOk(s.airports, s.users, f)
    requires f.flightNumber == s.flights.rows[id].flightNumber
    ensures Consistent(s.(flights := s.flights.Put(id, f)))
  {
    var t := s.flights.Put(id, f);
    assert t.rows.Keys == s.flights.rows.Keys;
    PutKeepsUnique(s.flights, FlightNumberOf, id, f);
    forall fid | fid in t.rows
      ensures FlightRefsOk(s.airports, s.users, t.rows[fid])
    {
      if fid != id {
        assert FlightRefsOk(s.airports, s.users, s.flights.rows[fid]);
      }
    }
    forall bid | bid in s.bookings.rows
      ensures BookingRefsOk(s.users, t, s.bookings.rows[bid])
    {
      assert BookingRefsOk(s.users, s.flights, s.bookings.rows[bid]);
    }
  }

  /** Handing over a notification about a stored user or booking keeps the
      snapshot consistent. */
  lemma NotifyKeepsConsistent(s: Snapshot, n: Notification)
    requires Consistent(s) && NotificationRefsOk(s.users, s.bookings, n)
    ensures Consistent(s.(outbox := s.outbox + [n]))
  {
    var o := s.outbox + [n];
    forall i | 0 <= i < |o|
      ensures NotificationRefsOk(s.users, s.bookings, o[i])
    {
      if i < |s.outbox| {
        assert o[i] == s.outbox[i];
      }
    }
  }

  /** Another row than `id` already has key `k`. */
  predicate TakenByOther<T, K(==)>(t: Table<T>, key: T -> K, id: Id, k: K) {
    exists other | other in t.rows :: other != id && key(t.rows[other]) == k
  }

  const DuplicateKey := "duplicate key value violates unique constraint"
  const ValueTooLong := "value too long for column"

  class Database {
    var users: Table<User>
    var roles: Table<Role>
    var airports: Table<Airport>
    var flights: Table<Flight>
    var bookings: Table<Booking>
    var passengers: Table<Passenger>
    var outbox: seq<Notification>

    function State(): Snapshot
      reads this
    {
      Snapshot(users, roles, airports, flights, bookings, passengers, outbox)
    }

    ghost predicate Valid()
      reads this
    {
      Consistent(State())
    }

    /** A database with empty tables and nothing sent. */
    constructor ()
      ensures Valid()
      ensures State() == Snapshot(Empty(), Empty(), Empty(), Empty(), Empty(), Empty(), [])
    {
      users, roles, airports := Empty(), Empty(), Empty();
      flights, bookings, passengers := Empty(), Empty(), Empty();
      outbox := [];
    }

    /** `userRepo.save` of a new user: the email column is unique. */
    method SaveUser(u: User) returns (r: Result<Id>)
      requires Valid() && UserRefsOk(roles, u)
      modifies this
      ensures Valid()
      ensures Taken(old(users), EmailOf, u.email) ==>
                r == Err(DataAccess(DuplicateKey)) && State() == old(State())
      ensures !Taken(old(users), EmailOf, u.email) ==>
                r == Ok(old(users.nextId)) && State() == old(State()).(users := old(users).Insert(u))
    {
      if Taken(users, EmailOf, u.email) {
        return Err(DataAccess(DuplicateKey));
      }
      r := Ok(users.nextId);
      users := users.Insert(u);
    }

    /** `userRepo.save` of a loaded user whose email is kept. */
    method PutUser(id: Id, u: User)
      requires Valid() && id in users.rows && UserRefsOk(roles, u)
      requires u.email == users.rows[id].email
      modifies this
      ensures Valid()
      ensures State() == old(State()).(users := old(users).Put(id, u))
    {
      PutUserKeepsConsistent(State(), id, u);
      users := users.Put(id, u);
    }

    /** `roleRepo.save` of a new role: the name column has no constraint. */
    method SaveRole(role: Role) returns (id: Id)
      requires Valid()
      modifies this
      ensures Valid()
      ensures id == old(roles.nextId)
      ensures State() == old(State()).(roles := old(roles).Insert(role))
    {
      id := roles.nextId;
      roles := roles.Insert(role);
    }

    /** `roleRepo.save` of a loaded role. */
    method PutRole(id: Id, role: Role)
      requires Valid() && id in roles.rows
      modifies this
      ensures Valid()
      ensures State() == old(State()).(roles := old(roles).Put(id, role))
    {
      roles := roles.Put(id, role);
    }

    /** `airportRepo.save` of a new airport: the IATA column is unique and
        three characters wide. */
    method SaveAirport(a: Airport) returns (r: Result<Id>)
      requires Valid() && CountryOf(a.city) == a.country
      modifies this
      ensures Valid()
      ensures |a.iataCode| > IataColumnLength ==>
                r == Err(DataAccess(ValueTooLong)) && State() == old(State())
      ensures |a.iataCode| <= IataColumnLength && Taken(old(airports), IataCodeOf, a.iataCode) ==>
                r == Err(DataAccess(DuplicateKey)) && State() == old(State())
      ensures |a.iataCode| <= IataColumnLength && !Taken(old(airports), IataCodeOf, a.iataCode) ==>
                r == Ok(old(airports.nextId)) && State() == old(State()).(airports := old(airports).Insert(a))
    {
      if |a.iataCode| > IataColumnLength {
        return Err(DataAccess(ValueTooLong));
      }
      if Taken(airports, IataCodeOf, a.iataCode) {
        return Err(DataAccess(DuplicateKey));
      }
      r := Ok(airports.nextId);
      airports := airports.Insert(a);
    }

    /** `airportRepo.save` of a loaded airport, whose IATA code may have changed. */
    method PutAirport(id: Id, a: Airport) returns (r: Result<Id>)
      requires Valid() && id in airports.rows && CountryOf(a.city) == a.country
      modifies this
      ensures Valid()
      ensures |a.iataCode| > IataColumnLength ==>
                r == Err(DataAccess(ValueTooLong)) && State() == old(State())
      ensures |a.iataCode| <= IataColumnLength && TakenByOther(old(airports), IataCodeOf, id, a.iataCode) ==>
                r == Err(DataAccess(DuplicateKey)) && State() == old(State())
      ensures |a.iataCode| <= IataColumnLength && !TakenByOther(old(airports), IataCodeOf, id, a.iataCode) ==>
                r == Ok(id) && State() == old(State()).(airports := old(airports).Put(id, a))
    {
      if |a.iataCode| > IataColumnLength {
        return Err(DataAccess(ValueTooLong));
      }
      if TakenByOther(airports, IataCodeOf, id, a.iataCode) {
        return Err(DataAccess(DuplicateKey));
      }
      r := Ok(id);
      airports := airports.Put(id, a);
    }

    /** `flightRepo.save` of a new flight: the flight number is unique. */
    method SaveFlight(f: Flight) returns (r: Result<Id>)
      requires Valid() && FlightRefsOk(airports, users, f)
      modifies this
      ensures Valid()
      ensures Taken(old(flights), FlightNumberOf, f.flightNumber) ==>
                r == Err(DataAccess(DuplicateKey)) && State() == old(State())
      ensures !Taken(old(flights), FlightNumberOf, f.flightNumber) ==>
                r == Ok(old(flights.nextId)) && State() == old(State()).(flights := old(flights).Insert(f))
    {
      if Taken(flights, FlightNumberOf, f.flightNumber) {
        return Err(DataAccess(DuplicateKey));
      }
      r := Ok(flights.nextId);
      flights := flights.Insert(f);
    }

    /** `flightRepo.save` of a loaded flight whose number is kept. */
    method PutFlight(id: Id, f: Flight)
      requires Valid() && id in flights.rows && FlightRefsOk(airports, users, f)
      requires f.flightNumber == flights.rows[id].flightNumber
      modifies this
      ensures Valid()
      ensures State() == old(State()).(flights := old(flights).Put(id, f))
    {
      PutFlightKeepsConsistent(State(), id, f);
      flights := flights.Put(id, f);
    }

    /** `bookingRepo.save` of a new booking: the booking reference is unique. */
    method SaveBooking(b: Booking) returns (r: Result<Id>)
      requires Valid() && BookingRefsOk(users, flights, b)
      modifies this
      ensures Valid()
      ensures Taken(old(bookings), ReferenceOf, b.bookingReference) ==>
                r == Err(DataAccess(DuplicateKey)) && State() == old(State())
      ensures !Taken(old(bookings), ReferenceOf, b.bookingReference) ==>
                r == Ok(old(bookings.nextId)) && State() == old(State()).(bookings := old(bookings).Insert(b))
    {
      if Taken(bookings, ReferenceOf, b.bookingReference) {
        return Err(DataAccess(DuplicateKey));
      }
      InsertBookingKeepsConsistent(State(), b);
      r := Ok(bookings.nextId);
      bookings := bookings.Insert(b);
    }

    /** `bookingRepo.save` of a loaded booking whose reference is kept. */
    method PutBooking(id: Id, b: Booking)
      requires Valid() && id in bookings.rows && BookingRefsOk(users, flights, b)
      requires b.bookingReference == bookings.rows[id].bookingReference
      modifies this
      ensures Valid()
      ensures State() == old(State()).(bookings := old(bookings).Put(id, b))
    {
      PutBookingKeepsConsistent(State(), id, b);
      bookings := bookings.Put(id, b);
    }

    /** `passengerRepo.saveAll`: each passenger in turn gets the next id. */
    method SaveAllPassengers(ps: seq<Passenger>)
      requires Valid()
      requires forall i :: 0 <= i < |ps| ==> PassengerRefsOk(bookings, ps[i])
      modifies this
      ensures Valid()
      ensures State() == old(State()).(passengers := InsertAll(old(passengers), ps))
    {
      var t := SaveEach(passengers, ps);
      InsertAllPassengersKeepsConsistent(State(), ps);
      passengers := t;
    }

    /** Hands a notification request to the e-mail service. */
    method Notify(n: Notification)
      requires Valid() && NotificationRefsOk(users, bookings, n)
      modifies this
      ensures Valid()
      ensures State() == old(State()).(outbox := old(outbox) + [n])
    {
      ghost var after := State().(outbox := outbox + [n]);
      NotifyKeepsConsistent(State(), n);
      outbox := outbox + [n];
      assert State() == after;
    }
  }
}
