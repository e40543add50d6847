/**
 * The booking workflow: booking a scheduled flight for the signed-in user
 * with its passengers and a ticket e-mail, changing a booking's status, and
 * the read projections over the booking table.
 */
module BookingService {

  import opened Results
  import opened Tables
  import opened Clock
  import opened Text
  import opened Entities
  import opened Store
  import opened Views
  import opened UserService
  import FlightService

  const OnlyScheduled := "You can only book a flight that is scheduled"
  const BookingNotFound := "Booking Not Found"

  /** One hexadecimal digit of a UUID. */
  newtype Nibble = n: int | 0 <= n < 16

  /** A UUID as its 32 hexadecimal digits, most significant first. */
  type Uuid = d: seq<Nibble> | |d| == 32 witness seq(32, _ => 0 as Nibble)

  /** `Character.forDigit(n, 16)`: digits, then lower-case letters. */
  function HexDigit(n: Nibble): char {
    if n < 10 then ('0' as int + n as int) as char else ('a' as int + n as int - 10) as char
  }

  /** The upper-case hexadecimal digit of `n`. */
  function UpperHexDigit(n: Nibble): char {
    if n < 10 then ('0' as int + n as int) as char else ('A' as int + n as int - 10) as char
  }

  /** `uuid.toString()`: 8-4-4-4-12 lower-case hexadecimal digits. */
  function UuidToString(u: Uuid): (r: string)
    ensures |r| == 36
    ensures r[8] == '-' && r[13] == '-' && r[18] == '-' && r[23] == '-'
    ensures forall i :: 0 <= i < 8 ==> r[i] == HexDigit(u[i])
  {
    var h := seq(32, i requires 0 <= i < 32 => HexDigit(u[i]));
    h[..8] + "-" + h[8..12] + "-" + h[12..16] + "-" + h[16..20] + "-" + h[20..]
  }

  /** generateBookingReference: the first eight characters of a random
      UUID's text, upper-cased. It is eight upper-case hexadecimal digits,
      the UUID's first eight. */
  function BookingReference(u: Uuid): (r: string)
    ensures |r| == 8
    ensures forall i :: 0 <= i < 8 ==> r[i] == UpperHexDigit(u[i])
    ensures forall i :: 0 <= i < 8 ==> '0' <= r[i] <= '9' || 'A' <= r[i] <= 'F'
  {
    ToUpper(UuidToString(u)[..8])
  }

  /** Two UUIDs give the same reference exactly when their first eight
      digits agree: the reference keeps 32 of the UUID's bits, and nothing
      checks it against the references already stored. */
  lemma ReferenceCollision(u: Uuid, v: Uuid)
    ensures BookingReference(u) == BookingReference(v) <==> u[..8] == v[..8]
  {
    var ru, rv := BookingReference(u), BookingReference(v);
    if ru == rv {
      forall i | 0 <= i < 8
        ensures u[i] == v[i]
      {
        assert UpperHexDigit(u[i]) == UpperHexDigit(v[i]);
      }
    } else {
      var i :| 0 <= i < 8 && ru[i] != rv[i];
      assert u[..8][i] != v[..8][i];
    }
  }

  /** The fields of a `PassengerDTO`. */
  datatype PassengerDetails = PassengerDetails(
    firstName: string,
    lastName: string,
    passportNumber: string,
    passengerType: PassengerType,
    seatNumber: string,
    specialRequest: string)

  /** What createBooking reads from a `CreateBookingRequest`. */
  datatype BookingRequest = BookingRequest(flightId: Id, passengers: Option<seq<PassengerDetails>>)

  /** The passengers createBooking saves: none for a null or empty list. */
  function Requested(req: BookingRequest): seq<PassengerDetails> {
    if req.passengers.Some? then req.passengers.value else []
  }

  function DetailsOf(p: Passenger): PassengerDetails {
    PassengerDetails(p.firstName, p.lastName, p.passportNumber, p.passengerType, p.seatNumber, p.specialRequest)
  }

  /** Each requested passenger mapped to an entity linked to the booking. */
  function PassengerRows(bookingId: Id, ps: seq<PassengerDetails>): (rows: seq<Passenger>)
    ensures |rows| == |ps|
    ensures forall k :: 0 <= k < |ps| ==> rows[k].booking == bookingId && DetailsOf(rows[k]) == ps[k]
  {
    seq(|ps|, k requires 0 <= k < |ps| =>
      Passenger(bookingId, ps[k].firstName, ps[k].lastName, ps[k].passportNumber,
                ps[k].passengerType, ps[k].seatNumber, ps[k].specialRequest))
  }

  /** The booking createBooking saves, or the first check it fails: no
      signed-in user, an unknown flight, a flight that is not scheduled. */
  function BookingToSave(s: Snapshot, email: string, req: BookingRequest, u: Uuid, now: Time)
    : (r: Result<Booking>)
    requires Consistent(s)
    ensures !Taken(s.users, EmailOf, email) ==> r == Err(NotFound(UserNotFound))
    ensures Taken(s.users, EmailOf, email) && req.flightId !in s.flights.rows ==>
              r == Err(NotFound(FlightService.FlightNotFound))
    ensures Taken(s.users, EmailOf, email) && req.flightId in s.flights.rows
            && s.flights.rows[req.flightId].status != Scheduled ==>
              r == Err(BadRequest(OnlyScheduled))
    ensures r.Ok? <==> Taken(s.users, EmailOf, email) && req.flightId in s.flights.rows
                       && s.flights.rows[req.flightId].status == Scheduled
    ensures r.Ok? ==>
              && BookingRefsOk(s.users, s.flights, r.value)
              && s.users.rows[r.value.user].email == email
              && r.value.flight == req.flightId
              && s.flights.rows[r.value.flight].status == Scheduled
              && r.value.status == Confirmed
              && r.value.bookingDate == now
              && r.value.bookingReference == BookingReference(u)
  {
    var me :- CurrentUser(s, email);
    if req.flightId !in s.flights.rows then Err(NotFound(FlightService.FlightNotFound))
    else if s.flights.rows[req.flightId].status != Scheduled then Err(BadRequest(OnlyScheduled))
    else Ok(Booking(BookingReference(u), me, req.flightId, now, Confirmed))
  }

  /** The passengers a new booking lists (those whose booking is the new
      one) are exactly the rows saved with it: no passenger stored before
      can point at an id the booking table had not handed out. */
  lemma NewBookingLists(s: Snapshot, ps: seq<PassengerDetails>)
    requires Consistent(s)
    ensures var id := s.bookings.nextId;
            var after := InsertAll(s.passengers, PassengerRows(id, ps));
            forall pid :: pid in after.rows && after.rows[pid].booking == id <==>
                          s.passengers.nextId <= pid < s.passengers.nextId + |ps|
  {
    var id := s.bookings.nextId;
    var rows := PassengerRows(id, ps);
    var after := InsertAll(s.passengers, rows);
    forall pid | pid in after.rows && after.rows[pid].booking == id
      ensures s.passengers.nextId <= pid < s.passengers.nextId + |ps|
    {
      if pid in s.passengers.rows {
        assert false;
      }
    }
    forall pid | s.passengers.nextId <= pid < s.passengers.nextId + |ps|
      ensures pid in after.rows && after.rows[pid].booking == id
    {
      assert after.rows[s.passengers.nextId + (pid - s.passengers.nextId)] == rows[pid - s.passengers.nextId];
    }
  }

  /** The writes of createBooking once its checks pass: the booking, then
      its passengers when there are any, then the ticket notification. A
      reference that is already stored makes the first save fail, and
      nothing is written. */
  method SaveBookingWithPassengers(db: Database, booking: Booking, ps: seq<PassengerDetails>)
    returns (r: Result<()>)
    requires db.Valid() && BookingRefsOk(db.users, db.flights, booking)
    modifies db
    ensures db.Valid()
    ensures Taken(old(db.bookings), ReferenceOf, booking.bookingReference) ==>
              r == Err(DataAccess(DuplicateKey)) && db.State() == old(db.State())
    ensures !Taken(old(db.bookings), ReferenceOf, booking.bookingReference) ==>
              var id := old(db.bookings.nextId);
              && r == Ok(())
              && db.State() == old(db.State()).(
                   bookings := old(db.bookings).Insert(booking),
                   passengers := InsertAll(old(db.passengers), PassengerRows(id, ps)),
                   outbox := old(db.outbox) + [BookingTicketEmail(id)])
  {
    var saved := db.SaveBooking(booking);
    if saved.Err? {
      return Err(saved.error);
    }
    var id := saved.value;
    assert id in db.bookings.rows;
    if |ps| > 0 {
      db.SaveAllPassengers(PassengerRows(id, ps));
    } else {
      assert PassengerRows(id, ps) == [];
    }
    db.Notify(BookingTicketEmail(id));
    r := Ok(());
  }

  /** createBooking: saves the booking, then its passengers, then asks for
      the ticket e-mail. A reference that is already stored makes the save
      fail and, the method being transactional, nothing is written. */
  method CreateBooking(db: Database, email: string, req: BookingRequest, u: Uuid, now: Time)
    returns (r: Result<()>)
    requires db.Valid()
    modifies db
    ensures db.Valid()
    ensures var v := BookingToSave(old(db.State()), email, req, u, now);
            && (v.Err? ==> r == Err(v.error) && db.State() == old(db.State()))
            && (v.Ok? && Taken(old(db.bookings), ReferenceOf, v.value.bookingReference) ==>
                  r == Err(DataAccess(DuplicateKey)) && db.State() == old(db.State()))
            && (v.Ok? && !Taken(old(db.bookings), ReferenceOf, v.value.bookingReference) ==>
                  var id := old(db.bookings.nextId);
                  && r == Ok(())
                  && db.State() == old(db.State()).(
                       bookings := old(db.bookings).Insert(v.value),
                       passengers := InsertAll(old(db.passengers), PassengerRows(id, Requested(req))),
                       outbox := old(db.outbox) + [BookingTicketEmail(id)]))
    ensures r.Ok? ==>
              && |db.bookings.rows| == |old(db.bookings.rows)| + 1
              && |db.passengers.rows| == |old(db.passengers.rows)| + |Requested(req)|
              && |db.outbox| == |old(db.outbox)| + 1
  {
    var me := CurrentUser(db.State(), email);
    if me.Err? {
      return Err(me.error);
    }
    if req.flightId !in db.flights.rows {
      return Err(NotFound(FlightService.FlightNotFound));
    }
    if db.flights.rows[req.flightId].status != Scheduled {
      return Err(BadRequest(OnlyScheduled));
    }
    var booking := Booking(BookingReference(u), me.value, req.flightId, now, Confirmed);
    assert BookingToSave(old(db.State()), email, req, u, now) == Ok(booking);
    InsertAllCount(old(db.passengers), PassengerRows(old(db.bookings.nextId), Requested(req)));
    r := SaveBookingWithPassengers(db, booking, Requested(req));
  }

  /** updateBookingStatus: the new status replaces the stored one, whatever
      it was; nothing else changes. */
  method UpdateBookingStatus(db: Database, id: Id, status: BookingStatus) returns (r: Result<()>)
    requires db.Valid()
    modifies db
    ensures db.Valid()
    ensures id !in old(db.bookings.rows) ==>
              r == Err(NotFound(BookingNotFound)) && db.State() == old(db.State())
    ensures id in old(db.bookings.rows) ==>
              && r == Ok(())
              && db.State() == old(db.State()).(
                   bookings := old(db.bookings).Put(id, old(db.bookings.rows[id]).(status := status)))
  {
    if id !in db.bookings.rows {
      return Err(NotFound(BookingNotFound));
    }
    var booking := db.bookings.rows[id];
    booking := booking.(status := status);
    db.PutBooking(id, booking);
    r := Ok(());
  }

  /** getBookingById. */
  function BookingById(s: Snapshot, id: Id): (r: Result<BookingDto>)
    requires Consistent(s)
    ensures r.Err? <==> id !in s.bookings.rows
    ensures r.Err? ==> r.error == NotFound(BookingNotFound)
    ensures r.Ok? ==> r.value.id == id && BookingIsFlat(r.value)
    ensures r.Ok? ==> r.value.flight.Some? && r.value.flight.value.id == s.bookings.rows[id].flight
    ensures r.Ok? ==> r.value.flight.value == FlightSummary(s, s.bookings.rows[id].flight)
    ensures r.Ok? ==> r.value.(flight := None) == BookingView(s, id, None)
  {
    if id in s.bookings.rows then Ok(BookingWithFlight(s, id)) else Err(NotFound(BookingNotFound))
  }

  /** The bookings `ids`, each with its flight attached. */
  function BookingsWithFlight(s: Snapshot, ids: seq<Id>): (r: seq<BookingDto>)
    requires Consistent(s) && forall id :: id in ids ==> id in s.bookings.rows
    ensures BookingIds(r) == ids
    ensures forall k :: 0 <= k < |r| ==> BookingIsFlat(r[k])
    ensures forall k :: 0 <= k < |r| ==>
              r[k].id in s.bookings.rows && r[k] == BookingWithFlight(s, r[k].id)
  {
    var r := seq(|ids|, k requires 0 <= k < |ids| => BookingWithFlight(s, ids[k]));
    assert forall k :: 0 <= k < |r| ==> r[k] == BookingWithFlight(s, ids[k]);
    assert BookingIds(r) == ids;
    r
  }

  /** getAllBookings: every booking, newest (highest id) first. */
  function AllBookings(s: Snapshot): (r: seq<BookingDto>)
    requires Consistent(s)
    ensures forall id :: id in BookingIds(r) <==> id in s.bookings.rows
    ensures |r| == |s.bookings.rows|
    ensures Decreasing(BookingIds(r))
    ensures forall k :: 0 <= k < |r| ==> BookingIsFlat(r[k])
    ensures forall k :: 0 <= k < |r| ==>
              r[k].id in s.bookings.rows && r[k] == BookingWithFlight(s, r[k].id)
  {
    ListAllCount(s.bookings);
    BookingsWithFlight(s, NewestFirst(s.bookings, All))
  }

  /** getMyBookings: the signed-in user's bookings, newest first. */
  function MyBookings(s: Snapshot, email: string): (r: Result<seq<BookingDto>>)
    requires Consistent(s)
    ensures r.Err? <==> !Taken(s.users, EmailOf, email)
    ensures r.Err? ==> r.error == NotFound(UserNotFound)
    ensures r.Ok? ==> forall id :: id in BookingIds(r.value) <==>
                        id in s.bookings.rows && s.users.rows[s.bookings.rows[id].user].email == email
    ensures r.Ok? ==> Decreasing(BookingIds(r.value))
    ensures r.Ok? ==> forall k :: 0 <= k < |r.value| ==> BookingIsFlat(r.value[k])
    ensures r.Ok? ==> forall k :: 0 <= k < |r.value| ==>
                        r.value[k].id in s.bookings.rows && r.value[k] == BookingWithFlight(s, r.value[k].id)
  {
    var me :- CurrentUser(s, email);
    Ok(BookingsWithFlight(s, NewestFirst(s.bookings, (b: Booking) => b.user == me)))
  }
}
