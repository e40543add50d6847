# Airline booking service layer in Dafny

This project models the service layer of the airline booking backend
(menglanyan/airline-booking-system). That layer covers:

- the flight catalogue;
- the booking workflow;
- registration and login;
- the airport catalogue with its fixed city-to-country table;
- account and role maintenance.

The JPA repositories are modelled as in-memory tables. A `Table<T>` maps ids to records and keeps the next IDENTITY id; rows are never deleted. One `Database` object (`store.dfy`) holds a table per repository plus an append-only outbox of notification requests. The outbox stands for the welcome and booking-ticket e-mails handed to the notification service.

The database enforces the entities' column constraints. Each of these is a `Database` invariant (`Store.Consistent`), and a save method that would break one fails with `DataAccess`:

- unique flight number;
- unique booking reference;
- unique email;
- unique IATA code of at most three characters.

`Store.Consistent` also holds two invariants that the database does not check:

- foreign keys that resolve;
- an airport's city lying in its country.

The services keep these two, and the save methods require them rather than refusing a row. The city rule comes from the check in AirportServiceImpl; no column enforces it.

Each service operation that writes is modelled as follows:

- It is a method taking the `Database`. It checks the request in the order the Java code does, fails with `NotFound`, `BadRequest` or `DataAccess`, and otherwise sets the fields of the row step by step and saves it.
- Its postcondition ties its result and the new database state to a pure function of the old state. That function (`FlightToSave`, `UpdatedFlight`, `BookingToSave`, `UpdatedAccount`, `RolesForRegistration`, `UpdatedAirport`, …) carries the rules the code enforces.
- Every method keeps `Database.Valid()`.
- A failed call leaves the whole state unchanged.

Read operations are functions of a `Snapshot` of the database. They return DTO datatypes, and their contracts cover:

- exactly which rows are listed;
- their id order;
- the content of each DTO;
- that the flight→booking→flight cycle is cut (`FlightIsFlat`, `BookingIsFlat`).

Each ModelMapper projection (`AirportView`, `UserView`, `PassengerViews`) is stated by its inverse: from the DTO the stored entity can be rebuilt. For a user the password must be supplied, since the DTO leaves it out. The flight and booking DTOs are stated field by field in terms of these projections.

Collaborators the model does not contain are parameters:

- The password encoder, the JWT issuer, the clock (`now`) and the random UUID are passed in by the caller.
- The signed-in user is the caller's email, passed explicitly.

Modelling choices:

- Times are integer nanoseconds and dates are integer days.
- Prices are opaque.
- Upper-casing and `equalsIgnoreCase` cover ASCII letters; `isBlank` follows `Character.isWhitespace`.

## Model

| member | source | states |
|---|---|---|
| Cities.CountryOf | src/main/java/com/github/menglanyan/airline_booking/enums/City.java:8-24 | the cities are declared two by two, grouped by country: the n-th pair of cities lies in the n-th country the table names |
| Cities.CitiesOf | src/main/java/com/github/menglanyan/airline_booking/enums/City.java:9-24 | the city table read from the country side: a city is listed under a country exactly when the city was declared with that country |
| Cities.AllCities | src/main/java/com/github/menglanyan/airline_booking/services/impl/FlightServiceImpl.java:211-217 | getAllCities lists every city once, in declaration order |
| Cities.AllCountries | src/main/java/com/github/menglanyan/airline_booking/services/impl/FlightServiceImpl.java:220-226 | getAllCountries lists every country once |
| Clock.WithinDayIffOnDate | src/main/java/com/github/menglanyan/airline_booking/services/impl/FlightServiceImpl.java:186-188 | an instant lies in [start of day, start of next day − 1 ns] exactly when its calendar date is that day |
| Clock.DayRange | src/main/java/com/github/menglanyan/airline_booking/services/impl/FlightServiceImpl.java:186-188 | the same, for all instants at once |
| Text.UpperChar | src/main/java/com/github/menglanyan/airline_booking/services/impl/RoleServiceImpl.java:31 | a lower-case ASCII letter becomes its upper-case letter, every other character is kept, and the result is never a lower-case letter |
| Text.ToUpper | src/main/java/com/github/menglanyan/airline_booking/services/impl/RoleServiceImpl.java:31 | upper-casing keeps the length, maps each character and leaves no lower-case letter |
| Text.ToUpperIdempotent | src/main/java/com/github/menglanyan/airline_booking/services/impl/RoleServiceImpl.java:47 | upper-casing twice equals upper-casing once, so re-applying a stored role name keeps it |
| Text.UpperCaseIsFixed | src/main/java/com/github/menglanyan/airline_booking/services/impl/RoleServiceImpl.java:31 | an upper-case name is its own upper-case form |
| Text.EqualsIgnoreCase | src/main/java/com/github/menglanyan/airline_booking/services/impl/FlightServiceImpl.java:76-77 | two names are equal ignoring case exactly when their upper-case forms are equal |
| Text.IsWhitespace | src/main/java/com/github/menglanyan/airline_booking/services/impl/UserServiceImpl.java:48 | a character is whitespace exactly when it is a Unicode space, line or paragraph separator other than the non-breaking U+00A0, U+2007 and U+202F, or one of U+0009 to U+000D and U+001C to U+001F; among ASCII characters that is exactly the space and those controls, so letters and digits are not whitespace |
| Text.IsBlank | src/main/java/com/github/menglanyan/airline_booking/services/impl/UserServiceImpl.java:48 | a string is blank exactly when every character is whitespace |
| Results.Collect | src/main/java/com/github/menglanyan/airline_booking/services/impl/AuthServiceImpl.java:57-62 | a throwing lookup mapped over a list yields all values when every lookup succeeds, else the error of the first that fails |
| Tables.Empty | src/main/java/com/github/menglanyan/airline_booking/entities/Flight.java:21-23 | an empty IDENTITY table is valid and holds no row |
| Tables.SelectDescending | src/main/java/com/github/menglanyan/airline_booking/repo/BookingRepo.java:9 | exactly the ids below the bound whose rows match, strictly decreasing |
| Tables.SelectAscending | src/main/java/com/github/menglanyan/airline_booking/repo/UserRepo.java:17-18 | exactly the ids below the bound whose rows match, strictly increasing |
| Tables.NewestFirst | src/main/java/com/github/menglanyan/airline_booking/services/impl/BookingServiceImpl.java:113 | `findAll(Sort DESC id)`: exactly the matching rows, ids strictly decreasing |
| Tables.InKeyOrder | src/main/java/com/github/menglanyan/airline_booking/services/impl/AirportServiceImpl.java:81-82 | `findAll()`: exactly the matching rows, each once |
| Tables.ListedOnce | src/main/java/com/github/menglanyan/airline_booking/services/impl/RoleServiceImpl.java:60-62 | a repeat-free id list covering exactly a key set has one entry per key |
| Tables.ListAllCount | src/main/java/com/github/menglanyan/airline_booking/services/impl/AirportServiceImpl.java:81-82 | listing a whole table yields one id per stored row |
| Tables.FindBy | src/main/java/com/github/menglanyan/airline_booking/repo/AirportRepo.java:9 | a finder on a unique column: empty exactly when no row has the key, else the one row that has it |
| Tables.LookupBy | src/main/java/com/github/menglanyan/airline_booking/repo/RoleRepo.java:9 | a single-result finder on a non-unique column: no row, the only matching row, or several rows exactly when two distinct rows match |
| Tables.InsertAll | src/main/java/com/github/menglanyan/airline_booking/services/impl/BookingServiceImpl.java:81 | `saveAll` gives the rows consecutive fresh ids in list order and keeps every stored row |
| Tables.InsertAllCount | src/main/java/com/github/menglanyan/airline_booking/services/impl/BookingServiceImpl.java:81 | saving N new rows adds exactly N rows |
| Tables.PutKeepsUnique | src/main/java/com/github/menglanyan/airline_booking/entities/Booking.java:24-25 | re-saving a row with its key unchanged keeps a unique column unique |
| Tables.InsertKeepsUnique | src/main/java/com/github/menglanyan/airline_booking/entities/Booking.java:24-25 | saving a new row whose key no stored row has keeps a unique column unique |
| Tables.SaveEach | src/main/java/com/github/menglanyan/airline_booking/services/impl/BookingServiceImpl.java:81 | inserting the rows one at a time, in list order, ends in exactly the table `saveAll` describes (consecutive fresh ids, old rows kept) |
| Store.Database.constructor | src/main/java/com/github/menglanyan/airline_booking/repo/FlightRepo.java:11 | a fresh database has empty tables, an empty outbox and is consistent |
| Store.Database.SaveUser | src/main/java/com/github/menglanyan/airline_booking/entities/User.java:26-27 | saving a user whose email is taken fails with no change; otherwise the user gets the next id |
| Store.Database.PutUser | src/main/java/com/github/menglanyan/airline_booking/services/impl/UserServiceImpl.java:63 | re-saving a user with its email unchanged replaces that row only and keeps the database consistent |
| Store.Database.SaveRole | src/main/java/com/github/menglanyan/airline_booking/services/impl/RoleServiceImpl.java:32 | a new role gets the next id; the name column has no constraint |
| Store.Database.PutRole | src/main/java/com/github/menglanyan/airline_booking/services/impl/RoleServiceImpl.java:48 | re-saving a role replaces that row only |
| Store.Database.SaveAirport | src/main/java/com/github/menglanyan/airline_booking/entities/Airport.java:32-33 | an IATA code longer than three characters, or one already stored, fails with no change; otherwise the airport gets the next id |
| Store.Database.PutAirport | src/main/java/com/github/menglanyan/airline_booking/services/impl/AirportServiceImpl.java:72 | re-saving an airport fails, with no change, on an IATA code that is too long or that another airport holds |
| Store.Database.SaveFlight | src/main/java/com/github/menglanyan/airline_booking/entities/Flight.java:25-26 | saving a flight whose number is taken fails with no change; otherwise the flight gets the next id |
| Store.Database.PutFlight | src/main/java/com/github/menglanyan/airline_booking/services/impl/FlightServiceImpl.java:175 | re-saving a flight with its number unchanged replaces that row only |
| Store.Database.SaveBooking | src/main/java/com/github/menglanyan/airline_booking/entities/Booking.java:24-25 | saving a booking whose reference is taken fails with no change; otherwise it gets the next id |
| Store.Database.PutBooking | src/main/java/com/github/menglanyan/airline_booking/services/impl/BookingServiceImpl.java:164 | re-saving a booking with its reference unchanged replaces that row only |
| Store.PutBookingKeepsConsistent | src/main/java/com/github/menglanyan/airline_booking/services/impl/BookingServiceImpl.java:162-164 | re-saving a booking with its reference kept leaves every foreign key and unique column intact |
| Store.InsertBookingKeepsConsistent | src/main/java/com/github/menglanyan/airline_booking/services/impl/BookingServiceImpl.java:69 | saving a new booking with a free reference whose user and flight exist keeps every schema rule; passengers and ticket notifications still resolve |
| Store.InsertPassengerKeepsConsistent | src/main/java/com/github/menglanyan/airline_booking/services/impl/BookingServiceImpl.java:81 | saving a passenger of a stored booking keeps every schema rule |
| Store.InsertAllPassengersKeepsConsistent | src/main/java/com/github/menglanyan/airline_booking/services/impl/BookingServiceImpl.java:81 | saving a whole list of passengers of stored bookings keeps every schema rule |
| Store.PutUserKeepsConsistent | src/main/java/com/github/menglanyan/airline_booking/services/impl/UserServiceImpl.java:63 | re-saving a user with its email kept and its roles stored keeps every schema rule; flights, bookings and notifications that name the user still resolve |
| Store.PutFlightKeepsConsistent | src/main/java/com/github/menglanyan/airline_booking/services/impl/FlightServiceImpl.java:175 | re-saving a flight with its number kept and its airports and pilot stored keeps every schema rule; bookings of the flight still resolve |
| Store.NotifyKeepsConsistent | src/main/java/com/github/menglanyan/airline_booking/services/impl/BookingServiceImpl.java:86 | appending a notification that names a stored user or booking keeps every schema rule |
| Store.Database.SaveAllPassengers | src/main/java/com/github/menglanyan/airline_booking/services/impl/BookingServiceImpl.java:81 | saving passengers of stored bookings leaves the passenger table equal to `InsertAll` of the list, every other table and the outbox unchanged, and the schema rules intact |
| Store.Database.Notify | src/main/java/com/github/menglanyan/airline_booking/services/impl/BookingServiceImpl.java:86 | a notification request is appended to the outbox and nothing else changes |
| Views.RoleNames | src/main/java/com/github/menglanyan/airline_booking/services/impl/AuthServiceImpl.java:106-108 | a user's role names, one per role entry, in stored order |
| Views.AirportView | src/main/java/com/github/menglanyan/airline_booking/services/impl/AirportServiceImpl.java:98 | the DTO carries the airport's id and, rebuilt, gives back exactly the stored airport |
| Views.UserView | src/main/java/com/github/menglanyan/airline_booking/services/impl/UserServiceImpl.java:92 | the DTO carries the user's id and its roles with their stored names. With the password it omits supplied back, it rebuilds exactly the stored user, role list in stored order |
| Views.PassengerViews | src/main/java/com/github/menglanyan/airline_booking/services/impl/BookingServiceImpl.java:99 | the booking's passenger list holds exactly the passengers of that booking, each rebuilding exactly its stored row |
| Views.BookingView | src/main/java/com/github/menglanyan/airline_booking/services/impl/BookingServiceImpl.java:99 | the booking's reference, date and status are copied; its user and passengers are their UserView and PassengerViews; its flight field is the one given |
| Views.FlightSummary | src/main/java/com/github/menglanyan/airline_booking/services/impl/FlightServiceImpl.java:197-198 | a flight projected without its booking list. Its number, status, times and price are copied; its airports are their AirportView DTOs; it has a pilot DTO, that pilot's UserView, exactly when the flight has a pilot |
| Views.FlightView | src/main/java/com/github/menglanyan/airline_booking/services/impl/FlightServiceImpl.java:100-106 | a flight's DTO is its FlightSummary with a booking list. The list holds exactly the bookings of that flight, each its BookingView with the flight cleared |
| Views.BookingWithFlight | src/main/java/com/github/menglanyan/airline_booking/services/impl/BookingServiceImpl.java:99-102 | a booking's DTO is its BookingView carrying its own flight's FlightSummary, whose booking list is cleared |
| FlightService.CheckPilot | src/main/java/com/github/menglanyan/airline_booking/services/impl/FlightServiceImpl.java:72-84 | an unknown user is NotFound; a user is accepted exactly when one of its role names upper-cases to PILOT, else BadRequest |
| FlightService.IsPilot | src/main/java/com/github/menglanyan/airline_booking/services/impl/FlightServiceImpl.java:76-77 | a user counts as a pilot exactly when some role name of theirs upper-cases to PILOT |
| FlightService.FlightToSave | src/main/java/com/github/menglanyan/airline_booking/services/impl/FlightServiceImpl.java:44-84 | the ordered failures: arrival strictly before departure (equal times accepted), taken number, unknown departure IATA code, unknown arrival IATA code, then the pilot check. On success: the request's number (not yet taken), SCHEDULED, the request's times and price, the two airports carrying the requested IATA codes, and the checked pilot or none |
| FlightService.CreateFlight | src/main/java/com/github/menglanyan/airline_booking/services/impl/FlightServiceImpl.java:44-93 | a failed check changes nothing; otherwise exactly the flight of `FlightToSave` is added with the next id, and the database's own number check never fires |
| FlightService.UpdatedFlight | src/main/java/com/github/menglanyan/airline_booking/services/impl/FlightServiceImpl.java:136-173 | an unknown id is NotFound; success depends only on the pilot check, so the time order is not re-checked. Each non-null time, price and status overwrites the stored one; the number and the airports are kept |
| FlightService.UpdateFlight | src/main/java/com/github/menglanyan/airline_booking/services/impl/FlightServiceImpl.java:136-181 | a failure leaves the flight unchanged; otherwise exactly that row becomes the flight of `UpdatedFlight` |
| FlightService.FlightById | src/main/java/com/github/menglanyan/airline_booking/services/impl/FlightServiceImpl.java:95-113 | NotFound exactly for an unknown id. Otherwise the flight's FlightSummary with a booking list holding exactly its bookings, each its BookingView with the flight cleared |
| FlightService.FlightViews | src/main/java/com/github/menglanyan/airline_booking/services/impl/FlightServiceImpl.java:118-124 | the given flights in the given order, each as getFlightById projects it, with its cycle cut |
| FlightService.AllFlights | src/main/java/com/github/menglanyan/airline_booking/services/impl/FlightServiceImpl.java:115-134 | one entry per stored flight, ids strictly decreasing, each exactly as getFlightById projects it (FlightView), with its cycle cut |
| FlightService.SearchForFlight | src/main/java/com/github/menglanyan/airline_booking/services/impl/FlightServiceImpl.java:183-208 | exactly the flights from the departure IATA code to the arrival IATA code, with the status, departing on the given date. Each is its FlightSummary with the pilot cleared |
| UserService.CurrentUser | src/main/java/com/github/menglanyan/airline_booking/services/impl/UserServiceImpl.java:33-39 | NotFound exactly when no user has the email; otherwise the one user with that email |
| UserService.UpdatedAccount | src/main/java/com/github/menglanyan/airline_booking/services/impl/UserServiceImpl.java:48-61 | a present, non-blank name, phone number or password replaces the stored one (the password encoded); updatedAt becomes now; nothing else changes |
| UserService.UpdateMyAccount | src/main/java/com/github/menglanyan/airline_booking/services/impl/UserServiceImpl.java:43-69 | an unknown caller changes nothing; otherwise only the caller's row changes, to `UpdatedAccount` |
| UserService.Occurrences | src/main/java/com/github/menglanyan/airline_booking/repo/UserRepo.java:17-18 | the number of join rows a user yields is positive exactly when the name is among its role names |
| UserService.PilotRows | src/main/java/com/github/menglanyan/airline_booking/repo/UserRepo.java:17-18 | the join lists exactly the given users that hold a role named PILOT, each as its DTO |
| UserService.AllPilots | src/main/java/com/github/menglanyan/airline_booking/services/impl/UserServiceImpl.java:72-84 | exactly the stored users holding a role named PILOT, each as its DTO |
| UserService.AccountDetails | src/main/java/com/github/menglanyan/airline_booking/services/impl/UserServiceImpl.java:87-99 | NotFound exactly for an unknown caller; otherwise the caller's own DTO |
| BookingService.UuidToString | src/main/java/com/github/menglanyan/airline_booking/services/impl/BookingServiceImpl.java:173 | a UUID's text is 36 characters, with dashes at 8, 13, 18 and 23, starting with its first eight digits in lower case |
| BookingService.BookingReference | src/main/java/com/github/menglanyan/airline_booking/services/impl/BookingServiceImpl.java:172-174 | the reference is 8 characters, each 0-9 or A-F: the UUID's first eight digits upper-cased |
| BookingService.ReferenceCollision | src/main/java/com/github/menglanyan/airline_booking/services/impl/BookingServiceImpl.java:172-174 | two UUIDs give the same reference exactly when their first eight digits agree |
| BookingService.PassengerRows | src/main/java/com/github/menglanyan/airline_booking/services/impl/BookingServiceImpl.java:73-79 | one passenger entity per requested passenger, linked to the booking, with the requested details |
| BookingService.BookingToSave | src/main/java/com/github/menglanyan/airline_booking/services/impl/BookingServiceImpl.java:52-67 | the ordered failures: no signed-in user, unknown flight, flight not SCHEDULED. On success: the caller, the requested and scheduled flight, CONFIRMED, booked now, with the generated reference |
| BookingService.NewBookingLists | src/main/java/com/github/menglanyan/airline_booking/services/impl/BookingServiceImpl.java:71-84 | the passengers of the new booking are exactly the N rows saved with it |
| BookingService.SaveBookingWithPassengers | src/main/java/com/github/menglanyan/airline_booking/services/impl/BookingServiceImpl.java:69-86 | a taken reference fails with DataAccess and changes nothing; otherwise the booking gets the next id, its passengers the ids after that, in request order, and one ticket e-mail for it is queued; the schema rules still hold |
| BookingService.CreateBooking | src/main/java/com/github/menglanyan/airline_booking/services/impl/BookingServiceImpl.java:52-92 | a failure changes nothing, including a taken reference; success adds one booking, exactly the requested passengers (none for a null or empty list) and one ticket notification for that booking |
| BookingService.UpdateBookingStatus | src/main/java/com/github/menglanyan/airline_booking/services/impl/BookingServiceImpl.java:156-170 | NotFound for an unknown id; otherwise the status becomes the given one whatever it was, and nothing else changes |
| BookingService.BookingById | src/main/java/com/github/menglanyan/airline_booking/services/impl/BookingServiceImpl.java:94-109 | NotFound exactly for an unknown id. Otherwise the booking's BookingView carrying its own flight's FlightSummary, the flight's booking list cleared |
| BookingService.BookingsWithFlight | src/main/java/com/github/menglanyan/airline_booking/services/impl/BookingServiceImpl.java:115-123 | the listed bookings in the given order, each exactly as getBookingById projects it (BookingWithFlight) |
| BookingService.AllBookings | src/main/java/com/github/menglanyan/airline_booking/services/impl/BookingServiceImpl.java:111-130 | one entry per stored booking, ids strictly decreasing, each as getBookingById projects it, with its cycle cut |
| BookingService.MyBookings | src/main/java/com/github/menglanyan/airline_booking/services/impl/BookingServiceImpl.java:132-154 | NotFound for an unknown caller. Otherwise exactly the caller's bookings, newest first, each as getBookingById projects it |
| AuthService.FindRole | src/main/java/com/github/menglanyan/airline_booking/services/impl/AuthServiceImpl.java:52-53 | found exactly when one role has the name; the given error when none has it; a data-access error when several have it |
| AuthService.FindRequestedRole | src/main/java/com/github/menglanyan/airline_booking/services/impl/AuthServiceImpl.java:59-60 | a requested role is looked up by its upper-cased name. It is found exactly when one role has that name. When none has it, the NotFound message quotes the name as requested; several matches are a data-access error |
| AuthService.RoleLookups | src/main/java/com/github/menglanyan/airline_booking/services/impl/AuthServiceImpl.java:57-62 | one lookup per requested name, in request order, each the upper-cased single-result lookup of that name |
| AuthService.ResolveRoles | src/main/java/com/github/menglanyan/airline_booking/services/impl/AuthServiceImpl.java:57-62 | each requested name is resolved upper-cased, in request order; the first name that fails decides the error |
| AuthService.RolesForRegistration | src/main/java/com/github/menglanyan/airline_booking/services/impl/AuthServiceImpl.java:51-66 | CUSTOMER is looked up first. The list is the requested roles in order with CUSTOMER appended, or exactly [CUSTOMER] when none are requested, so CUSTOMER is always last |
| AuthService.NewAccount | src/main/java/com/github/menglanyan/airline_booking/services/impl/AuthServiceImpl.java:68-77 | the request's name, email and phone; the encoded password; the resolved roles; LOCAL and active; created and updated now |
| AuthService.Register | src/main/java/com/github/menglanyan/airline_booking/services/impl/AuthServiceImpl.java:43-87 | a taken email fails before anything else, with no change; a role failure changes nothing; success saves one account and asks for one welcome e-mail for it |
| AuthService.Login | src/main/java/com/github/menglanyan/airline_booking/services/impl/AuthServiceImpl.java:90-119 | unknown email is NotFound, then an inactive account is NotFound, then a wrong password is BadRequest; success gives the token for the email and the role names in stored order |
| AirportService.CreateAirport | src/main/java/com/github/menglanyan/airline_booking/services/impl/AirportServiceImpl.java:30-47 | a city outside the declared country is BadRequest with no change; otherwise exactly the requested airport is saved, unless the database refuses the IATA code |
| AirportService.UpdatedAirport | src/main/java/com/github/menglanyan/airline_booking/services/impl/AirportServiceImpl.java:50-70 | NotFound for an unknown id; a new city outside the stored country is BadRequest. Each present field overwrites; the country is kept and the city still lies in it |
| AirportService.UpdateAirport | src/main/java/com/github/menglanyan/airline_booking/services/impl/AirportServiceImpl.java:50-78 | a failure leaves the airport unchanged; otherwise only that row changes, to `UpdatedAirport` |
| AirportService.AirportViews | src/main/java/com/github/menglanyan/airline_booking/services/impl/AirportServiceImpl.java:81-83 | the given airports in the given order, each entry the DTO of its stored airport |
| AirportService.AllAirports | src/main/java/com/github/menglanyan/airline_booking/services/impl/AirportServiceImpl.java:80-91 | one entry per stored airport, each a copy of it |
| AirportService.AirportById | src/main/java/com/github/menglanyan/airline_booking/services/impl/AirportServiceImpl.java:93-105 | NotFound exactly for an unknown id; otherwise a copy of that airport |
| RoleService.CreateRole | src/main/java/com/github/menglanyan/airline_booking/services/impl/RoleServiceImpl.java:26-38 | exactly one role is added, named by the given name upper-cased |
| RoleService.UpdateRole | src/main/java/com/github/menglanyan/airline_booking/services/impl/RoleServiceImpl.java:40-54 | NotFound for an unknown id; otherwise the name becomes the given name upper-cased and nothing else changes |
| RoleService.AllRoles | src/main/java/com/github/menglanyan/airline_booking/services/impl/RoleServiceImpl.java:56-69 | one entry per stored role, with its id and name |

## Left out

- Controllers (HTTP routing, the `@PreAuthorize` role gates) and the OpenAPI configuration are not modelled. The `searchForFlight` endpoint defaults the status to SCHEDULED; here the status is an argument.
- The e-mail service (template rendering, mail transport, `@Async` delivery, the `EmailNotification` record) is not modelled. A notification is a request appended to the outbox.
- Security plumbing is not modelled:
  - the security context becomes an explicit caller email;
  - `PasswordEncoder` and `JwtUtils` are caller-supplied functions, about which nothing is assumed.
- `UUID.randomUUID()` and `LocalDateTime.now()` are parameters. The two `now()` calls in register are taken as one instant.
- Concurrency and transaction isolation are not modelled. Each service call is atomic and sequential.
- getMyFlights is declared in `FlightService.java` but has no implementation in `FlightServiceImpl.java`, so it is not modelled.
- Null request fields are modelled only where the code tests for null (`Option`). Elsewhere a null would raise a NullPointerException or a bean-validation error, and this is not modelled.
- ModelMapper copies the request's `id` into a new entity (createAirport, createRole, passengers), turning a save into a merge. Requests here carry no id, so that path is not modelled.
- `Role.java` and the enum files other than `City.java` are not part of this model:
  - `FlightStatus` lists the constants the code and tests name (SCHEDULED, DELAYED, CANCELLED);
  - `BookingStatus` lists CONFIRMED and CANCELLED;
  - `AuthMethod` lists LOCAL and external providers;
  - a passenger type is kept as its name;
  - a role is its name; since no unique constraint is visible, `findByName` may match several roles.
- The database collation is taken as case-sensitive, so `findByName`, `findByEmail` and the PILOT join match exactly.
- No order is specified for `findAll()`, the search finder, a flight's booking list or the pilot join. They are modelled in id order, and the contracts of `AllAirports`, `AllRoles`, `SearchForFlight` and `AllPilots` promise no order.
- `FlightDTO`'s convenience fields `departureAirportIataCode` and `arrivalAirportIataCode` are not modelled.
- `UserDTO`'s password is not modelled, because it is write-only in JSON.
- Upper-casing and case-insensitive comparison cover ASCII letters only; other scripts and locale-specific rules are not modelled.
- Database errors other than the column constraints modelled (unique keys, IATA length, several rows for one role name) are not modelled.
- The `iataCode` column (`length = 3`) accepts codes shorter than three characters, and the model accepts them too.
- updateFlight does not re-check that arrival is not before departure (`UpdatedFlight`), so an updated flight may arrive before it departs.
- Cities.AllCountries: `Country.java` is not part of this model. `Country` is rebuilt from the countries `City.java` names (UK, CHINA, USA, in the order the city table first names them). The real `Country.values()` may hold more constants or list them in another order.
