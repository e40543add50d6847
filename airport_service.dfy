/**
 * The airport catalogue. An airport's city must lie in its country: create
 * checks the declared pair against the city table, and update accepts a new
 * city only inside the stored country, which it never changes.
 */
module AirportService {

  import opened Results
  import opened Tables
  import opened Cities
  import opened Entities
  import opened Store
  import opened Views

  const CityNotInCountry := "City does not belong to the country"
  const AirportNotFound := "Airport Not Found"

  /** What createAirport reads from an `AirportDTO`. */
  datatype AirportRequest = AirportRequest(name: string, city: City, country: Country, iataCode: string)

  /** What updateAirport reads from an `AirportDTO`; `None` is a null field. */
  datatype AirportChanges = AirportChanges(
    id: Id,
    name: Option<string>,
    city: Option<City>,
    iataCode: Option<string>)

  /** createAirport: a city outside the declared country is refused and
      nothing is saved; otherwise the airport is saved as requested, which
      the database refuses for an IATA code that is taken or too long. */
  method CreateAirport(db: Database, req: AirportRequest) returns (r: Result<()>)
    requires db.Valid()
    modifies db
    ensures db.Valid()
    ensures CountryOf(req.city) != req.country ==>
              r == Err(BadRequest(CityNotInCountry)) && db.State() == old(db.State())
    ensures CountryOf(req.city) == req.country && |req.iataCode| > IataColumnLength ==>
              r == Err(DataAccess(ValueTooLong)) && db.State() == old(db.State())
    ensures CountryOf(req.city) == req.country && |req.iataCode| <= IataColumnLength
            && Taken(old(db.airports), IataCodeOf, req.iataCode) ==>
              r == Err(DataAccess(DuplicateKey)) && db.State() == old(db.State())
    ensures r.Ok? <==> CountryOf(req.city) == req.country && |req.iataCode| <= IataColumnLength
                       && !Taken(old(db.airports), IataCodeOf, req.iataCode)
    ensures r.Ok? ==>
              db.State() == old(db.State()).(airports := old(db.airports).Insert(
                Airport(req.name, req.city, req.country, req.iataCode)))
  {
    if CountryOf(req.city) != req.country {
      return Err(BadRequest(CityNotInCountry));
    }
    var saved := db.SaveAirport(Airport(req.name, req.city, req.country, req.iataCode));
    r := if saved.Ok? then Ok(()) else Err(saved.error);
  }

  /** The airport updateAirport saves, or why it fails: an unknown id, or a
      new city outside the stored country. A present name, city or IATA code
      replaces the stored one; the country is kept, so the airport's city
      still lies in its country. */
  function UpdatedAirport(s: Snapshot, c: AirportChanges): (r: Result<Airport>)
    requires Consistent(s)
    ensures c.id !in s.airports.rows ==> r == Err(NotFound(AirportNotFound))
    ensures c.id in s.airports.rows ==>
              (r.Err? <==> c.city.Some? && CountryOf(c.city.value) != s.airports.rows[c.id].country)
    ensures c.id in s.airports.rows && r.Err? ==> r == Err(BadRequest(CityNotInCountry))
    ensures r.Ok? ==>
              var a := s.airports.rows[c.id];
              && c.id in s.airports.rows
              && r.value.country == a.country
              && r.value.city == c.city.UnwrapOr(a.city)
              && r.value.name == c.name.UnwrapOr(a.name)
              && r.value.iataCode == c.iataCode.UnwrapOr(a.iataCode)
              && CountryOf(r.value.city) == r.value.country
  {
    if c.id !in s.airports.rows then Err(NotFound(AirportNotFound))
    else
      var a := s.airports.rows[c.id];
      if c.city.Some? && CountryOf(c.city.value) != a.country then Err(BadRequest(CityNotInCountry))
      else Ok(a.(city := c.city.UnwrapOr(a.city), name := c.name.UnwrapOr(a.name),
                 iataCode := c.iataCode.UnwrapOr(a.iataCode)))
  }

  /** updateAirport: loads the airport, checks and sets the city, then the
      name and the IATA code, and saves it; the database refuses an IATA
      code that another airport has or that is too long. */
  method UpdateAirport(db: Database, c: AirportChanges) returns (r: Result<()>)
    requires db.Valid()
    modifies db
    ensures db.Valid()
    ensures var v := UpdatedAirport(old(db.State()), c);
            && (v.Err? ==> r == Err(v.error) && db.State() == old(db.State()))
            && (v.Ok? && |v.value.iataCode| > IataColumnLength ==>
                  r == Err(DataAccess(ValueTooLong)) && db.State() == old(db.State()))
            && (v.Ok? && |v.value.iataCode| <= IataColumnLength
                && TakenByOther(old(db.airports), IataCodeOf, c.id, v.value.iataCode) ==>
                  r == Err(DataAccess(DuplicateKey)) && db.State() == old(db.State()))
            && (v.Ok? && |v.value.iataCode| <= IataColumnLength
                && !TakenByOther(old(db.airports), IataCodeOf, c.id, v.value.iataCode) ==>
                  r == Ok(()) && db.State() == old(db.State()).(airports := old(db.airports).Put(c.id, v.value)))
  {
    if c.id !in db.airports.rows {
      return Err(NotFound(AirportNotFound));
    }
    var airport := db.airports.rows[c.id];
    if c.city.Some? {
      if CountryOf(c.city.value) != airport.country {
        return Err(BadRequest(CityNotInCountry));
      }
      airport := airport.(city := c.city.value);
    }
    if c.name.Some? {
      airport := airport.(name := c.name.value);
    }
    if c.iataCode.Some? {
      airport := airport.(iataCode := c.iataCode.value);
    }
    var saved := db.PutAirport(c.id, airport);
    r := if saved.Ok? then Ok(()) else Err(saved.error);
  }

  /** getAllAirports: one entry per stored airport, each a copy of it. */
  function AllAirports(s: Snapshot): (r: seq<AirportDto>)
    requires Consistent(s)
    ensures forall id :: id in AirportIds(r) <==> id in s.airports.rows
    ensures |r| == |s.airports.rows|
    ensures forall k :: 0 <= k < |r| ==> r[k].id in s.airports.rows && r[k] == AirportView(s, r[k].id)
  {
    var ids := InKeyOrder(s.airports, All);
    ListAllCount(s.airports);
    AirportViews(s, ids)
  }

  /** The airports `ids`, in that order, each a copy of the stored row. */
  function AirportViews(s: Snapshot, ids: seq<Id>): (r: seq<AirportDto>)
    requires forall id :: id in ids ==> id in s.airports.rows
    ensures AirportIds(r) == ids
    ensures forall k :: 0 <= k < |r| ==> r[k].id in s.airports.rows && r[k] == AirportView(s, r[k].id)
  {
    var r := seq(|ids|, k requires 0 <= k < |ids| => AirportView(s, ids[k]));
    assert AirportIds(r) == ids;
    r
  }

  /** getAirportByID. */
  function AirportById(s: Snapshot, id: Id): (r: Result<AirportDto>)
    requires Consistent(s)
    ensures r.Err? <==> id !in s.airports.rows
    ensures r.Err? ==> r.error == NotFound(AirportNotFound)
    ensures r.Ok? ==>
              var a := s.airports.rows[id];
              r.value == AirportDto(id, a.name, a.city, a.country, a.iataCode)
  {
    if id in s.airports.rows then Ok(AirportView(s, id)) else Err(NotFound(AirportNotFound))
  }
}
