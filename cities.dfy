/** The fixed city table of `City.java`: every city belongs to one country. */
module Cities {

  /** The countries the city table names. */
  datatype Country = UK | China | USA

  datatype City = London | Leeds | Beijing | Shanghai | Miami | Dallas

  /** `city.getCountry()`: the country fixed when the constant is declared.
      The table declares the cities two by two, country by country, so the
      n-th pair of cities lies in the n-th country the table names. */
  function CountryOf(c: City): (k: Country)
    ensures CountryIndex(k) == CityIndex(c) / 2
  {
    match c
    case London | Leeds => UK
    case Beijing | Shanghai => China
    case Miami | Dallas => USA
  }

  /** `City.values()`, in declaration order. */
  function AllCities(): (r: seq<City>)
    ensures forall c: City :: CityIndex(c) < |r| && r[CityIndex(c)] == c
    ensures forall i, j :: 0 <= i < j < |r| ==> r[i] != r[j]
  {
    [London, Leeds, Beijing, Shanghai, Miami, Dallas]
  }

  /** `Country.values()`, rebuilt from the city table: the countries it
      names, in the order it first names them. */
  function AllCountries(): (r: seq<Country>)
    ensures forall k: Country :: CountryIndex(k) < |r| && r[CountryIndex(k)] == k
    ensures forall i, j :: 0 <= i < j < |r| ==> r[i] != r[j]
  {
    [UK, China, USA]
  }

  /** Position of a country in the order the city table first names it. */
  function CountryIndex(k: Country): nat {
    match k
    case UK => 0
    case China => 1
    case USA => 2
  }

  /** Position of a city in declaration order. */
  function CityIndex(c: City): nat {
    match c
    case London => 0
    case Leeds => 1
    case Beijing => 2
    case Shanghai => 3
    case Miami => 4
    case Dallas => 5
  }

  /** The cities of one country, in declaration order: the table read from
      the country's side. */
  function CitiesOf(k: Country): (r: seq<City>)
    ensures forall c: City :: c in r <==> CountryOf(c) == k
  {
    match k
    case UK => [London, Leeds]
    case China => [Beijing, Shanghai]
    case USA => [Miami, Dallas]
  }
}
