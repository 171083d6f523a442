/** `get_all_cities`: scrapes each configured city in order and returns a
    dated snapshot; the first city that fails aborts the whole run. */
module Aggregator {
  import opened Wrappers
  import opened FailFast
  import opened TableParser

  /** One configured city: its name and the page that holds its table. */
  datatype CitySource = CitySource(name: string, url: string)

  /** One city's reservoirs, in table order. */
  datatype City = City(name: string, data: seq<Record>)

  /** One run: its date, given as the clock reading `now`, and the cities
      in configured order. */
  datatype Snapshot = Snapshot(date: int, cities: seq<City>)

  /** One city's contribution: its entry, or the exception its scrape
      raised. No city is ever skipped. */
  function CityStep(fetch: string -> Option<Document>, parseFloat: string -> Option<real>)
    : CitySource -> Step<City, Error>
  {
    (source: CitySource) =>
      match Scrape(fetch, parseFloat, source.url)
      case Ok(data) => Keep(City(source.name, data))
      case Err(e) => Fail(e)
  }

  /** The snapshot of all cities, or the first exception. */
  function AllCities(fetch: string -> Option<Document>, parseFloat: string -> Option<real>,
                     sources: seq<CitySource>, now: int): Result<Snapshot, Error>
  {
    match Collect(sources, CityStep(fetch, parseFloat))
    case Ok(cities) => Ok(Snapshot(now, cities))
    case Err(e) => Err(e)
  }

  /** `get_all_cities`: one `get_data` call per city, appending its entry,
      then the snapshot dated with the clock reading `now`, which the caller
      supplies. */
  method GetAllCities(fetch: string -> Option<Document>, parseFloat: string -> Option<real>,
                      sources: seq<CitySource>, now: int)
    returns (res: Result<Snapshot, Error>)
    ensures res == AllCities(fetch, parseFloat, sources, now)
  {
    var cities: seq<City> := [];
    var i := 0;
    while i < |sources|
      invariant 0 <= i <= |sources|
      invariant Collect(sources[..i], CityStep(fetch, parseFloat)) == Ok(cities)
    {
      CollectNext(sources, CityStep(fetch, parseFloat), i);
      var data := GetData(fetch, parseFloat, sources[i].url);
      match data {
        case Err(e) =>
          return Err(e);
        case Ok(records) =>
          cities := cities + [City(sources[i].name, records)];
      }
      i := i + 1;
    }
    assert sources[..i] == sources;
    return Ok(Snapshot(now, cities));
  }

  /** The run succeeds exactly when every city's scrape does. */
  lemma AllCitiesOkIff(fetch: string -> Option<Document>, parseFloat: string -> Option<real>,
                       sources: seq<CitySource>, now: int)
    ensures AllCities(fetch, parseFloat, sources, now).Ok? <==>
              forall k :: 0 <= k < |sources| ==> Scrape(fetch, parseFloat, sources[k].url).Ok?
  {
    CollectOkIff(sources, CityStep(fetch, parseFloat));
  }

  /** A successful run holds one entry per configured city, in configured
      order, each named as configured and holding that city's records,
      and is dated `now`. */
  lemma AllCitiesEntries(fetch: string -> Option<Document>, parseFloat: string -> Option<real>,
                         sources: seq<CitySource>, now: int)
    requires AllCities(fetch, parseFloat, sources, now).Ok?
    ensures var snapshot := AllCities(fetch, parseFloat, sources, now).value;
      && snapshot.date == now
      && |snapshot.cities| == |sources|
      && forall k :: 0 <= k < |sources| ==>
           && snapshot.cities[k].name == sources[k].name
           && Scrape(fetch, parseFloat, sources[k].url) == Ok(snapshot.cities[k].data)
  {
    var step := CityStep(fetch, parseFloat);
    CollectOkIff(sources, step);
    assert forall k :: 0 <= k < |sources| ==> step(sources[k]).Keep?;
    CollectAllKept(sources, step);
  }

  /** A failed run reports the exception of the first city that failed;
      the cities before it are lost with it. */
  lemma FirstFailingCityDecides(fetch: string -> Option<Document>, parseFloat: string -> Option<real>,
                                sources: seq<CitySource>, now: int, k: nat)
    requires k < |sources| && Scrape(fetch, parseFloat, sources[k].url).Err?
    requires forall j :: 0 <= j < k ==> Scrape(fetch, parseFloat, sources[j].url).Ok?
    ensures AllCities(fetch, parseFloat, sources, now)
              == Err(Scrape(fetch, parseFloat, sources[k].url).error)
  {
    CollectFirstFailure(sources, CityStep(fetch, parseFloat), k);
  }
}
