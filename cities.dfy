/** The per-city table: the current-weather pass fills one record per city
    (with a placeholder on a failed request) and the forecast pass adds each
    city's forecast list to its record. */
module Cities {
  import opened Forecast

  /** A configured city: display name, query string and fallback coordinates. */
  datatype City = City(name: string, query: string, lat: real, lon: real)

  const AllCities: seq<City> := [
    City("台北市", "Taipei,tw", 25.04, 121.53),
    City("San Mateo", "San Mateo,us", 37.5630, -122.3255),
    City("Chicago", "Chicago,us", 41.8781, -87.6298)
  ]

  /** A current temperature, or the `N/A` placeholder. */
  datatype Temp = Celsius(degrees: real) | NotAvailable

  datatype Current = Current(temp: Temp, desc: string, icon: string)

  /** The current-weather response: its status code and, for status 200, the
      fields the page uses. */
  datatype CurrentReply = CurrentReply(status: int, lat: real, lon: real, temp: real, desc: string, icon: string)

  /** The forecast response: its status code and, for status 200, its entries. */
  datatype ForecastReply = ForecastReply(status: int, entries: seq<Entry>)

  /** One city's record; `forecast` stays empty until the forecast pass. */
  datatype CityInfo = CityInfo(lat: real, lon: real, current: Current, forecast: seq<ForecastDay>)

  /** The description shown when the current-weather request fails ("fetch failed"). */
  const FetchFailed: string := "取得失敗"

  /** The record the current-weather pass stores for `city`. */
  function CityInfoFor(city: City, reply: CurrentReply): (info: CityInfo)
    ensures info.forecast == []
    ensures info.current.temp == NotAvailable <==> reply.status != 200
    ensures reply.status == 200 ==>
      info.lat == reply.lat && info.lon == reply.lon &&
      info.current == Current(Celsius(reply.temp), reply.desc, reply.icon)
    ensures reply.status != 200 ==>
      info.lat == city.lat && info.lon == city.lon &&
      info.current.desc == FetchFailed && info.current.icon == ""
  {
    if reply.status == 200 then
      CityInfo(reply.lat, reply.lon, Current(Celsius(reply.temp), reply.desc, reply.icon), [])
    else
      CityInfo(city.lat, city.lon, Current(NotAvailable, FetchFailed, ""), [])
  }

  /** No city after position `i`, up to position `k`, has city `i`'s name, so
      city `i`'s write to the table is the last one for that name. */
  predicate LastWithName(cities: seq<City>, i: nat, k: nat)
    requires i < k <= |cities|
  {
    forall j :: i < j < k ==> cities[j].name != cities[i].name
  }

  /** The names of the given cities. */
  function Names(cities: seq<City>): set<string>
  {
    if cities == [] then {} else Names(cities[..|cities| - 1]) + {cities[|cities| - 1].name}
  }

  lemma {:induction false} NamesHas(cities: seq<City>, i: nat)
    requires i < |cities|
    ensures cities[i].name in Names(cities)
    decreases |cities|
  {
    if i < |cities| - 1 {
      NamesHas(cities[..|cities| - 1], i);
    }
  }

  /** The current-weather pass: one request per city, its record stored under
      the city's name (a later city with the same name overwriting it). */
  method FetchCurrent(cities: seq<City>, replies: seq<CurrentReply>) returns (coords: map<string, CityInfo>)
    requires |replies| == |cities|
    ensures coords.Keys == Names(cities)
    ensures forall i :: 0 <= i < |cities| && LastWithName(cities, i, |cities|) ==>
      cities[i].name in coords && coords[cities[i].name] == CityInfoFor(cities[i], replies[i])
  {
    coords := map[];
    for k := 0 to |cities|
      invariant coords.Keys == Names(cities[..k])
      invariant forall i :: 0 <= i < k && LastWithName(cities, i, k) ==>
        cities[i].name in coords && coords[cities[i].name] == CityInfoFor(cities[i], replies[i])
    {
      assert cities[..k + 1][..k] == cities[..k];
      coords := coords[cities[k].name := CityInfoFor(cities[k], replies[k])];
    }
    assert cities[..|cities|] == cities;
  }

  /** The forecast pass after its first `k` cities: only forecasts changed,
      city `i`'s name holds `lists[i]` when no later city among the first `k`
      shares it, and names of none of the first `k` cities are untouched. */
  ghost predicate AttachedUpTo(cities: seq<City>, coords: map<string, CityInfo>, lists: seq<seq<ForecastDay>>,
                               out: map<string, CityInfo>, k: nat)
    requires k <= |cities| <= |lists|
  {
    out.Keys == coords.Keys &&
    (forall n :: n in out ==> out[n] == coords[n].(forecast := out[n].forecast)) &&
    (forall i :: 0 <= i < k && LastWithName(cities, i, k) ==> cities[i].name in out && out[cities[i].name].forecast == lists[i]) &&
    (forall n :: n in coords && n !in Names(cities[..k]) ==> out[n] == coords[n])
  }

  /** Setting city `k`'s forecast extends the pass by one city. */
  lemma AttachStep(cities: seq<City>, coords: map<string, CityInfo>, lists: seq<seq<ForecastDay>>,
                   out: map<string, CityInfo>, k: nat)
    requires k < |cities| <= |lists| && cities[k].name in coords
    requires AttachedUpTo(cities, coords, lists, out, k)
    ensures var name := cities[k].name;
      AttachedUpTo(cities, coords, lists, out[name := out[name].(forecast := lists[k])], k + 1)
  {
    assert cities[..k + 1][..k] == cities[..k];
    var name := cities[k].name;
    var next := out[name := out[name].(forecast := lists[k])];
    forall i | 0 <= i < k + 1 && LastWithName(cities, i, k + 1)
      ensures cities[i].name in next && next[cities[i].name].forecast == lists[i]
    {
      if i < k {
        assert LastWithName(cities, i, k) && cities[i].name != name;
      }
    }
  }

  /** The forecast pass: each city's record gets the forecast list its forecast
      response yields; names of no city keep their records. */
  method AttachForecasts(cities: seq<City>, coords: map<string, CityInfo>, replies: seq<ForecastReply>, today: int)
    returns (out: map<string, CityInfo>)
    requires |replies| == |cities|
    requires forall i :: 0 <= i < |cities| ==> cities[i].name in coords
    ensures out.Keys == coords.Keys
    ensures forall i :: 0 <= i < |cities| && LastWithName(cities, i, |cities|) ==>
      out[cities[i].name] == coords[cities[i].name].(forecast := ForecastOf(replies[i].status, replies[i].entries, today))
    ensures forall n :: n in coords && n !in Names(cities) ==> out[n] == coords[n]
  {
    ghost var lists := seq(|cities|, i requires 0 <= i < |cities| => ForecastOf(replies[i].status, replies[i].entries, today));
    out := coords;
    for k := 0 to |cities|
      invariant AttachedUpTo(cities, coords, lists, out, k)
    {
      var name := cities[k].name;
      var forecast := ForecastFor(replies[k].status, replies[k].entries, today);
      AttachStep(cities, coords, lists, out, k);
      out := out[name := out[name].(forecast := forecast)];
    }
    assert cities[..|cities|] == cities;
  }

  /** The whole per-city table: the current-weather pass followed by the forecast pass. */
  method BuildTable(cities: seq<City>, currents: seq<CurrentReply>, forecasts: seq<ForecastReply>, today: int)
    returns (table: map<string, CityInfo>)
    requires |currents| == |cities| && |forecasts| == |cities|
    ensures table.Keys == Names(cities)
    ensures forall i :: 0 <= i < |cities| && LastWithName(cities, i, |cities|) ==>
      cities[i].name in table &&
      var info := table[cities[i].name];
      info.current == CityInfoFor(cities[i], currents[i]).current &&
      info.lat == CityInfoFor(cities[i], currents[i]).lat &&
      info.lon == CityInfoFor(cities[i], currents[i]).lon &&
      info.forecast == ForecastOf(forecasts[i].status, forecasts[i].entries, today)
  {
    var coords := FetchCurrent(cities, currents);
    forall i | 0 <= i < |cities| ensures cities[i].name in coords {
      NamesHas(cities, i);
    }
    table := AttachForecasts(cities, coords, forecasts, today);
  }

  /** The configured cities have distinct names, so every city's record is its own. */
  lemma AllCitiesDistinct()
    ensures forall i :: 0 <= i < |AllCities| ==> LastWithName(AllCities, i, |AllCities|)
  {
  }
}
