/** The user's location of `location.py`: the query text sent to the
    geocoder, and the checks `get_coordinates` makes around that lookup. */
module Location {
  import opened Builtins

  /** The geocoder's quality code for a city-level match. */
  const CityLevel: string := "A5"

  /** Python truthiness of an optional string: present and non-empty. */
  predicate Truthy(s: Option<string>) {
    s.Some? && |s.value| > 0
  }

  /** `", ".join(parts)` */
  function JoinComma(parts: seq<string>): (s: string)
    requires |parts| >= 1
    decreases |parts|
  {
    if |parts| == 1 then parts[0] else parts[0] + ", " + JoinComma(parts[1..])
  }

  function DropLeadingSpace(f: string): string {
    if |f| > 0 && f[0] == ' ' then f[1..] else f
  }

  /** Reads a joined location back: split at ',' and drop the one space the
      join put after each comma. */
  function Fields(s: string): (parts: seq<string>)
    ensures |parts| >= 1
  {
    var f := Split(s, ',');
    [f[0]] + seq(|f| - 1, i requires 0 <= i < |f| - 1 => DropLeadingSpace(f[i + 1]))
  }

  /** One entry of the geocoder's `locations` list: the two fields read. */
  datatype LatLng = LatLng(lat: real, lng: real)
  datatype GeocodeLocation = GeocodeLocation(geocodeQualityCode: string, latLng: LatLng)
  datatype GeocodeResult = GeocodeResult(locations: seq<GeocodeLocation>)
  datatype GeocodeResponse = GeocodeResponse(results: seq<GeocodeResult>)

  /** `response['results'][0]['locations'][0]`, None where an index is out of range. */
  function FirstLocation(response: GeocodeResponse): (first: Option<GeocodeLocation>)
    ensures first.Some? <==> |response.results| > 0 && |response.results[0].locations| > 0
    ensures first.Some? ==> first.value == response.results[0].locations[0]
  {
    if |response.results| > 0 && |response.results[0].locations| > 0 then
      Some(response.results[0].locations[0])
    else
      None
  }

  /** `UserLocation`: the city, state and country a user entered; state
      and country may be missing. */
  datatype UserLocation = UserLocation(city: Option<string>, state: Option<string>, country: Option<string>) {

    /** The parts that go into the query: the city, then the state and the
        country when they are given. */
    function Parts(): (parts: seq<string>)
      ensures |parts| >= 1 && parts[0] == (if city.Some? then city.value else "")
    {
      [if city.Some? then city.value else ""] +
      (if Truthy(state) then [state.value] else []) +
      (if Truthy(country) then [country.value] else [])
    }

    /** `_get_location`: "city, state, country", "city, state" or
        "city, country", and nothing without a city or with a city alone. */
    function GetLocation(): (r: Option<string>)
      ensures r.Some? <==> Truthy(city) && (Truthy(state) || Truthy(country))
    {
      if Truthy(city) && Truthy(state) && Truthy(country) then
        Some(city.value + ", " + state.value + ", " + country.value)
      else if Truthy(city) && Truthy(state) then
        Some(city.value + ", " + state.value)
      else if Truthy(city) && Truthy(country) then
        Some(city.value + ", " + country.value)
      else
        None
    }

    /** Only a city was entered: `get_coordinates` returns before the lookup. */
    predicate CityOnly() {
      Truthy(city) && !Truthy(state) && !Truthy(country)
    }

    /** `get_coordinates`, with `lookup` standing for the geocoder's answer
        to a query: nothing for a city alone; otherwise the first location
        of the first result, kept only when its quality code contains "A5".
        An empty results or locations list raises `IndexError`. */
    function GetCoordinates(lookup: Option<string> -> GeocodeResponse): (r: Outcome<Option<LatLng>>)
      ensures CityOnly() ==> r == Value(None)
      ensures r.Raised? <==> !CityOnly() && FirstLocation(lookup(GetLocation())).None?
      ensures r.Raised? ==> r.error == IndexError
      ensures r.Value? && r.value.Some? <==>
        && !CityOnly()
        && FirstLocation(lookup(GetLocation())).Some?
        && exists i :: OccursAt(FirstLocation(lookup(GetLocation())).value.geocodeQualityCode, CityLevel, i)
      ensures r.Value? && r.value.Some? ==> r.value.value == FirstLocation(lookup(GetLocation())).value.latLng
    {
      if CityOnly() then Value(None)
      else
        match FirstLocation(lookup(GetLocation()))
        case None => Raised(IndexError)
        case Some(first) =>
          ContainsOccurs(first.geocodeQualityCode, CityLevel);
          if Contains(first.geocodeQualityCode, CityLevel) then Value(Some(first.latLng)) else Value(None)
    }
  }

  lemma {:induction false} SplitJoined(prefix: string, parts: seq<string>)
    requires |parts| >= 1 && ',' !in prefix
    requires forall k :: 0 <= k < |parts| ==> ',' !in parts[k]
    ensures var f := Split(prefix + JoinComma(parts), ',');
      && |f| == |parts|
      && f[0] == prefix + parts[0]
      && forall j :: 1 <= j < |parts| ==> f[j] == " " + parts[j]
    decreases |parts|
  {
    if |parts| == 1 {
      SplitWithout(prefix + parts[0], ',');
    } else {
      var rest := parts[1..];
      assert prefix + JoinComma(parts) == (prefix + parts[0]) + [','] + (" " + JoinComma(rest));
      SplitAtFirst(prefix + parts[0], ',', " " + JoinComma(rest));
      SplitJoined(" ", rest);
    }
  }

  lemma FieldsOfSplit(s: string, parts: seq<string>)
    requires var f := Split(s, ',');
      && |f| == |parts|
      && f[0] == parts[0]
      && forall j :: 1 <= j < |parts| ==> f[j] == " " + parts[j]
    ensures Fields(s) == parts
  {
    var f := Split(s, ',');
    var r := Fields(s);
    forall j | 1 <= j < |parts|
      ensures r[j] == parts[j]
    {
      assert r[j] == DropLeadingSpace(f[j]);
    }
  }

  /** Splitting a joined location at its commas gives back the parts, as
      long as no part holds a comma of its own. */
  lemma FieldsJoinComma(parts: seq<string>)
    requires |parts| >= 1
    requires forall k :: 0 <= k < |parts| ==> ',' !in parts[k]
    ensures Fields(JoinComma(parts)) == parts
  {
    assert "" + JoinComma(parts) == JoinComma(parts);
    assert "" + parts[0] == parts[0];
    SplitJoined("", parts);
    FieldsOfSplit(JoinComma(parts), parts);
  }

  /** The query text is the given parts joined by ", ". */
  lemma LocationIsJoin(loc: UserLocation)
    requires loc.GetLocation().Some?
    ensures loc.GetLocation().value == JoinComma(loc.Parts())
  {
    var parts := loc.Parts();
    if |parts| == 3 {
      assert JoinComma(parts) == parts[0] + ", " + (parts[1] + ", " + JoinComma(parts[2..]));
    }
  }

  /** The query text of a location whose parts hold no comma names each
      given part once, in the order city, state, country. */
  lemma QueryRoundTrip(loc: UserLocation)
    requires loc.GetLocation().Some?
    requires forall k :: 0 <= k < |loc.Parts()| ==> ',' !in loc.Parts()[k]
    ensures Fields(loc.GetLocation().value) == loc.Parts()
    ensures |loc.Parts()| == 1 + (if Truthy(loc.state) then 1 else 0) + (if Truthy(loc.country) then 1 else 0)
  {
    LocationIsJoin(loc);
    FieldsJoinComma(loc.Parts());
  }

  /** With only a city, the answer does not depend on the geocoder at all. */
  lemma CityOnlyIgnoresLookup(loc: UserLocation, lookup1: Option<string> -> GeocodeResponse, lookup2: Option<string> -> GeocodeResponse)
    requires loc.CityOnly()
    ensures loc.GetCoordinates(lookup1) == loc.GetCoordinates(lookup2) == Value(None)
  {
  }

  /** A response whose first location has the quality code of the
      documented Washington example is accepted; one whose code lacks "A5"
      is not. */
  lemma QualityExamples(loc: UserLocation, where: LatLng)
    requires !loc.CityOnly()
    ensures loc.GetCoordinates(_ => GeocodeResponse([GeocodeResult([GeocodeLocation("A5XAX", where)])])) == Value(Some(where))
    ensures loc.GetCoordinates(_ => GeocodeResponse([GeocodeResult([GeocodeLocation("A3XAX", where)])])) == Value(None)
  {
    assert OccursAt("A5XAX", CityLevel, 0);
    var code := "A3XAX";
    forall i | 0 <= i
      ensures !OccursAt(code, CityLevel, i)
    {
      if i + 2 <= |code| {
        assert code[i..i + 2][1] == code[i + 1];
        assert i == 0 || i == 1 || i == 2 || i == 3;
      }
    }
  }
}
