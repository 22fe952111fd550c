/** The solar light forecast of `solar_calculator.py`: the forecast days
    after the current date, one record per day from the sunrise-sunset
    service, and the light a window of each orientation receives per day.
    Durations (Python `timedelta`s) are integers of microseconds. */
module Solar {
  import opened Builtins
  import opened Clock

  const MicrosPerSecond: nat := 1000000

  /** A float constant by its exact ratio, as `float.as_integer_ratio()` gives it. */
  datatype Fraction = Fraction(num: int, den: int)

  const Sixteenth := Fraction(1, 16)      // 0.0625
  const Eighth := Fraction(1, 8)          // 0.125
  const ThreeQuarters := Fraction(3, 4)   // 0.75
  const SevenEighths := Fraction(7, 8)    // 0.875

  lemma DivisionParts(a: int, b: int)
    requires b > 0
    ensures 0 <= a % b < b
    ensures a - (a / b) * b == a % b
    ensures a - (a / b + 1) * b == a % b - b
  {
    assert (a / b + 1) * b == (a / b) * b + b;
  }

  /** The rounding division behind `timedelta * float`: the integer nearest
      to a / b, ties going to the even neighbour. */
  function DivideAndRound(a: int, b: int): (q: int)
    requires b > 0
    ensures -b <= 2 * (a - q * b) <= b
    ensures 2 * (a - q * b) == b || 2 * (a - q * b) == -b ==> q % 2 == 0
  {
    DivisionParts(a, b);
    var q0, r := a / b, a % b;
    if 2 * r > b || (2 * r == b && q0 % 2 == 1) then q0 + 1 else q0
  }

  lemma ScaleLess(x: int, y: int, b: int)
    requires b > 0
    ensures x < y <==> x * b < y * b
  {
    assert y * b - x * b == (y - x) * b;
  }

  /** Rounding a / b stays between any two integer bounds of a / b. */
  lemma RoundedBetween(a: int, b: int, lo: int, hi: int)
    requires b > 0 && lo * b <= a <= hi * b
    ensures lo <= DivideAndRound(a, b) <= hi
  {
    var q := DivideAndRound(a, b);
    assert (2 * q) * b == 2 * (q * b);
    assert (2 * hi + 2) * b == 2 * (hi * b) + 2 * b;
    assert (2 * lo - 2) * b == 2 * (lo * b) - 2 * b;
    ScaleLess(2 * q, 2 * hi + 2, b);
    ScaleLess(2 * lo - 2, 2 * q, b);
  }

  /** Rounding an exact quotient gives that quotient. */
  lemma RoundedExact(k: int, b: int)
    requires b > 0
    ensures DivideAndRound(k * b, b) == k
  {
    var q := DivideAndRound(k * b, b);
    var d := k - q;
    assert k * b - q * b == d * b;
    assert (2 * d) * b == 2 * (d * b);
    ScaleLess(2 * d, 2, b);
    ScaleLess(-2, 2 * d, b);
  }

  /** `get_fraction_of_time(time, fraction)`: the time of day read as a
      duration since midnight, multiplied by the fraction. */
  function GetFractionOfTime(time: nat, fraction: Fraction): (r: int)
    requires fraction.den > 0
    ensures var exact := time * MicrosPerSecond * fraction.num;
      && -fraction.den <= 2 * (r * fraction.den - exact) <= fraction.den
      && (2 * (r * fraction.den - exact) == fraction.den || 2 * (r * fraction.den - exact) == -fraction.den ==> r % 2 == 0)
  {
    DivideAndRound(time * MicrosPerSecond * fraction.num, fraction.den)
  }

  /** A fraction between 0 and 1 of a duration lies between zero and the duration. */
  lemma FractionOfTimeBounds(time: nat, fraction: Fraction)
    requires 0 <= fraction.num <= fraction.den && fraction.den > 0
    ensures 0 <= GetFractionOfTime(time, fraction) <= time * MicrosPerSecond
  {
    var a := time * MicrosPerSecond * fraction.num;
    assert 0 * fraction.den <= a;
    assert a <= (time * MicrosPerSecond) * fraction.den;
    RoundedBetween(a, fraction.den, 0, time * MicrosPerSecond);
  }

  /** For whole seconds the four fractions the forecast uses lose nothing:
      the result is the exact product, to the microsecond. */
  lemma FractionOfTimeExact(time: nat, fraction: Fraction)
    requires fraction in {Sixteenth, Eighth, ThreeQuarters, SevenEighths}
    ensures GetFractionOfTime(time, fraction) * fraction.den == time * MicrosPerSecond * fraction.num
  {
    if fraction == Sixteenth {
      assert time * MicrosPerSecond * 1 == (time * 62500) * 16;
      RoundedExact(time * 62500, 16);
    } else if fraction == Eighth {
      assert time * MicrosPerSecond * 1 == (time * 125000) * 8;
      RoundedExact(time * 125000, 8);
    } else if fraction == ThreeQuarters {
      assert time * MicrosPerSecond * 3 == (time * 750000) * 4;
      RoundedExact(time * 750000, 4);
    } else {
      assert time * MicrosPerSecond * 7 == (time * 875000) * 8;
      RoundedExact(time * 875000, 8);
    }
  }

  /** `later - earlier` on two date-times, in microseconds. */
  function Elapsed(later: DateTime, earlier: DateTime): int {
    (Instant(later) - Instant(earlier)) * MicrosPerSecond
  }

  /** The part of the sunrise-sunset service's answer that `get_data` reads. */
  datatype EphemerisResponse = EphemerisResponse(
    status: string, sunrise: string, sunset: string, solarNoon: string, dayLength: string)

  /** The record `get_data` builds for one day. */
  datatype SolarRecord = SolarRecord(
    date: int, sunrise: DateTime, sunset: DateTime, solarNoon: DateTime, dayLength: DateTime)

  /** `get_data(day)` on the service's answer for that day: no record unless
      the status is "OK"; sunrise, solar noon and day length on `day`, and
      sunset on the day after it; any unreadable time raises `ValueError`. */
  function GetData(day: int, response: EphemerisResponse): (r: Outcome<Option<SolarRecord>>)
    ensures response.status != "OK" ==> r == Value(None)
    ensures r.Raised? ==> r.error == ValueError
    ensures response.status == "OK" ==>
      (r.Value? <==>
        ConvertStrToDatetime(day, response.sunrise).Value? &&
        ConvertStrToDatetime(day + 1, response.sunset).Value? &&
        ConvertStrToDatetime(day, response.solarNoon).Value? &&
        ConvertStrToDatetime(day, response.dayLength).Value?) &&
      (r.Value? ==> r.value.Some?)
    ensures r.Value? && r.value.Some? ==> r.value.value.date == day && PlacedAsBuilt(r.value.value)
  {
    if response.status != "OK" then Value(None)
    else
      var sunrise := ConvertStrToDatetime(day, response.sunrise);
      var sunset := ConvertStrToDatetime(day + 1, response.sunset);
      var solarNoon := ConvertStrToDatetime(day, response.solarNoon);
      var dayLength := ConvertStrToDatetime(day, response.dayLength);
      if sunrise.Raised? || sunset.Raised? || solarNoon.Raised? || dayLength.Raised? then
        Raised(ValueError)
      else
        Value(Some(SolarRecord(day, sunrise.value, sunset.value, solarNoon.value, dayLength.value)))
  }

  /** The light types the two tables know. */
  const LightTypes: set<string> :=
    {"North", "East", "South", "West", "Northeast", "Northwest", "Southeast", "Southwest"}

  /** `nh_light_calculations`: the light each orientation receives on a
      northern-hemisphere day. */
  function NorthernLight(day: SolarRecord): (table: map<string, int>)
    ensures table.Keys == LightTypes
  {
    var length := day.dayLength.seconds;
    map[
      "North" := GetFractionOfTime(length, Sixteenth),
      "East" := Elapsed(day.solarNoon, day.sunrise),
      "South" := GetFractionOfTime(length, SevenEighths),
      "West" := Elapsed(day.sunset, day.solarNoon),
      "Northeast" := GetFractionOfTime(length, Eighth),
      "Northwest" := GetFractionOfTime(length, Eighth),
      "Southeast" := GetFractionOfTime(length, ThreeQuarters),
      "Southwest" := GetFractionOfTime(length, ThreeQuarters)
    ]
  }

  /** `sh_light_calculations`: the light each orientation receives on a
      southern-hemisphere day. */
  function SouthernLight(day: SolarRecord): (table: map<string, int>)
    ensures table.Keys == LightTypes
  {
    var length := day.dayLength.seconds;
    map[
      "North" := GetFractionOfTime(length, SevenEighths),
      "East" := Elapsed(day.solarNoon, day.sunrise),
      "South" := GetFractionOfTime(length, Sixteenth),
      "West" := Elapsed(day.sunset, day.solarNoon),
      "Northeast" := GetFractionOfTime(length, ThreeQuarters),
      "Northwest" := GetFractionOfTime(length, ThreeQuarters),
      "Southeast" := GetFractionOfTime(length, Eighth),
      "Southwest" := GetFractionOfTime(length, Eighth)
    ]
  }

  /** The entry of the table for the hemisphere: latitude above zero is
      northern, zero and below southern. East (sunrise to solar noon) and
      West (solar noon to sunset) are the same in both. */
  function LightFor(day: SolarRecord, latitude: real, lightType: string): (light: int)
    requires lightType in LightTypes
    ensures lightType == "East" ==> light == Elapsed(day.solarNoon, day.sunrise)
    ensures lightType == "West" ==> light == Elapsed(day.sunset, day.solarNoon)
  {
    if latitude > 0.0 then NorthernLight(day)[lightType] else SouthernLight(day)[lightType]
  }

  /** East and West do not depend on the hemisphere; the fractional entries
      mirror between the hemispheres, and the two diagonals on one side of
      the house agree. */
  lemma HemisphereMirror(day: SolarRecord)
    ensures NorthernLight(day)["East"] == SouthernLight(day)["East"]
    ensures NorthernLight(day)["West"] == SouthernLight(day)["West"]
    ensures NorthernLight(day)["North"] == SouthernLight(day)["South"]
    ensures NorthernLight(day)["South"] == SouthernLight(day)["North"]
    ensures NorthernLight(day)["Northeast"] == SouthernLight(day)["Southeast"]
    ensures NorthernLight(day)["Southeast"] == SouthernLight(day)["Northeast"]
    ensures NorthernLight(day)["Northeast"] == NorthernLight(day)["Northwest"]
    ensures NorthernLight(day)["Southeast"] == NorthernLight(day)["Southwest"]
    ensures SouthernLight(day)["Northeast"] == SouthernLight(day)["Northwest"]
    ensures SouthernLight(day)["Southeast"] == SouthernLight(day)["Southwest"]
  {
  }

  /** Every orientation other than East and West gets a share of the day
      length between none and all of it. */
  lemma FractionalLightWithinDayLength(day: SolarRecord, latitude: real, lightType: string)
    requires lightType in LightTypes - {"East", "West"}
    ensures 0 <= LightFor(day, latitude, lightType) <= day.dayLength.seconds * MicrosPerSecond
  {
    var length := day.dayLength.seconds;
    FractionOfTimeBounds(length, Sixteenth);
    FractionOfTimeBounds(length, Eighth);
    FractionOfTimeBounds(length, ThreeQuarters);
    FractionOfTimeBounds(length, SevenEighths);
  }

  /** The northern table's fractional entries are exactly 1/16, 7/8, 1/8
      and 3/4 of the day length. */
  lemma NorthernFractionsExact(day: SolarRecord)
    ensures var d := day.dayLength.seconds * MicrosPerSecond;
      && NorthernLight(day)["North"] * 16 == d
      && NorthernLight(day)["South"] * 8 == 7 * d
      && NorthernLight(day)["Northeast"] * 8 == d
      && NorthernLight(day)["Southeast"] * 4 == 3 * d
  {
    var length := day.dayLength.seconds;
    FractionOfTimeExact(length, Sixteenth);
    FractionOfTimeExact(length, SevenEighths);
    FractionOfTimeExact(length, Eighth);
    FractionOfTimeExact(length, ThreeQuarters);
  }

  /** Latitude above zero reads the northern table, where North gets 1/16
      and South 7/8 of the day length; the equator and below read the
      southern table, where the two are swapped. */
  lemma HemisphereSelection(day: SolarRecord, latitude: real)
    ensures var d := day.dayLength.seconds * MicrosPerSecond;
      && (latitude > 0.0 ==> LightFor(day, latitude, "North") * 16 == d && LightFor(day, latitude, "South") * 8 == 7 * d)
      && (latitude <= 0.0 ==> LightFor(day, latitude, "North") * 8 == 7 * d && LightFor(day, latitude, "South") * 16 == d)
  {
    NorthernFractionsExact(day);
    HemisphereMirror(day);
  }

  /** The durations checked in the repository's tests: 14:34:31 * 7/8,
      14:37:26 * 1/16, 14:40:19 * 1/8, 14:24:19 * 3/4 and 14:29:42 * 3/4. */
  lemma FractionExamples()
    ensures GetFractionOfTime(14 * 3600 + 34 * 60 + 31, SevenEighths) == 45912 * MicrosPerSecond + 125000
    ensures GetFractionOfTime(14 * 3600 + 37 * 60 + 26, Sixteenth) == 3290 * MicrosPerSecond + 375000
    ensures GetFractionOfTime(14 * 3600 + 40 * 60 + 19, Eighth) == 6602 * MicrosPerSecond + 375000
    ensures GetFractionOfTime(14 * 3600 + 24 * 60 + 19, ThreeQuarters) == 38894 * MicrosPerSecond + 250000
    ensures GetFractionOfTime(14 * 3600 + 29 * 60 + 42, ThreeQuarters) == 39136 * MicrosPerSecond + 500000
  {
    FractionOfTimeExact(14 * 3600 + 34 * 60 + 31, SevenEighths);
    FractionOfTimeExact(14 * 3600 + 37 * 60 + 26, Sixteenth);
    FractionOfTimeExact(14 * 3600 + 40 * 60 + 19, Eighth);
    FractionOfTimeExact(14 * 3600 + 24 * 60 + 19, ThreeQuarters);
    FractionOfTimeExact(14 * 3600 + 29 * 60 + 42, ThreeQuarters);
  }

  /** The service's texts for one day, all well formed, give the record of
      the same readings, with the sunset placed on the following day. */
  lemma RecordFromServiceTimes(day: int, rise: Clock12, sunset: Clock12, noon: Clock12, length: Clock24, padded: bool)
    requires rise.Valid() && sunset.Valid() && noon.Valid() && length.Valid()
    ensures GetData(day, EphemerisResponse("OK", rise.Text(padded), sunset.Text(padded), noon.Text(padded), length.Text()))
      == Value(Some(SolarRecord(day,
           DateTime(day, rise.To24().SecondsOfDay()),
           DateTime(day + 1, sunset.To24().SecondsOfDay()),
           DateTime(day, noon.To24().SecondsOfDay()),
           DateTime(day, length.SecondsOfDay()))))
  {
    ConvertStrToDatetimeText(day, rise, padded);
    ConvertStrToDatetimeText(day + 1, sunset, padded);
    ConvertStrToDatetimeText(day, noon, padded);
    ConvertStrToDatetime24(day, length);
  }

  /** The days `get_data` gives a record's times: sunrise, solar noon and
      day length on the record's date, sunset on the day after it. */
  predicate PlacedAsBuilt(rec: SolarRecord) {
    rec.sunrise.day == rec.date && rec.solarNoon.day == rec.date &&
    rec.dayLength.day == rec.date && rec.sunset.day == rec.date + 1
  }

  /** In a record placed as `get_data` places it, East is solar noon minus
      sunrise within the day; because the sunset was moved to the next day,
      West is the rest of the day after solar noon plus the sunset's clock
      time, and the two together span a whole day more than sunset minus
      sunrise on the clock. */
  lemma DaylightAroundNoon(rec: SolarRecord, latitude: real)
    requires PlacedAsBuilt(rec)
    ensures LightFor(rec, latitude, "East") == (rec.solarNoon.seconds - rec.sunrise.seconds) * MicrosPerSecond
    ensures LightFor(rec, latitude, "West") == (SecondsPerDay + rec.sunset.seconds - rec.solarNoon.seconds) * MicrosPerSecond
    ensures LightFor(rec, latitude, "East") + LightFor(rec, latitude, "West") ==
      (SecondsPerDay + rec.sunset.seconds - rec.sunrise.seconds) * MicrosPerSecond
  {
  }

  /** The West value of the repository's Seattle test: an answer with the
      "8:06:15 PM" solar noon and "3:23:31 AM" sunset gives 7:17:16, that is
      26236 seconds, whatever the day's sunrise and day length. */
  lemma WestExample(day: int, response: EphemerisResponse, rise: Clock12, length: Clock24)
    requires response.status == "OK" && response.solarNoon == "8:06:15 PM" && response.sunset == "3:23:31 AM"
    requires rise.Valid() && response.sunrise == rise.Text(false)
    requires length.Valid() && response.dayLength == length.Text()
    ensures var r := GetData(day, response);
      r.Value? && r.value.Some? && LightFor(r.value.value, 47.466748, "West") == 26236 * MicrosPerSecond
  {
    var sunset, noon := Clock12(3, 23, 31, false), Clock12(8, 6, 15, true);
    SeattleTexts();
    assert response == EphemerisResponse("OK", rise.Text(false), sunset.Text(false), noon.Text(false), length.Text());
    RecordFromServiceTimes(day, rise, sunset, noon, length, false);
    DaylightAroundNoon(GetData(day, response).value.value, 47.466748);
  }

  /** The East value of the repository's Portland test: an answer with the
      "5:55:24 AM" sunrise and "1:07:34 PM" solar noon gives 7:12:10, that is
      25930 seconds, whatever the day's sunset and day length. */
  lemma EastExample(day: int, response: EphemerisResponse, sunset: Clock12, length: Clock24)
    requires response.status == "OK" && response.sunrise == "5:55:24 AM" && response.solarNoon == "1:07:34 PM"
    requires sunset.Valid() && response.sunset == sunset.Text(false)
    requires length.Valid() && response.dayLength == length.Text()
    ensures var r := GetData(day, response);
      r.Value? && r.value.Some? && LightFor(r.value.value, 45.520247, "East") == 25930 * MicrosPerSecond
  {
    var rise, noon := Clock12(5, 55, 24, false), Clock12(1, 7, 34, true);
    PortlandTexts();
    assert response == EphemerisResponse("OK", rise.Text(false), sunset.Text(false), noon.Text(false), length.Text());
    RecordFromServiceTimes(day, rise, sunset, noon, length, false);
    DaylightAroundNoon(GetData(day, response).value.value, 45.520247);
  }

  /** The Sydney day of the repository's tests, where the service's times
      in UTC fall on the local morning: sunrise at 8:50 PM (its seconds are
      not fixed here), solar noon "1:52:45 AM" and sunset "6:54:50 AM". With
      sunset moved a day forward and sunrise not moved back, East is
      negative and West is longer than a whole day. */
  lemma SydneyExample(day: int, response: EphemerisResponse, rise: Clock12, length: Clock24)
    requires rise.Valid() && rise.hour == 8 && rise.minute == 50 && rise.pm
    requires response.status == "OK" && response.sunrise == rise.Text(false)
    requires response.solarNoon == "1:52:45 AM" && response.sunset == "6:54:50 AM"
    requires length.Valid() && response.dayLength == length.Text()
    ensures var r := GetData(day, response);
      && r.Value? && r.value.Some?
      && LightFor(r.value.value, -33.868820, "East") <= -68235 * MicrosPerSecond
      && LightFor(r.value.value, -33.868820, "West") == 104525 * MicrosPerSecond
      && LightFor(r.value.value, -33.868820, "West") > SecondsPerDay * MicrosPerSecond
  {
    var noon, sunset := Clock12(1, 52, 45, false), Clock12(6, 54, 50, false);
    SydneyTexts();
    assert response == EphemerisResponse("OK", rise.Text(false), sunset.Text(false), noon.Text(false), length.Text());
    RecordFromServiceTimes(day, rise, sunset, noon, length, false);
    var rec := GetData(day, response).value.value;
    assert rec.sunrise.seconds == 75000 + rise.second by {
      assert rise.To24() == Clock24(20, 50, rise.second);
    }
    assert rec.solarNoon.seconds == 6765 && rec.sunset.seconds == 24890;
    DaylightAroundNoon(rec, -33.868820);
  }

  /** The coordinates `user_location` holds; only the latitude's sign is read here. */
  datatype Coordinates = Coordinates(latitude: real, longitude: real)

  /** `SolarCalculator`: the forecast for one location, current date,
      watering interval and light type. Its fields are set once. */
  class SolarCalculator {
    const userLocation: Coordinates
    const currentDate: int
    const waterInterval: int
    const lightType: string

    constructor (userLocation: Coordinates, currentDate: int, waterInterval: int, lightType: string)
      ensures this.userLocation == userLocation && this.currentDate == currentDate
      ensures this.waterInterval == waterInterval && this.lightType == lightType
    {
      this.userLocation := userLocation;
      this.currentDate := currentDate;
      this.waterInterval := waterInterval;
      this.lightType := lightType;
    }

    /** The number of forecast days: `range(1, water_interval + 1)` is empty
        for an interval below one. */
    function Days(): nat {
      if waterInterval > 0 then waterInterval else 0
    }

    /** `generate_dates`: the days after the current date, one per day of
        the watering interval, in order. */
    method GenerateDates() returns (dates: seq<int>)
      ensures |dates| == Days()
      ensures forall i :: 0 <= i < |dates| ==> dates[i] == currentDate + i + 1
      ensures forall i, j :: 0 <= i < j < |dates| ==> dates[i] < dates[j]
      ensures currentDate !in dates
    {
      dates := [];
      var i := 1;
      while i <= waterInterval
        invariant 1 <= i <= Days() + 1
        invariant |dates| == i - 1
        invariant forall k :: 0 <= k < |dates| ==> dates[k] == currentDate + k + 1
      {
        dates := dates + [currentDate + i];
        i := i + 1;
      }
    }

    /** `get_data(day)`, with the service answering `ephemeris(day)`. */
    function DataOn(ephemeris: int -> EphemerisResponse, day: int): (r: Outcome<Option<SolarRecord>>)
      ensures r.Raised? ==> r.error == ValueError
    {
      GetData(day, ephemeris(day))
    }

    /** What `get_data` gives for the forecast day with index `i`. */
    function DataFor(ephemeris: int -> EphemerisResponse, i: int): Outcome<Option<SolarRecord>> {
      DataOn(ephemeris, currentDate + i + 1)
    }

    /** The forecast day with index `i` has a record. */
    predicate HasRecord(ephemeris: int -> EphemerisResponse, i: int) {
      DataFor(ephemeris, i).Value? && DataFor(ephemeris, i).value.Some?
    }

    function RecordFor(ephemeris: int -> EphemerisResponse, i: int): SolarRecord
      requires HasRecord(ephemeris, i)
    {
      DataFor(ephemeris, i).value.value
    }

    /** A schedule that agrees with the service day by day and holds no None
        gives every forecast day a record. */
    lemma RecordsOf(ephemeris: int -> EphemerisResponse, forecast: seq<Option<SolarRecord>>)
      requires |forecast| == Days()
      requires forall i {:trigger DataFor(ephemeris, i)} :: 0 <= i < Days() ==> DataFor(ephemeris, i) == Value(forecast[i])
      requires forall i :: 0 <= i < |forecast| ==> forecast[i].Some?
      ensures forall i :: 0 <= i < Days() ==> HasRecord(ephemeris, i) && RecordFor(ephemeris, i) == forecast[i].value
    {
    }

    /** A schedule that agrees with the service on its first days still
        does once the next day's entry is appended. */
    lemma AgreementExtends(ephemeris: int -> EphemerisResponse, schedule: seq<Option<SolarRecord>>, entry: Option<SolarRecord>)
      requires forall i {:trigger DataFor(ephemeris, i)} :: 0 <= i < |schedule| ==> DataFor(ephemeris, i) == Value(schedule[i])
      requires DataFor(ephemeris, |schedule|) == Value(entry)
      ensures forall i {:trigger DataFor(ephemeris, i)} :: 0 <= i < |schedule| + 1 ==> DataFor(ephemeris, i) == Value((schedule + [entry])[i])
    {
    }

    /** `get_solar_schedule`, with `ephemeris` standing for the service's
        answer for each day: one entry per forecast day, in date order, a
        day without status "OK" giving None; an unreadable time anywhere
        raises `ValueError`. */
    method GetSolarSchedule(ephemeris: int -> EphemerisResponse) returns (r: Outcome<seq<Option<SolarRecord>>>)
      ensures r.Raised? ==> r.error == ValueError
      ensures r.Raised? <==> exists i :: 0 <= i < Days() && DataFor(ephemeris, i).Raised?
      ensures r.Value? ==>
        |r.value| == Days() && forall i {:trigger DataFor(ephemeris, i)} :: 0 <= i < Days() ==> DataFor(ephemeris, i) == Value(r.value[i])
    {
      var dates := GenerateDates();
      var schedule := [];
      for k := 0 to |dates|
        invariant |schedule| == k
        invariant forall i {:trigger DataFor(ephemeris, i)} :: 0 <= i < k ==> DataFor(ephemeris, i) == Value(schedule[i])
      {
        // `get_data` on the date `dates[k]`, which is forecast day `k`
        assert dates[k] == currentDate + k + 1;
        var data := DataFor(ephemeris, k);
        if data.Raised? {
          return Raised(data.error);
        }
        AgreementExtends(ephemeris, schedule, data.value);
        schedule := schedule + [data.value];
      }
      return Value(schedule);
    }

    /** `get_daily_sunlight`: the light for the light type on each forecast
        day, in date order, from the northern table when the latitude is
        above zero and from the southern one otherwise. An unreadable time
        raises `ValueError`, a day without a record `TypeError`, and an
        unknown light type `KeyError` once there is a day to look it up for. */
    method GetDailySunlight(ephemeris: int -> EphemerisResponse) returns (r: Outcome<seq<int>>)
      ensures (exists i :: 0 <= i < Days() && DataFor(ephemeris, i).Raised?) ==> r == Raised(ValueError)
      ensures
        && (forall i :: 0 <= i < Days() ==> DataFor(ephemeris, i).Value?)
        && (exists i :: 0 <= i < Days() && DataFor(ephemeris, i) == Value(None))
        ==> r == Raised(TypeError)
      ensures (forall i :: 0 <= i < Days() ==> HasRecord(ephemeris, i)) && Days() > 0 && lightType !in LightTypes ==>
        r == Raised(KeyError)
      ensures r.Value? <==>
        (forall i :: 0 <= i < Days() ==> HasRecord(ephemeris, i)) && (Days() == 0 || lightType in LightTypes)
      ensures r.Value? ==> |r.value| == Days()
      ensures r.Value? ==>
        forall i :: 0 <= i < Days() ==>
          && HasRecord(ephemeris, i) && lightType in LightTypes
          && r.value[i] == LightFor(RecordFor(ephemeris, i), userLocation.latitude, lightType)
    {
      var schedule := GetSolarSchedule(ephemeris);
      if schedule.Raised? {
        var bad :| 0 <= bad < Days() && DataFor(ephemeris, bad).Raised?;
        assert !HasRecord(ephemeris, bad);
        return Raised(schedule.error);
      }
      var forecast := schedule.value;
      var complete := ReadRecords(forecast);
      if !complete {
        var k :| 0 <= k < |forecast| && forecast[k].None?;
        assert DataFor(ephemeris, k) == Value(None);
        assert !HasRecord(ephemeris, k);
        return Raised(TypeError);
      }
      RecordsOf(ephemeris, forecast);
      r := LightOf(forecast);
    }

    /** The four list comprehensions of `get_daily_sunlight`, which read the
        fields of every entry: they get through exactly when no entry is
        None, and otherwise raise `TypeError`. */
    method ReadRecords(forecast: seq<Option<SolarRecord>>) returns (complete: bool)
      ensures complete <==> forall i :: 0 <= i < |forecast| ==> forecast[i].Some?
    {
      for k := 0 to |forecast|
        invariant forall i :: 0 <= i < k ==> forecast[i].Some?
      {
        if forecast[k].None? {
          return false;
        }
      }
      return true;
    }

    /** The loop of `get_daily_sunlight` over a schedule whose entries all
        hold records: one value per day, in order, from the table the
        latitude selects; an unknown light type raises `KeyError` on the
        first day. */
    method LightOf(forecast: seq<Option<SolarRecord>>) returns (r: Outcome<seq<int>>)
      requires forall i :: 0 <= i < |forecast| ==> forecast[i].Some?
      ensures r.Raised? <==> |forecast| > 0 && lightType !in LightTypes
      ensures r.Raised? ==> r.error == KeyError
      ensures r.Value? ==> |r.value| == |forecast|
      ensures r.Value? ==>
        forall i :: 0 <= i < |forecast| ==>
          lightType in LightTypes && r.value[i] == LightFor(forecast[i].value, userLocation.latitude, lightType)
    {
      var light := [];
      for k := 0 to |forecast|
        invariant |light| == k
        invariant k > 0 ==> lightType in LightTypes
        invariant forall i :: 0 <= i < k ==>
          light[i] == LightFor(forecast[i].value, userLocation.latitude, lightType)
      {
        var day := forecast[k].value;
        var table := if userLocation.latitude > 0.0 then NorthernLight(day) else SouthernLight(day);
        if lightType !in table {
          return Raised(KeyError);
        }
        light := light + [table[lightType]];
      }
      return Value(light);
    }
  }
}
