# Water-Mate solar light forecast, in Dafny

A model of the light forecast behind Water-Mate's watering schedule
(`solar_calculator.py`) and of the location text it geocodes
(`location.py`), with proofs of what the code promises.

- `builtins.dfy` (module `Builtins`) holds the Python behaviour the code
  relies on. Exceptions become an `Outcome` (a value, or a raised
  `ValueError`, `TypeError`, `KeyError` or `IndexError`). The module also
  models `int()` and `str()` on integers, slicing with Python's clamping,
  `str.split` and the substring test `in`.
- `clock.dfy` (module `Clock`) covers `convert_12_to_24` and
  `convert_str_to_datetime`, and the `%H:%M:%S` part of
  `datetime.strptime` that reads their result. A date-time is a day
  ordinal plus the seconds since that day's midnight.
- `solar.dfy` (module `Solar`) covers the rest of the forecast:
  - `get_fraction_of_time`, on integer microseconds. `timedelta * float`
    rounds half to even, and each float is taken by its exact ratio.
  - The record `get_data` builds from the sunrise-sunset service's answer.
    Sunset is placed on the following day.
  - The northern and southern light tables, and the hemisphere choice.
  - The class `SolarCalculator`. Its constructor sets the fields once, and
    `generate_dates`, `get_solar_schedule` and `get_daily_sunlight` are
    methods whose loops build their lists.
- `location.dfy` (module `Location`) covers `UserLocation._get_location`
  and the two checks `get_coordinates` makes around its geocoder lookup:
  - the early return for a city given alone;
  - the "A5" quality filter.

The network is a parameter. For the sunrise-sunset service it is a
function from a day to that day's answer, and for the geocoder a function
from the query text to its answer.

The code has no time-zone-dependent day shift. Sunset always moves one day
forward (`solar_calculator.py:81`). The code also has none of the
following, so neither does the model:
- a check that sunrise, solar noon and sunset are in order;
- a rejection of a watering interval below one, which simply gives
  empty lists;
- a distinct lookup error for a day whose status is not "OK". Such a day
  yields no record, and `get_daily_sunlight` then raises `TypeError` when
  it reads that missing record's fields;
- an interval controller: `water_calculator.py` holds only a
  constructor stub.

`Location.FirstLocation` is the indexing
`response['results'][0]['locations'][0]`, with `None` where an index is out
of range, just as `Builtins.Take`, `Builtins.DropLast` and `Builtins.Slice`
are Python's slicing.

## Model

| member | source | states |
|---|---|---|
| Builtins.ParseInt | solar_calculator.py:60 | `int()` on a text either gives a number or raises `ValueError`, never another exception |
| Builtins.ParseIntWhitespace | solar_calculator.py:60 | `int()` strips space and newline around the digits, but raises on the separator characters U+001C and U+001F, which `strptime`'s `\s` would skip |
| Builtins.ParseIntStr | solar_calculator.py:60 | `int()` inverts `str()` on every integer: `int(str(n)) == n`. `convert_12_to_24` applies `int` and then `str` to the hour |
| Builtins.ContainsOccurs | location.py:104 | the substring test `needle in hay` holds exactly when `needle` occurs in `hay` at some index |
| Clock.ParseTime24 | solar_calculator.py:44 | the time of day strptime reads lies within one day; if it raises, it raises `ValueError` |
| Clock.ParseTime24Text | solar_calculator.py:44 | strptime reads a "HH:MM:SS" text back as that reading's seconds since midnight |
| Clock.ConvertStrToDatetime | solar_calculator.py:29-44 | the result always lies on the supplied date, at a time within that day; if it raises, it raises `ValueError`. Some hours outside 1..12 are accepted (see the next two rows) |
| Clock.MorningHourOutOfRange | solar_calculator.py:54-55 | "13:00:00 AM" is not refused: it only loses its suffix and reads as 13:00 |
| Clock.AfternoonHourZero | solar_calculator.py:59-60 | "00:30:00 PM" is not refused: its hour is raised by twelve and it reads as 12:30 |
| Clock.ConvertStrToDatetimeText | solar_calculator.py:33-44 | a 12-hour text as the service writes it, with the one-digit hour zero-filled or already padded, becomes the date-time of the same clock reading on the supplied date |
| Clock.ConvertStrToDatetime24 | solar_calculator.py:33-34 | a 24-hour text without AM/PM (the day length) is used verbatim, so it gives its own reading on the supplied date |
| Clock.MidnightTo24 | solar_calculator.py:51-52 | "12:MM:SS AM" converts to the 24-hour text of midnight plus MM:SS |
| Clock.SuffixOnlyTo24 | solar_calculator.py:54-58 | an AM hour below 12 and the 12 PM hour only lose the suffix, which is already the 24-hour text |
| Clock.AfternoonTo24 | solar_calculator.py:60 | a PM hour from 1 to 11 converts to the 24-hour text with the hour raised by twelve |
| Clock.Convert12To24 | solar_calculator.py:46-60 | if the conversion raises, it raises `ValueError` (from `int()` on the first two characters); what it computes on valid texts is stated by `Clock.Convert12To24Text` |
| Clock.Convert12To24Text | solar_calculator.py:46-60 | on every valid padded 12-hour text the conversion gives the 8-character 24-hour text of the same instant, whose hour is 0..23 |
| Clock.AfternoonExample | test_solar_calculator.py:147-153 | "01:09:55 PM" converts to "13:09:55" |
| Clock.NoonHourExample | test_solar_calculator.py:149-155 | "12:40:01 PM" converts to "12:40:01" |
| Clock.MidnightHourExample | test_solar_calculator.py:151-157 | "12:00:59 AM" converts to "00:00:59" |
| Clock.SeparatorBeforeHour | solar_calculator.py:33-60 | a PM time with a U+001C before its one-digit hour is not zero-filled, and `int()` of its first two characters then raises `ValueError` |
| Clock.UnpaddedExample | test_solar_calculator.py:133-141 | "1:30:20 PM" becomes 13:30:20 on the supplied date |
| Solar.DivideAndRound | solar_calculator.py:107 | the rounding behind `timedelta * float` gives the integer nearest to a / b, and an even one on a tie |
| Solar.GetFractionOfTime | solar_calculator.py:98-109 | the result in microseconds is the integer nearest to the exact product of the duration and the fraction, within half a microsecond, and an even one on a tie |
| Solar.FractionOfTimeBounds | solar_calculator.py:98-109 | for a fraction in [0, 1] the result lies between zero and the whole duration |
| Solar.FractionOfTimeExact | solar_calculator.py:98-109 | for whole seconds and the fractions 1/16, 1/8, 3/4 and 7/8 the result is the exact product, to the microsecond |
| Solar.FractionExamples | test_solar_calculator.py:237-257 | 14:34:31 * 7/8, 14:37:26 * 1/16, 14:40:19 * 1/8, 14:24:19 * 3/4 and 14:29:42 * 3/4 (39136.5 s) give the durations the tests expect |
| Solar.GetData | solar_calculator.py:62-83 | a status other than "OK" gives no record; otherwise there is a record exactly when all four times read, with sunrise, solar noon and day length on the queried day and sunset on the day after it; an unreadable time raises `ValueError` |
| Solar.RecordFromServiceTimes | solar_calculator.py:76-83 | well-formed service texts give the record of the same clock readings, with sunset one day later |
| Solar.NorthernLight | solar_calculator.py:131-140 | the northern table has an entry for exactly the eight light types |
| Solar.SouthernLight | solar_calculator.py:142-151 | the southern table has an entry for exactly the eight light types |
| Solar.HemisphereMirror | solar_calculator.py:131-151 | East and West are the same in both tables; northern North equals southern South and the reverse, northern Northeast equals southern Southeast and the reverse; Northeast equals Northwest and Southeast equals Southwest in each table |
| Solar.LightFor | solar_calculator.py:131-158 | at any latitude, East is solar noon minus sunrise and West is sunset minus solar noon |
| Solar.FractionalLightWithinDayLength | solar_calculator.py:131-151 | every orientation other than East and West gets between none and all of the day length |
| Solar.NorthernFractionsExact | solar_calculator.py:131-140 | in the northern table North is 1/16, South 7/8, Northeast 1/8 and Southeast 3/4 of the day length, exactly |
| Solar.HemisphereSelection | solar_calculator.py:153-158 | a latitude above zero gives North 1/16 and South 7/8 of the day length; a latitude of zero or below gives North 7/8 and South 1/16 |
| Solar.DaylightAroundNoon | solar_calculator.py:81 | in a record built by `get_data`, East is noon minus sunrise on the clock, and West is the rest of the day after noon plus the sunset's clock time, because sunset was moved a day forward |
| Solar.WestExample | test_solar_calculator.py:286-287 | any answer with the Seattle test's "8:06:15 PM" solar noon and "3:23:31 AM" sunset gives West = 26236 s |
| Solar.EastExample | test_solar_calculator.py:296-298 | any answer with the Portland test's "5:55:24 AM" sunrise and "1:07:34 PM" solar noon gives East = 25930 s |
| Solar.SydneyExample | test_solar_calculator.py:191-196 | any answer with the Sydney test's 8:50 PM sunrise (day 30, 20:50), "1:52:45 AM" solar noon and "6:54:50 AM" sunset gives East of at most -68235 s, that is negative, and West = 104525 s, longer than a whole day; the test's own comment expected 5:02:06 |
| Solar.SolarCalculator.constructor | solar_calculator.py:12-16 | the four fields hold the given location, current date, watering interval and light type |
| Solar.SolarCalculator.GenerateDates | solar_calculator.py:18-27 | one date per day of the interval; entry `i` is the current date plus `i + 1`, so the dates strictly increase and never include the current date |
| Solar.SolarCalculator.GetSolarSchedule | solar_calculator.py:85-96 | raises `ValueError` exactly when some forecast day's times are unreadable; otherwise it has one entry per forecast day, and entry `i` is what `get_data` gives for day `i + 1` after the current date |
| Solar.SolarCalculator.GetDailySunlight | solar_calculator.py:111-160 | an unreadable time raises `ValueError`, a day without a record raises `TypeError`, and an unknown light type raises `KeyError` once there is a day. Otherwise the result has one value per forecast day, in date order, each from the table the latitude selects |
| Solar.SolarCalculator.ReadRecords | solar_calculator.py:120-123 | the list comprehensions that read every entry's fields get through exactly when no entry is None |
| Solar.SolarCalculator.LightOf | solar_calculator.py:125-160 | over entries that all hold records: an unknown light type raises `KeyError` exactly when there is a day; otherwise one value per day, in order, each the entry of the table the latitude selects |
| Location.UserLocation.GetLocation | location.py:19-29 | a query text exists exactly when a city is given together with a state or a country |
| Location.LocationIsJoin | location.py:22-29 | the query text is the given parts (city, then state, then country) joined by ", " |
| Location.QueryRoundTrip | location.py:19-29 | splitting the query text at its commas gives back exactly the given parts, in order, when no part holds a comma |
| Location.UserLocation.GetCoordinates | location.py:98-105 | with only a city the result is None before any lookup. An empty results or locations list raises `IndexError`. Otherwise the first location's coordinates are returned exactly when its quality code contains "A5", and None otherwise |
| Location.CityOnlyIgnoresLookup | location.py:98-99 | with only a city the answer is None whatever the geocoder would say |
| Location.QualityExamples | location.py:104-105 | the documented quality code "A5XAX" is accepted and "A3XAX" is refused |

## Left out

- The HTTP requests to the sunrise-sunset service and to the geocoder.
  Their answers are parameters of the model.
- A JSON answer without the keys the code reads is not modelled. In the
  code that raises `KeyError`; in the model the answer is a record with
  every field present.
- `float()` on the stored latitude is not modelled. The latitude is a
  `real`, and only its sign is read.
- Calendar dates are day ordinals. The date range of `datetime`, month and
  year arithmetic, and `strftime('%Y-%m-%d')` are not modelled.
- `strptime` is modelled only for its time part, and only for ASCII digits
  and ASCII whitespace.
- `int()` is modelled only for ASCII digits, without underscores, and with
  only ASCII whitespace stripped. Python's `int()` also strips non-ASCII
  whitespace, for example `int('5\x85') == 5`; in the model that text
  raises `ValueError`.
- `Solar.GetFractionOfTime` computes with exact ratios, so it does not
  model float rounding of other fractions. The four fractions the code uses
  are exact in binary, so nothing is lost for them.
- Solar.FractionalLightWithinDayLength: covers only the six fractional
  orientations. East and West are not bounded by zero and the day length,
  because the code does not bound them. `Solar.SydneyExample` shows East
  below zero and West above a whole day.
- Offset-dependent day shifts are not modelled, because the code has none.
  Its only shift is the fixed extra day on sunset.
- `water_calculator.py` is only a constructor stub, with nothing to model.
- `timezones.py` is not part of this model. It is a script with its own
  superseded time conversion.
- The web application, its forms, models, seed data and views are not
  part of this model: `app.py`, `forms.py`, `models.py`, `seed.py`,
  `static/` and the view tests.
