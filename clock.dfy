/** Clock strings as the sunrise-sunset service reports them, and their
    conversion to date-times (`SolarCalculator.convert_12_to_24` and
    `SolarCalculator.convert_str_to_datetime`). */
module Clock {
  import opened Builtins

  const SecondsPerDay: nat := 86400

  /** A `datetime` at whole-second resolution: a day ordinal and the
      seconds elapsed since that day's midnight. */
  datatype DateTime = DateTime(day: int, seconds: nat)

  /** Seconds since midnight of day 0: datetime subtraction is the
      difference of two instants. */
  function Instant(t: DateTime): int {
    t.day * SecondsPerDay + t.seconds
  }

  /** `s[-2:]`, where the 12-hour strings carry "AM" or "PM". */
  function Meridiem(s: string): string {
    if |s| >= 2 then [s[|s| - 2], s[|s| - 1]] else s
  }

  /** `s.zfill(len(s) + 1)`: one '0' in front, or just after a leading sign. */
  function ZFillOne(s: string): (r: string)
    ensures |r| == |s| + 1
  {
    if |s| > 0 && (s[0] == '+' || s[0] == '-') then [s[0]] + "0" + s[1..] else "0" + s
  }

  /** `convert_12_to_24`: "12..AM" becomes "00..", any other AM time and
      "12..PM" lose their last three characters, and otherwise the first two
      characters are read by `int()` and raised by twelve. */
  function Convert12To24(s: string): (r: Outcome<string>)
    ensures r.Raised? ==> r.error == ValueError
  {
    if Meridiem(s) == "AM" && Take(s, 2) == "12" then
      Value("00" + Slice(s, 2, if |s| >= 3 then |s| - 3 else 0))
    else if Meridiem(s) == "AM" then
      Value(DropLast(s, 3))
    else if Meridiem(s) == "PM" && Take(s, 2) == "12" then
      Value(DropLast(s, 3))
    else
      match ParseInt(Take(s, 2))
      case Raised(e) => Raised(e)
      case Value(h) => Value(Str(h + 12) + Slice(s, 2, 8))
  }

  /** One field of `%H`, `%M` or `%S`: one or two digits, at most `max`. */
  predicate ClockField(f: string, max: nat) {
    1 <= |f| <= 2 && AllDigits(f) && DigitsValue(f) <= max
  }

  /** The time part of `datetime.strptime(text, '%Y-%m-%d %H:%M:%S')`. The
      space of the format matches any run of whitespace, so leading
      whitespace is skipped; the rest must be exactly hour, minute and second.
      Seconds 60 and 61 pass the pattern but not the `datetime` constructor. */
  function ParseTime24(t: string): (r: Outcome<nat>)
    ensures r.Value? ==> r.value < SecondsPerDay
    ensures r.Raised? ==> r.error == ValueError
  {
    var fields := SplitFrom(t, ':', SkipSpaces(t, 0), "");
    if |fields| == 3 && ClockField(fields[0], 23) && ClockField(fields[1], 59) && ClockField(fields[2], 59) then
      Value(DigitsValue(fields[0]) * 3600 + DigitsValue(fields[1]) * 60 + DigitsValue(fields[2]))
    else
      Raised(ValueError)
  }

  /** `convert_str_to_datetime(date, time)`: a time without an AM/PM suffix
      (the day length) is read as it is; a 12-hour time whose second
      character is ':' is first zero-filled by one character; the result
      always lies on `date`. */
  function ConvertStrToDatetime(date: int, time: string): (r: Outcome<DateTime>)
    ensures r.Raised? ==> r.error == ValueError
    ensures r.Value? ==> r.value.day == date && r.value.seconds < SecondsPerDay
  {
    var converted :=
      if Meridiem(time) != "AM" && Meridiem(time) != "PM" then Value(time)
      else Convert12To24(if time[1] == ':' then ZFillOne(time) else time);
    match converted
    case Raised(e) => Raised(e)
    case Value(c) =>
      match ParseTime24(c)
      case Raised(e) => Raised(e)
      case Value(secs) => Value(DateTime(date, secs))
  }

  function TwoDigits(n: nat): (s: string)
    requires n < 100
    ensures |s| == 2 && AllDigits(s)
  {
    [DigitChar(n / 10), DigitChar(n % 10)]
  }

  /** A reading of a 24-hour clock. */
  datatype Clock24 = Clock24(hour: nat, minute: nat, second: nat) {
    predicate Valid() {
      hour < 24 && minute < 60 && second < 60
    }

    /** "HH:MM:SS" */
    function Text(): string
      requires Valid()
    {
      TwoDigits(hour) + ":" + TwoDigits(minute) + ":" + TwoDigits(second)
    }

    function SecondsOfDay(): nat {
      hour * 3600 + minute * 60 + second
    }
  }

  /** A reading of a 12-hour clock: hour 1..12 and AM or PM. */
  datatype Clock12 = Clock12(hour: nat, minute: nat, second: nat, pm: bool) {
    predicate Valid() {
      1 <= hour <= 12 && minute < 60 && second < 60
    }

    /** "h:MM:SS AM" as the service writes it, or "hh:MM:SS AM" when `padded`. */
    function Text(padded: bool): string
      requires Valid()
    {
      (if padded || hour >= 10 then TwoDigits(hour) else [DigitChar(hour)]) +
      ":" + TwoDigits(minute) + ":" + TwoDigits(second) + " " + (if pm then "PM" else "AM")
    }

    /** The same instant on a 24-hour clock: 12 AM is midnight, 12 PM is noon,
        AM hours fall before noon and PM hours after it. */
    function To24(): (c: Clock24)
      ensures Valid() ==> c.Valid() && (c.hour >= 12 <==> pm)
      ensures Valid() ==> c.minute == minute && c.second == second
      ensures Valid() && hour < 12 ==> c.hour % 12 == hour
      ensures Valid() && hour == 12 ==> c.hour % 12 == 0
    {
      Clock24(hour % 12 + (if pm then 12 else 0), minute, second)
    }
  }

  lemma TwoDigitsValue(n: nat)
    requires n < 100
    ensures DigitsValue(TwoDigits(n)) == n
  {
    var s := TwoDigits(n);
    assert s[..1] == [DigitChar(n / 10)];
    assert s[..1][..0] == [];
    assert DigitsValue(s[..1]) == n / 10;
  }

  lemma TwoDigitsInjective(a: nat, b: nat)
    requires a < 100 && b < 100 && TwoDigits(a) == TwoDigits(b)
    ensures a == b
  {
    TwoDigitsValue(a);
    TwoDigitsValue(b);
  }

  lemma StrTwoDigits(n: nat)
    requires 10 <= n < 100
    ensures Str(n) == TwoDigits(n)
  {
    assert Decimal(n / 10) == [DigitChar(n / 10)];
    assert Decimal(n) == [DigitChar(n / 10)] + [DigitChar(n % 10)];
  }

  lemma ParseIntTwoDigits(n: nat)
    requires n < 100
    ensures ParseInt(TwoDigits(n)) == Value(n)
  {
    var s := TwoDigits(n);
    NoSpaceIsTrimmed(s);
    TwoDigitsValue(n);
  }

  /** strptime reads back the 24-hour text: the day-length field. */
  lemma ParseTime24Text(c: Clock24)
    requires c.Valid()
    ensures ParseTime24(c.Text()) == Value(c.SecondsOfDay())
  {
    var h, m, s := TwoDigits(c.hour), TwoDigits(c.minute), TwoDigits(c.second);
    var t := c.Text();
    assert SkipSpaces(t, 0) == 0;
    assert t == h + [':'] + (m + [':'] + s);
    SplitAtFirst(h, ':', m + [':'] + s);
    SplitAtFirst(m, ':', s);
    SplitWithout(s, ':');
    TwoDigitsValue(c.hour);
    TwoDigitsValue(c.minute);
    TwoDigitsValue(c.second);
  }

  /** The slices `convert_12_to_24` takes of a zero-padded 12-hour text. */
  lemma PaddedTextSlices(c: Clock12)
    requires c.Valid()
    ensures var s := c.Text(true);
      var tail := ":" + TwoDigits(c.minute) + ":" + TwoDigits(c.second);
      && |s| == 11
      && Meridiem(s) == (if c.pm then "PM" else "AM")
      && Take(s, 2) == TwoDigits(c.hour)
      && Slice(s, 2, 8) == tail
      && Slice(s, 2, |s| - 3) == tail
      && DropLast(s, 3) == TwoDigits(c.hour) + tail
      && (Take(s, 2) == "12" <==> c.hour == 12)
  {
    var s := c.Text(true);
    var tail := ":" + TwoDigits(c.minute) + ":" + TwoDigits(c.second);
    assert s == TwoDigits(c.hour) + tail + " " + (if c.pm then "PM" else "AM");
    assert TwoDigits(12) == "12";
    if Take(s, 2) == "12" {
      TwoDigitsInjective(c.hour, 12);
    }
  }

  lemma AfternoonBranch(s: string, h: int)
    requires Meridiem(s) == "PM" && Take(s, 2) != "12" && ParseInt(Take(s, 2)) == Value(h)
    ensures Convert12To24(s) == Value(Str(h + 12) + Slice(s, 2, 8))
  {
  }

  /** The afternoon branch on any text whose first two characters are a
      padded hour below twelve. */
  lemma AfternoonHour(s: string, h: nat, tail: string)
    requires 1 <= h < 12 && Meridiem(s) == "PM" && Take(s, 2) == TwoDigits(h) && Slice(s, 2, 8) == tail
    ensures Convert12To24(s) == Value(TwoDigits(h + 12) + tail)
  {
    assert TwoDigits(12) == "12";
    if Take(s, 2) == "12" {
      TwoDigitsInjective(h, 12);
    }
    ParseIntTwoDigits(h);
    AfternoonBranch(s, h);
    StrTwoDigits(h + 12);
  }

  lemma AfternoonTo24(c: Clock12)
    requires c.Valid() && c.pm && c.hour != 12
    ensures Convert12To24(c.Text(true)) == Value(c.To24().Text())
  {
    var tail := ":" + TwoDigits(c.minute) + ":" + TwoDigits(c.second);
    PaddedTextSlices(c);
    AfternoonHour(c.Text(true), c.hour, tail);
    AfternoonClock(c);
  }

  lemma AfternoonClock(c: Clock12)
    requires c.Valid() && c.pm && c.hour != 12
    ensures c.To24().Text() == TwoDigits(c.hour + 12) + (":" + TwoDigits(c.minute) + ":" + TwoDigits(c.second))
  {
    assert c.To24().hour == c.hour + 12;
  }

  lemma MidnightTo24(c: Clock12)
    requires c.Valid() && !c.pm && c.hour == 12
    ensures Convert12To24(c.Text(true)) == Value(c.To24().Text())
  {
    var s := c.Text(true);
    var tail := ":" + TwoDigits(c.minute) + ":" + TwoDigits(c.second);
    PaddedTextSlices(c);
    assert Convert12To24(s) == Value("00" + tail);
    assert c.To24().Text() == TwoDigits(0) + tail;
  }

  lemma SuffixOnlyTo24(c: Clock12)
    requires c.Valid() && (c.pm <==> c.hour == 12)
    ensures Convert12To24(c.Text(true)) == Value(c.To24().Text())
  {
    var s := c.Text(true);
    var tail := ":" + TwoDigits(c.minute) + ":" + TwoDigits(c.second);
    PaddedTextSlices(c);
    assert Convert12To24(s) == Value(TwoDigits(c.hour) + tail);
    assert c.To24().Text() == TwoDigits(c.hour) + tail;
  }

  /** The conversion on a zero-padded 12-hour string is the 24-hour text of
      the same reading: eight characters, hour 0..23. */
  lemma Convert12To24Text(c: Clock12)
    requires c.Valid()
    ensures Convert12To24(c.Text(true)) == Value(c.To24().Text())
    ensures |c.To24().Text()| == 8
  {
    if !c.pm && c.hour == 12 {
      MidnightTo24(c);
    } else if c.pm && c.hour != 12 {
      AfternoonTo24(c);
    } else {
      SuffixOnlyTo24(c);
    }
  }

  /** The service's 12-hour text, padded or not, becomes the date-time of
      the same reading on the supplied date. */
  lemma ConvertStrToDatetimeText(date: int, c: Clock12, padded: bool)
    requires c.Valid()
    ensures ConvertStrToDatetime(date, c.Text(padded)) == Value(DateTime(date, c.To24().SecondsOfDay()))
  {
    var t := c.Text(padded);
    var s := c.Text(true);
    assert Meridiem(t) == (if c.pm then "PM" else "AM");
    if t[1] == ':' {
      assert ZFillOne(t) == s;
    } else {
      assert t == s;
    }
    Convert12To24Text(c);
    ParseTime24Text(c.To24());
  }

  /** A 24-hour text (the day length) is read verbatim. */
  lemma ConvertStrToDatetime24(date: int, c: Clock24)
    requires c.Valid()
    ensures ConvertStrToDatetime(date, c.Text()) == Value(DateTime(date, c.SecondsOfDay()))
  {
    var t := c.Text();
    assert Meridiem(t) == TwoDigits(c.second);
    ParseTime24Text(c);
  }

  /** The conversions checked in the repository's tests. */
  lemma AfternoonExample()
    ensures Convert12To24("01:09:55 PM") == Value("13:09:55")
  {
    var c := Clock12(1, 9, 55, true);
    assert c.Text(true) == "01:09:55 PM" by {
      assert TwoDigits(1) == "01" && TwoDigits(9) == "09" && TwoDigits(55) == "55";
    }
    assert c.To24().Text() == "13:09:55" by {
      assert TwoDigits(13) == "13" && TwoDigits(9) == "09" && TwoDigits(55) == "55";
    }
    AfternoonTo24(c);
  }

  lemma NoonHourExample()
    ensures Convert12To24("12:40:01 PM") == Value("12:40:01")
  {
    assert Clock12(12, 40, 1, true).Text(true) == "12:40:01 PM";
    Convert12To24Text(Clock12(12, 40, 1, true));
    assert Clock12(12, 40, 1, true).To24().Text() == "12:40:01";
  }

  lemma MidnightHourExample()
    ensures Convert12To24("12:00:59 AM") == Value("00:00:59")
  {
    assert Clock12(12, 0, 59, false).Text(true) == "12:00:59 AM";
    Convert12To24Text(Clock12(12, 0, 59, false));
    assert Clock12(12, 0, 59, false).To24().Text() == "00:00:59";
  }

  lemma UnpaddedExample(date: int)
    ensures ConvertStrToDatetime(date, "1:30:20 PM") == Value(DateTime(date, 13 * 3600 + 30 * 60 + 20))
  {
    assert Clock12(1, 30, 20, true).Text(false) == "1:30:20 PM";
    ConvertStrToDatetimeText(date, Clock12(1, 30, 20, true), false);
  }

  /** A separator character U+001C before the hour passes the AM/PM and
      zero-fill tests but not `int()`, so the conversion raises. */
  lemma SeparatorBeforeHour(date: int)
    ensures ConvertStrToDatetime(date, "\U{1C}1:00:00 PM") == Raised(ValueError)
  {
    var t := "\U{1C}1:00:00 PM";
    assert Meridiem(t) == "PM" && t[1] != ':';
    assert Take(t, 2) == "\U{1C}1";
    assert ParseInt(Take(t, 2)) == Raised(ValueError);
  }

  /** Hours outside the 12-hour range are not refused. "13:00:00 AM" only
      loses its suffix and reads as 13:00. */
  lemma MorningHourOutOfRange(date: int)
    ensures ConvertStrToDatetime(date, "13:00:00 AM") == Value(DateTime(date, 13 * 3600))
  {
    var am := "13:00:00 AM";
    assert Meridiem(am) == "AM" && am[1] != ':' && Take(am, 2) == "13";
    assert DropLast(am, 3) == "13:00:00";
    assert Clock24(13, 0, 0).Text() == "13:00:00" by {
      assert TwoDigits(13) == "13" && TwoDigits(0) == "00";
    }
    ParseTime24Text(Clock24(13, 0, 0));
  }

  /** "00:30:00 PM" has its hour raised by twelve and reads as 12:30. */
  lemma AfternoonHourZero(date: int)
    ensures ConvertStrToDatetime(date, "00:30:00 PM") == Value(DateTime(date, 12 * 3600 + 30 * 60))
  {
    var pm := "00:30:00 PM";
    assert Meridiem(pm) == "PM" && pm[1] != ':' && Take(pm, 2) == "00";
    assert Slice(pm, 2, 8) == pm[2..8] == ":30:00";
    assert TwoDigits(0) == "00";
    ParseIntTwoDigits(0);
    assert ParseInt(Take(pm, 2)) == Value(0);
    StrTwoDigits(12);
    assert Str(0 + 12) + Slice(pm, 2, 8) == "12:30:00";
    assert Clock24(12, 30, 0).Text() == "12:30:00" by {
      assert TwoDigits(12) == "12" && TwoDigits(30) == "30";
    }
    assert Convert12To24(pm) == Value("12:30:00");
    ParseTime24Text(Clock24(12, 30, 0));
  }

  /** The unpadded texts of the solar noon and sunset of the Sydney test. */
  lemma SydneyTexts()
    ensures Clock12(1, 52, 45, false).Text(false) == "1:52:45 AM"
    ensures Clock12(6, 54, 50, false).Text(false) == "6:54:50 AM"
  {
    assert TwoDigits(50) == "50" && TwoDigits(52) == "52" && TwoDigits(45) == "45" && TwoDigits(54) == "54";
  }

  /** The unpadded texts of the solar noon and sunset of the Seattle test. */
  lemma SeattleTexts()
    ensures Clock12(3, 23, 31, false).Text(false) == "3:23:31 AM"
    ensures Clock12(8, 6, 15, true).Text(false) == "8:06:15 PM"
  {
    assert TwoDigits(23) == "23" && TwoDigits(31) == "31" && TwoDigits(6) == "06" && TwoDigits(15) == "15";
  }

  /** The unpadded texts of the sunrise and solar noon of the Portland test. */
  lemma PortlandTexts()
    ensures Clock12(5, 55, 24, false).Text(false) == "5:55:24 AM"
    ensures Clock12(1, 7, 34, true).Text(false) == "1:07:34 PM"
  {
    assert TwoDigits(55) == "55" && TwoDigits(24) == "24" && TwoDigits(7) == "07" && TwoDigits(34) == "34";
  }
}
