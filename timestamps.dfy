/**
 * The per-row timestamp work of the normaliser: reading SCEDTimestamp text
 * in the format MM/DD/YYYY HH:MM:SS, adding five minutes, flooring to a
 * five-minute boundary and writing the delivery date as YYYY-MM-DD.
 */
module Timestamps {
  import opened Wrappers
  import opened Text
  import opened Civil

  /** Five minutes, in microseconds: the offset and the flooring unit. */
  const FiveMinutes: int := 300_000_000

  /** pandas' dt.floor('5min'): the latest five-minute boundary at or before t. */
  function Floor5(t: int): (r: int)
    ensures r % FiveMinutes == 0 && r <= t < r + FiveMinutes
  {
    t - t % FiveMinutes
  }

  /** A five-minute boundary is its own floor, so flooring twice is flooring once. */
  lemma Floor5Idempotent(t: int)
    ensures Floor5(Floor5(t)) == Floor5(t)
  {
  }

  /** Only one five-minute boundary lies in (t - 5 min, t]. */
  lemma Floor5Unique(t: int, b: int)
    requires b % FiveMinutes == 0 && b <= t < b + FiveMinutes
    ensures b == Floor5(t)
  {
    var f := Floor5(t);
    assert (b - f) % FiveMinutes == 0;
    assert -FiveMinutes < b - f < FiveMinutes;
  }

  /**
   * Because the offset is exactly one flooring unit, flooring after adding
   * five minutes is flooring first and adding five minutes afterwards.
   */
  lemma FloorOfShift(t: int)
    ensures Floor5(t + FiveMinutes) == Floor5(t) + FiveMinutes
  {
    Floor5Unique(t + FiveMinutes, Floor5(t) + FiveMinutes);
  }

  /** A day is a whole number of five-minute units, so flooring never leaves the day. */
  lemma FloorKeepsDay(t: int)
    ensures Floor5(t) / MicrosPerDay == t / MicrosPerDay
  {
    var d := t / MicrosPerDay;
    var f := Floor5(t);
    var b := d * MicrosPerDay;
    assert b <= t < b + MicrosPerDay;
    var k := f / FiveMinutes;
    assert f == k * FiveMinutes;
    assert b == (d * 288) * FiveMinutes;
    assert f - b == (k - d * 288) * FiveMinutes;
    DivideDay(d, f - b);
  }

  /** On a five-minute boundary the time past the hour is a whole number of minutes, a multiple of five of them. */
  lemma BoundaryTimeOfDay(f: int)
    requires f % FiveMinutes == 0
    ensures var rh := f % MicrosPerDay % MicrosPerHour;
            rh / MicrosPerMinute % 5 == 0 && rh % MicrosPerMinute == 0
  {
    var q := f / FiveMinutes;
    assert f == q * FiveMinutes;
    var u := q % 288;
    assert q == (q / 288) * 288 + u;
    assert f == (q / 288) * MicrosPerDay + u * FiveMinutes;
    DivideDay(q / 288, u * FiveMinutes);
    var w := u % 12;
    assert u == (u / 12) * 12 + w;
    assert u * FiveMinutes == (u / 12) * MicrosPerHour + w * FiveMinutes;
    DivideHour(u / 12, w * FiveMinutes);
    assert w * FiveMinutes == (w * 5) * MicrosPerMinute + 0;
    DivideMinute(w * 5, 0);
  }

  /** The wall clock of a floored instant shows minutes that are a multiple of 5, and no seconds. */
  lemma FloorOnClock(t: int)
    ensures var c := DateTimeOf(Floor5(t));
            c.minute % 5 == 0 && c.second == 0 && c.microsecond == 0
  {
    var f := Floor5(t);
    BoundaryTimeOfDay(f);
    var rh := f % MicrosPerDay % MicrosPerHour;
    var c := DateTimeOf(f);
    assert c.minute == rh / MicrosPerMinute;
    assert c.second == rh % MicrosPerMinute / MicrosPerSecond;
    assert c.microsecond == rh % MicrosPerMinute % MicrosPerSecond;
  }

  /**
   * Flooring a reading with whole seconds keeps its date and hour, sets its
   * minute back to a multiple of 5 and its second to 0.
   */
  lemma FloorOfReading(d: DateTime)
    requires ValidDateTime(d) && d.microsecond == 0
    ensures DateTimeOf(Floor5(InstantOf(d))) == DateTime(d.date, d.hour, d.minute - d.minute % 5, 0, 0)
  {
    var b := DateTime(d.date, d.hour, d.minute - d.minute % 5, 0, 0);
    var n := DayNumber(d.date);
    BoundaryUnits(n, d.hour, d.minute / 5, d.minute % 5, d.second);
    Floor5Unique(InstantOf(d), InstantOf(b));
    DateTimeOfInstant(b);
  }

  lemma BoundaryUnits(n: int, hour: int, fifth: int, rest: int, second: int)
    requires 0 <= rest < 5 && 0 <= second < 60
    ensures var b := n * MicrosPerDay + hour * MicrosPerHour + (5 * fifth) * MicrosPerMinute;
            && b % FiveMinutes == 0
            && b <= b + rest * MicrosPerMinute + second * MicrosPerSecond < b + FiveMinutes
  {
    var b := n * MicrosPerDay + hour * MicrosPerHour + (5 * fifth) * MicrosPerMinute;
    assert b == (n * 288 + hour * 12 + fifth) * FiveMinutes;
  }

  /** Reads 1 to max leading digits of s as a number, with what follows. */
  function Number(s: string, max: nat): Option<(int, string)> {
    var k := DigitRun(s, max);
    if k == 0 then None else Some((NatOf(s[..k]), s[k..]))
  }

  /** Reads exactly n leading digits of s, not followed by another digit within reach. */
  function FixedNumber(s: string, n: nat): (r: Option<(int, string)>)
    ensures r.Some? ==> 0 <= r.value.0 < Pow10(n)
  {
    var k := DigitRun(s, n);
    NatOfBound(s[..k]);
    if k != n || n == 0 then None else Some((NatOf(s[..k]), s[k..]))
  }

  /** Consumes one expected character. */
  function Literal(s: string, c: char): Option<string> {
    if s != [] && s[0] == c then Some(s[1..]) else None
  }

  /** strptime's %d also admits a space followed by one digit 1 to 9. */
  function DayNumberField(s: string): Option<(int, string)> {
    if |s| >= 2 && s[0] == ' ' && '1' <= s[1] <= '9' then Some((DigitValue(s[1]), s[2..]))
    else Number(s, 2)
  }

  /** Number of leading whitespace characters. */
  function SpaceRun(s: string): (k: nat)
    ensures k <= |s|
  {
    if s != [] && IsSpace(s[0]) then 1 + SpaceRun(s[1..]) else 0
  }

  /** The whitespace between date and time: strptime turns the space of the format into \s+. */
  function Spaces(s: string): Option<string> {
    var k := SpaceRun(s);
    if k == 0 then None else Some(s[k..])
  }

  /** The date part MM/DD/YYYY, with what follows it. */
  function ScanDate(s: string): (r: Option<(Date, string)>)
    ensures r.Some? ==> r.value.0.year < 10000
  {
    var (month, s1) :- Number(s, 2);
    var s2 :- Literal(s1, '/');
    var (day, s3) :- DayNumberField(s2);
    var s4 :- Literal(s3, '/');
    var (year, s5) :- FixedNumber(s4, 4);
    Some((Date(year, month, day), s5))
  }

  /** The time part HH:MM:SS, with what follows it. */
  function ScanClock(s: string): Option<(int, int, int, string)> {
    var (hour, s1) :- Number(s, 2);
    var s2 :- Literal(s1, ':');
    var (minute, s3) :- Number(s2, 2);
    var s4 :- Literal(s3, ':');
    var (second, s5) :- Number(s4, 2);
    Some((hour, minute, second, s5))
  }

  /**
   * The wall-clock reading of SCEDTimestamp text, as
   * pandas.to_datetime(..., format='%m/%d/%Y %H:%M:%S') reads it: month,
   * day, hour, minute and second take one or two digits, the year exactly
   * four, the whole text must be used, and the fields must name a real
   * date and time.
   */
  function ScanTimestamp(s: string): (r: Option<DateTime>)
    ensures r.Some? ==> ValidDateTime(r.value) && 1 <= r.value.date.year < 10000 && r.value.microsecond == 0
  {
    var (date, s1) :- ScanDate(s);
    var s2 :- Spaces(s1);
    var (hour, minute, second, s3) :- ScanClock(s2);
    var t := DateTime(date, hour, minute, second, 0);
    if s3 == [] && date.year >= 1 && ValidDateTime(t) then Some(t) else None
  }

  /** The instant of SCEDTimestamp text, or None where pandas raises a parse error. */
  function ParseTimestamp(s: string): (r: Option<int>)
    ensures r.Some? <==> ScanTimestamp(s).Some?
    ensures r.Some? ==> r.value % MicrosPerSecond == 0
  {
    match ScanTimestamp(s)
    case None => None
    case Some(t) => WholeSeconds(t); Some(InstantOf(t))
  }

  /** %S reads whole seconds, so a parsed instant has no microseconds. */
  lemma WholeSeconds(t: DateTime)
    requires ValidDateTime(t) && t.microsecond == 0
    ensures InstantOf(t) % MicrosPerSecond == 0
  {
    var k := DayNumber(t.date) * 86_400 + t.hour * 3_600 + t.minute * 60 + t.second;
    assert InstantOf(t) == k * MicrosPerSecond;
    SecondsMod(k);
  }

  lemma SecondsMod(k: int)
    ensures (k * MicrosPerSecond) % MicrosPerSecond == 0
  {
  }

  /** A reading in the zero-padded form the reports use, e.g. 05/19/2023 23:57:18. */
  function FormatTimestamp(t: DateTime): string
    requires ValidDateTime(t) && 0 <= t.date.year < 10000
  {
    Pad2(t.date.month) + "/" + Pad2(t.date.day) + "/" + Pad4(t.date.year) + " "
      + Pad2(t.hour) + ":" + Pad2(t.minute) + ":" + Pad2(t.second)
  }

  lemma NumberOfPad2(v: int, rest: string)
    requires 0 <= v < 100
    requires rest != [] ==> !IsDigit(rest[0])
    ensures Number(Pad2(v) + rest, 2) == Some((v, rest))
  {
    DigitRunOf(Pad2(v), rest, 2);
    assert (Pad2(v) + rest)[..2] == Pad2(v);
    assert (Pad2(v) + rest)[2..] == rest;
    Pad2Value(v);
  }

  /** A zero-padded day is read by %d as two digits, never as a space and one digit. */
  lemma DayFieldOfPad2(v: int, rest: string)
    requires 0 <= v < 100
    requires rest != [] ==> !IsDigit(rest[0])
    ensures DayNumberField(Pad2(v) + rest) == Some((v, rest))
  {
    assert (Pad2(v) + rest)[0] == Pad2(v)[0];
    NumberOfPad2(v, rest);
  }

  lemma FixedNumberOfPad4(v: int, rest: string)
    requires 0 <= v < 10000
    requires rest != [] ==> !IsDigit(rest[0])
    ensures FixedNumber(Pad4(v) + rest, 4) == Some((v, rest))
  {
    DigitRunOf(Pad4(v), rest, 4);
    assert (Pad4(v) + rest)[..4] == Pad4(v);
    assert (Pad4(v) + rest)[4..] == rest;
    Pad4Value(v);
  }

  lemma ScanDateOf(d: Date, rest: string)
    requires 1 <= d.month < 100 && 1 <= d.day < 100 && 0 <= d.year < 10000
    requires rest != [] && !IsDigit(rest[0])
    ensures ScanDate(Pad2(d.month) + "/" + Pad2(d.day) + "/" + Pad4(d.year) + rest) == Some((d, rest))
  {
    var s4 := Pad4(d.year) + rest;
    var s3 := "/" + s4;
    var s2 := Pad2(d.day) + s3;
    var s1 := "/" + s2;
    assert Pad2(d.month) + "/" + Pad2(d.day) + "/" + Pad4(d.year) + rest == Pad2(d.month) + s1;
    NumberOfPad2(d.month, s1);
    assert Literal(s1, '/') == Some(s2);
    DayFieldOfPad2(d.day, s3);
    assert Literal(s3, '/') == Some(s4);
    FixedNumberOfPad4(d.year, rest);
  }

  lemma ScanClockOf(hour: int, minute: int, second: int)
    requires 0 <= hour < 100 && 0 <= minute < 100 && 0 <= second < 100
    ensures ScanClock(Pad2(hour) + ":" + Pad2(minute) + ":" + Pad2(second)) == Some((hour, minute, second, []))
  {
    var s4 := Pad2(second);
    var s3 := ":" + s4;
    var s2 := Pad2(minute) + s3;
    var s1 := ":" + s2;
    assert Pad2(hour) + ":" + Pad2(minute) + ":" + Pad2(second) == Pad2(hour) + s1;
    NumberOfPad2(hour, s1);
    assert Literal(s1, ':') == Some(s2);
    NumberOfPad2(minute, s3);
    assert Literal(s3, ':') == Some(s4);
    assert s4 == Pad2(second) + [];
    NumberOfPad2(second, []);
  }

  /**
   * Reading the zero-padded form of any real date and time in years 1 to
   * 9999 gives back that reading's instant.
   */
  lemma ParseFormatted(t: DateTime)
    requires ValidDateTime(t) && 1 <= t.date.year < 10000 && t.microsecond == 0
    ensures ParseTimestamp(FormatTimestamp(t)) == Some(InstantOf(t))
  {
    var clock := Pad2(t.hour) + ":" + Pad2(t.minute) + ":" + Pad2(t.second);
    var rest := " " + clock;
    assert FormatTimestamp(t) == Pad2(t.date.month) + "/" + Pad2(t.date.day) + "/" + Pad4(t.date.year) + rest;
    ScanDateOf(t.date, rest);
    assert SpaceRun(rest) == 1 by {
      assert rest[1..] == clock && !IsSpace(clock[0]);
    }
    assert Spaces(rest) == Some(clock);
    ScanClockOf(t.hour, t.minute, t.second);
    assert ScanTimestamp(FormatTimestamp(t)) == Some(t);
  }

  /** The delivery date of a day: dt.strftime('%Y-%m-%d'). */
  function FormatDate(d: Date): (r: string)
    requires 0 <= d.year < 10000 && 1 <= d.month <= 12 && 0 <= d.day < 100
    ensures |r| == 10 && r[4] == '-' && r[7] == '-'
    ensures AllDigits(r[..4]) && AllDigits(r[5..7]) && AllDigits(r[8..])
  {
    var r := Pad4(d.year) + "-" + Pad2(d.month) + "-" + Pad2(d.day);
    assert r[..4] == Pad4(d.year) && r[5..7] == Pad2(d.month) && r[8..] == Pad2(d.day);
    r
  }

  /** The year, month and day read back from the delivery date text are the date's own. */
  lemma FormatDateReads(d: Date)
    requires 0 <= d.year < 10000 && 1 <= d.month <= 12 && 0 <= d.day < 100
    ensures var r := FormatDate(d);
            NatOf(r[..4]) == d.year && NatOf(r[5..7]) == d.month && NatOf(r[8..]) == d.day
  {
    var r := FormatDate(d);
    assert r[..4] == Pad4(d.year) && r[5..7] == Pad2(d.month) && r[8..] == Pad2(d.day);
    Pad4Value(d.year);
    Pad2Value(d.month);
    Pad2Value(d.day);
  }

  /** Instants whose date has a four-digit year, the only ones strftime is asked to print here. */
  predicate PrintableYear(t: int) {
    0 <= DateOf(t).year < 10000
  }

  /** The YYYY-MM-DD text of an instant's date. */
  function DeliveryDate(t: int): (r: string)
    requires PrintableYear(t)
    ensures |r| == 10 && r[4] == '-' && r[7] == '-'
  {
    FormatDate(DateOf(t))
  }

  /**
   * The delivery date of a row is the date written in its SCEDTimestamp
   * text, reordered as YYYY-MM-DD: flooring to five minutes never moves a
   * reading to another day.
   */
  lemma DeliveryDateOfReading(t: DateTime)
    requires ValidDateTime(t) && 1 <= t.date.year < 10000 && t.microsecond == 0
    ensures ParseTimestamp(FormatTimestamp(t)).Some?
    ensures var f := Floor5(ParseTimestamp(FormatTimestamp(t)).value);
            PrintableYear(f)
            && DeliveryDate(f) == Pad4(t.date.year) + "-" + Pad2(t.date.month) + "-" + Pad2(t.date.day)
  {
    ParseFormatted(t);
    var i := InstantOf(t);
    FloorKeepsDay(i);
    assert i / MicrosPerDay == DayNumber(t.date);
    DateOfDayNumber(t.date);
  }

  /**
   * A parsed reading floors to an instant on the date written in its
   * text, whose year strftime prints with four digits.
   */
  lemma ParsedDay(s: string)
    requires ParseTimestamp(s).Some?
    ensures var f := Floor5(ParseTimestamp(s).value);
            PrintableYear(f) && DateOf(f) == ScanTimestamp(s).value.date
  {
    var t := ScanTimestamp(s).value;
    var raw := InstantOf(t);
    FloorKeepsDay(raw);
    assert raw / MicrosPerDay == DayNumber(t.date);
    DateOfDayNumber(t.date);
  }

  lemma FormatLateEvening()
    ensures FormatTimestamp(DateTime(Date(2023, 5, 19), 23, 57, 18, 0)) == "05/19/2023 23:57:18"
  {
    MayPads();
    ClockPads();
    assert "05" + "/" + "19" + "/" + "2023" + " " + "23" + ":" + "57" + ":" + "18" == "05/19/2023 23:57:18";
  }

  lemma FormatYearEnd()
    ensures FormatTimestamp(DateTime(Date(2023, 12, 31), 23, 57, 18, 0)) == "12/31/2023 23:57:18"
  {
    DecemberPads();
    ClockPads();
    assert "12" + "/" + "31" + "/" + "2023" + " " + "23" + ":" + "57" + ":" + "18" == "12/31/2023 23:57:18";
  }

  /** The padded fields of 2023-05-19. */
  lemma MayPads()
    ensures Pad2(5) == "05" && Pad2(19) == "19" && Pad4(2023) == "2023"
  {
  }

  /** The padded fields of 2023-12-31. */
  lemma DecemberPads()
    ensures Pad2(12) == "12" && Pad2(31) == "31" && Pad4(2023) == "2023"
  {
  }

  /** The padded fields of the clock reading 23:57:18. */
  lemma ClockPads()
    ensures Pad2(23) == "23" && Pad2(57) == "57" && Pad2(18) == "18"
  {
  }

  lemma DateTextLateEvening()
    ensures Pad4(2023) + "-" + Pad2(5) + "-" + Pad2(19) == "2023-05-19"
  {
    MayPads();
  }

  lemma LateEveningInstants()
    ensures InstantOf(DateTime(Date(2023, 5, 19), 23, 57, 18, 0)) == 1_684_540_638_000_000
    ensures InstantOf(DateTime(Date(2023, 5, 19), 23, 55, 0, 0)) == 1_684_540_500_000_000
    ensures InstantOf(DateTime(Date(2023, 5, 20), 0, 0, 0, 0)) == 1_684_540_800_000_000
  {
    assert DayNumber(Date(2023, 5, 19)) == 19_496;
    assert DayNumber(Date(2023, 5, 20)) == 19_497;
  }

  lemma YearEndInstants()
    ensures InstantOf(DateTime(Date(2023, 12, 31), 23, 57, 18, 0)) == 1_704_067_038_000_000
    ensures InstantOf(DateTime(Date(2023, 12, 31), 23, 55, 0, 0)) == 1_704_066_900_000_000
    ensures InstantOf(DateTime(Date(2024, 1, 1), 0, 0, 0, 0)) == 1_704_067_200_000_000
  {
    assert DayNumber(Date(2023, 12, 31)) == 19_722;
    assert DayNumber(Date(2024, 1, 1)) == 19_723;
  }

  /**
   * The reading 05/19/2023 23:57:18 starts the interval 23:55 on May 19,
   * ends it at midnight starting May 20, and is delivered on 2023-05-19.
   * The instants are written as numbers; LateEveningInstants names them.
   */
  lemma ExampleLateEvening()
    ensures var raw := ParseTimestamp("05/19/2023 23:57:18");
            && raw == Some(1_684_540_638_000_000)
            && Floor5(raw.value) == 1_684_540_500_000_000
            && Floor5(raw.value + FiveMinutes) == 1_684_540_800_000_000
            && PrintableYear(Floor5(raw.value))
            && DeliveryDate(Floor5(raw.value)) == "2023-05-19"
  {
    var t := DateTime(Date(2023, 5, 19), 23, 57, 18, 0);
    FormatLateEvening();
    ParseFormatted(t);
    LateEveningInstants();
    assert Floor5(1_684_540_638_000_000) == 1_684_540_500_000_000;
    FloorOfShift(1_684_540_638_000_000);
    DeliveryDateOfReading(t);
    DateTextLateEvening();
  }

  /**
   * The reading 12/31/2023 23:57:18 ends its interval at 2024-01-01 00:00:00.
   * The instants are written as numbers; YearEndInstants names them.
   */
  lemma ExampleYearEnd()
    ensures var raw := ParseTimestamp("12/31/2023 23:57:18");
            && raw == Some(1_704_067_038_000_000)
            && Floor5(raw.value) == 1_704_066_900_000_000
            && Floor5(raw.value + FiveMinutes) == 1_704_067_200_000_000
  {
    var t := DateTime(Date(2023, 12, 31), 23, 57, 18, 0);
    FormatYearEnd();
    ParseFormatted(t);
    YearEndInstants();
    assert Floor5(1_704_067_038_000_000) == 1_704_066_900_000_000;
    FloorOfShift(1_704_067_038_000_000);
  }
}
