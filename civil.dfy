/**
 * Naive civil time: the proleptic Gregorian calendar and instants counted
 * in microseconds from 1970-01-01 00:00:00 on a local clock without
 * daylight-saving shifts.
 */
module Civil {

  const MicrosPerSecond: int := 1_000_000
  const MicrosPerMinute: int := 60_000_000
  const MicrosPerHour: int := 3_600_000_000
  const MicrosPerDay: int := 86_400_000_000

  /** Days from 0001-01-01 up to 1970-01-01. */
  const EpochOrdinal: int := 719_162

  predicate IsLeapYear(y: int) {
    y % 4 == 0 && (y % 100 != 0 || y % 400 == 0)
  }

  function DaysInYear(y: int): int {
    if IsLeapYear(y) then 366 else 365
  }

  function DaysInMonth(y: int, m: int): int
    requires 1 <= m <= 12
  {
    if m == 2 then (if IsLeapYear(y) then 29 else 28)
    else if m == 4 || m == 6 || m == 9 || m == 11 then 30
    else 31
  }

  /** Days of year y that come before the first of month m. */
  function DaysBeforeMonth(y: int, m: int): int
    requires 1 <= m <= 12
  {
    var common :=
      match m
      case 1 => 0 case 2 => 31 case 3 => 59 case 4 => 90
      case 5 => 120 case 6 => 151 case 7 => 181 case 8 => 212
      case 9 => 243 case 10 => 273 case 11 => 304 case _ => 334;
    if m > 2 && IsLeapYear(y) then common + 1 else common
  }

  /** Days from 0001-01-01 up to January 1 of year y. */
  function DaysBeforeYear(y: int): int {
    var p := y - 1;
    365 * p + p / 4 - p / 100 + p / 400
  }

  datatype Date = Date(year: int, month: int, day: int)

  predicate ValidDate(d: Date) {
    1 <= d.month <= 12 && 1 <= d.day <= DaysInMonth(d.year, d.month)
  }

  /** The number of a day, counted from 1970-01-01 as day 0. */
  function DayNumber(d: Date): int
    requires ValidDate(d)
  {
    DaysBeforeYear(d.year) + DaysBeforeMonth(d.year, d.month) + d.day - 1 - EpochOrdinal
  }

  /** The calendar day after d. */
  function NextDate(d: Date): (e: Date)
    requires ValidDate(d)
    ensures ValidDate(e)
  {
    if d.day < DaysInMonth(d.year, d.month) then Date(d.year, d.month, d.day + 1)
    else if d.month < 12 then Date(d.year, d.month + 1, 1)
    else Date(d.year + 1, 1, 1)
  }

  /** The calendar day before d. */
  function PrevDate(d: Date): (e: Date)
    requires ValidDate(d)
    ensures ValidDate(e)
  {
    if d.day > 1 then Date(d.year, d.month, d.day - 1)
    else if d.month > 1 then Date(d.year, d.month - 1, DaysInMonth(d.year, d.month - 1))
    else Date(d.year - 1, 12, 31)
  }

  /** A year is as long as DaysInYear says: the next one starts that many days later. */
  lemma YearLength(y: int)
    ensures DaysBeforeYear(y + 1) == DaysBeforeYear(y) + DaysInYear(y)
  {
    var p := y - 1;
    CountStep(p, 4);
    CountStep(p, 100);
    CountStep(p, 400);
    if p % 100 == 99 { CloseCentury(p); }
    if p % 400 == 399 { CloseQuadCentury(p); }
  }

  /** One more day past p moves the count of whole k-day blocks on exactly when p closes a block. */
  lemma CountStep(p: int, k: int)
    requires k == 4 || k == 100 || k == 400
    ensures (p + 1) / k == if p % k == k - 1 then p / k + 1 else p / k
    ensures (p + 1) % k == 0 <==> p % k == k - 1
  {
    if k == 4 {
      assert (p + 1) / 4 == if p % 4 == 3 then p / 4 + 1 else p / 4;
    } else if k == 100 {
      assert (p + 1) / 100 == if p % 100 == 99 then p / 100 + 1 else p / 100;
    } else {
      assert (p + 1) / 400 == if p % 400 == 399 then p / 400 + 1 else p / 400;
    }
  }

  /** The last day of a 100-day block is the last day of a 4-day block. */
  lemma CloseCentury(p: int)
    requires p % 100 == 99
    ensures p % 4 == 3
  {
    var q := p / 100;
    assert p == 100 * q + 99;
    var t := 25 * q + 24;
    assert p == 4 * t + 3;
    assert (4 * t + 3) % 4 == 3;
  }

  /** The last day of a 400-day block is the last day of a 100-day block. */
  lemma CloseQuadCentury(p: int)
    requires p % 400 == 399
    ensures p % 100 == 99
  {
    var q := p / 400;
    assert p == 400 * q + 399;
    var t := 4 * q + 3;
    assert p == 100 * t + 99;
    assert (100 * t + 99) % 100 == 99;
  }

  /** Years follow one another without overlap. */
  lemma {:induction false} YearsIncrease(a: int, b: int)
    requires a < b
    ensures DaysBeforeYear(a) + DaysInYear(a) <= DaysBeforeYear(b)
    decreases b - a
  {
    YearLength(a);
    if a + 1 < b {
      YearsIncrease(a + 1, b);
    }
  }

  /** The year holding ordinal day n, where day 0 is 0001-01-01. */
  function YearOfOrdinal(n: int): int {
    var n400 := n / 146097;
    var r400 := n % 146097;
    var n100 := r400 / 36524;
    var r100 := r400 % 36524;
    var n4 := r100 / 1461;
    var r4 := r100 % 1461;
    var n1 := r4 / 365;
    var y := 400 * n400 + 100 * n100 + 4 * n4 + n1 + 1;
    if n1 == 4 || n100 == 4 then y - 1 else y
  }

  /** Ordinal day n lies inside the year YearOfOrdinal computes for it. */
  lemma YearOfOrdinalBounds(n: int)
    ensures var y := YearOfOrdinal(n);
            DaysBeforeYear(y) <= n < DaysBeforeYear(y) + DaysInYear(y)
  {
    var n400 := n / 146097;
    var r400 := n % 146097;
    var n100 := r400 / 36524;
    var r100 := r400 % 36524;
    var n4 := r100 / 1461;
    var r4 := r100 % 1461;
    var n1 := r4 / 365;
    var rem := r4 % 365;
    assert n == 146097 * n400 + 36524 * n100 + 1461 * n4 + 365 * n1 + rem;
    assert 0 <= n100 <= 4 && 0 <= n4 <= 24 && 0 <= n1 <= 4 && 0 <= rem < 365;
    if n100 == 4 {
      assert r100 == 0 && n4 == 0 && n1 == 0 && rem == 0;
      assert YearOfOrdinal(n) == 400 * n400 + 400;
      LastYearOfCycle(n400);
    } else if n1 == 4 {
      assert n4 <= 23 && rem == 0;
      assert YearOfOrdinal(n) == 400 * n400 + 100 * n100 + 4 * n4 + 4;
      LastYearOfOlympiad(n400, n100, n4);
    } else {
      assert YearOfOrdinal(n) == 400 * n400 + 100 * n100 + 4 * n4 + n1 + 1;
      OrdinaryYearStart(n400, n100, n4, n1);
    }
  }

  /** Whole 4-day blocks and the rest in 4 * t + r. */
  lemma Blocks4(p: int, t: int, r: int)
    requires p == 4 * t + r && 0 <= r < 4
    ensures p / 4 == t && p % 4 == r
  {
  }

  /** Whole 100-day blocks and the rest in 100 * t + r. */
  lemma Blocks100(p: int, t: int, r: int)
    requires p == 100 * t + r && 0 <= r < 100
    ensures p / 100 == t && p % 100 == r
  {
  }

  /** Whole 400-day blocks and the rest in 400 * t + r. */
  lemma Blocks400(p: int, t: int, r: int)
    requires p == 400 * t + r && 0 <= r < 400
    ensures p / 400 == t && p % 400 == r
  {
  }

  /** The 400th year of a 400-year cycle is a leap year that starts 146097 - 366 days into the cycle. */
  lemma LastYearOfCycle(n400: int)
    ensures var y := 400 * n400 + 400;
            DaysBeforeYear(y) == 146097 * n400 + 145731 && DaysInYear(y) == 366
  {
    var y := 400 * n400 + 400;
    Blocks4(y - 1, 100 * n400 + 99, 3);
    Blocks100(y - 1, 4 * n400 + 3, 99);
    Blocks400(y - 1, n400, 399);
    Blocks4(y, 100 * n400 + 100, 0);
    Blocks400(y, n400 + 1, 0);
  }

  /** The 4th year of a 4-year run inside a century is a leap year. */
  lemma LastYearOfOlympiad(n400: int, n100: int, n4: int)
    requires 0 <= n100 < 4 && 0 <= n4 <= 23
    ensures var y := 400 * n400 + 100 * n100 + 4 * n4 + 4;
            DaysBeforeYear(y) == 146097 * n400 + 36524 * n100 + 1461 * n4 + 1095 && DaysInYear(y) == 366
  {
    var y := 400 * n400 + 100 * n100 + 4 * n4 + 4;
    Blocks4(y - 1, 100 * n400 + 25 * n100 + n4, 3);
    Blocks100(y - 1, 4 * n400 + n100, 4 * n4 + 3);
    Blocks400(y - 1, n400, 100 * n100 + 4 * n4 + 3);
    Blocks4(y, 100 * n400 + 25 * n100 + n4 + 1, 0);
    Blocks100(y, 4 * n400 + n100, 4 * n4 + 4);
  }

  /** Any other year starts after whole cycles, centuries, 4-year runs and years of the ordinal. */
  lemma OrdinaryYearStart(n400: int, n100: int, n4: int, n1: int)
    requires 0 <= n100 < 4 && 0 <= n4 <= 24 && 0 <= n1 < 4
    ensures var y := 400 * n400 + 100 * n100 + 4 * n4 + n1 + 1;
            DaysBeforeYear(y) == 146097 * n400 + 36524 * n100 + 1461 * n4 + 365 * n1 && DaysInYear(y) >= 365
  {
    var p := 400 * n400 + 100 * n100 + 4 * n4 + n1;
    Blocks4(p, 100 * n400 + 25 * n100 + n4, n1);
    Blocks100(p, 4 * n400 + n100, 4 * n4 + n1);
    Blocks400(p, n400, 100 * n100 + 4 * n4 + n1);
  }

  /** Months follow one another without gaps inside a year. */
  lemma MonthLength(y: int, m: int)
    requires 1 <= m <= 12
    ensures m < 12 ==> DaysBeforeMonth(y, m + 1) == DaysBeforeMonth(y, m) + DaysInMonth(y, m)
    ensures m == 12 ==> DaysBeforeMonth(y, m) + DaysInMonth(y, m) == DaysInYear(y)
  {
  }

  /** Months follow one another without overlap inside a year. */
  lemma {:induction false} MonthsIncrease(y: int, a: int, b: int)
    requires 1 <= a < b <= 12
    ensures DaysBeforeMonth(y, a) + DaysInMonth(y, a) <= DaysBeforeMonth(y, b)
    decreases b - a
  {
    MonthLength(y, a);
    if a + 1 < b {
      MonthsIncrease(y, a + 1, b);
    }
  }

  /**
   * The month, at or before m, that holds day doy of year y (day 0 is
   * January 1), when doy comes before the end of month m.
   */
  function MonthOfYearDay(y: int, doy: int, m: int): (r: int)
    requires 1 <= m <= 12
    requires 0 <= doy < DaysBeforeMonth(y, m) + DaysInMonth(y, m)
    ensures 1 <= r <= m
    ensures DaysBeforeMonth(y, r) <= doy < DaysBeforeMonth(y, r) + DaysInMonth(y, r)
    decreases m
  {
    if m == 1 || DaysBeforeMonth(y, m) <= doy then m
    else
      MonthLength(y, m - 1);
      MonthOfYearDay(y, doy, m - 1)
  }

  /** The date of day number z (day 0 is 1970-01-01). */
  function DateOfDay(z: int): (d: Date)
    ensures ValidDate(d) && DayNumber(d) == z
  {
    var n := z + EpochOrdinal;
    var y := YearOfOrdinal(n);
    YearOfOrdinalBounds(n);
    MonthLength(y, 12);
    var doy := n - DaysBeforeYear(y);
    var m := MonthOfYearDay(y, doy, 12);
    Date(y, m, doy - DaysBeforeMonth(y, m) + 1)
  }

  /** Only one year holds a given ordinal day. */
  lemma YearUnique(a: int, b: int, n: int)
    requires DaysBeforeYear(a) <= n < DaysBeforeYear(a) + DaysInYear(a)
    requires DaysBeforeYear(b) <= n < DaysBeforeYear(b) + DaysInYear(b)
    ensures a == b
  {
    if a < b {
      YearsIncrease(a, b);
    } else if b < a {
      YearsIncrease(b, a);
    }
  }

  /** Only one month of a year holds a given day of that year. */
  lemma MonthUnique(y: int, a: int, b: int, doy: int)
    requires 1 <= a <= 12 && 1 <= b <= 12
    requires DaysBeforeMonth(y, a) <= doy < DaysBeforeMonth(y, a) + DaysInMonth(y, a)
    requires DaysBeforeMonth(y, b) <= doy < DaysBeforeMonth(y, b) + DaysInMonth(y, b)
    ensures a == b
  {
    if a < b {
      MonthsIncrease(y, a, b);
    } else if b < a {
      MonthsIncrease(y, b, a);
    }
  }

  /** The day of its year that a valid date is, counted from 0. */
  lemma DayOfYearBounds(d: Date)
    requires ValidDate(d)
    ensures 0 <= DaysBeforeMonth(d.year, d.month) + d.day - 1 < DaysInYear(d.year)
  {
    MonthLength(d.year, 12);
    if d.month < 12 {
      MonthsIncrease(d.year, d.month, 12);
    }
  }

  /** Every valid date is the date of its own day number. */
  lemma DateOfDayNumber(d: Date)
    requires ValidDate(d)
    ensures DateOfDay(DayNumber(d)) == d
  {
    var n := DayNumber(d) + EpochOrdinal;
    var e := DateOfDay(DayNumber(d));
    DayOfYearBounds(d);
    DayOfYearBounds(e);
    YearUnique(e.year, d.year, n);
    MonthUnique(d.year, e.month, d.month, n - DaysBeforeYear(d.year));
  }

  /** Day numbers of distinct valid dates are distinct. */
  lemma DayNumberInjective(d: Date, e: Date)
    requires ValidDate(d) && ValidDate(e) && DayNumber(d) == DayNumber(e)
    ensures d == e
  {
    DateOfDayNumber(d);
    DateOfDayNumber(e);
  }

  /** NextDate is the day whose number is one more. */
  lemma NextDateNumber(d: Date)
    requires ValidDate(d)
    ensures DayNumber(NextDate(d)) == DayNumber(d) + 1
  {
    MonthLength(d.year, d.month);
    if d.month == 12 && d.day == 31 {
      YearLength(d.year);
    }
  }

  /** PrevDate is the day whose number is one less. */
  lemma PrevDateNumber(d: Date)
    requires ValidDate(d)
    ensures DayNumber(PrevDate(d)) == DayNumber(d) - 1
  {
    if d.day == 1 && d.month > 1 {
      MonthLength(d.year, d.month - 1);
    } else if d.day == 1 {
      YearLength(d.year - 1);
      MonthLength(d.year - 1, 12);
    }
  }

  /** A wall-clock reading: a date and a time of day down to the microsecond. */
  datatype DateTime = DateTime(date: Date, hour: int, minute: int, second: int, microsecond: int)

  predicate ValidDateTime(t: DateTime) {
    && ValidDate(t.date)
    && 0 <= t.hour < 24 && 0 <= t.minute < 60 && 0 <= t.second < 60
    && 0 <= t.microsecond < 1_000_000
  }

  /** Microseconds since the midnight that starts t's day. */
  function TimeOfDay(t: DateTime): int {
    t.hour * MicrosPerHour + t.minute * MicrosPerMinute + t.second * MicrosPerSecond + t.microsecond
  }

  /** The instant of a wall-clock reading, in microseconds since 1970-01-01 00:00:00. */
  function InstantOf(t: DateTime): int
    requires ValidDateTime(t)
  {
    DayNumber(t.date) * MicrosPerDay + TimeOfDay(t)
  }

  /** The wall-clock reading of an instant. */
  function DateTimeOf(i: int): (t: DateTime)
    ensures ValidDateTime(t) && InstantOf(t) == i
  {
    var r := i % MicrosPerDay;
    var hour, rh := r / MicrosPerHour, r % MicrosPerHour;
    var minute, rm := rh / MicrosPerMinute, rh % MicrosPerMinute;
    var second, micro := rm / MicrosPerSecond, rm % MicrosPerSecond;
    assert i == i / MicrosPerDay * MicrosPerDay + r;
    assert r == hour * MicrosPerHour + rh;
    assert rh == minute * MicrosPerMinute + rm;
    assert rm == second * MicrosPerSecond + micro;
    DateTime(DateOfDay(i / MicrosPerDay), hour, minute, second, micro)
  }

  /** Every valid reading is the reading of its own instant. */
  lemma DateTimeOfInstant(t: DateTime)
    requires ValidDateTime(t)
    ensures DateTimeOf(InstantOf(t)) == t
  {
    var rm := t.second * MicrosPerSecond + t.microsecond;
    var rh := t.minute * MicrosPerMinute + rm;
    var r := t.hour * MicrosPerHour + rh;
    assert TimeOfDay(t) == r;
    var i := InstantOf(t);
    DivideDay(DayNumber(t.date), r);
    assert i / MicrosPerDay == DayNumber(t.date) && i % MicrosPerDay == r;
    DivideHour(t.hour, rh);
    DivideMinute(t.minute, rm);
    DivideSecond(t.second, t.microsecond);
    DateOfDayNumber(t.date);
    assert DateOfDay(i / MicrosPerDay) == t.date;
  }

  lemma DivideDay(q: int, r: int)
    requires 0 <= r < MicrosPerDay
    ensures (q * MicrosPerDay + r) / MicrosPerDay == q && (q * MicrosPerDay + r) % MicrosPerDay == r
  {
  }

  lemma DivideHour(q: int, r: int)
    requires 0 <= r < MicrosPerHour
    ensures (q * MicrosPerHour + r) / MicrosPerHour == q && (q * MicrosPerHour + r) % MicrosPerHour == r
  {
  }

  lemma DivideMinute(q: int, r: int)
    requires 0 <= r < MicrosPerMinute
    ensures (q * MicrosPerMinute + r) / MicrosPerMinute == q && (q * MicrosPerMinute + r) % MicrosPerMinute == r
  {
  }

  lemma DivideSecond(q: int, r: int)
    requires 0 <= r < MicrosPerSecond
    ensures (q * MicrosPerSecond + r) / MicrosPerSecond == q && (q * MicrosPerSecond + r) % MicrosPerSecond == r
  {
  }

  /** The reading of an instant splits it into its day number and the time since that midnight. */
  lemma ReadingOfInstant(i: int)
    ensures DayNumber(DateTimeOf(i).date) == i / MicrosPerDay
    ensures TimeOfDay(DateTimeOf(i)) == i % MicrosPerDay
  {
    var t := DateTimeOf(i);
    assert DayNumber(t.date) == i / MicrosPerDay;
    assert i == i / MicrosPerDay * MicrosPerDay + i % MicrosPerDay;
  }

  /** The date part of an instant. */
  function DateOf(i: int): Date {
    DateOfDay(i / MicrosPerDay)
  }
}
