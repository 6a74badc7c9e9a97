/**
 * The publication window of one run: documents published from the start
 * of yesterday (inclusive) up to the start of today (exclusive).
 */
module Window {
  import opened Civil

  /** from_date and to_date, as instants in microseconds. */
  datatype Window = Window(fromDate: int, toDate: int)

  /**
   * The window for one clock reading now: to_date is the midnight that
   * starts now's day, from_date the midnight one day earlier.
   */
  function SelectWindow(now: int): (w: Window)
    ensures w.toDate % MicrosPerDay == 0 && w.toDate <= now < w.toDate + MicrosPerDay
    ensures w.toDate - w.fromDate == MicrosPerDay
  {
    StartOfDay(now);
    var toDate := now - TimeOfDay(DateTimeOf(now));
    Window(toDate - MicrosPerDay, toDate)
  }

  /** Taking its wall-clock time off an instant leaves the midnight before it. */
  lemma StartOfDay(now: int)
    ensures var s := now - TimeOfDay(DateTimeOf(now));
            s % MicrosPerDay == 0 && s <= now < s + MicrosPerDay
  {
    ReadingOfInstant(now);
    MidnightIsMultiple(now);
  }

  lemma MidnightIsMultiple(n: int)
    ensures (n - n % MicrosPerDay) % MicrosPerDay == 0
  {
  }

  /** A publish instant lies in the window: from_date inclusive, to_date exclusive. */
  predicate InWindow(w: Window, p: int) {
    w.fromDate <= p < w.toDate
  }

  /**
   * On the wall clock, to_date is 00:00:00 of now's date and from_date is
   * 00:00:00 of the calendar day before, across month and year ends.
   */
  lemma WindowMidnights(now: int)
    ensures DateTimeOf(SelectWindow(now).toDate) == DateTime(DateOf(now), 0, 0, 0, 0)
    ensures DateTimeOf(SelectWindow(now).fromDate) == DateTime(PrevDate(DateOf(now)), 0, 0, 0, 0)
  {
    var t := DateTimeOf(now);
    var w := SelectWindow(now);
    assert t.date == DateOf(now);
    var midnight := DateTime(t.date, 0, 0, 0, 0);
    assert InstantOf(midnight) == w.toDate;
    DateTimeOfInstant(midnight);
    PrevDateNumber(t.date);
    var before := DateTime(PrevDate(t.date), 0, 0, 0, 0);
    assert InstantOf(before) == w.fromDate;
    DateTimeOfInstant(before);
  }

  /** The window holds exactly the instants of yesterday's date. */
  lemma WindowIsYesterday(now: int, p: int)
    ensures InWindow(SelectWindow(now), p) <==> DateOf(p) == PrevDate(DateOf(now))
  {
    var w := SelectWindow(now);
    var t := DateTimeOf(now);
    PrevDateNumber(t.date);
    var y := DayNumber(t.date) - 1;
    assert w.fromDate == y * MicrosPerDay;
    assert InWindow(w, p) <==> p / MicrosPerDay == y;
    if DateOf(p) == PrevDate(DateOf(now)) {
      var e := DateOfDay(p / MicrosPerDay);
      assert DayNumber(e) == p / MicrosPerDay;
    }
    if p / MicrosPerDay == y {
      DateOfDayNumber(PrevDate(t.date));
    }
  }

  /**
   * The offset that main.py subtracts: hour, minute, second and
   * microsecond, each taken from its own clock reading.
   */
  function ClockOffset(hourRead: int, minuteRead: int, secondRead: int, microRead: int): (r: int)
    ensures 0 <= r < MicrosPerDay
  {
    DateTimeOf(hourRead).hour * MicrosPerHour + DateTimeOf(minuteRead).minute * MicrosPerMinute
      + DateTimeOf(secondRead).second * MicrosPerSecond + DateTimeOf(microRead).microsecond
  }

  /**
   * The window as main.py computes it, from its ten separate clock
   * readings in evaluation order: for each bound, the reading that is
   * subtracted from first, then the readings for hour, minute, second and
   * microsecond.
   */
  function WindowAsWritten(clock: seq<int>): (w: Window)
    requires |clock| == 10
    ensures clock[0] - 2 * MicrosPerDay < w.fromDate <= clock[0] - MicrosPerDay
    ensures clock[5] - MicrosPerDay < w.toDate <= clock[5]
  {
    Window(clock[0] - (MicrosPerDay + ClockOffset(clock[1], clock[2], clock[3], clock[4])),
           clock[5] - ClockOffset(clock[6], clock[7], clock[8], clock[9]))
  }

  /** When all ten readings agree, the code computes SelectWindow. */
  lemma AsWrittenAgreesOnOneReading(now: int)
    ensures WindowAsWritten([now, now, now, now, now, now, now, now, now, now]) == SelectWindow(now)
  {
    var clock := [now, now, now, now, now, now, now, now, now, now];
    var offset := TimeOfDay(DateTimeOf(now));
    OffsetOfOneReading(now);
    assert clock[0] == clock[1] == clock[2] == clock[3] == clock[4] == now;
    assert clock[5] == clock[6] == clock[7] == clock[8] == clock[9] == now;
    var w := WindowAsWritten(clock);
    assert w.fromDate == now - (MicrosPerDay + ClockOffset(now, now, now, now));
    assert w.toDate == now - ClockOffset(now, now, now, now);
    SelectedBounds(now);
  }

  lemma OffsetOfOneReading(now: int)
    ensures ClockOffset(now, now, now, now) == TimeOfDay(DateTimeOf(now))
  {
    var t := DateTimeOf(now);
    assert ClockOffset(now, now, now, now)
        == t.hour * MicrosPerHour + t.minute * MicrosPerMinute + t.second * MicrosPerSecond + t.microsecond;
  }

  lemma SelectedBounds(now: int)
    ensures var offset := TimeOfDay(DateTimeOf(now));
            SelectWindow(now) == Window(now - (MicrosPerDay + offset), now - offset)
  {
  }

  lemma LastMicrosecondOfMay19()
    ensures InstantOf(DateTime(Date(2023, 5, 19), 23, 59, 59, 999_999)) == 1_684_540_799_999_999
    ensures InstantOf(DateTime(Date(2023, 5, 20), 0, 0, 0, 0)) == 1_684_540_800_000_000
  {
    assert DayNumber(Date(2023, 5, 19)) == 19_496;
    assert DayNumber(Date(2023, 5, 20)) == 19_497;
  }

  /**
   * If the clock passes midnight between the readings for to_date (the
   * first six at 2023-05-19 23:59:59.999999, the rest at 2023-05-20
   * 00:00:00), to_date comes out one microsecond before the end of May 19
   * instead of its start: the window then spans almost two days, and
   * matches the window of neither reading.
   */
  lemma TickBetweenReads()
    ensures var late, next := 1_684_540_799_999_999, 1_684_540_800_000_000;
            var w := WindowAsWritten([late, late, late, late, late, late, next, next, next, next]);
            && w.fromDate == SelectWindow(late).fromDate
            && w.toDate == SelectWindow(late).toDate + MicrosPerDay - 1
            && w != SelectWindow(late) && w != SelectWindow(next)
  {
    var late, next := 1_684_540_799_999_999, 1_684_540_800_000_000;
    LastMicrosecondOfMay19();
    DateTimeOfInstant(DateTime(Date(2023, 5, 19), 23, 59, 59, 999_999));
    DateTimeOfInstant(DateTime(Date(2023, 5, 20), 0, 0, 0, 0));
    var lateOffset := ClockOffset(late, late, late, late);
    assert lateOffset == MicrosPerDay - 1;
    assert ClockOffset(next, next, next, next) == 0;
    var clock := [late, late, late, late, late, late, next, next, next, next];
    assert clock[0] == clock[1] == clock[2] == clock[3] == clock[4] == clock[5] == late;
    assert clock[6] == clock[7] == clock[8] == clock[9] == next;
    var w := WindowAsWritten(clock);
    assert w.fromDate == late - (MicrosPerDay + lateOffset);
    assert w.toDate == late;
    StartOfDay(late);
    StartOfDay(next);
    assert SelectWindow(late).toDate == late - lateOffset;
  }
}
