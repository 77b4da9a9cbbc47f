/**
  The civil calendar in closed form, and that dates, marks and times of day follow it. The
  count of days is that of section 4.16 of POSIX.1-2017 Base Definitions, with the day of the
  year written out.
 */
module Civil {
  import opened Calendar
  import opened RollIntervals

  /** 1 in leap years. */
  function Leap(y: int): int {
    if y % 400 == 0 || (y % 4 == 0 && y % 100 != 0) then 1 else 0
  }

  /** The day of the year on which month `m` starts, counting both from 0. */
  function MonthStart(y: int, m: int): int {
    if m == 0 then 0 else if m == 1 then 31 else 59 + Leap(y) + (153 * (m - 2) + 2) / 5
  }

  /** The day count of a date, where `m` counts from 0 and `d` from 1. */
  function CivilDay(y: int, m: int, d: int): int {
    MonthStart(y, m) + d - 1 + (y - 1970) * 365 + (y - 1969) / 4 - (y - 1901) / 100 + (y - 1601) / 400
  }

  lemma MonthLengths(y: int, m: int)
    requires 0 <= m < 12
    ensures DaysInMonth(y, m) == MonthStart(y, m + 1) - MonthStart(y, m)
  {
    assert MonthStart(y, 2) == 59 + Leap(y);
  }

  lemma {:induction false} MonthStartIs(y: int, m: int)
    requires 0 <= m <= 12
    ensures DaysBeforeMonth(y, m) == MonthStart(y, m)
  {
    if m > 0 {
      MonthStartIs(y, m - 1);
      MonthLengths(y, m - 1);
    }
  }

  lemma DayNumberIs(y: int, m: int, d: int)
    requires 0 <= m < 12
    ensures DayNumber(y, m, d) == CivilDay(y, m, d)
  {
    MonthStartIs(y, m);
    PosixDayCount(y);
  }

  /** Within its year and month, as the civil calendar has them. */
  predicate IsCivilDate(y: int, m: int, d: int) {
    0 <= m < 12 && 1 <= d <= MonthStart(y, m + 1) - MonthStart(y, m)
  }

  lemma DateIsCivil(day: int)
    ensures var date := DateOf(day);
      IsCivilDate(date.year, date.mon, date.mday) && CivilDay(date.year, date.mon, date.mday) == day
  {
    var date := DateOf(day);
    MonthLengths(date.year, date.mon);
    DayNumberIs(date.year, date.mon, date.mday);
  }

  /** The fields of the local time are those of the civil date of its day and of the second
      within the day. */
  lemma LocaltimeIsCivil(t: int, offset: int)
    ensures var tm := Localtime(t, offset);
      && IsCivilDate(tm.year, tm.mon, tm.mday)
      && CivilDay(tm.year, tm.mon, tm.mday) == (t + offset) / 86400
      && 0 <= tm.hour < 24 && 0 <= tm.min < 60 && 0 <= tm.sec < 60
      && tm.hour * 3600 + tm.min * 60 + tm.sec == (t + offset) % 86400
  {
    DateIsCivil((t + offset) / SECS_PER_DAY);
  }

  /** The time of broken-down fields, of which all but the month may be out of range. */
  lemma TimegmIsCivil(tm: Tm)
    requires 0 <= tm.mon < 12
    ensures Timegm(tm) == CivilDay(tm.year, tm.mon, tm.mday) * 86400 + tm.hour * 3600 + tm.min * 60 + tm.sec
  {
    DayNumberIs(tm.year, tm.mon, tm.mday);
  }

  /** The mark is midnight of the next day of the month that is a multiple of seven; day 35
      runs on into the next month. */
  lemma WeekMarkIsCivil(t: int, offset: int)
    ensures var tm := Localtime(t, offset);
      IntervalEnd(Days7, t, offset) + offset == CivilDay(tm.year, tm.mon, 7 * (tm.mday / 7 + 1)) * 86400
  {
    var tm := Localtime(t, offset);
    LocaltimeIsCivil(t, offset);
  }

  /** How long a period is, in seconds. */
  function PeriodLength(rp: RollPeriod): int {
    match rp
    case Minutes5 => 5 * 60
    case Minutes15 => 15 * 60
    case Minutes30 => 30 * 60
    case Hours1 => 60 * 60
    case Hours2 => 2 * 60 * 60
    case Hours4 => 4 * 60 * 60
    case Hours6 => 6 * 60 * 60
    case Hours8 => 8 * 60 * 60
    case Hours12 => 12 * 60 * 60
    case Days1 => 24 * 60 * 60
    case Days7 => 7 * 24 * 60 * 60
  }

  /** For the other periods the mark is the next multiple, in local time, of the period that the
      name says; and for all of them the interval is as long as the name says. */
  lemma MarksAreMultiples(rp: RollPeriod, t: int, offset: int)
    ensures IntervalEnd(rp, t, offset) - IntervalStart(rp, t, offset) == PeriodLength(rp)
    ensures rp != Days7 ==>
      && (IntervalEnd(rp, t, offset) + offset) % PeriodLength(rp) == 0
      && t < IntervalEnd(rp, t, offset) <= t + PeriodLength(rp)
  {
    assert IncrementSeconds(rp) == PeriodLength(rp);
    IntervalContainsNow(rp, t, offset);
    if rp != Days7 {
      var p := PeriodLength(rp);
      DivisionIs((IntervalEnd(rp, t, offset) + offset), p, (t + offset) / p + 1, 0);
    }
  }
}
