/**
  The calendar behind `localtime_r`, `timegm` and `mktime`, for a constant UTC offset.
  Days are counted from 1 January 1970 and have 86400 seconds, as in section 4.16,
  "Seconds Since the Epoch", of POSIX.1-2017 Base Definitions.
 */
module Calendar {

  const SECS_PER_DAY := 86400

  /** Broken-down time: `mon` counts from 0, `mday` from 1. */
  datatype Tm = Tm(year: int, mon: int, mday: int, hour: int, min: int, sec: int)

  datatype Date = Date(year: int, mon: int, mday: int)

  predicate IsLeap(y: int) {
    y % 4 == 0 && (y % 100 != 0 || y % 400 == 0)
  }

  function DaysInYear(y: int): int {
    if IsLeap(y) then 366 else 365
  }

  function DaysInMonth(y: int, m: int): (n: int)
    requires 0 <= m < 12
    ensures 28 <= n <= 31
  {
    if m == 1 then (if IsLeap(y) then 29 else 28)
    else if m == 3 || m == 5 || m == 8 || m == 10 then 30
    else 31
  }

  /** The day count of 1 January of year `y`. */
  function DaysBeforeYear(y: int): int
    decreases if y < 1970 then 1970 - y else y - 1970
  {
    if y == 1970 then 0
    else if y < 1970 then DaysBeforeYear(y + 1) - DaysInYear(y)
    else DaysBeforeYear(y - 1) + DaysInYear(y - 1)
  }

  function DaysBeforeMonth(y: int, m: int): int
    requires 0 <= m <= 12
  {
    if m == 0 then 0 else DaysBeforeMonth(y, m - 1) + DaysInMonth(y, m - 1)
  }

  /** The day count of a date; a day past the end of its month runs on into the next one. */
  function DayNumber(y: int, m: int, mday: int): int
    requires 0 <= m < 12
  {
    DaysBeforeYear(y) + DaysBeforeMonth(y, m) + mday - 1
  }

  predicate IsDate(date: Date) {
    0 <= date.mon < 12 && 1 <= date.mday <= DaysInMonth(date.year, date.mon)
  }

  /** The closed form in POSIX.1-2017 section 4.16, where `tm_year` is `y - 1900`. */
  lemma {:induction false} PosixDayCount(y: int)
    ensures DaysBeforeYear(y) == (y - 1970) * 365 + (y - 1969) / 4 - (y - 1901) / 100 + (y - 1601) / 400
    decreases if y < 1970 then 1970 - y else y - 1970
  {
    if y < 1970 {
      PosixDayCount(y + 1);
      LeapDaySteps(y);
    } else if y > 1970 {
      PosixDayCount(y - 1);
      LeapDaySteps(y - 1);
    }
  }

  lemma LeapYearStep(y: int)
    ensures (y - 1968) / 4 - (y - 1969) / 4 == if y % 4 == 0 then 1 else 0
  {}

  lemma CenturyStep(y: int)
    ensures (y - 1900) / 100 - (y - 1901) / 100 == if y % 100 == 0 then 1 else 0
  {}

  lemma FourCenturyStep(y: int)
    ensures (y - 1600) / 400 - (y - 1601) / 400 == if y % 400 == 0 then 1 else 0
  {}

  lemma CenturiesAreMultiples(y: int)
    ensures y % 100 == 0 ==> y % 4 == 0
  {}

  lemma FourCenturiesAreMultiples(y: int)
    ensures y % 400 == 0 ==> y % 100 == 0
  {}

  /** How the three terms of the closed form count the leap day of year `y`. */
  lemma LeapDaySteps(y: int)
    ensures (y - 1968) / 4 - (y - 1900) / 100 + (y - 1600) / 400
         == (y - 1969) / 4 - (y - 1901) / 100 + (y - 1601) / 400 + DaysInYear(y) - 365
  {
    LeapYearStep(y);
    CenturyStep(y);
    FourCenturyStep(y);
    CenturiesAreMultiples(y);
    FourCenturiesAreMultiples(y);
  }

  lemma YearLength(y: int)
    ensures DaysBeforeYear(y + 1) == DaysBeforeYear(y) + DaysInYear(y)
  {}

  lemma YearHasItsMonths(y: int)
    ensures DaysBeforeMonth(y, 12) == DaysInYear(y)
  {
    var feb := DaysInMonth(y, 1);
    assert DaysBeforeMonth(y, 1) == 31;
    assert DaysBeforeMonth(y, 3) == 62 + feb;
    assert DaysBeforeMonth(y, 5) == 123 + feb;
    assert DaysBeforeMonth(y, 7) == 184 + feb;
    assert DaysBeforeMonth(y, 9) == 245 + feb;
    assert DaysBeforeMonth(y, 11) == 306 + feb;
  }

  lemma {:induction false} MonthStartsBy(y: int, m: int)
    requires 0 <= m <= 12
    ensures 28 * m <= DaysBeforeMonth(y, m) <= 31 * m
  {
    if m > 0 {
      MonthStartsBy(y, m - 1);
    }
  }

  lemma {:induction false} MonthsGrow(y: int, m: int, k: int)
    requires 0 <= m < k <= 12
    ensures DaysBeforeMonth(y, m) + DaysInMonth(y, m) <= DaysBeforeMonth(y, k)
    decreases k
  {
    if m + 1 < k {
      MonthsGrow(y, m, k - 1);
    }
  }

  lemma {:induction false} YearsGrow(y: int, z: int)
    requires y < z
    ensures DaysBeforeYear(y) + DaysInYear(y) <= DaysBeforeYear(z)
    decreases z - y
  {
    YearLength(z - 1);
    if y + 1 < z {
      YearsGrow(y, z - 1);
    }
  }

  function Distance(day: int, y: int): nat {
    if day < DaysBeforeYear(y) then DaysBeforeYear(y) - day
    else if DaysBeforeYear(y + 1) <= day then day - DaysBeforeYear(y + 1) + 1
    else 0
  }

  /** The year holding a day, searched from year `y`. */
  function YearFrom(day: int, y: int): (r: int)
    ensures DaysBeforeYear(r) <= day < DaysBeforeYear(r + 1)
    decreases Distance(day, y)
  {
    YearLength(y - 1);
    YearLength(y + 1);
    if day < DaysBeforeYear(y) then YearFrom(day, y - 1)
    else if DaysBeforeYear(y + 1) <= day then YearFrom(day, y + 1)
    else y
  }

  /** The month holding a day of the year, searched from month `m`. */
  function MonthFrom(y: int, yday: int, m: int): (r: int)
    requires 0 <= m < 12 && DaysBeforeMonth(y, m) <= yday < DaysInYear(y)
    ensures 0 <= r < 12 && DaysBeforeMonth(y, r) <= yday < DaysBeforeMonth(y, r) + DaysInMonth(y, r)
    decreases 12 - m
  {
    YearHasItsMonths(y);
    if yday < DaysBeforeMonth(y, m) + DaysInMonth(y, m) then m else MonthFrom(y, yday, m + 1)
  }

  /** The civil date of a day count. */
  function DateOf(day: int): (date: Date)
    ensures IsDate(date) && DayNumber(date.year, date.mon, date.mday) == day
  {
    var y := YearFrom(day, 1970);
    YearLength(y);
    var yday := day - DaysBeforeYear(y);
    MonthStartsBy(y, yday / 32);
    var m := MonthFrom(y, yday, yday / 32);
    Date(y, m, yday - DaysBeforeMonth(y, m) + 1)
  }

  /** No two dates share a day count, so `DateOf` is the only inverse of `DayNumber`. */
  lemma DateIsUnique(date: Date)
    requires IsDate(date)
    ensures DateOf(DayNumber(date.year, date.mon, date.mday)) == date
  {
    var day := DayNumber(date.year, date.mon, date.mday);
    var found := DateOf(day);
    YearBounds(date);
    YearBounds(found);
    if date.year < found.year {
      YearsGrow(date.year, found.year);
    } else if found.year < date.year {
      YearsGrow(found.year, date.year);
    } else if date.mon < found.mon {
      MonthsGrow(date.year, date.mon, found.mon);
    } else if found.mon < date.mon {
      MonthsGrow(date.year, found.mon, date.mon);
    }
  }

  lemma YearBounds(date: Date)
    requires IsDate(date)
    ensures DaysBeforeYear(date.year) <= DayNumber(date.year, date.mon, date.mday)
              < DaysBeforeYear(date.year) + DaysInYear(date.year)
  {
    MonthsGrow(date.year, date.mon, 12);
    YearHasItsMonths(date.year);
    MonthStartsBy(date.year, date.mon);
  }

  /** `gmtime`: every field of the result is in its normal range. */
  function Gmtime(t: int): (tm: Tm)
    ensures IsDate(Date(tm.year, tm.mon, tm.mday))
    ensures 0 <= tm.hour < 24 && 0 <= tm.min < 60 && 0 <= tm.sec < 60
  {
    var date := DateOf(t / SECS_PER_DAY);
    var s := t % SECS_PER_DAY;
    Tm(date.year, date.mon, date.mday, s / 3600, s / 60 % 60, s % 60)
  }

  /** `timegm`; day, hour, minute and second may lie outside their normal ranges. */
  function Timegm(tm: Tm): int
    requires 0 <= tm.mon < 12
  {
    DayNumber(tm.year, tm.mon, tm.mday) * SECS_PER_DAY + tm.hour * 3600 + tm.min * 60 + tm.sec
  }

  lemma TimegmInvertsGmtime(t: int)
    ensures Timegm(Gmtime(t)) == t
  {}

  /** `localtime_r` at a constant UTC offset. */
  function Localtime(t: int, offset: int): Tm {
    Gmtime(t + offset)
  }

  /** `mktime` at a constant UTC offset. */
  function Mktime(tm: Tm, offset: int): int
    requires 0 <= tm.mon < 12
  {
    Timegm(tm) - offset
  }

  function NextMonth(y: int, m: int): (int, int)
    requires 0 <= m < 12
  {
    if m == 11 then (y + 1, 0) else (y, m + 1)
  }

  function PreviousMonth(y: int, m: int): (int, int)
    requires 0 <= m < 12
  {
    if m == 0 then (y - 1, 11) else (y, m - 1)
  }

  /** The first of a month follows the last day of the month before it. */
  lemma MonthsFollow(y: int, m: int)
    requires 0 <= m < 12
    ensures var (ny, nm) := NextMonth(y, m);
            DayNumber(ny, nm, 1) == DayNumber(y, m, 1) + DaysInMonth(y, m)
  {
    YearLength(y);
    YearHasItsMonths(y);
  }
}
