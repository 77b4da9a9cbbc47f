/**
  Log file roll intervals. The clock and the UTC offset are parameters.
 */
module RollIntervals {
  import opened Calendar

  datatype RollPeriod =
    | Minutes5 | Minutes15 | Minutes30
    | Hours1 | Hours2 | Hours4 | Hours6 | Hours8 | Hours12
    | Days1 | Days7

  /** The field of the broken-down time that a period steps. */
  datatype TmField = MinuteField | HourField | DayField

  function FieldToIncrement(rp: RollPeriod): TmField {
    match rp
    case Minutes5 | Minutes15 | Minutes30 => MinuteField
    case Days1 | Days7 => DayField
    case _ => HourField
  }

  function IncrementAmount(rp: RollPeriod): (n: nat)
    ensures n > 0
  {
    match rp
    case Minutes5 => 5
    case Minutes15 => 15
    case Minutes30 => 30
    case Hours1 => 1
    case Hours2 => 2
    case Hours4 => 4
    case Hours6 => 6
    case Hours8 => 8
    case Hours12 => 12
    case Days1 => 1
    case Days7 => 7
  }

  function IncrementSeconds(rp: RollPeriod): nat {
    match rp
    case Minutes5 => 300
    case Minutes15 => 900
    case Minutes30 => 1800
    case Hours1 => 3600
    case Hours2 => 7200
    case Hours4 => 14400
    case Hours6 => 21600
    case Hours8 => 28800
    case Hours12 => 43200
    case Days1 => 86400
    case Days7 => 604800
  }

  predicate IsLeastMultipleAbove(mark: int, amount: nat, field: int)
    requires amount > 0
  {
    mark % amount == 0 && field < mark <= field + amount
  }

  /** Where the roll interval around `t` ends, without broken-down time: the next whole
      period of local time, or for seven days the next day of the month that is a
      multiple of seven (day 35 running on into the next month). */
  function IntervalEnd(rp: RollPeriod, t: int, offset: int): int {
    if rp == Days7 then
      var day := (t + offset) / SECS_PER_DAY;
      var date := DateOf(day);
      (day - date.mday + WeekMark(date.mday)) * SECS_PER_DAY - offset
    else
      ((t + offset) / IncrementSeconds(rp) + 1) * IncrementSeconds(rp) - offset
  }

  function WeekMark(mday: int): int { (mday / 7 + 1) * 7 }

  function IntervalStart(rp: RollPeriod, t: int, offset: int): int {
    IntervalEnd(rp, t, offset) - IncrementSeconds(rp)
  }

  /** Sets one field to its mark and clears the finer ones. */
  function AtMark(tm: Tm, field: TmField, mark: int): Tm {
    match field
    case MinuteField => tm.(min := mark, sec := 0)
    case HourField => tm.(hour := mark, min := 0, sec := 0)
    case DayField => tm.(mday := mark, hour := 0, min := 0, sec := 0)
  }

  function FieldValue(tm: Tm, field: TmField): int {
    match field
    case MinuteField => tm.min
    case HourField => tm.hour
    case DayField => tm.mday
  }

  method NextMark(rp: RollPeriod, now: int, offset: int) returns (end: int)
    ensures end == IntervalEnd(rp, now, offset)
  {
    var field := FieldToIncrement(rp);
    var amount := IncrementAmount(rp);
    var tms := Localtime(now, offset);
    var mark := 0;
    while mark <= FieldValue(tms, field)
      invariant mark % amount == 0
      invariant mark <= FieldValue(tms, field) + amount
    {
      DivisionIs(mark + amount, amount, mark / amount + 1, 0);
      mark := mark + amount;
    }
    MarkIsIntervalEnd(rp, now, offset, mark);
    tms := AtMark(tms, field, mark);
    end := Mktime(tms, offset);
  }

  lemma MultipleBounds(p: int, d: int)
    requires p > 0
    ensures d >= 1 ==> p * d >= p
    ensures d <= -1 ==> p * d <= -p
  {}

  lemma DivisionIs(a: int, p: int, q: int, r: int)
    requires 0 <= r < p && a == p * q + r
    ensures a / p == q && a % p == r
  {
    var d := a / p - q;
    assert p * d == r - a % p;
    MultipleBounds(p, d);
  }

  lemma Distribute(a: int, b: int, c: int)
    ensures a * (b + c) == a * b + a * c
  {}

  lemma Regroup(a: int, b: int, c: int)
    ensures a * (b * c) == b * (a * c)
  {}

  lemma SplitProduct(a: int, b: int, c: int, d: int)
    ensures (a * c + d) * b == a * b * c + b * d
  {}

  lemma Below(a: int, b: int, c: int)
    requires 0 <= a < b && c > 0
    ensures 0 <= c * a <= c * b - c
  {
    Distribute(c, a, b - a);
    MultipleBounds(c, b - a);
  }

  /** A field counting `unit` seconds, stepped to its least multiple of `amount`, ends the
      period of `amount * unit` seconds, when whole periods make up the `coarse` field. */
  lemma StepEndsPeriod(unit: int, amount: nat, period: nat, count: int, coarse: int, index: int,
                       value: int, past: int, mark: int)
    requires amount > 0 && period == amount * unit && coarse == period * count && 0 <= past < unit
    requires IsLeastMultipleAbove(mark, amount, value)
    ensures period > 0
    ensures ((index * coarse + value * unit + past) / period + 1) * period == index * coarse + mark * unit
  {
    var steps := mark / amount - 1;
    var over := value - amount * steps;
    var whole := index * count;
    Below(over, amount, unit);
    Regroup(index, period, count);
    SplitProduct(amount, unit, steps, over);
    SplitProduct(amount, unit, steps + 1, 0);
    Distribute(period, whole, steps);
    Distribute(period, whole, steps + 1);
    DivisionIs(index * coarse + value * unit + past, period, whole + steps, unit * over + past);
  }

  /** How many steps of a period make up the coarser field: an hour or a day. */
  function StepsInField(rp: RollPeriod): nat {
    match FieldToIncrement(rp)
    case MinuteField => 60 / IncrementAmount(rp)
    case HourField => 24 / IncrementAmount(rp)
    case DayField => 1
  }

  lemma PeriodsDivide(rp: RollPeriod)
    ensures FieldToIncrement(rp) == MinuteField
        ==> IncrementSeconds(rp) == IncrementAmount(rp) * 60 && IncrementSeconds(rp) * StepsInField(rp) == 3600
    ensures FieldToIncrement(rp) == HourField
        ==> IncrementSeconds(rp) == IncrementAmount(rp) * 3600
            && IncrementSeconds(rp) * StepsInField(rp) == SECS_PER_DAY
    ensures FieldToIncrement(rp) == DayField ==> IncrementSeconds(rp) == IncrementAmount(rp) * SECS_PER_DAY
  {}

  lemma MarkWithinDay(rp: RollPeriod, day: int, tm: Tm, mark: int)
    requires FieldToIncrement(rp) != DayField && 0 <= tm.min < 60 && 0 <= tm.sec < 60
    requires IsLeastMultipleAbove(mark, IncrementAmount(rp), FieldValue(tm, FieldToIncrement(rp)))
    ensures ((day * SECS_PER_DAY + tm.hour * 3600 + tm.min * 60 + tm.sec) / IncrementSeconds(rp) + 1)
              * IncrementSeconds(rp)
         == if FieldToIncrement(rp) == MinuteField then day * SECS_PER_DAY + tm.hour * 3600 + mark * 60
            else day * SECS_PER_DAY + mark * 3600
  {
    PeriodsDivide(rp);
    if FieldToIncrement(rp) == MinuteField {
      StepEndsPeriod(60, IncrementAmount(rp), IncrementSeconds(rp), StepsInField(rp), 3600,
                     day * 24 + tm.hour, tm.min, tm.sec, mark);
    } else {
      StepEndsPeriod(3600, IncrementAmount(rp), IncrementSeconds(rp), StepsInField(rp), SECS_PER_DAY,
                     day, tm.hour, tm.min * 60 + tm.sec, mark);
    }
  }

  lemma WeekMarkIs(mday: int, mark: int)
    requires IsLeastMultipleAbove(mark, 7, mday)
    ensures mark == WeekMark(mday)
  {}

  /** Setting the field of the local time to its least multiple above and normalising
      lands on the end of the interval, for every period. */
  lemma MarkIsIntervalEnd(rp: RollPeriod, t: int, offset: int, mark: int)
    requires var tms := Localtime(t, offset);
             IsLeastMultipleAbove(mark, IncrementAmount(rp), FieldValue(tms, FieldToIncrement(rp)))
    ensures var tms := Localtime(t, offset);
            Mktime(AtMark(tms, FieldToIncrement(rp), mark), offset) == IntervalEnd(rp, t, offset)
  {
    if FieldToIncrement(rp) == DayField {
      DayMarkIsIntervalEnd(rp, t, offset, mark);
    } else {
      ClockMarkIsIntervalEnd(rp, t, offset, mark);
    }
  }

  lemma DayMarkIsIntervalEnd(rp: RollPeriod, t: int, offset: int, mark: int)
    requires var tms := Localtime(t, offset);
             IsLeastMultipleAbove(mark, IncrementAmount(rp), FieldValue(tms, FieldToIncrement(rp)))
    requires FieldToIncrement(rp) == DayField
    ensures var tms := Localtime(t, offset);
            Mktime(AtMark(tms, FieldToIncrement(rp), mark), offset) == IntervalEnd(rp, t, offset)
  {
    if rp == Days7 {
      WeekMarkIs(Gmtime(t + offset).mday, mark);
    }
  }

  lemma ClockMarkIsIntervalEnd(rp: RollPeriod, t: int, offset: int, mark: int)
    requires var tms := Localtime(t, offset);
             IsLeastMultipleAbove(mark, IncrementAmount(rp), FieldValue(tms, FieldToIncrement(rp)))
    requires FieldToIncrement(rp) != DayField
    ensures var tms := Localtime(t, offset);
            Mktime(AtMark(tms, FieldToIncrement(rp), mark), offset) == IntervalEnd(rp, t, offset)
  {
    var tms := Gmtime(t + offset);
    TimegmInvertsGmtime(t + offset);
    MarkEndsInterval(rp, t, offset, DayNumber(tms.year, tms.mon, tms.mday), tms, mark);
  }

  lemma MarkEndsInterval(rp: RollPeriod, t: int, offset: int, day: int, tm: Tm, mark: int)
    requires FieldToIncrement(rp) != DayField && 0 <= tm.min < 60 && 0 <= tm.sec < 60
    requires IsLeastMultipleAbove(mark, IncrementAmount(rp), FieldValue(tm, FieldToIncrement(rp)))
    requires day * SECS_PER_DAY + tm.hour * 3600 + tm.min * 60 + tm.sec == t + offset
    ensures IntervalEnd(rp, t, offset) + offset
         == day * SECS_PER_DAY
            + if FieldToIncrement(rp) == MinuteField then tm.hour * 3600 + mark * 60 else mark * 3600
  {
    MarkWithinDay(rp, day, tm, mark);
  }

  class RollInterval {
    const period: RollPeriod
    var endTime: int

    constructor (rp: RollPeriod, now: int, offset: int)
      ensures period == rp && endTime == IntervalEnd(rp, now, offset)
    {
      period := rp;
      var end := NextMark(rp, now, offset);
      endTime := end;
    }

    method SetToCurrent(now: int, offset: int)
      modifies this
      ensures endTime == IntervalEnd(period, now, offset)
    {
      endTime := NextMark(period, now, offset);
    }

    function StartTime(): int
      reads this
    {
      endTime - IncrementSeconds(period)
    }

    function EndTime(): int
      reads this
    {
      endTime
    }
  }

  /** The interval set for the current time holds the current time and is no longer than
      its period. */
  lemma IntervalContainsNow(rp: RollPeriod, t: int, offset: int)
    ensures IntervalStart(rp, t, offset) <= t < IntervalEnd(rp, t, offset)
    ensures IntervalEnd(rp, t, offset) - t <= IncrementSeconds(rp)
  {
    var local := t + offset;
    if rp == Days7 {
      var day := local / SECS_PER_DAY;
      var date := DateOf(day);
      assert date.mday < WeekMark(date.mday) <= date.mday + 7;
    }
  }

  /** A roll triggered by time moves the end of the interval forward, so the mark that
      triggered it cannot trigger another. */
  lemma TimedRollAdvances(rp: RollPeriod, before: int, now: int, offset: int)
    requires IntervalEnd(rp, before, offset) <= now
    ensures IntervalEnd(rp, before, offset) < IntervalEnd(rp, now, offset)
    ensures now < IntervalEnd(rp, now, offset)
  {
    IntervalContainsNow(rp, now, offset);
  }

  /** Later times have no earlier ends. */
  lemma IntervalEndGrows(rp: RollPeriod, t: int, u: int, offset: int)
    requires t <= u
    ensures IntervalEnd(rp, t, offset) <= IntervalEnd(rp, u, offset)
  {
    if rp == Days7 {
      WeekEndGrows((t + offset) / SECS_PER_DAY, (u + offset) / SECS_PER_DAY);
    } else {
      PeriodsGrow(rp, t + offset, u + offset);
    }
  }

  lemma PeriodsGrow(rp: RollPeriod, t: int, u: int)
    requires rp != Days7 && t <= u
    ensures t / IncrementSeconds(rp) <= u / IncrementSeconds(rp)
  {
    match rp
    case Minutes5 =>
    case Minutes15 =>
    case Minutes30 =>
    case Hours1 =>
    case Hours2 =>
    case Hours4 =>
    case Hours6 =>
    case Hours8 =>
    case Hours12 =>
    case Days1 =>
  }

  lemma {:induction false} WeekEndGrows(day: int, later: int)
    requires day <= later
    ensures WeekEnd(day) <= WeekEnd(later)
    decreases later - day
  {
    if day < later {
      WeekEndGrows(day, later - 1);
      NextWeekEnd(later - 1);
    }
  }

  lemma NextWeekEnd(day: int)
    ensures WeekEnd(day) <= WeekEnd(day + 1)
  {
    var date := DateOf(day);
    DateIsUnique(DateNear(date, date.mday + 1));
  }

  ghost predicate TilesAt(rp: RollPeriod, t: int, offset: int) {
    forall u :: IntervalStart(rp, t, offset) <= u < IntervalEnd(rp, t, offset)
      ==> IntervalEnd(rp, u, offset) == IntervalEnd(rp, t, offset)
  }

  /** Every period but seven days partitions time: the interval is the same at each of its
      instants. */
  lemma IntervalsTile(rp: RollPeriod, t: int, offset: int)
    requires rp != Days7
    ensures TilesAt(rp, t, offset)
  {
    forall u | IntervalStart(rp, t, offset) <= u < IntervalEnd(rp, t, offset)
      ensures IntervalEnd(rp, u, offset) == IntervalEnd(rp, t, offset)
    {
      SamePeriod(rp, t + offset, u + offset);
    }
  }

  lemma SamePeriod(rp: RollPeriod, t: int, u: int)
    requires rp != Days7
    requires t / IncrementSeconds(rp) * IncrementSeconds(rp) <= u
    requires u < (t / IncrementSeconds(rp) + 1) * IncrementSeconds(rp)
    ensures u / IncrementSeconds(rp) == t / IncrementSeconds(rp)
  {
    match rp
    case Minutes5 =>
    case Minutes15 =>
    case Minutes30 =>
    case Hours1 =>
    case Hours2 =>
    case Hours4 =>
    case Hours6 =>
    case Hours8 =>
    case Hours12 =>
    case Days1 =>
  }

  /** Seven-day intervals are cut on days 7, 14, 21 and 28 of a month and seven days after
      the 28th, which is the 7th of the next month only after a February of 28 days. */
  predicate WeekStaysWhole(date: Date)
    requires IsDate(date)
  {
    var (py, pm) := PreviousMonth(date.year, date.mon);
    match WeekMark(date.mday)
    case 35 => DaysInMonth(date.year, date.mon) == 28
    case 7 => DaysInMonth(py, pm) == 28
    case _ => true
  }

  /** The date `mday - date.mday` days from `date`, at most four weeks into a neighbouring month. */
  function DateNear(date: Date, mday: int): (near: Date)
    requires IsDate(date) && -27 <= mday <= DaysInMonth(date.year, date.mon) + 28
    ensures IsDate(near)
    ensures DayNumber(near.year, near.mon, near.mday)
         == DayNumber(date.year, date.mon, date.mday) + mday - date.mday
  {
    var length := DaysInMonth(date.year, date.mon);
    if mday < 1 then
      var (py, pm) := PreviousMonth(date.year, date.mon);
      MonthsFollow(py, pm);
      Date(py, pm, mday + DaysInMonth(py, pm))
    else if length < mday then
      var (ny, nm) := NextMonth(date.year, date.mon);
      MonthsFollow(date.year, date.mon);
      Date(ny, nm, mday - length)
    else
      date.(mday := mday)
  }

  /** Day `mday` near `date` ends its week on the day that `date` does. */
  predicate SameWeekEnd(date: Date, mday: int)
    requires IsDate(date) && -27 <= mday <= DaysInMonth(date.year, date.mon) + 28
  {
    var near := DateNear(date, mday);
    mday - near.mday + WeekMark(near.mday) == WeekMark(date.mday)
  }

  lemma WholeWeek(date: Date, mday: int)
    requires IsDate(date) && WeekStaysWhole(date) && WeekMark(date.mday) - 7 <= mday < WeekMark(date.mday)
    ensures SameWeekEnd(date, mday)
  {
    var length := DaysInMonth(date.year, date.mon);
    if mday < 1 {
      assert WeekMark(28) == 35;
    } else if length < mday {
      assert WeekMark(mday - 28) == 7;
    } else {
      SameWeek(date.mday, mday);
    }
  }

  lemma SameWeek(a: int, b: int)
    requires WeekMark(a) - 7 <= b < WeekMark(a)
    ensures WeekMark(b) == WeekMark(a)
  {}

  lemma BrokenWeek(date: Date) returns (mday: int)
    requires IsDate(date) && !WeekStaysWhole(date)
    ensures WeekMark(date.mday) - 7 <= mday < WeekMark(date.mday)
    ensures !SameWeekEnd(date, mday)
  {
    mday := if WeekMark(date.mday) == 35 then DaysInMonth(date.year, date.mon) + 1 else 0;
  }

  lemma WeekEndNear(day: int, mday: int, other: int)
    requires -27 <= mday <= DaysInMonth(DateOf(day).year, DateOf(day).mon) + 28
    requires other == day + mday - DateOf(day).mday
    ensures SameWeekEnd(DateOf(day), mday) <==> WeekEnd(other) == WeekEnd(day)
  {
    DateIsUnique(DateNear(DateOf(day), mday));
  }

  /** The day on which the seven-day interval around `day` ends. */
  function WeekEnd(day: int): int {
    var date := DateOf(day);
    day - date.mday + WeekMark(date.mday)
  }

  /** Exactly when a seven-day interval is the same at each of its instants. */
  lemma WeeksTileExactly(t: int, offset: int)
    ensures TilesAt(Days7, t, offset)
       <==> WeekStaysWhole(DateOf((t + offset) / SECS_PER_DAY))
  {
    var day := (t + offset) / SECS_PER_DAY;
    var date := DateOf(day);
    if WeekStaysWhole(date) {
      forall u | IntervalStart(Days7, t, offset) <= u < IntervalEnd(Days7, t, offset)
        ensures IntervalEnd(Days7, u, offset) == IntervalEnd(Days7, t, offset)
      {
        var other := (u + offset) / SECS_PER_DAY;
        var mday := other - day + date.mday;
        WholeWeek(date, mday);
        WeekEndNear(day, mday, other);
      }
    } else {
      var mday := BrokenWeek(date);
      var other := day + mday - date.mday;
      WeekEndNear(day, mday, other);
      var u := other * SECS_PER_DAY - offset;
      assert (u + offset) / SECS_PER_DAY == other;
      assert IntervalStart(Days7, t, offset) <= u < IntervalEnd(Days7, t, offset);
      assert IntervalEnd(Days7, u, offset) != IntervalEnd(Days7, t, offset);
    }
  }

  /** So seven-day intervals overlap: the one around 29 January 1970 ends on 4 February, and
      the one around 1 February ends on the 7th. */
  lemma SevenDaysDoNotTile()
    ensures !TilesAt(Days7, 28 * SECS_PER_DAY, 0)
  {
    var date := Date(1970, 0, 29);
    DateIsUnique(date);
    assert DayNumber(1970, 0, 29) == 28;
    WeeksTileExactly(28 * SECS_PER_DAY, 0);
  }
}
