/** The 31-character text of a timestamp, and reading it back. */
module Timestamps {
  import opened Calendar
  import opened Decimal
  import opened Formats
  import opened Messages
  import opened Scanning

  const TWO_64: nat := 0x1_0000_0000_0000_0000

  /** Year, month, day; hour, minute, second, microseconds; sign, hours and minutes of the
      zone. Printing uses `%Y-%m-%d %H:%M:%S`, six digits and `%z`; the `sscanf` format for
      reading is the same. */
  const FORMAT: Format := [
    Int(4), Literal('-'), Int(2), Literal('-'), Int(2), Space,
    Int(2), Literal(':'), Int(2), Literal(':'), Int(2), Literal('.'), Unsigned(6),
    Char, Unsigned(2), Unsigned(2)
  ]

  /** Seconds east of UTC. */
  type Offset = n: int | -SECS_PER_DAY < n < SECS_PER_DAY

  function Magnitude(n: int): nat { if n < 0 then -n else n }

  function SignOf(offset: Offset): char { if offset < 0 then '-' else '+' }

  function PrintedValues(ts: uint64, offset: Offset): seq<int> {
    var tm := Localtime(Secs(ts), offset);
    var minutes := Magnitude(offset) / 60;
    [tm.year, 0, tm.mon + 1, 0, tm.mday, 0,
     tm.hour, 0, tm.min, 0, tm.sec, 0, Usecs(ts),
     SignOf(offset) as int, minutes / 60, minutes % 60]
  }

  function TimestampText(ts: uint64, offset: Offset): string {
    YearIsLate(ts, offset);
    Render(FORMAT, PrintedValues(ts, offset))
  }

  predicate IsNormal(tm: Tm, offhours: nat, offmins: nat) {
    && 0 <= tm.mon < 12 && 0 < tm.mday < 32
    && 0 <= tm.hour < 24 && 0 <= tm.min < 60 && 0 <= tm.sec < 60
    && offhours < 24 && offmins < 60
  }

  /** Microseconds in 64 bits without sign; 0 for a text that is not a timestamp. */
  function ToMicroseconds(s: string): uint64 {
    match Scan(FORMAT, s[..IndexOf(s, '\0')])
    case Parsed(v, _) => FromValues(v)
    case _ => 0
  }

  function FromValues(v: seq<int>): uint64
    requires |v| == |FORMAT|
  {
    var tm := Tm(v[0], v[2] - 1, v[4], v[6], v[8], v[10]);
    var usecs, sign, hours, mins := v[12], v[13], v[14], v[15];
    if hours < 0 || mins < 0 || !IsNormal(tm, hours, mins) then 0
    else if sign != '-' as int && sign != '+' as int then 0
    else
      var offset := hours * 3600 + mins * 60;
      var secs := Timegm(tm) - if sign == '-' as int then -offset else offset;
      (secs * 1000000 + usecs) % TWO_64
  }

  /** Reads 31 characters; 0 microseconds is a failure. */
  function ReadTimestamp(s: string): (p: Parsed<uint64>)
    ensures p.Parsed? ==> p.value != 0 && |p.rest| < |s|
  {
    if |s| < 31 then Failed
    else
      var usecs := ToMicroseconds(s[..31]);
      if usecs == 0 then Failed else Parsed(usecs, s[31..])
  }

  /** What a timestamp and its local time must be for the text to be read back. */
  predicate IsPrintable(ts: uint64, offset: Offset) {
    ts != 0 && Localtime(Secs(ts), offset).year < 10000 && offset % 60 == 0
  }

  /** No local time is before 1969, whatever the offset. */
  lemma YearIsLate(ts: uint64, offset: Offset)
    ensures Localtime(Secs(ts), offset).year >= 1969
    ensures AllFit(FORMAT, PrintedValues(ts, offset))
  {
    var tm := Localtime(Secs(ts), offset);
    var day := (Secs(ts) + offset) / SECS_PER_DAY;
    assert day >= -1;
    YearBounds(DateOf(day));
    assert DaysBeforeYear(1969) == -365;
    if tm.year < 1969 {
      YearsGrow(tm.year, 1969);
    }
  }

  lemma Powers()
    ensures Pow10(2) == 100 && Pow10(4) == 10000 && Pow10(6) == 1000000
  {}

  lemma PrintedExactly(ts: uint64, offset: Offset)
    requires Localtime(Secs(ts), offset).year < 10000
    ensures IsExact(FORMAT, PrintedValues(ts, offset))
  {}

  lemma FormatWidth()
    ensures Width(FORMAT) == 31
  {
    var date, clock := [Int(4), Literal('-'), Int(2), Literal('-')], [Int(2), Space, Int(2), Literal(':')];
    var seconds, zone := [Int(2), Literal(':'), Int(2), Literal('.')], [Unsigned(6), Char, Unsigned(2), Unsigned(2)];
    assert FORMAT == date + clock + (seconds + zone);
    WidthOfBoth(date + clock, seconds + zone);
    WidthOfBoth(date, clock);
    WidthOfBoth(seconds, zone);
    WidthOfFour(date);
    WidthOfFour(clock);
    WidthOfFour(seconds);
    WidthOfFour(zone);
  }

  /** The calendar, the decimal numerals and the zone undo each other: the time read from the
      values printed is off by what `%z` does not print of the offset. */
  lemma ValuesInvert(ts: uint64, offset: Offset)
    ensures FromValues(PrintedValues(ts, offset)) == ReadBack(ts, offset)
  {
    TimegmInvertsGmtime(Secs(ts) + offset);
  }

  /** The whole minutes of an offset. */
  function WholeMinutes(offset: Offset): (n: Offset)
    ensures n == offset <==> offset % 60 == 0
    ensures -60 < offset - n < 60
  {
    if offset < 0 then -(-offset / 60 * 60) else offset / 60 * 60
  }

  /** The calendar inverse on texts: exactly the printable times are read back, and nothing
      after the text is touched. */
  lemma TimestampRoundTrip(ts: uint64, offset: Offset, rest: string)
    ensures ReadTimestamp(TimestampText(ts, offset) + rest) == Parsed(ts, rest) <==> IsPrintable(ts, offset)
  {
    YearIsLate(ts, offset);
    if Localtime(Secs(ts), offset).year < 10000 {
      ReadsFourDigitYear(ts, offset, rest);
      ReadBackSame(ts, offset);
    } else {
      FiveDigitYearFails(ts, offset, rest);
    }
  }

  /** The time read from the text of `ts`: off by the seconds of the offset that `%z` leaves out. */
  function ReadBack(ts: uint64, offset: Offset): uint64 {
    (ts + (offset - WholeMinutes(offset)) * 1000000) % TWO_64
  }

  lemma ReadBackSame(ts: uint64, offset: Offset)
    ensures ReadBack(ts, offset) == ts <==> offset % 60 == 0
  {}

  lemma TextScans(ts: uint64, offset: Offset)
    requires Localtime(Secs(ts), offset).year < 10000
    ensures var text := TimestampText(ts, offset);
            |text| == 31 && '\0' !in text && Scan(FORMAT, text) == Parsed(PrintedValues(ts, offset), "")
  {
    var values := PrintedValues(ts, offset);
    YearIsLate(ts, offset);
    PrintedExactly(ts, offset);
    RenderWidth(FORMAT, values);
    FormatWidth();
    ScanInvertsRender(FORMAT, values, "");
    assert TimestampText(ts, offset) + "" == TimestampText(ts, offset);
  }

  lemma TextReads(ts: uint64, offset: Offset)
    requires Localtime(Secs(ts), offset).year < 10000
    ensures |TimestampText(ts, offset)| == 31
    ensures ToMicroseconds(TimestampText(ts, offset)) == ReadBack(ts, offset)
  {
    var text := TimestampText(ts, offset);
    TextScans(ts, offset);
    assert text[..IndexOf(text, '\0')] == text;
    ValuesInvert(ts, offset);
  }

  lemma ReadsFourDigitYear(ts: uint64, offset: Offset, rest: string)
    requires Localtime(Secs(ts), offset).year < 10000
    ensures ReadTimestamp(TimestampText(ts, offset) + rest)
         == if ReadBack(ts, offset) == 0 then Failed else Parsed(ReadBack(ts, offset), rest)
  {
    var text := TimestampText(ts, offset);
    TextReads(ts, offset);
    assert (text + rest)[..31] == text && (text + rest)[31..] == rest;
  }

  lemma FiveDigitYearFails(ts: uint64, offset: Offset, rest: string)
    requires Localtime(Secs(ts), offset).year >= 10000
    ensures ReadTimestamp(TimestampText(ts, offset) + rest) == Failed
  {
    YearIsLate(ts, offset);
    var values := PrintedValues(ts, offset);
    var year := Filled(values[0], 4);
    Powers();
    DigitCount(values[0], 4);
    var text := (TimestampText(ts, offset) + rest);
    assert text[..5] == year[..5];
    if |text| >= 31 {
      var s := text[..31];
      assert s[..5] == year[..5];
      FiveDigitsFail(s[..IndexOf(s, '\0')]);
    }
  }

  lemma FiveDigitsFail(s: string)
    requires |s| >= 5 && AllDigits(s[..5])
    ensures Scan(FORMAT, s) == Failed
  {
    var year, others := s[..4], s[4..];
    assert s == year + others;
    assert year == s[..5][..4] && others[0] == s[..5][4];
    ScansNumeral(year, others);
    assert FORMAT[0] == Int(4) && FORMAT[1] == Literal('-');
    assert ScanOne(Int(4), s).Parsed? && ScanOne(Int(4), s).rest == others;
    SecondFails(FORMAT, s);
  }

  /** Two texts of one instant at different offsets are read as equal. */
  lemma OffsetsAgree(ts: uint64, here: Offset, there: Offset)
    requires IsPrintable(ts, here) && IsPrintable(ts, there)
    ensures ToMicroseconds(TimestampText(ts, here)) == ts == ToMicroseconds(TimestampText(ts, there))
  {
    TextReads(ts, here);
    ReadBackSame(ts, here);
    TextReads(ts, there);
    ReadBackSame(ts, there);
  }
}
