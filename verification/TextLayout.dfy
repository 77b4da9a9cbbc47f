/** The texts character by character, without the formats that printer and parser share. */
module TextLayout {
  import opened Calendar
  import opened Civil
  import opened Decimal
  import opened Formats
  import opened Messages
  import RollIntervals
  import opened Scanning
  import opened TextForm
  import opened Timestamps

  /** The digit of `d`. */
  function D(d: int): char
    requires 0 <= d < 10
  {
    (48 + d) as char
  }

  /** Two, four and six digits. */
  function D2(n: int): string
    requires 0 <= n < 100
  {
    [D(n / 10), D(n % 10)]
  }

  function D4(n: int): string
    requires 0 <= n < 10000
  {
    D2(n / 100) + D2(n % 100)
  }

  function D6(n: int): string
    requires 0 <= n < 1000000
  {
    D4(n / 100) + D2(n % 100)
  }

  lemma PaddedTwo(n: nat)
    requires n < 100
    ensures Padded(n, 2) == D2(n)
  {
    assert Padded(n / 10 / 10, 0) == "";
    assert Padded(n / 10, 1) == [D(n / 10)];
  }

  lemma TwoMore(n: nat, width: nat)
    ensures Padded(n, width + 2) == Padded(n / 100, width) + D2(n % 100)
  {
    assert n / 10 / 10 == n / 100 && n % 100 / 10 == n / 10 % 10 && n % 100 % 10 == n % 10;
    assert Padded(n / 10, width + 1) == Padded(n / 10 / 10, width) + [D(n / 10 % 10)];
  }

  lemma PaddedFour(n: nat)
    requires n < 10000
    ensures Padded(n, 4) == D4(n)
  {
    PaddedTwo(n / 100);
    TwoMore(n, 2);
  }

  lemma PaddedSix(n: nat)
    requires n < 1000000
    ensures Padded(n, 6) == D6(n)
  {
    PaddedFour(n / 100);
    TwoMore(n, 4);
  }

  lemma {:induction false} DigitsArePadded(n: nat, width: nat)
    requires |Digits(n)| == width
    ensures Digits(n) == Padded(n, width)
  {
    if n < 10 {
      assert Padded(n / 10, 0) == "";
    } else {
      DigitsArePadded(n / 10, width - 1);
    }
  }

  lemma FilledIsPadded(n: nat, width: nat)
    requires width > 0 && n < Pow10(width)
    ensures Filled(n, width) == Padded(n, width)
  {
    DigitCount(n, width);
    if |Digits(n)| >= width {
      DigitsArePadded(n, width);
    }
  }

  lemma FilledTwo(n: nat)
    requires n < 100
    ensures Filled(n, 2) == D2(n)
  {
    Powers();
    FilledIsPadded(n, 2);
    PaddedTwo(n);
  }

  lemma FilledFour(n: nat)
    requires n < 10000
    ensures Filled(n, 4) == D4(n)
  {
    Powers();
    FilledIsPadded(n, 4);
    PaddedFour(n);
  }

  lemma FilledSix(n: nat)
    requires n < 1000000
    ensures Filled(n, 6) == D6(n)
  {
    Powers();
    FilledIsPadded(n, 6);
    PaddedSix(n);
  }

  /** A numeral has, from its end, the digit of each power of ten. */
  lemma {:induction false} NumeralByDigits(n: nat, k: nat)
    requires k < |Digits(n)|
    ensures Digits(n)[|Digits(n)| - 1 - k] == D(n / Pow10(k) % 10)
  {
    if n >= 10 && k > 0 {
      var front := Digits(n / 10);
      NumeralByDigits(n / 10, k - 1);
      DivideAgain(n, Pow10(k - 1));
      assert Digits(n)[|front| - k] == front[|front| - k];
    } else {
      assert Pow10(0) == 1;
    }
  }

  /** And no more than it needs. */
  lemma NumeralIsShort(n: nat)
    ensures |Digits(n)| > 1 ==> Pow10(|Digits(n)| - 1) <= n
  {
    if |Digits(n)| > 1 {
      DigitCount(n, |Digits(n)| - 1);
    }
  }

  lemma DivideAgain(n: nat, p: nat)
    requires p > 0
    ensures n / 10 / p == n / (10 * p)
  {
    var q, r := n / 10 / p, n / 10 % p;
    assert n == 10 * (p * q + r) + n % 10;
    assert 0 <= 10 * r + n % 10 < 10 * p;
    RollIntervals.DivisionIs(n, 10 * p, q, 10 * r + n % 10);
  }

  // ------------------------------------------------------------------ the timestamp

  lemma RenderPair(c: Directive, d: Directive, u: int, v: int, rest: Format, values: seq<int>)
    requires Fits(c, u) && Fits(d, v) && AllFit(rest, values)
    ensures AllFit([c, d] + rest, [u, v] + values)
    ensures Render([c, d] + rest, [u, v] + values) == RenderOne(c, u) + RenderOne(d, v) + Render(rest, values)
  {
    var format, all := [c, d] + rest, [u, v] + values;
    assert format[1..] == [d] + rest && all[1..] == [v] + values;
    assert format[1..][1..] == rest && all[1..][1..] == values;
    assert AllFit(format[1..], all[1..]);
  }

  /** The values of a timestamp's fields, each with room for its digits. */
  datatype Fields = Fields(y: int, mon: int, d: int, h: int, mi: int, s: int, us: int, sign: char, zh: int, zm: int) {
    predicate Fit() {
      && 0 <= y < 10000 && 0 <= mon < 100 && 0 <= d < 100 && 0 <= h < 100 && 0 <= mi < 100 && 0 <= s < 100
      && 0 <= us < 1000000 && 0 < sign as int < 0xD800 && 0 <= zh < 100 && 0 <= zm < 100
    }

    /** The text that has them, from its end. */
    function Zone(): string
      requires Fit()
    {
      D6(us) + [sign] + (D2(zh) + D2(zm))
    }

    function Clock(): string
      requires Fit()
    {
      D2(h) + ":" + (D2(mi) + ":" + (D2(s) + "." + Zone()))
    }

    function Text(): string
      requires Fit()
    {
      D4(y) + "-" + (D2(mon) + "-" + (D2(d) + " " + Clock()))
    }

    function Values(): seq<int> {
      [y, 0, mon, 0, d, 0, h, 0, mi, 0, s, 0, us, sign as int, zh, zm]
    }
  }

  lemma RenderZone(f: Fields)
    requires f.Fit()
    ensures AllFit([Unsigned(6), Char] + [Unsigned(2), Unsigned(2)], [f.us, f.sign as int] + [f.zh, f.zm])
    ensures Render([Unsigned(6), Char] + [Unsigned(2), Unsigned(2)], [f.us, f.sign as int] + [f.zh, f.zm]) == f.Zone()
  {
    RenderPair(Unsigned(2), Unsigned(2), f.zh, f.zm, [], []);
    assert [Unsigned(2), Unsigned(2)] + [] == [Unsigned(2), Unsigned(2)] && [f.zh, f.zm] + [] == [f.zh, f.zm];
    FilledTwo(f.zh);
    FilledTwo(f.zm);
    RenderPair(Unsigned(6), Char, f.us, f.sign as int, [Unsigned(2), Unsigned(2)], [f.zh, f.zm]);
    FilledSix(f.us);
    assert D2(f.zh) + D2(f.zm) + Render([], []) == D2(f.zh) + D2(f.zm);
  }

  /** Two digits and a separator. */
  lemma RenderTwoDigits(c: char, n: int, rest: Format, values: seq<int>)
    requires 0 <= n < 100 && AllFit(rest, values)
    ensures AllFit([Int(2), Literal(c)] + rest, [n, 0] + values)
    ensures Render([Int(2), Literal(c)] + rest, [n, 0] + values) == D2(n) + [c] + Render(rest, values)
  {
    RenderPair(Int(2), Literal(c), n, 0, rest, values);
    FilledTwo(n);
  }

  function ZoneFormat(): Format { [Unsigned(6), Char] + [Unsigned(2), Unsigned(2)] }

  function ClockFormat(): Format {
    [Int(2), Literal(':')] + ([Int(2), Literal(':')] + ([Int(2), Literal('.')] + ZoneFormat()))
  }

  function ZoneValues(f: Fields): seq<int> { [f.us, f.sign as int] + [f.zh, f.zm] }

  function ClockValues(f: Fields): seq<int> { [f.h, 0] + ([f.mi, 0] + ([f.s, 0] + ZoneValues(f))) }

  lemma RenderClock(f: Fields)
    requires f.Fit()
    ensures AllFit(ClockFormat(), ClockValues(f)) && Render(ClockFormat(), ClockValues(f)) == f.Clock()
  {
    RenderZone(f);
    RenderTwoDigits('.', f.s, ZoneFormat(), ZoneValues(f));
    RenderTwoDigits(':', f.mi, [Int(2), Literal('.')] + ZoneFormat(), [f.s, 0] + ZoneValues(f));
    RenderTwoDigits(':', f.h, [Int(2), Literal(':')] + ([Int(2), Literal('.')] + ZoneFormat()),
                    [f.mi, 0] + ([f.s, 0] + ZoneValues(f)));
  }

  function DayFormat(): Format { [Int(2), Space] + ClockFormat() }

  function DayValues(f: Fields): seq<int> { [f.d, 0] + ClockValues(f) }

  lemma RenderDay(f: Fields)
    requires f.Fit()
    ensures AllFit(DayFormat(), DayValues(f)) && Render(DayFormat(), DayValues(f)) == D2(f.d) + " " + f.Clock()
  {
    RenderClock(f);
    RenderPair(Int(2), Space, f.d, 0, ClockFormat(), ClockValues(f));
    FilledTwo(f.d);
  }

  function DateFormat(): Format { [Int(4), Literal('-')] + ([Int(2), Literal('-')] + DayFormat()) }

  function DateValues(f: Fields): seq<int> { [f.y, 0] + ([f.mon, 0] + DayValues(f)) }

  lemma RenderDate(f: Fields)
    requires f.Fit()
    ensures AllFit(DateFormat(), DateValues(f)) && Render(DateFormat(), DateValues(f)) == f.Text()
  {
    RenderDay(f);
    RenderTwoDigits('-', f.mon, DayFormat(), DayValues(f));
    RenderPair(Int(4), Literal('-'), f.y, 0, [Int(2), Literal('-')] + DayFormat(), [f.mon, 0] + DayValues(f));
    FilledFour(f.y);
  }

  lemma FormatIs(f: Fields)
    ensures FORMAT == DateFormat() && f.Values() == DateValues(f)
  {}

  /** The fields of a time: its civil date and time of day at the offset, the microseconds, and
      the sign, hours and minutes of the offset. */
  function FieldsOf(ts: uint64, offset: Offset): Fields {
    var tm := Localtime(ts / 1000000, offset);
    var east := if offset < 0 then -offset else offset;
    Fields(tm.year, tm.mon + 1, tm.mday, tm.hour, tm.min, tm.sec, ts % 1000000,
           if offset < 0 then '-' else '+', east / 3600, east / 60 % 60)
  }

  lemma FieldsAreCivil(ts: uint64, offset: Offset)
    ensures var f := FieldsOf(ts, offset);
      && IsCivilDate(f.y, f.mon - 1, f.d) && CivilDay(f.y, f.mon - 1, f.d) == (ts / 1000000 + offset) / 86400
      && 0 <= f.h < 24 && 0 <= f.mi < 60 && 0 <= f.s < 60
      && f.h * 3600 + f.mi * 60 + f.s == (ts / 1000000 + offset) % 86400
  {
    LocaltimeIsCivil(ts / 1000000, offset);
  }

  lemma FieldsAreValues(ts: uint64, offset: Offset)
    ensures FieldsOf(ts, offset).Values() == PrintedValues(ts, offset)
  {
    assert Magnitude(offset) / 60 / 60 == Magnitude(offset) / 3600;
  }

  lemma FieldsFit(ts: uint64, offset: Offset)
    requires Localtime(Secs(ts), offset).year < 10000
    ensures FieldsOf(ts, offset).Fit()
  {
    YearIsLate(ts, offset);
    LocaltimeIsCivil(ts / 1000000, offset);
    MonthIsShort(FieldsOf(ts, offset).y, FieldsOf(ts, offset).mon - 1);
  }

  lemma MonthIsShort(y: int, m: int)
    requires 0 <= m < 12
    ensures MonthStart(y, m + 1) - MonthStart(y, m) < 100
  {
    MonthLengths(y, m);
  }

  /** The printed text of a time, character by character. */
  lemma TimestampByField(ts: uint64, offset: Offset)
    requires Localtime(Secs(ts), offset).year < 10000
    ensures FieldsOf(ts, offset).Fit()
    ensures var f := FieldsOf(ts, offset);
      TimestampText(ts, offset)
      == D4(f.y) + "-" + (D2(f.mon) + "-" + (D2(f.d) + " "
         + (D2(f.h) + ":" + (D2(f.mi) + ":" + (D2(f.s) + "."
         + (D6(f.us) + [f.sign] + (D2(f.zh) + D2(f.zm))))))))
  {
    var f := FieldsOf(ts, offset);
    FieldsFit(ts, offset);
    FieldsAreValues(ts, offset);
    FormatIs(f);
    RenderDate(f);
  }

  // ------------------------------------------------------------------ reading

  /** What any text of such fields is read as: 0 if a field is out of range, or the sign is none;
      otherwise the microseconds from the epoch, in 64 bits, with the day of the month counted on
      beyond the month's end. */
  function TimeOf(f: Fields): uint64 {
    if f.mon < 1 || 12 < f.mon || f.d < 1 || 31 < f.d || 23 < f.h || 59 < f.mi || 59 < f.s || 23 < f.zh || 59 < f.zm
       || (f.sign != '+' && f.sign != '-')
    then 0
    else
      var east := f.zh * 3600 + f.zm * 60;
      var secs := CivilDay(f.y, f.mon - 1, f.d) * 86400 + f.h * 3600 + f.mi * 60 + f.s
                  - (if f.sign == '-' then -east else east);
      (secs * 1000000 + f.us) % 0x1_0000_0000_0000_0000
  }

  lemma FieldsExact(f: Fields)
    requires f.Fit()
    ensures IsExact(FORMAT, f.Values())
  {
    Powers();
  }

  lemma SecondsAreCivil(f: Fields)
    requires 1 <= f.mon <= 12
    ensures Timegm(Tm(f.y, f.mon - 1, f.d, f.h, f.mi, f.s))
         == CivilDay(f.y, f.mon - 1, f.d) * 86400 + f.h * 3600 + f.mi * 60 + f.s
  {
    TimegmIsCivil(Tm(f.y, f.mon - 1, f.d, f.h, f.mi, f.s));
  }

  lemma ValuesAreRead(f: Fields)
    requires f.Fit()
    ensures FromValues(f.Values()) == TimeOf(f)
  {
    if 1 <= f.mon <= 12 {
      SecondsAreCivil(f);
    }
  }

  lemma ReadFrom(s: string, values: seq<int>)
    requires '\0' !in s && |values| == |FORMAT| && Scan(FORMAT, s) == Parsed(values, "")
    ensures ToMicroseconds(s) == FromValues(values)
  {
    assert s[..IndexOf(s, '\0')] == s;
  }

  lemma TextIsScanned(f: Fields)
    requires f.Fit()
    ensures '\0' !in f.Text() && Scan(FORMAT, f.Text()) == Parsed(f.Values(), "")
  {
    FormatIs(f);
    RenderDate(f);
    FieldsExact(f);
    RenderWidth(FORMAT, f.Values());
    ScanInvertsRender(FORMAT, f.Values(), "");
    assert f.Text() + "" == f.Text();
  }

  /** Every text of this form is read so, valid or not. */
  lemma TimestampIsRead(f: Fields)
    requires f.Fit()
    ensures ToMicroseconds(f.Text()) == TimeOf(f)
  {
    TextIsScanned(f);
    ReadFrom(f.Text(), f.Values());
    ValuesAreRead(f);
  }

  // ------------------------------------------------------------------ messages

  /** The letter of each severity. */
  lemma SeverityLetters()
    ensures SeverityText(0) == "[M]" && SeverityText(1) == "[A]" && SeverityText(2) == "[C]" && SeverityText(3) == "[E]"
    ensures SeverityText(4) == "[W]" && SeverityText(5) == "[N]" && SeverityText(6) == "[I]" && SeverityText(7) == "[D]"
  {}

  /** The name of each facility. */
  lemma SystemNames()
    ensures FacilityName(0) == "kernel" && FacilityName(8) == "user" && FacilityName(16) == "mail"
    ensures FacilityName(24) == "daemon" && FacilityName(32) == "auth" && FacilityName(40) == "syslog"
  {}

  lemma ServiceNames()
    ensures FacilityName(48) == "lpr" && FacilityName(56) == "news" && FacilityName(64) == "uucp"
    ensures FacilityName(72) == "cron" && FacilityName(80) == "authpriv" && FacilityName(88) == "ftp"
  {}

  lemma LocalNames()
    ensures FacilityName(128) == "local0" && FacilityName(136) == "local1" && FacilityName(144) == "local2"
    ensures FacilityName(152) == "local3" && FacilityName(160) == "local4"
  {}

  lemma LastNames()
    ensures FacilityName(168) == "local5" && FacilityName(176) == "local6" && FacilityName(184) == "local7"
  {}

  /** A letter in brackets that is read belongs to its severity. */
  lemma SeverityIsNamed(word: string)
    ensures SeverityOf(word).Parsed? ==> IsSeverity(SeverityOf(word).value) && SeverityText(SeverityOf(word).value) == word
  {
    if SeverityOf(word).Parsed? {
      assert word == [word[0], word[1], word[2]];
    }
  }

  /** The line of a message. */
  lemma MessageLine(m: Message, offset: Offset)
    ensures var h := m.header;
      MessageText(m, offset)
      == TimestampText(h.timestamp, offset) + " " + FacilityName(h.facility) + " " + h.origin.hostname + " "
         + h.origin.appname + "[" + Digits(h.origin.procid) + "]: " + SeverityText(h.severity) + " " + m.text + "\n"
  {
    var h := m.header;
    var t, f := TimestampText(h.timestamp, offset), FacilityName(h.facility);
    var pid, v := Digits(h.origin.procid), SeverityText(h.severity);
    assert "]" + ": " == "]: ";
    LinePieces(t, f, h.origin.hostname, h.origin.appname, pid, v, m.text);
  }

  lemma LinePieces(t: string, f: string, host: string, app: string, pid: string, v: string, text: string)
    ensures t + (" " + (f + (" " + (host + (" " + (app + ("[" + (pid + "]")))) + (": " + v))))) + (" " + (text + "\n"))
         == t + " " + f + " " + host + " " + app + "[" + pid + "]: " + v + " " + text + "\n"
  {
    assert "]" + (": " + v) == "]: " + v;
  }

  /** White space is what `isspace` says in the C locale. */
  lemma WhiteSpace(c: char)
    ensures IsSpace(c) <==> c == ' ' || 9 <= c as int <= 13
  {}

  /** `std::stoul`: digits up to whatever follows them, thrown out from two to the 64th on. */
  lemma StoulUnsigned(n: nat, rest: string)
    requires rest == "" || !IsDigit(rest[0])
    ensures Stoul(Digits(n) + rest) == if n >= 0x1_0000_0000_0000_0000 then Thrown else Parsed(n, rest)
  {
    var digits := Digits(n);
    var tail := digits + rest;
    DigitsRun(digits, rest, |tail|);
    assert IsDigit(tail[0]);
    assert tail[..|digits|] == digits && tail[|digits|..] == rest;
    ValueOfDigits(n);
  }

  /** A sign in front; the number is negated in 64 bits after a minus. */
  lemma StoulSigned(s: string, tail: string)
    requires s != "" && (s[0] == '+' || s[0] == '-') && s[1..] == tail && tail != "" && IsDigit(tail[0])
    ensures Stoul(s)
         == match Stoul(tail)
            case Parsed(n, rest) => Parsed(if s[0] == '-' && n > 0 then 0x1_0000_0000_0000_0000 - n else n, rest)
            case _ => Stoul(tail)
  {}

  lemma NoNumeral(s: string)
    requires s == "" || !(IsSpace(s[0]) || IsDigit(s[0]) || s[0] == '+' || s[0] == '-')
    ensures Stoul(s) == Thrown
  {}

  /** Application and process: up to the first opening bracket, and the number after it; what
      follows the number, and what follows the closing bracket, is passed over. */
  lemma BracketsRead(app: Name, n: nat, junk: string, tail: string)
    requires |app| < 255 && '[' !in app && ']' !in app && ']' !in junk && (junk == "" || !IsDigit(junk[0]))
    requires n < 0x1_0000_0000_0000_0000
    ensures ProcessOf(app + ("[" + ((Digits(n) + junk) + ("]" + tail)))) == Parsed((app, n % 0x1_0000_0000), "")
  {
    var inner := Digits(n) + junk;
    Between(app, inner, tail);
    StoulUnsigned(n, junk);
    ProcessFrom(app + ("[" + (inner + ("]" + tail))), app, inner, n, junk);
  }

  lemma ProcessFrom(word: string, app: Name, inner: string, n: nat, junk: string)
    requires |app| < 255 && |app| + 1 + |inner| < |word| && inner != "" && n < 0x1_0000_0000_0000_0000
    requires IndexOf(word, '[') == |app| && IndexOf(word, ']') == |app| + 1 + |inner|
    requires word[..|app|] == app && word[|app| + 1..|app| + 1 + |inner|] == inner
    requires Stoul(inner) == Parsed(n, junk)
    ensures ProcessOf(word) == Parsed((app, n % 0x1_0000_0000), "")
  {
    var open, close := IndexOf(word, '['), IndexOf(word, ']');
    assert word[open + 1..close] == inner;
    assert word[..open] == app;
  }

  lemma Between(app: string, inner: string, tail: string)
    requires '[' !in app && ']' !in app && ']' !in inner
    ensures var word := app + ("[" + (inner + ("]" + tail)));
      && IndexOf(word, '[') == |app| && IndexOf(word, ']') == |app| + 1 + |inner|
      && word[..|app|] == app && word[|app| + 1..|app| + 1 + |inner|] == inner
  {
    var word, before := app + ("[" + (inner + ("]" + tail))), app + "[" + inner;
    assert word == before + ("]" + tail);
    IndexIn(app, '[', "[" + (inner + ("]" + tail)));
    IndexIn(before, ']', "]" + tail);
  }

  lemma {:induction false} IndexBeyond(word: string, c: char, i: nat)
    requires i <= |word| && c !in word[..i]
    ensures IndexOf(word, c) >= i
  {
    if i > 0 {
      assert word[..i][0] == word[0] && word[1..][..i - 1] == word[..i][1..];
      IndexBeyond(word[1..], c, i - 1);
    }
  }

  /** Without brackets in this order, or with nothing between them, or with an application name
      that is too long, there is no origin. */
  lemma NoBrackets(word: string)
    ensures '[' !in word ==> ProcessOf(word) == Failed
    ensures ']' !in word ==> ProcessOf(word) == Failed
    ensures forall i :: 0 <= i < |word| && word[i] == ']' && '[' !in word[..i] ==> ProcessOf(word) == Failed
    ensures forall i :: 0 <= i < |word| - 1 && word[i] == '[' && word[i + 1] == ']' && '[' !in word[..i] ==>
      ProcessOf(word) == Failed
    ensures |word| > 255 && '[' !in word[..255] ==> ProcessOf(word) == Failed
  {
    forall i | 0 <= i <= |word| && '[' !in word[..i] ensures IndexOf(word, '[') >= i {
      IndexBeyond(word, '[', i);
    }
    if ']' !in word {
      assert word[..|word|] == word;
      IndexBeyond(word, ']', |word|);
    }
    if '[' !in word {
      assert word[..|word|] == word;
    }
  }

  /** A name that is no facility's is read as `local7`. */
  lemma OtherNamesAreLocal7(name: string)
    requires forall f :: IsFacility(f) ==> FacilityName(f) != name
    ensures FacilityValue(name) as int == 184
  {
    var f := FacilityValue(name);
    FacilityIsListed(name);
    NamedOrLast(name);
  }

  lemma NamedOrLast(name: string)
    ensures FacilityName(FacilityValue(name)) == name || FacilityValue(name) == LOCAL7
  {
    var f := FacilityValue(name);
    if f != LOCAL7 {
      NameOfValue(name, f);
    }
  }

  lemma NameOfValue(name: string, f: bv8)
    requires FacilityValue(name) == f && f != LOCAL7
    ensures FacilityName(f) == name
  {}

  /** A line of more than 1500 characters is refused, a last line without newline is taken. */
  lemma LongLineRefused(line: string, rest: string)
    requires |line| > 1500 && !IsSpace(line[0]) && '\n' !in line
    ensures ReadText(line + ("\n" + rest)) == Failed
    ensures ReadText(line) == Failed
  {
    assert SkipSpace(line + ("\n" + rest)) == line + ("\n" + rest) && SkipSpace(line) == line;
    IndexIn(line, '\n', "\n" + rest);
    assert (line + ("\n" + rest))[..|line|] == line;
    assert line[..|line|] == line;
    IndexBeyond(line, '\n', |line|);
  }

  lemma LastLineTaken(line: Text)
    requires line != "" && !IsSpace(line[0]) && '\n' !in line
    ensures ReadText(line) == Parsed(line, "")
  {
    assert SkipSpace(line) == line;
    assert line[..|line|] == line;
    IndexBeyond(line, '\n', |line|);
  }

  /** A hostname of more than 255 characters is refused. */
  lemma LongHostnameRefused(hostname: string, rest: string)
    requires |hostname| > 255 && NoSpace(hostname)
    ensures !ReadOrigin(hostname + (" " + rest)).Parsed?
  {
    var s := hostname + (" " + rest);
    assert !IsSpace(hostname[0]) && SkipSpace(s) == s;
    WordEnds(hostname, " " + rest);
    assert s[..|hostname|] == hostname;
  }

  // ------------------------------------------------------------------ exceptions

  /** Brackets around something that does not begin with a number make `stoul` throw. */
  lemma BracketsThrow(app: string, inner: string, tail: string)
    requires |app| < 255 && '[' !in app && ']' !in app && ']' !in inner
    requires inner != "" && !(IsSpace(inner[0]) || IsDigit(inner[0]) || inner[0] == '+' || inner[0] == '-')
    ensures ProcessOf(app + ("[" + (inner + ("]" + tail)))) == Thrown
  {
    var word := app + ("[" + (inner + ("]" + tail)));
    Between(app, inner, tail);
    NoNumeral(inner);
    assert word[|app| + 1..|app| + 1 + |inner|] == inner;
  }

  lemma OriginOfWords(hostname: string, word: string, rest: string)
    requires hostname != "" && NoSpace(hostname) && |hostname| <= 255 && word != "" && NoSpace(word)
    requires rest != "" && IsSpace(rest[0])
    ensures var p := ReadOrigin(hostname + (" " + (word + rest)));
      match ProcessOf(word)
      case Parsed(process, _) => p == Parsed(Origin(hostname, process.0, process.1), rest)
      case Failed => p == Failed
      case Thrown => p == Thrown
  {
    var tail := " " + (word + rest);
    FirstWord(hostname, tail);
    ReadsWord(word, rest);
    OriginFrom(hostname + tail, hostname, tail, word, rest);
  }

  lemma FirstWord(word: string, rest: string)
    requires word != "" && NoSpace(word) && (rest == "" || IsSpace(rest[0]))
    ensures Word(word + rest) == Parsed(word, rest)
  {
    var s := word + rest;
    assert s[0] == word[0] && SkipSpace(s) == s;
    WordEnds(word, rest);
    assert s[..|word|] == word && s[|word|..] == rest;
  }

  lemma OriginFrom(s: string, hostname: string, s1: string, word: string, s2: string)
    requires Word(s) == Parsed(hostname, s1) && Word(s1) == Parsed(word, s2) && |hostname| <= 255
    ensures match ProcessOf(word)
            case Parsed(process, _) => ReadOrigin(s) == Parsed(Origin(hostname, process.0, process.1), s2)
            case Failed => ReadOrigin(s) == Failed
            case Thrown => ReadOrigin(s) == Thrown
  {}

  /** An exception while the origin is read reaches whoever reads the message; a failure there
      fails the stream. */
  lemma OriginDecides(s: string)
    requires ReadTimestamp(s).Parsed? && ReadFacility(ReadTimestamp(s).rest).Parsed?
    ensures var p := ReadOrigin(ReadFacility(ReadTimestamp(s).rest).rest);
      (p == Thrown ==> ReadMessage(s) == Thrown) && (p == Failed ==> ReadMessage(s) == Failed)
  {}

  /** A numeral of no more characters than the width allows; a sign is one of them. */
  lemma ShortNumeral(digits: string, rest: string, width: nat)
    requires digits != "" && AllDigits(digits) && |digits| <= width
    requires |digits| == width || rest == "" || !IsDigit(rest[0])
    ensures ScanInt(digits + rest, width) == Parsed(Value(digits), rest)
  {
    var s := digits + rest;
    DigitsRun(digits, rest, width);
    assert IsDigit(s[0]);
    ScanFrom(s, width, |digits|);
    assert s[..|digits|] == digits && s[|digits|..] == rest;
  }

  lemma ScanFrom(s: string, width: nat, n: nat)
    requires s != "" && IsDigit(s[0]) && width > 0 && DigitRun(s, width) == n > 0
    ensures ScanInt(s, width) == Parsed(Value(s[..n]), s[n..])
  {}

  lemma SignedNumeral(s: string, tail: string, width: nat)
    requires s != "" && (s[0] == '+' || s[0] == '-') && s[1..] == tail && tail != "" && IsDigit(tail[0]) && width > 1
    ensures ScanInt(s, width)
         == match ScanInt(tail, width - 1)
            case Parsed(n, rest) => Parsed(if s[0] == '-' then -n else n, rest)
            case _ => Failed
  {}
}
