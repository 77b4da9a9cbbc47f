/** The text of whole messages, and reading it back from a stream. */
module TextForm {
  import Calendar
  import opened Decimal
  import opened Messages
  import opened Scanning
  import opened Timestamps

  function FacilityName(f: bv8): (name: string)
    ensures name != "" && NoSpace(name)
  {
    if f == 0 then "kernel"
    else if f == 8 then "user"
    else if f == 16 then "mail"
    else if f == 24 then "daemon"
    else if f == 32 then "auth"
    else if f == 40 then "syslog"
    else if f == 48 then "lpr"
    else if f == 56 then "news"
    else if f == 64 then "uucp"
    else if f == 72 then "cron"
    else if f == 80 then "authpriv"
    else if f == 88 then "ftp"
    else if f == 128 then "local0"
    else if f == 136 then "local1"
    else if f == 144 then "local2"
    else if f == 152 then "local3"
    else if f == 160 then "local4"
    else if f == 168 then "local5"
    else if f == 176 then "local6"
    else if f == 184 then "local7"
    else "unknown"
  }

  /** The facility of a name; `local7` for any other. */
  function FacilityValue(name: string): bv8 {
    if name == "kernel" then 0
    else if name == "user" then 8
    else if name == "mail" then 16
    else if name == "daemon" then 24
    else if name == "auth" then 32
    else if name == "syslog" then 40
    else if name == "lpr" then 48
    else if name == "news" then 56
    else if name == "uucp" then 64
    else if name == "cron" then 72
    else if name == "authpriv" then 80
    else if name == "ftp" then 88
    else if name == "local0" then 128
    else if name == "local1" then 136
    else if name == "local2" then 144
    else if name == "local3" then 152
    else if name == "local4" then 160
    else if name == "local5" then 168
    else if name == "local6" then 176
    else LOCAL7
  }

  /** The letters of the severities, from `emerg` to `debug`. */
  const SEVERITY_LETTERS := "MACEWNID"

  function SeverityText(s: bv8): (text: string)
    ensures text != "" && NoSpace(text)
  {
    "[" + [if IsSeverity(s) then SEVERITY_LETTERS[s as int] else 'U'] + "]"
  }

  function SeverityOf(text: string): Parsed<bv8> {
    if |text| != 3 || text[0] != '[' || text[2] != ']' then Failed
    else
      var i := IndexOf(SEVERITY_LETTERS, text[1]);
      if i < |SEVERITY_LETTERS| then Parsed(i as bv8, "") else Failed
  }

  function OriginText(o: Origin): string {
    o.hostname + (" " + (o.appname + ("[" + (Digits(o.procid) + "]"))))
  }

  function HeaderText(h: Header, offset: Offset): string {
    TimestampText(h.timestamp, offset)
    + (" " + (FacilityName(h.facility) + (" " + (OriginText(h.origin) + (": " + SeverityText(h.severity))))))
  }

  function MessageText(m: Message, offset: Offset): string {
    HeaderText(m.header, offset) + (" " + (m.text + "\n"))
  }

  function ReadFacility(s: string): (p: Parsed<bv8>)
    ensures p.Parsed? ==> |p.rest| < |s|
  {
    var (word, s) :- Word(s);
    Parsed(FacilityValue(word), s)
  }

  function ReadSeverity(s: string): (p: Parsed<bv8>)
    ensures p.Parsed? ==> |p.rest| < |s|
  {
    var (word, s) :- Word(s);
    var (severity, _) :- SeverityOf(word);
    Parsed(severity, s)
  }

  /** Application name and process, up to the first brackets of a word. */
  function ProcessOf(word: string): Parsed<(Name, uint32)> {
    var open, close := IndexOf(word, '['), IndexOf(word, ']');
    if open == |word| || open >= 255 || close == |word| || close <= open + 1 then Failed
    else
      var (procid, _) :- Stoul(word[open + 1..close]);
      Parsed((word[..open], procid % 0x1_0000_0000), "")
  }

  function ReadOrigin(s: string): (p: Parsed<Origin>)
    ensures p.Parsed? ==> |p.rest| < |s|
  {
    var (hostname, s) :- Word(s);
    var (word, s) :- Word(s);
    if |hostname| > 255 then Failed
    else
      var ((appname, procid), _) :- ProcessOf(word);
      Parsed(Origin(hostname, appname, procid), s)
  }

  function ReadHeader(s: string): (p: Parsed<Header>)
    ensures p.Parsed? ==> |p.rest| < |s|
  {
    var (timestamp, s) :- ReadTimestamp(s);
    var (facility, s) :- ReadFacility(s);
    var (origin, s) :- ReadOrigin(s);
    var (severity, s) :- ReadSeverity(s);
    Parsed(Header(timestamp, facility, severity, origin), s)
  }

  function ReadText(s: string): (p: Parsed<Text>)
    ensures p.Parsed? ==> |p.rest| < |s|
  {
    var (line, s) :- Line(SkipSpace(s));
    if |line| > 1500 then Failed else Parsed(line, s)
  }

  function ReadMessage(s: string): (p: Parsed<Message>)
    ensures p.Parsed? ==> |p.rest| < |s|
  {
    var (header, s) :- ReadHeader(s);
    var (text, s) :- ReadText(s);
    Parsed(Message(header, text), s)
  }

  /** The messages of a whole stream, up to the first failure. */
  function ReadAll(s: string): seq<Message>
    decreases |s|
  {
    match ReadMessage(s)
    case Parsed(m, r) => [m] + ReadAll(r)
    case _ => []
  }

  function PrintAll(ms: seq<Message>, offsets: seq<Offset>): string
    requires |offsets| == |ms|
  {
    if ms == [] then "" else MessageText(ms[0], offsets[0]) + PrintAll(ms[1..], offsets[1..])
  }

  predicate IsReadableOrigin(o: Origin) {
    && o.hostname != "" && NoSpace(o.hostname)
    && |o.appname| < 255 && NoSpace(o.appname) && '[' !in o.appname && ']' !in o.appname
  }

  predicate IsReadableText(text: Text) {
    text != "" && !IsSpace(text[0]) && '\n' !in text
  }

  /** The part of a message that reading can produce at all. */
  predicate IsReadable(m: Message) {
    && IsFacility(m.header.facility) && IsSeverity(m.header.severity)
    && IsReadableOrigin(m.header.origin) && IsReadableText(m.text)
  }

  /** Exactly the facilities of the enumeration survive printing and reading. */
  lemma FacilityRoundTrip(f: bv8)
    ensures FacilityValue(FacilityName(f)) == f <==> IsFacility(f)
  {
    if !IsFacility(f) {
      assert FacilityName(f) == "unknown";
      FacilityIsListed("unknown");
    } else if f <= 56 {
      LowFacility(f);
    } else if f <= 88 {
      MiddleFacility(f);
    } else {
      LocalFacility(f);
    }
  }

  lemma LowFacility(f: bv8)
    requires f == 0 || f == 8 || f == 16 || f == 24 || f == 32 || f == 40 || f == 48 || f == 56
    ensures FacilityValue(FacilityName(f)) == f
  {}

  lemma MiddleFacility(f: bv8)
    requires f == 64 || f == 72 || f == 80 || f == 88
    ensures FacilityValue(FacilityName(f)) == f
  {}

  lemma LocalFacility(f: bv8)
    requires f == 128 || f == 136 || f == 144 || f == 152 || f == 160 || f == 168 || f == 176 || f == 184
    ensures FacilityValue(FacilityName(f)) == f
  {
    var name := FacilityName(f);
    assert |name| == 6 && name[0] == 'l';
    assert name[5] == if f == 128 then '0' else if f == 136 then '1' else if f == 144 then '2'
                      else if f == 152 then '3' else if f == 160 then '4' else if f == 168 then '5'
                      else if f == 176 then '6' else '7';
  }

  lemma FacilityIsListed(name: string)
    ensures IsFacility(FacilityValue(name))
  {}

  lemma SeverityRoundTrip(s: bv8)
    ensures SeverityOf(SeverityText(s)) == if IsSeverity(s) then Parsed(s, "") else Failed
  {}

  /** Whatever the input, an origin that was read has the form of a readable one. */
  lemma ReadOriginIsReadable(s: string)
    requires ReadOrigin(s).Parsed?
    ensures IsReadableOrigin(ReadOrigin(s).value)
  {}

  /** Whatever the input, a message that was read is readable. */
  lemma ReadMessageIsReadable(s: string)
    requires ReadMessage(s).Parsed?
    ensures IsReadable(ReadMessage(s).value)
  {
    var (header, s1) := ReadHeader(s).Extract();
    HeaderIsReadable(s);
    TextIsReadable(s1);
  }

  lemma HeaderIsReadable(s: string)
    requires ReadHeader(s).Parsed?
    ensures var h := ReadHeader(s).value;
            IsFacility(h.facility) && IsSeverity(h.severity) && IsReadableOrigin(h.origin)
  {
    var (timestamp, s1) := ReadTimestamp(s).Extract();
    var (word, s2) := Word(s1).Extract();
    FacilityIsListed(word);
    var (origin, s3) := ReadOrigin(s2).Extract();
    ReadOriginIsReadable(s2);
    SeverityIsListed(s3);
  }

  lemma SeverityIsListed(s: string)
    requires ReadSeverity(s).Parsed?
    ensures IsSeverity(ReadSeverity(s).value)
  {}

  lemma TextIsReadable(s: string)
    requires ReadText(s).Parsed?
    ensures IsReadableText(ReadText(s).value)
  {}

  lemma ReadsOrigin(o: Origin, rest: string)
    requires IsReadableOrigin(o)
    ensures ReadOrigin(" " + (OriginText(o) + (": " + rest))) == Parsed(o, " " + rest)
  {
    var word := o.appname + ("[" + (Digits(o.procid) + "]:"));
    var tail := " " + rest;
    assert OriginText(o) + (": " + rest) == o.hostname + (" " + (word + tail)) by {
      assert "]" + (": " + rest) == "]:" + tail;
      var d := Digits(o.procid);
      assert (d + "]") + (": " + rest) == (d + "]:") + tail;
      assert ("[" + (d + "]")) + (": " + rest) == ("[" + (d + "]:")) + tail;
      assert (o.appname + ("[" + (d + "]"))) + (": " + rest) == word + tail;
      assert (" " + (o.appname + ("[" + (d + "]")))) + (": " + rest) == " " + (word + tail);
    }
    assert NoSpace(word);
    ReadsWord(o.hostname, " " + (word + tail));
    ReadsWord(word, tail);
    ReadsProcess(o);
  }

  lemma FindsBrackets(appname: string, digits: string)
    requires '[' !in appname && ']' !in appname && AllDigits(digits) && digits != ""
    ensures var word := appname + ("[" + (digits + "]:"));
            var open, close := IndexOf(word, '['), IndexOf(word, ']');
            && open == |appname| && close == open + 1 + |digits| && close < |word|
            && word[..open] == appname && word[open + 1..close] == digits
  {
    IndexIn(appname, '[', "[" + (digits + "]:"));
    var before := appname + ("[" + digits);
    assert appname + ("[" + (digits + "]:")) == before + "]:";
    IndexIn(before, ']', "]:");
  }

  lemma ReadsProcess(o: Origin)
    requires IsReadableOrigin(o)
    ensures ProcessOf(o.appname + ("[" + (Digits(o.procid) + "]:"))) == Parsed((o.appname, o.procid), "")
  {
    FindsBrackets(o.appname, Digits(o.procid));
    StoulOfDigits(o.procid);
  }

  lemma ReadsHeader(h: Header, offset: Offset, rest: string)
    requires IsPrintable(h.timestamp, offset)
    requires IsFacility(h.facility) && IsSeverity(h.severity) && IsReadableOrigin(h.origin)
    ensures ReadHeader(HeaderText(h, offset) + (" " + rest)) == Parsed(h, " " + rest)
  {
    var facility, origin := FacilityName(h.facility), OriginText(h.origin);
    var severity := SeverityText(h.severity);
    var s3 := " " + (severity + (" " + rest));
    var s2 := " " + (origin + (": " + (severity + (" " + rest))));
    var s1 := " " + (facility + s2);
    HeaderTextIs(h, offset, rest);
    TimestampRoundTrip(h.timestamp, offset, s1);
    ReadsWord(facility, s2);
    FacilityRoundTrip(h.facility);
    ReadsOrigin(h.origin, severity + (" " + rest));
    ReadsWord(severity, " " + rest);
    SeverityRoundTrip(h.severity);
  }

  lemma HeaderTextIs(h: Header, offset: Offset, rest: string)
    ensures HeaderText(h, offset) + (" " + rest)
         == TimestampText(h.timestamp, offset)
            + (" " + (FacilityName(h.facility) + (" " + (OriginText(h.origin)
            + (": " + (SeverityText(h.severity) + (" " + rest)))))))
  {
    var end := " " + rest;
    var d := SeverityText(h.severity);
    var c := OriginText(h.origin) + (": " + d);
    Joined(": ", d, end);
    Joined(OriginText(h.origin), ": " + d, end);
    Joined(" ", c, end);
    Joined(FacilityName(h.facility), " " + c, end);
    Joined(" ", FacilityName(h.facility) + (" " + c), end);
    Joined(TimestampText(h.timestamp, offset), " " + (FacilityName(h.facility) + (" " + c)), end);
  }

  lemma Joined(a: string, b: string, c: string)
    ensures (a + b) + c == a + (b + c)
  {}

  lemma ReadsText(text: Text, rest: string)
    requires IsReadableText(text)
    ensures ReadText(" " + (text + ("\n" + rest))) == Parsed(text, rest)
  {
    var s := text + ("\n" + rest);
    assert (" " + s)[1..] == s && s[0] == text[0];
    assert SkipSpace(" " + s) == SkipSpace(s) == s;
    ReadsLine(text, rest);
  }

  /** One message, whatever follows it: exactly the readable messages with a printable time
      are read back. */
  lemma MessageRoundTrip(m: Message, offset: Offset, rest: string)
    ensures var p := ReadMessage(MessageText(m, offset) + rest);
            if ReadsBack(m, offset) then p == Parsed(m, rest)
            else !p.Parsed? || p.value != m
  {
    var s := MessageText(m, offset) + rest;
    var tail := " " + (m.text + ("\n" + rest));
    assert s == HeaderText(m.header, offset) + tail by {
      Joined(m.text, "\n", rest);
      Joined(" ", m.text + "\n", rest);
      Joined(HeaderText(m.header, offset), " " + (m.text + "\n"), rest);
    }
    if ReadMessage(s).Parsed? {
      ReadMessageIsReadable(s);
    }
    if IsReadable(m) && IsPrintable(m.header.timestamp, offset) {
      ReadsHeader(m.header, offset, m.text + ("\n" + rest));
      ReadsText(m.text, rest);
    } else if !IsPrintable(m.header.timestamp, offset) {
      UnprintableTimeLost(m, offset, m.text + ("\n" + rest));
    }
  }

  lemma UnprintableTimeLost(m: Message, offset: Offset, rest: string)
    requires !IsPrintable(m.header.timestamp, offset)
    ensures var p := ReadMessage(HeaderText(m.header, offset) + (" " + rest));
            p.Parsed? ==> p.value.header.timestamp != m.header.timestamp
  {
    var h := m.header;
    HeaderTextIs(h, offset, rest);
    TimeLost(h.timestamp, offset, " " + (FacilityName(h.facility) + (" " + (OriginText(h.origin)
             + (": " + (SeverityText(h.severity) + (" " + rest)))))));
  }

  lemma TimeLost(ts: uint64, offset: Offset, rest: string)
    requires !IsPrintable(ts, offset)
    ensures var p := ReadMessage(TimestampText(ts, offset) + rest);
            p.Parsed? ==> p.value.header.timestamp != ts
  {
    var s := TimestampText(ts, offset) + rest;
    TimestampRoundTrip(ts, offset, rest);
    TimestampIsFirst(s);
    if ReadTimestamp(s).Parsed? {
      RestAfterTimestamp(ts, offset, rest);
    }
  }

  lemma TimestampIsFirst(s: string)
    ensures ReadMessage(s).Parsed? ==>
      ReadTimestamp(s).Parsed? && ReadTimestamp(s).value == ReadMessage(s).value.header.timestamp
  {}

  lemma RestAfterTimestamp(ts: uint64, offset: Offset, rest: string)
    requires ReadTimestamp(TimestampText(ts, offset) + rest).Parsed?
    ensures ReadTimestamp(TimestampText(ts, offset) + rest).rest == rest
  {
    if Calendar.Localtime(Secs(ts), offset).year < 10000 {
      ReadsFourDigitYear(ts, offset, rest);
    } else {
      FiveDigitYearFails(ts, offset, rest);
    }
  }

  predicate ReadsBack(m: Message, offset: Offset) {
    IsReadable(m) && IsPrintable(m.header.timestamp, offset)
  }

  ghost predicate AllReadBack(ms: seq<Message>, offsets: seq<Offset>)
    requires |offsets| == |ms|
  {
    forall i :: 0 <= i < |ms| ==> ReadsBack(ms[i], offsets[i])
  }

  /** Printing any list of messages and reading until failure returns the same list exactly
      when every message is readable and printed at a printable time. */
  lemma {:induction false} StreamRoundTrip(ms: seq<Message>, offsets: seq<Offset>)
    requires |offsets| == |ms|
    ensures ReadAll(PrintAll(ms, offsets)) == ms <==> AllReadBack(ms, offsets)
  {
    if ms == [] {
      assert ReadMessage("") == Failed;
    } else {
      StreamRoundTrip(ms[1..], offsets[1..]);
      FirstReadBack(ms[0], offsets[0], PrintAll(ms[1..], offsets[1..]));
      FirstDecides(ms, offsets, ReadAll(PrintAll(ms, offsets)), ReadAll(PrintAll(ms[1..], offsets[1..])));
    }
  }

  lemma FirstDecides(ms: seq<Message>, offsets: seq<Offset>, all: seq<Message>, others: seq<Message>)
    requires |offsets| == |ms| > 0
    requires others == ms[1..] <==> AllReadBack(ms[1..], offsets[1..])
    requires if ReadsBack(ms[0], offsets[0]) then all == [ms[0]] + others else all == [] || all[0] != ms[0]
    ensures all == ms <==> AllReadBack(ms, offsets)
  {}

  lemma FirstReadBack(m: Message, offset: Offset, rest: string)
    ensures var all := ReadAll(MessageText(m, offset) + rest);
            if ReadsBack(m, offset) then all == [m] + ReadAll(rest) else all == [] || all[0] != m
  {
    MessageRoundTrip(m, offset, rest);
  }
}
