/** The stream operators on text: each one reads or writes in place what `TextForm` says. */
module TextStreams {
  import opened Messages
  import opened Scanning
  import opened TextForm
  import opened Timestamps

  datatype State = Good | Bad | Threw

  class InputStream {
    var rest: string
    var state: State

    constructor (text: string)
      ensures rest == text && state == Good
    {
      rest, state := text, Good;
    }

    /** The stream took what `p` took, or has failed or thrown as `p` did. */
    ghost predicate Took<T>(p: Parsed<T>, value: T)
      reads this
    {
      match p
      case Parsed(v, r) => state == Good && rest == r && value == v
      case Failed => state == Bad
      case Thrown => state == Threw
    }

    method SkipWhite()
      modifies this`rest
      ensures rest == SkipSpace(old(rest))
    {
      while rest != "" && IsSpace(rest[0])
        invariant SkipSpace(rest) == SkipSpace(old(rest))
        decreases |rest|
      {
        rest := rest[1..];
      }
    }

    method ReadWord() returns (word: string)
      requires state == Good
      modifies this
      ensures Took(Word(old(rest)), word)
    {
      SkipWhite();
      ghost var start := rest;
      word := "";
      while rest != "" && !IsSpace(rest[0])
        invariant state == Good && start == word + rest
        invariant NoSpace(word)
        decreases |rest|
      {
        word, rest := word + [rest[0]], rest[1..];
      }
      WordEnds(word, rest);
      assert start[..|word|] == word && start[|word|..] == rest;
      if word == "" {
        state := Bad;
      }
    }

    method ReadLine() returns (line: string)
      requires state == Good
      modifies this
      ensures Took(Line(old(rest)), line)
    {
      line := "";
      if rest == "" {
        state := Bad;
        return;
      }
      ghost var start := rest;
      while rest != "" && rest[0] != '\n'
        invariant state == Good && start == line + rest
        invariant IndexOf(start, '\n') == |line| + IndexOf(rest, '\n')
        decreases |rest|
      {
        line, rest := line + [rest[0]], rest[1..];
      }
      assert start[..|line|] == line && start[|line|..] == rest;
      assert rest == "" ==> start == line;
      if rest != "" {
        assert rest[1..] == start[|line| + 1..];
        rest := rest[1..];
      }
    }

    method GetTimestamp() returns (ts: uint64)
      requires state == Good
      modifies this
      ensures Took(ReadTimestamp(old(rest)), ts)
    {
      ts := 0;
      if |rest| < 31 {
        state := Bad;
      } else {
        ts := ToMicroseconds(rest[..31]);
        rest := rest[31..];
        if ts == 0 {
          state := Bad;
        }
      }
    }

    method GetFacility() returns (facility: bv8)
      requires state == Good
      modifies this
      ensures Took(ReadFacility(old(rest)), facility)
    {
      facility := 0;
      var word := ReadWord();
      if state == Good {
        facility := FacilityValue(word);
      }
    }

    method GetSeverity() returns (severity: bv8)
      requires state == Good
      modifies this
      ensures Took(ReadSeverity(old(rest)), severity)
    {
      severity := 0;
      var word := ReadWord();
      if state == Good {
        var p := SeverityOf(word);
        if p.Parsed? {
          severity := p.value;
        } else {
          state := Bad;
        }
      }
    }

    method GetOrigin() returns (origin: Origin)
      requires state == Good
      modifies this
      ensures Took(ReadOrigin(old(rest)), origin)
    {
      origin := Origin("", "", 0);
      var hostname := ReadWord();
      if state != Good { return; }
      var word := ReadWord();
      if state != Good { return; }
      var open, close := IndexOf(word, '['), IndexOf(word, ']');
      if |hostname| > 255 || open == |word| || open >= 255 || close == |word| || close <= open + 1 {
        state := Bad;
        return;
      }
      var procid := Stoul(word[open + 1..close]);
      if procid.Parsed? {
        origin := Origin(hostname, word[..open], procid.value % 0x1_0000_0000);
      } else {
        state := Threw;
      }
    }

    method GetHeader() returns (header: Header)
      requires state == Good
      modifies this
      ensures Took(ReadHeader(old(rest)), header)
    {
      header := Header(0, 0, 0, Origin("", "", 0));
      var timestamp := GetTimestamp();
      if state != Good { return; }
      var facility := GetFacility();
      if state != Good { return; }
      var origin := GetOrigin();
      if state != Good { return; }
      var severity := GetSeverity();
      header := Header(timestamp, facility, severity, origin);
    }

    method GetMessage() returns (msg: Message)
      requires state == Good
      modifies this
      ensures Took(ReadMessage(old(rest)), msg)
    {
      msg := Message(Header(0, 0, 0, Origin("", "", 0)), "");
      var header := GetHeader();
      if state != Good { return; }
      SkipWhite();
      var line := ReadLine();
      if state != Good { return; }
      if |line| > 1500 {
        state := Bad;
      } else {
        msg := Message(header, line);
      }
    }

    /** One message of those that are left. */
    method GetNext() returns (msg: Message)
      requires state == Good
      modifies this
      ensures state != Good ==> ReadAll(old(rest)) == []
      ensures state == Good ==> |rest| < |old(rest)| && ReadAll(old(rest)) == [msg] + ReadAll(rest)
    {
      msg := GetMessage();
    }

    /** Reads messages until the stream fails. */
    method GetMessages() returns (msgs: seq<Message>)
      requires state == Good
      modifies this
      ensures msgs == ReadAll(old(rest)) && state != Good
    {
      msgs := [];
      while true
        invariant state == Good && ReadAll(old(rest)) == msgs + ReadAll(rest)
        decreases |rest|
      {
        var msg := GetNext();
        if state != Good {
          return;
        }
        msgs := msgs + [msg];
      }
    }
  }

  class OutputStream {
    var text: string

    constructor ()
      ensures text == ""
    {
      text := "";
    }

    method Put(s: string)
      modifies this
      ensures text == old(text) + s
    {
      text := text + s;
    }

    method PutMessage(msg: Message, offset: Offset)
      modifies this
      ensures text == old(text) + MessageText(msg, offset)
    {
      ghost var before := text;
      PutHeader(msg.header, offset);
      ghost var header := HeaderText(msg.header, offset);
      Put(" ");
      Put(msg.text);
      Put("\n");
      Joined(before, header, " ");
      Appended(before + header, " ", msg.text, "\n");
      Joined(before, header, " " + (msg.text + "\n"));
    }

    method PutMessages(msgs: seq<Message>, offsets: seq<Offset>)
      requires |offsets| == |msgs|
      modifies this
      ensures text == old(text) + PrintAll(msgs, offsets)
    {
      var ms, os := msgs, offsets;
      while ms != []
        invariant |os| == |ms| && text + PrintAll(ms, os) == old(text) + PrintAll(msgs, offsets)
      {
        PrintAllFirst(text, ms, os);
        PutMessage(ms[0], os[0]);
        ms, os := ms[1..], os[1..];
      }
      assert text + PrintAll(ms, os) == text;
    }

    method PutHeader(header: Header, offset: Offset)
      modifies this
      ensures text == old(text) + HeaderText(header, offset)
    {
      ghost var before := text;
      var time, facility := TimestampText(header.timestamp, offset), FacilityName(header.facility);
      var origin, severity := OriginText(header.origin), SeverityText(header.severity);
      Put(time);
      Put(" ");
      Put(facility);
      Put(" ");
      Put(origin);
      Put(": ");
      Put(severity);
      Appended(before + time + " " + facility, " ", origin, ": " + severity);
      Joined(before + time + " " + facility + " " + origin, ": ", severity);
      Appended(before, time, " " + facility, " " + (origin + (": " + severity)));
      Joined(before + time, " ", facility);
      Joined(" ", facility, " " + (origin + (": " + severity)));
    }
  }

  lemma Appended(a: string, b: string, c: string, d: string)
    ensures a + b + c + d == a + (b + (c + d))
  {}

  lemma PrintAllFirst(before: string, msgs: seq<Message>, offsets: seq<Offset>)
    requires |offsets| == |msgs| > 0
    ensures before + PrintAll(msgs, offsets)
         == before + MessageText(msgs[0], offsets[0]) + PrintAll(msgs[1..], offsets[1..])
  {
    Joined(before, MessageText(msgs[0], offsets[0]), PrintAll(msgs[1..], offsets[1..]));
  }

  /** Writing messages to a stream and reading them back until it fails. */
  method CopyThroughText(msgs: seq<Message>, offsets: seq<Offset>) returns (copied: seq<Message>)
    requires |offsets| == |msgs|
    ensures copied == msgs <==> AllReadBack(msgs, offsets)
  {
    var output := new OutputStream();
    output.PutMessages(msgs, offsets);
    assert "" + PrintAll(msgs, offsets) == PrintAll(msgs, offsets);
    var input := new InputStream(output.text);
    copied := input.GetMessages();
    StreamRoundTrip(msgs, offsets);
  }
}
