/**
  The binary form of messages. How the libraries encode integers and short strings is not
  modelled: a codec is any set of encoders whose decoders read back what was written,
  whatever follows it.
 */
module Wire {
  import opened Messages

  type Bytes = seq<bv8>

  datatype Decoded<+T> = NotDecoded | Decoded(value: T, length: nat) {
    predicate IsFailure() { NotDecoded? }

    function PropagateFailure<U>(): Decoded<U>
      requires IsFailure()
    {
      NotDecoded
    }

    function Extract(): (T, nat)
      requires !IsFailure()
    {
      (value, length)
    }
  }

  datatype Field<!T> = Field(encode: T -> Bytes, decode: Bytes -> Decoded<T>)

  ghost predicate IsLawful<T(!new)>(f: Field<T>) {
    && (forall v: T, tail: Bytes :: f.decode(f.encode(v) + tail) == Decoded(v, |f.encode(v)|))
    && (forall s: Bytes :: f.decode(s).Decoded? ==> 0 < f.decode(s).length <= |s|)
  }

  datatype Codec = Codec(integer64: Field<uint64>, integer32: Field<uint32>, name: Field<Name>, text: Field<Text>) {
    ghost predicate Lawful() {
      IsLawful(integer64) && IsLawful(integer32) && IsLawful(name) && IsLawful(text)
    }
  }

  predicate IsAlnum(c: char) {
    '0' <= c <= '9' || 'A' <= c <= 'Z' || 'a' <= c <= 'z'
  }

  predicate IsHostname(s: string) {
    s != "" && forall i :: 0 <= i < |s| ==> IsAlnum(s[i]) || s[i] == '-' || s[i] == '.'
  }

  predicate IsAppName(s: string) {
    s != "" && forall i :: 0 <= i < |s| ==> IsAlnum(s[i]) || s[i] == '_' || s[i] == '.' || s[i] == '-'
  }

  method IsValidHostname(hn: string) returns (rc: bool)
    ensures rc == IsHostname(hn)
  {
    var i := 0;
    while i < |hn|
      invariant 0 <= i <= |hn|
      invariant forall j :: 0 <= j < i ==> IsAlnum(hn[j]) || hn[j] == '-' || hn[j] == '.'
    {
      if !IsAlnum(hn[i]) && hn[i] != '-' && hn[i] != '.' { break; }
      i := i + 1;
    }
    rc := |hn| == i && hn != "";
  }

  method IsValidAppName(an: string) returns (rc: bool)
    ensures rc == IsAppName(an)
  {
    var i := 0;
    while i < |an|
      invariant 0 <= i <= |an|
      invariant forall j :: 0 <= j < i ==> IsAlnum(an[j]) || an[j] == '_' || an[j] == '.' || an[j] == '-'
    {
      if !IsAlnum(an[i]) && an[i] != '_' && an[i] != '.' && an[i] != '-' { break; }
      i := i + 1;
    }
    rc := |an| == i && an != "";
  }

  /** What reading a message from the wire checks. Facilities that are not in the
      enumeration pass, up to `local7`. */
  predicate IsAccepted(m: Message) {
    && m.header.facility <= LOCAL7 && m.header.severity <= DEBUG
    && IsHostname(m.header.origin.hostname) && IsAppName(m.header.origin.appname)
  }

  function EncodeOrigin(codec: Codec, o: Origin): Bytes {
    codec.name.encode(o.hostname) + (codec.name.encode(o.appname) + codec.integer32.encode(o.procid))
  }

  function EncodeHeader(codec: Codec, h: Header): Bytes {
    codec.integer64.encode(h.timestamp) + ([h.facility, h.severity] + EncodeOrigin(codec, h.origin))
  }

  function Encode(codec: Codec, m: Message): Bytes {
    EncodeHeader(codec, m.header) + codec.text.encode(m.text)
  }

  function DecodeField<T>(f: Field<T>, s: Bytes): (d: Decoded<T>)
    ensures d.Decoded? ==> 0 < d.length <= |s|
  {
    match f.decode(s)
    case Decoded(v, n) => if 0 < n <= |s| then Decoded(v, n) else NotDecoded
    case NotDecoded => NotDecoded
  }

  /** `MessageOrigin::Read`: each name is checked as soon as it was read. */
  function DecodeOrigin(codec: Codec, s: Bytes): (d: Decoded<Origin>)
    ensures d.Decoded? ==> 0 < d.length <= |s|
  {
    var (hostname, n) :- DecodeField(codec.name, s);
    if !IsHostname(hostname) then NotDecoded
    else
      var (appname, k) :- DecodeField(codec.name, s[n..]);
      if !IsAppName(appname) then NotDecoded
      else
        var (procid, l) :- DecodeField(codec.integer32, s[n..][k..]);
        Decoded(Origin(hostname, appname, procid), n + k + l)
  }

  function DecodeHeader(codec: Codec, s: Bytes): (d: Decoded<Header>)
    ensures d.Decoded? ==> 0 < d.length <= |s|
  {
    var (timestamp, n) :- DecodeField(codec.integer64, s);
    if |s| < n + 2 then NotDecoded
    else
      var (origin, k) :- DecodeOrigin(codec, s[n..][2..]);
      if LOCAL7 < s[n] || DEBUG < s[n + 1] then NotDecoded
      else Decoded(Header(timestamp, s[n], s[n + 1], origin), n + 2 + k)
  }

  /** `Message::Read`. */
  function Decode(codec: Codec, s: Bytes): (d: Decoded<Message>)
    ensures d.Decoded? ==> 0 < d.length <= |s|
  {
    var (header, n) :- DecodeHeader(codec, s);
    var (text, k) :- DecodeField(codec.text, s[n..]);
    Decoded(Message(header, text), n + k)
  }

  /** The bytes of a message: timestamp, facility, severity, hostname, appname, process and text. */
  lemma WireLayout(codec: Codec, m: Message)
    ensures var h, o := m.header, m.header.origin;
      Encode(codec, m)
      == codec.integer64.encode(h.timestamp) + [h.facility, h.severity]
         + codec.name.encode(o.hostname) + codec.name.encode(o.appname) + codec.integer32.encode(o.procid)
         + codec.text.encode(m.text)
  {
    var h, o := m.header, m.header.origin;
    Joined(codec.integer64.encode(h.timestamp), [h.facility, h.severity], EncodeOrigin(codec, o));
    Joined(codec.integer64.encode(h.timestamp) + [h.facility, h.severity], codec.name.encode(o.hostname),
           codec.name.encode(o.appname) + codec.integer32.encode(o.procid));
    Joined(codec.integer64.encode(h.timestamp) + [h.facility, h.severity] + codec.name.encode(o.hostname),
           codec.name.encode(o.appname), codec.integer32.encode(o.procid));
  }

  /** Reading refuses facilities beyond 184 and severities beyond 7, and names with other
      characters than letters, digits, hyphens and dots, and in appnames underscores. */
  lemma AcceptedExactly(m: Message)
    ensures var h, o := m.header, m.header.origin;
      IsAccepted(m) <==>
        && h.facility as int <= 184 && h.severity as int <= 7 && o.hostname != "" && o.appname != ""
        && (forall c :: c in o.hostname ==> '0' <= c <= '9' || 'A' <= c <= 'Z' || 'a' <= c <= 'z' || c in "-.")
        && (forall c :: c in o.appname ==> '0' <= c <= '9' || 'A' <= c <= 'Z' || 'a' <= c <= 'z' || c in "-._")
  {
    NamesByCharacter(m.header.origin.hostname);
    NamesByCharacter(m.header.origin.appname);
  }

  lemma NamesByCharacter(s: string)
    ensures IsHostname(s) <==> s != "" && forall c :: c in s ==> IsAlnum(c) || c in "-."
    ensures IsAppName(s) <==> s != "" && forall c :: c in s ==> IsAlnum(c) || c in "-._"
  {
    forall i | 0 <= i < |s| ensures s[i] in s {}
  }

  lemma DecodesField<T(!new)>(f: Field<T>, v: T, tail: Bytes)
    requires IsLawful(f)
    ensures DecodeField(f, f.encode(v) + tail) == Decoded(v, |f.encode(v)|)
    ensures (f.encode(v) + tail)[|f.encode(v)|..] == tail
  {}

  lemma Joined(a: Bytes, b: Bytes, c: Bytes)
    ensures a + b + c == a + (b + c)
    ensures (a + (b + c))[|a|..] == b + c
  {}

  lemma OriginRoundTrip(codec: Codec, o: Origin, tail: Bytes)
    requires codec.Lawful()
    ensures DecodeOrigin(codec, EncodeOrigin(codec, o) + tail)
         == if IsHostname(o.hostname) && IsAppName(o.appname) then Decoded(o, |EncodeOrigin(codec, o)|)
            else NotDecoded
  {
    var host, app, pid := codec.name.encode(o.hostname), codec.name.encode(o.appname), codec.integer32.encode(o.procid);
    Joined(app, pid, tail);
    Joined(host, app + pid, tail);
    DecodesField(codec.name, o.hostname, app + (pid + tail));
    DecodesField(codec.name, o.appname, pid + tail);
    DecodesField(codec.integer32, o.procid, tail);
  }

  /** A header whose timestamp was read. */
  lemma HeaderFrom(codec: Codec, s: Bytes, timestamp: uint64, n: nat, f: bv8, v: bv8, rest: Bytes)
    requires DecodeField(codec.integer64, s) == Decoded(timestamp, n) && n <= |s| && s[n..] == [f, v] + rest
    ensures DecodeHeader(codec, s)
         == match DecodeOrigin(codec, rest)
            case Decoded(o, k) =>
              if LOCAL7 < f || DEBUG < v then NotDecoded else Decoded(Header(timestamp, f, v, o), n + 2 + k)
            case NotDecoded => NotDecoded
  {
    assert s[n] == s[n..][0] && s[n + 1] == s[n..][1] && s[n..][2..] == rest;
  }

  lemma HeaderRoundTrip(codec: Codec, h: Header, tail: Bytes)
    requires codec.Lawful()
    ensures DecodeHeader(codec, EncodeHeader(codec, h) + tail)
         == if h.facility <= LOCAL7 && h.severity <= DEBUG
               && IsHostname(h.origin.hostname) && IsAppName(h.origin.appname)
            then Decoded(h, |EncodeHeader(codec, h)|) else NotDecoded
  {
    var time, origin := codec.integer64.encode(h.timestamp), EncodeOrigin(codec, h.origin);
    var codes := [h.facility, h.severity];
    Joined(codes, origin, tail);
    Joined(time, codes + origin, tail);
    DecodesField(codec.integer64, h.timestamp, codes + (origin + tail));
    HeaderFrom(codec, time + (codes + (origin + tail)), h.timestamp, |time|, h.facility, h.severity, origin + tail);
    OriginRoundTrip(codec, h.origin, tail);
  }

  /** Exactly the accepted messages are read back, whatever follows them. */
  lemma MessageRoundTrip(codec: Codec, m: Message, tail: Bytes)
    requires codec.Lawful()
    ensures Decode(codec, Encode(codec, m) + tail)
         == if IsAccepted(m) then Decoded(m, |Encode(codec, m)|) else NotDecoded
  {
    var header, text := EncodeHeader(codec, m.header), codec.text.encode(m.text);
    Joined(header, text, tail);
    HeaderRoundTrip(codec, m.header, text + tail);
    DecodesField(codec.text, m.text, tail);
  }

  /** The receive loop: messages until reading one fails. */
  function DecodeAll(codec: Codec, s: Bytes): seq<Message>
    decreases |s|
  {
    match Decode(codec, s)
    case Decoded(m, n) => [m] + DecodeAll(codec, s[n..])
    case NotDecoded => []
  }

  method ReadMessages(codec: Codec, payload: Bytes) returns (msgs: seq<Message>)
    ensures msgs == DecodeAll(codec, payload)
  {
    msgs := [];
    var rest := payload;
    while true
      invariant DecodeAll(codec, payload) == msgs + DecodeAll(codec, rest)
      decreases |rest|
    {
      match Decode(codec, rest)
      case Decoded(msg, n) => msgs, rest := msgs + [msg], rest[n..];
      case NotDecoded => return;
    }
  }

  function EncodeAll(codec: Codec, ms: seq<Message>): Bytes {
    if ms == [] then [] else Encode(codec, ms[0]) + EncodeAll(codec, ms[1..])
  }

  /** The messages before the first one that reading refuses. */
  function AcceptedPrefix(ms: seq<Message>): (r: seq<Message>)
    ensures r <= ms
    ensures forall i :: 0 <= i < |r| ==> IsAccepted(r[i])
    ensures |r| < |ms| ==> !IsAccepted(ms[|r|])
  {
    if ms == [] || !IsAccepted(ms[0]) then [] else [ms[0]] + AcceptedPrefix(ms[1..])
  }

  /** A receiver gets the messages of a payload up to the first one it refuses; one refused
      message costs it the rest of the datagram. */
  lemma {:induction false} ReceiveLoop(codec: Codec, ms: seq<Message>)
    requires codec.Lawful()
    ensures DecodeAll(codec, EncodeAll(codec, ms)) == AcceptedPrefix(ms)
  {
    if ms == [] {
      assert Decode(codec, []) == NotDecoded;
    } else {
      var rest := EncodeAll(codec, ms[1..]);
      MessageRoundTrip(codec, ms[0], rest);
      ReceiveLoop(codec, ms[1..]);
      assert (Encode(codec, ms[0]) + rest)[|Encode(codec, ms[0])|..] == rest;
    }
  }

  lemma {:induction false} EncodeAllOfBoth(codec: Codec, a: seq<Message>, b: seq<Message>)
    ensures EncodeAll(codec, a + b) == EncodeAll(codec, a) + EncodeAll(codec, b)
  {
    if a == [] {
      assert a + b == b;
    } else {
      assert (a + b)[1..] == a[1..] + b;
      EncodeAllOfBoth(codec, a[1..], b);
    }
  }

}
