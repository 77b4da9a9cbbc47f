/**
  The batching loops of the two senders. Messages popped from the queue are packed into one
  buffer; a message that does not fit sends the packet first, and a second without
  messages sends what is pending.
 */
module Senders {
  import opened Messages
  import opened Wire
  import opened MessagePackets
  import opened Options

  const PACKET_SIZE: nat := 1200
  const CAPACITY: nat := PACKET_SIZE - MIN_PACKET_LEN

  /** How the queue's timed wait ends: with messages to pop, or after a second without. */
  datatype Wakeup = Batch(messages: seq<Message>) | Timeout

  /** The messages of each packet that was sent, and those in the buffer. */
  datatype Packing = Packing(sent: seq<seq<Message>>, pending: seq<Message>)

  predicate FitsAPacket(codec: Codec, m: Message): (fits: bool)
    ensures fits <==> 24 + |Encode(codec, m)| + 16 <= 1200
  {
    |Encode(codec, m)| <= CAPACITY
  }

  function Sent(p: Packing): Packing {
    Packing(p.sent + [p.pending], [])
  }

  /** One message: a message that fits no packet is dropped, after the pending packet was
      sent for it. */
  function Packed(codec: Codec, p: Packing, m: Message): Packing {
    if |EncodeAll(codec, p.pending)| + |Encode(codec, m)| <= CAPACITY then
      p.(pending := p.pending + [m])
    else
      Sent(p).(pending := if FitsAPacket(codec, m) then [m] else [])
  }

  function AllPacked(codec: Codec, p: Packing, ms: seq<Message>): Packing
    decreases |ms|
  {
    if ms == [] then p else AllPacked(codec, Packed(codec, p, ms[0]), ms[1..])
  }

  function Woken(codec: Codec, p: Packing, w: Wakeup): Packing {
    match w
    case Batch(ms) => AllPacked(codec, p, ms)
    case Timeout => Flushed(p)
  }

  function Flushed(p: Packing): Packing {
    if p.pending == [] then p else Sent(p)
  }

  function AfterAll(codec: Codec, p: Packing, ws: seq<Wakeup>): Packing
    decreases |ws|
  {
    if ws == [] then p else AfterAll(codec, Woken(codec, p, ws[0]), ws[1..])
  }

  const IDLE: Packing := Packing([], [])

  /** The messages that the loop popped. */
  function Popped(ws: seq<Wakeup>): seq<Message> {
    if ws == [] then [] else PoppedAt(ws[0]) + Popped(ws[1..])
  }

  function Sendable(codec: Codec, ms: seq<Message>): (r: seq<Message>) {
    if ms == [] then []
    else (if FitsAPacket(codec, ms[0]) then [ms[0]] else []) + Sendable(codec, ms[1..])
  }

  lemma {:induction false} SendableOfBoth(codec: Codec, a: seq<Message>, b: seq<Message>)
    ensures Sendable(codec, a + b) == Sendable(codec, a) + Sendable(codec, b)
  {
    if a == [] {
      assert a + b == b;
    } else {
      assert (a + b)[1..] == a[1..] + b;
      SendableOfBoth(codec, a[1..], b);
    }
  }

  function Flat(batches: seq<seq<Message>>): seq<Message> {
    if batches == [] then [] else Flat(batches[..|batches| - 1]) + batches[|batches| - 1]
  }

  /** Every message in a packet or in the buffer, in order. */
  function Contents(p: Packing): seq<Message> {
    Flat(p.sent) + p.pending
  }

  ghost predicate WithinPackets(codec: Codec, p: Packing) {
    && (forall i :: 0 <= i < |p.sent| ==> |EncodeAll(codec, p.sent[i])| <= CAPACITY)
    && |EncodeAll(codec, p.pending)| <= CAPACITY
  }

  lemma SentKeeps(p: Packing)
    ensures Contents(Sent(p)) == Contents(p)
  {}

  lemma EncodeAllOfOne(codec: Codec, ms: seq<Message>, m: Message)
    ensures EncodeAll(codec, ms + [m]) == EncodeAll(codec, ms) + Encode(codec, m)
    ensures EncodeAll(codec, [m]) == Encode(codec, m)
  {
    EncodeAllOfBoth(codec, ms, [m]);
    assert [m][1..] == [];
    assert EncodeAll(codec, []) == [];
    assert Encode(codec, m) + [] == Encode(codec, m);
  }

  lemma AddedKeeps(codec: Codec, p: Packing, m: Message)
    requires WithinPackets(codec, p) && |EncodeAll(codec, p.pending)| + |Encode(codec, m)| <= CAPACITY
    ensures WithinPackets(codec, p.(pending := p.pending + [m]))
    ensures Contents(p.(pending := p.pending + [m])) == Contents(p) + [m]
  {
    EncodeAllOfOne(codec, p.pending, m);
  }

  lemma PackedKeeps(codec: Codec, p: Packing, m: Message)
    requires WithinPackets(codec, p)
    ensures WithinPackets(codec, Packed(codec, p, m))
    ensures Contents(Packed(codec, p, m)) == Contents(p) + if FitsAPacket(codec, m) then [m] else []
  {
    if |EncodeAll(codec, p.pending)| + |Encode(codec, m)| <= CAPACITY {
      AddedKeeps(codec, p, m);
    } else {
      SentKeeps(p);
      SentWithin(codec, p);
      if FitsAPacket(codec, m) {
        AddedKeeps(codec, Sent(p), m);
      }
    }
  }

  lemma SentWithin(codec: Codec, p: Packing)
    requires WithinPackets(codec, p)
    ensures WithinPackets(codec, Sent(p)) && EncodeAll(codec, Sent(p).pending) == []
  {}

  lemma {:induction false} AllPackedKeeps(codec: Codec, p: Packing, ms: seq<Message>)
    requires WithinPackets(codec, p)
    ensures WithinPackets(codec, AllPacked(codec, p, ms))
    ensures Contents(AllPacked(codec, p, ms)) == Contents(p) + Sendable(codec, ms)
    decreases |ms|
  {
    if ms != [] {
      var q := Packed(codec, p, ms[0]);
      PackedKeeps(codec, p, ms[0]);
      AllPackedKeeps(codec, q, ms[1..]);
      Regroup(Contents(p), if FitsAPacket(codec, ms[0]) then [ms[0]] else [], Sendable(codec, ms[1..]));
    }
  }

  lemma Regroup(a: seq<Message>, b: seq<Message>, c: seq<Message>)
    ensures a + b + c == a + (b + c)
  {}

  /** The messages popped at one wakeup. */
  function PoppedAt(w: Wakeup): seq<Message> {
    match w
    case Batch(ms) => ms
    case Timeout => []
  }

  lemma WokenKeeps(codec: Codec, p: Packing, w: Wakeup)
    requires WithinPackets(codec, p)
    ensures WithinPackets(codec, Woken(codec, p, w))
    ensures Contents(Woken(codec, p, w)) == Contents(p) + Sendable(codec, PoppedAt(w))
  {
    match w
    case Batch(ms) => AllPackedKeeps(codec, p, ms);
    case Timeout =>
      SentKeeps(p);
      SentWithin(codec, p);
  }

  /** At every wakeup, the packets sent and the one pending hold exactly the messages popped
      so far that fit a packet, in the order they were popped, and no packet is too long. */
  lemma {:induction false} NothingLostOrReordered(codec: Codec, p: Packing, ws: seq<Wakeup>)
    requires WithinPackets(codec, p)
    ensures WithinPackets(codec, AfterAll(codec, p, ws))
    ensures Contents(AfterAll(codec, p, ws)) == Contents(p) + Sendable(codec, Popped(ws))
    decreases |ws|
  {
    if ws != [] {
      WokenKeeps(codec, p, ws[0]);
      NothingLostOrReordered(codec, Woken(codec, p, ws[0]), ws[1..]);
      SendableOfBoth(codec, PoppedAt(ws[0]), Popped(ws[1..]));
      Regroup(Contents(p), Sendable(codec, PoppedAt(ws[0])), Sendable(codec, Popped(ws[1..])));
    }
  }

  lemma {:induction false} BatchKeepsSent(codec: Codec, p: Packing, ms: seq<Message>)
    ensures p.sent <= AllPacked(codec, p, ms).sent
    decreases |ms|
  {
    if ms != [] {
      BatchKeepsSent(codec, Packed(codec, p, ms[0]), ms[1..]);
    }
  }

  /** The packets already sent are final, whatever comes. */
  lemma {:induction false} SentPacketsStay(codec: Codec, p: Packing, ws: seq<Wakeup>)
    ensures p.sent <= AfterAll(codec, p, ws).sent
    decreases |ws|
  {
    if ws != [] {
      if ws[0].Batch? {
        BatchKeepsSent(codec, p, ws[0].messages);
      }
      SentPacketsStay(codec, Woken(codec, p, ws[0]), ws[1..]);
    }
  }

  // ------------------------------------------------------------------ empty packets

  ghost predicate NoneEmpty(p: Packing) {
    forall i :: 0 <= i < |p.sent| ==> p.sent[i] != []
  }

  /** Each message that fits no packet finds one pending, because the message right before it
      fits, or because one is pending before the first. */
  predicate Shielded(codec: Codec, pending: bool, ms: seq<Message>)
    decreases |ms|
  {
    ms == [] || ((FitsAPacket(codec, ms[0]) || pending) && Shielded(codec, FitsAPacket(codec, ms[0]), ms[1..]))
  }

  /** Whether something is pending after the messages. */
  function PendingAfter(codec: Codec, pending: bool, ms: seq<Message>): bool {
    if ms == [] then pending else FitsAPacket(codec, ms[|ms| - 1])
  }

  /** The same over wakeups: a timeout leaves nothing pending. */
  predicate AllShielded(codec: Codec, pending: bool, ws: seq<Wakeup>)
    decreases |ws|
  {
    ws == []
    || (match ws[0]
        case Batch(ms) =>
          Shielded(codec, pending, ms) && AllShielded(codec, PendingAfter(codec, pending, ms), ws[1..])
        case Timeout => AllShielded(codec, false, ws[1..]))
  }

  lemma PackedEmpty(codec: Codec, p: Packing, m: Message)
    requires WithinPackets(codec, p)
    ensures NoneEmpty(Packed(codec, p, m)) <==> NoneEmpty(p) && (FitsAPacket(codec, m) || p.pending != [])
    ensures Packed(codec, p, m).pending != [] <==> FitsAPacket(codec, m)
  {
    assert EncodeAll(codec, []) == [];
    assert Sent(p).sent[|p.sent|] == p.pending;
    if NoneEmpty(Sent(p)) {
      forall i | 0 <= i < |p.sent| ensures p.sent[i] != [] {
        assert Sent(p).sent[i] == p.sent[i];
      }
    }
    assert FitsAPacket(codec, m) <== |EncodeAll(codec, p.pending)| + |Encode(codec, m)| <= CAPACITY;
  }

  lemma {:induction false} AllPackedEmpty(codec: Codec, p: Packing, ms: seq<Message>)
    requires WithinPackets(codec, p)
    ensures NoneEmpty(AllPacked(codec, p, ms)) <==> NoneEmpty(p) && Shielded(codec, p.pending != [], ms)
    ensures AllPacked(codec, p, ms).pending != [] <==> PendingAfter(codec, p.pending != [], ms)
    decreases |ms|
  {
    if ms != [] {
      PackedEmpty(codec, p, ms[0]);
      PackedKeeps(codec, p, ms[0]);
      AllPackedEmpty(codec, Packed(codec, p, ms[0]), ms[1..]);
    }
  }

  lemma FlushedEmpty(p: Packing)
    ensures NoneEmpty(Flushed(p)) <==> NoneEmpty(p)
    ensures Flushed(p).pending == []
  {
    if p.pending != [] && NoneEmpty(Flushed(p)) {
      forall i | 0 <= i < |p.sent| ensures p.sent[i] != [] {
        assert Flushed(p).sent[i] == p.sent[i];
      }
    }
  }

  /** In every run, no empty packet is sent if and only if each message that fits no packet
      finds a packet pending. */
  lemma {:induction false} NoEmptyPackets(codec: Codec, p: Packing, ws: seq<Wakeup>)
    requires WithinPackets(codec, p)
    ensures NoneEmpty(AfterAll(codec, p, ws)) <==> NoneEmpty(p) && AllShielded(codec, p.pending != [], ws)
    decreases |ws|
  {
    if ws != [] {
      var q := Woken(codec, p, ws[0]);
      WokenKeeps(codec, p, ws[0]);
      match ws[0] {
        case Batch(ms) => AllPackedEmpty(codec, p, ms);
        case Timeout => FlushedEmpty(p);
      }
      NoEmptyPackets(codec, q, ws[1..]);
    }
  }

  /** One message: if it fits no packet, an empty packet is sent; otherwise it is pending, and
      lost if the multicast sender is stopped then. */
  lemma OneMessage(codec: Codec, m: Message)
    ensures AfterAll(codec, IDLE, [Batch([m])]) == if FitsAPacket(codec, m) then Packing([], [m]) else Packing([[]], [])
  {
    assert EncodeAll(codec, []) == [];
    assert [m][1..] == [] && [Batch([m])][1..] == [];
    assert AllPacked(codec, IDLE, [m]) == AllPacked(codec, Packed(codec, IDLE, m), []);
    assert AfterAll(codec, IDLE, [Batch([m])]) == AfterAll(codec, AllPacked(codec, IDLE, [m]), []);
  }

  // ------------------------------------------------------------------ what is left pending

  lemma {:induction false} AfterOneMore(codec: Codec, p: Packing, ws: seq<Wakeup>, w: Wakeup)
    ensures AfterAll(codec, p, ws + [w]) == Woken(codec, AfterAll(codec, p, ws), w)
    decreases |ws|
  {
    if ws == [] {
      assert ws + [w] == [w] && [w][1..] == [];
    } else {
      assert (ws + [w])[1..] == ws[1..] + [w];
      AfterOneMore(codec, Woken(codec, p, ws[0]), ws[1..], w);
    }
  }

  /** Nothing was popped, a timeout followed the last message, or that fits no packet. */
  predicate LeavesNothing(codec: Codec, ws: seq<Wakeup>) {
    ws == []
    || (match ws[|ws| - 1]
        case Batch(ms) => if ms == [] then LeavesNothing(codec, ws[..|ws| - 1]) else !FitsAPacket(codec, ms[|ms| - 1])
        case Timeout => true)
  }

  lemma {:induction false} LeftPending(codec: Codec, ws: seq<Wakeup>)
    ensures AfterAll(codec, IDLE, ws).pending == [] <==> LeavesNothing(codec, ws)
  {
    if ws != [] {
      var front, last := ws[..|ws| - 1], ws[|ws| - 1];
      var p := AfterAll(codec, IDLE, front);
      LeftPending(codec, front);
      assert ws == front + [last];
      AfterOneMore(codec, IDLE, front, last);
      NothingLostOrReordered(codec, IDLE, front);
      match last {
        case Batch(ms) => AllPackedEmpty(codec, p, ms);
        case Timeout => FlushedEmpty(p);
      }
    }
  }

  // ------------------------------------------------------------------ full packets

  /** The batch after packet `i`. */
  function Following(p: Packing, i: nat): seq<Message>
    requires i < |p.sent|
  {
    if i + 1 < |p.sent| then p.sent[i + 1] else p.pending
  }

  ghost predicate NoRoom(codec: Codec, batch: seq<Message>, next: seq<Message>) {
    next != [] && CAPACITY < |EncodeAll(codec, batch)| + |Encode(codec, next[0])|
  }

  /** Packets that were sent, but for some, had no room for the first message of the next one. */
  ghost predicate IsTight(codec: Codec, p: Packing, but: set<nat>) {
    forall i :: 0 <= i < |p.sent| && i !in but ==> NoRoom(codec, p.sent[i], Following(p, i))
  }

  /** The packet sent for a message that fits none. */
  function Given(codec: Codec, p: Packing, m: Message): set<nat> {
    if FitsAPacket(codec, m) then {} else {|p.sent|}
  }

  function AllGiven(codec: Codec, p: Packing, ms: seq<Message>): set<nat>
    decreases |ms|
  {
    if ms == [] then {} else Given(codec, p, ms[0]) + AllGiven(codec, Packed(codec, p, ms[0]), ms[1..])
  }

  /** The packet sent after a second without messages. */
  function Unfilled(p: Packing): set<nat> {
    if p.pending == [] then {} else {|p.sent|}
  }

  /** The packets sent after a second without messages, or for a message that fits none. */
  function NotFilled(codec: Codec, p: Packing, ws: seq<Wakeup>): set<nat>
    decreases |ws|
  {
    if ws == [] then {} else
      (match ws[0]
       case Batch(ms) => AllGiven(codec, p, ms)
       case Timeout => Unfilled(p))
      + NotFilled(codec, Woken(codec, p, ws[0]), ws[1..])
  }

  lemma PackedTightly(codec: Codec, p: Packing, m: Message, but: set<nat>)
    requires IsTight(codec, p, but) && WithinPackets(codec, p)
    ensures IsTight(codec, Packed(codec, p, m), but + Given(codec, p, m))
  {
    var q := Packed(codec, p, m);
    assert EncodeAll(codec, []) == [];
    forall i | 0 <= i < |q.sent| && i !in but + Given(codec, p, m) ensures NoRoom(codec, q.sent[i], Following(q, i)) {
      if i < |p.sent| {
        assert NoRoom(codec, p.sent[i], Following(p, i));
      }
    }
  }

  lemma {:induction false} AllPackedTightly(codec: Codec, p: Packing, ms: seq<Message>, but: set<nat>)
    requires IsTight(codec, p, but) && WithinPackets(codec, p)
    ensures IsTight(codec, AllPacked(codec, p, ms), but + AllGiven(codec, p, ms))
    decreases |ms|
  {
    if ms == [] {
      assert but + {} == but;
    } else {
      var more := Given(codec, p, ms[0]);
      PackedTightly(codec, p, ms[0], but);
      PackedKeeps(codec, p, ms[0]);
      AllPackedTightly(codec, Packed(codec, p, ms[0]), ms[1..], but + more);
      assert but + more + AllGiven(codec, Packed(codec, p, ms[0]), ms[1..]) == but + AllGiven(codec, p, ms);
    }
  }

  lemma FlushedTightly(codec: Codec, p: Packing, but: set<nat>)
    requires IsTight(codec, p, but)
    ensures IsTight(codec, Flushed(p), but + Unfilled(p))
  {
    var q := Flushed(p);
    forall i | 0 <= i < |q.sent| && i !in but + Unfilled(p) ensures NoRoom(codec, q.sent[i], Following(q, i)) {
      assert NoRoom(codec, p.sent[i], Following(p, i));
    }
  }

  /** In every run packets are filled: those sent neither after a second without messages nor
      for a message that fits none had no room for the first message of the next packet. */
  lemma {:induction false} PacketsAreFilled(codec: Codec, p: Packing, ws: seq<Wakeup>, but: set<nat>)
    requires IsTight(codec, p, but) && WithinPackets(codec, p)
    ensures IsTight(codec, AfterAll(codec, p, ws), but + NotFilled(codec, p, ws))
    decreases |ws|
  {
    if ws == [] {
      assert but + {} == but;
    } else {
      var q := Woken(codec, p, ws[0]);
      var more := match ws[0] case Batch(ms) => AllGiven(codec, p, ms) case Timeout => Unfilled(p);
      match ws[0] {
        case Batch(ms) => AllPackedTightly(codec, p, ms, but);
        case Timeout => FlushedTightly(codec, p, but);
      }
      WokenKeeps(codec, p, ws[0]);
      PacketsAreFilled(codec, q, ws[1..], but + more);
      assert but + more + NotFilled(codec, q, ws[1..]) == but + NotFilled(codec, p, ws);
    }
  }

  lemma {:induction false} SendableFit(codec: Codec, ms: seq<Message>)
    ensures Sendable(codec, ms) == ms <==> forall m :: m in ms ==> FitsAPacket(codec, m)
    ensures |Sendable(codec, ms)| <= |ms|
  {
    if ms != [] {
      SendableFit(codec, ms[1..]);
      assert ms == [ms[0]] + ms[1..];
    }
  }

  // ------------------------------------------------------------------ to the receiver

  /** The payload a holder of `key` finds in an encrypted datagram. */
  function OpenedPayload(aead: Aead, key: Bytes, datagram: Bytes): Bytes {
    match Opened(aead, key, datagram)
    case Some(payload) => payload
    case None => []
  }

  /** Each datagram carries one batch to whoever reads it with `read`. */
  ghost predicate Carries(codec: Codec, read: Bytes -> Bytes, datagrams: seq<Bytes>, batches: seq<seq<Message>>) {
    && |datagrams| == |batches|
    && forall i :: 0 <= i < |datagrams| ==> CarriesOne(codec, read, datagrams[i], batches[i])
  }

  ghost predicate CarriesOne(codec: Codec, read: Bytes -> Bytes, datagram: Bytes, batch: seq<Message>) {
    && |datagram| == MIN_PACKET_LEN + |EncodeAll(codec, batch)|
    && read(datagram) == EncodeAll(codec, batch)
  }

  /** The messages that the receive loop reads from the datagrams, one after the other. */
  function Received(codec: Codec, read: Bytes -> Bytes, datagrams: seq<Bytes>): seq<Message> {
    if datagrams == [] then [] else
      Received(codec, read, datagrams[..|datagrams| - 1]) + DecodeAll(codec, read(datagrams[|datagrams| - 1]))
  }

  ghost predicate AllAccepted(ms: seq<Message>) {
    forall m :: m in ms ==> IsAccepted(m)
  }

  lemma AcceptedWhole(ms: seq<Message>)
    ensures |AcceptedPrefix(ms)| == |ms| <==> AllAccepted(ms)
    ensures AllAccepted(ms) ==> AcceptedPrefix(ms) == ms
  {}

  /** A receiver gets every message of every datagram if, and only if, it accepts them all. */
  lemma {:induction false} ReceivedWhole(codec: Codec, read: Bytes -> Bytes, datagrams: seq<Bytes>,
                                         batches: seq<seq<Message>>)
    requires codec.Lawful() && Carries(codec, read, datagrams, batches)
    ensures |Received(codec, read, datagrams)| <= |Flat(batches)|
    ensures |Received(codec, read, datagrams)| == |Flat(batches)| <==> AllAccepted(Flat(batches))
    ensures AllAccepted(Flat(batches)) ==> Received(codec, read, datagrams) == Flat(batches)
  {
    if datagrams != [] {
      var n := |datagrams| - 1;
      ReceivedWhole(codec, read, datagrams[..n], batches[..n]);
      assert CarriesOne(codec, read, datagrams[n], batches[n]);
      ReceiveLoop(codec, batches[n]);
      AcceptedWhole(batches[n]);
      assert AllAccepted(Flat(batches)) <==> AllAccepted(Flat(batches[..n])) && AllAccepted(batches[n]);
    }
  }

  /** From the queue of a sender that has flushed its last packet to the sinks of a receiver:
      exactly the popped messages that fit a packet arrive, in order, if and only if the
      receiver accepts them all; and no datagram is longer than a packet. */
  lemma SenderToReceiver(codec: Codec, read: Bytes -> Bytes, datagrams: seq<Bytes>, ws: seq<Wakeup>)
    requires codec.Lawful()
    requires Carries(codec, read, datagrams, Flushed(AfterAll(codec, IDLE, ws)).sent)
    ensures forall i :: 0 <= i < |datagrams| ==> |datagrams[i]| <= 1200
    ensures Received(codec, read, datagrams) == Sendable(codec, Popped(ws))
       <==> AllAccepted(Sendable(codec, Popped(ws)))
  {
    var batches := Flushed(AfterAll(codec, IDLE, ws)).sent;
    FlushedHasAll(codec, ws);
    ReceivedWhole(codec, read, datagrams, batches);
    forall i | 0 <= i < |datagrams| ensures |datagrams[i]| <= 1200 {
      assert CarriesOne(codec, read, datagrams[i], batches[i]);
    }
  }

  lemma FlushedHasAll(codec: Codec, ws: seq<Wakeup>)
    ensures var batches := Flushed(AfterAll(codec, IDLE, ws)).sent;
      && Flat(batches) == Sendable(codec, Popped(ws))
      && forall i :: 0 <= i < |batches| ==> |EncodeAll(codec, batches[i])| <= CAPACITY
  {
    var p := AfterAll(codec, IDLE, ws);
    AllHasAll(codec, ws);
    SentKeeps(p);
    assert Flat(Flushed(p).sent) == Contents(Flushed(p));
  }

  lemma CarriesOneMore(codec: Codec, read: Bytes -> Bytes, datagrams: seq<Bytes>, batches: seq<seq<Message>>,
                       datagram: Bytes, batch: seq<Message>)
    requires Carries(codec, read, datagrams, batches) && CarriesOne(codec, read, datagram, batch)
    ensures Carries(codec, read, datagrams + [datagram], batches + [batch])
  {}

  // ------------------------------------------------------------------ the loops

  class LoopbackSender {
    const codec: Codec
    /** The datagrams handed to the socket. */
    var handed: seq<Bytes>

    constructor (codec: Codec)
      ensures this.codec == codec && handed == []
    {
      this.codec := codec;
      handed := [];
    }

    method SendPacket(pkt: MessagePacket)
      requires pkt.Filling()
      modifies this`handed, pkt`position, pkt`payloadLength
      ensures pkt.Filling() && pkt.Payload() == []
      ensures exists datagram :: handed == old(handed) + [datagram]
                && |datagram| == MIN_PACKET_LEN + |old(pkt.Payload())| && PlainPayload(datagram) == old(pkt.Payload())
    {
      ghost var payload := pkt.Payload();
      var datagram := pkt.Datagram();
      assert |datagram| == MIN_PACKET_LEN + |payload|;
      assert datagram[NONCE_LEN..|datagram| - MAC_LEN] == payload;
      handed := handed + [datagram];
      pkt.Reset();
    }

    /** What was handed to the socket and what the packet holds are those of `p`. */
    ghost predicate Holds(pkt: MessagePacket, p: Packing)
      reads this, pkt, pkt.buf
    {
      && pkt.Filling() && pkt.buf.Length == PACKET_SIZE
      && Carries(codec, PlainPayload, handed, p.sent) && pkt.Payload() == EncodeAll(codec, p.pending)
    }

    method Send(pkt: MessagePacket, ghost p: Packing)
      requires Holds(pkt, p)
      modifies this`handed, pkt`position, pkt`payloadLength
      ensures Holds(pkt, Sent(p))
    {
      SendPacket(pkt);
      ghost var datagram := handed[|old(handed)|];
      CarriesOneMore(codec, PlainPayload, old(handed), p.sent, datagram, p.pending);
      assert EncodeAll(codec, []) == [];
    }

    method Pack(pkt: MessagePacket, msg: Message, ghost p: Packing)
      requires Holds(pkt, p)
      modifies this`handed, pkt`position, pkt`payloadLength, pkt.buf
      ensures Holds(pkt, Packed(codec, p, msg))
    {
      EncodeAllOfOne(codec, p.pending, msg);
      var added := pkt.Add(Encode(codec, msg));
      if !added {
        Send(pkt, p);
        assert EncodeAll(codec, []) == [];
        added := pkt.Add(Encode(codec, msg));
      }
    }

    /** The loop, which sends the pending packet when it is stopped. */
    method Run(wakeups: seq<Wakeup>)
      requires handed == []
      modifies this`handed
      ensures Carries(codec, PlainPayload, handed, Flushed(AfterAll(codec, IDLE, wakeups)).sent)
    {
      var buf := new bv8[PACKET_SIZE];
      var pkt := new MessagePacket(buf);
      ghost var p := IDLE;
      assert EncodeAll(codec, []) == [];
      for i := 0 to |wakeups|
        invariant fresh(pkt) && fresh(pkt.buf) && Holds(pkt, p)
        invariant AfterAll(codec, p, wakeups[i..]) == AfterAll(codec, IDLE, wakeups)
      {
        p := Wake(pkt, wakeups[i], p);
      }
      p := Flush(pkt, p);
    }

    method Flush(pkt: MessagePacket, ghost p: Packing) returns (ghost q: Packing)
      requires Holds(pkt, p)
      modifies this`handed, pkt`position, pkt`payloadLength
      ensures q == Flushed(p) && Holds(pkt, q)
    {
      q := Flushed(p);
      PendingIsPayload(codec, p.pending);
      if pkt.HasPayload() {
        Send(pkt, p);
      }
    }

    method Wake(pkt: MessagePacket, w: Wakeup, ghost p: Packing) returns (ghost q: Packing)
      requires Holds(pkt, p)
      modifies this`handed, pkt`position, pkt`payloadLength, pkt.buf
      ensures q == Woken(codec, p, w) && Holds(pkt, q)
    {
      match w
      case Batch(ms) =>
        q := p;
        for i := 0 to |ms|
          invariant Holds(pkt, q) && AllPacked(codec, q, ms[i..]) == AllPacked(codec, p, ms)
        {
          Pack(pkt, ms[i], q);
          q := Packed(codec, q, ms[i]);
          assert ms[i..][1..] == ms[i + 1..];
        }
      case Timeout =>
        q := Flush(pkt, p);
    }
  }

  class MulticastSender {
    const codec: Codec
    const aead: Aead
    const key: Bytes
    /** The nonce of each datagram. */
    const nonce: nat -> Bytes
    var handed: seq<Bytes>

    ghost predicate Valid() {
      aead.Lawful() && forall i :: |nonce(i)| == NONCE_LEN
    }

    constructor (codec: Codec, aead: Aead, key: Bytes, nonce: nat -> Bytes)
      requires aead.Lawful() && forall i :: |nonce(i)| == NONCE_LEN
      ensures Valid() && this.codec == codec && this.aead == aead && this.key == key && handed == []
    {
      this.codec, this.aead, this.key, this.nonce := codec, aead, key, nonce;
      handed := [];
    }

    /** Encrypts the packet in place and hands it over. */
    method SendPacket(pkt: MessagePacket)
      requires Valid() && pkt.Filling()
      modifies this`handed, pkt`position, pkt`payloadLength, pkt.buf
      ensures pkt.Filling() && pkt.Payload() == []
      ensures handed == old(handed) + [Sealed(aead, key, nonce(|old(handed)|), old(pkt.Payload()))]
    {
      pkt.Encrypt(aead, key, nonce(|handed|));
      handed := handed + [pkt.Datagram()];
      pkt.Reset();
    }

    ghost predicate Holds(pkt: MessagePacket, p: Packing)
      reads this, pkt, pkt.buf
    {
      && Valid() && pkt.Filling() && pkt.buf.Length == PACKET_SIZE
      && pkt.Payload() == EncodeAll(codec, p.pending)
      && Carries(codec, Reader(aead, key), handed, p.sent)
      && forall other :: aead.Distinguishes(key, other) ==> SaysNothing(Reader(aead, other), handed)
    }

    method Send(pkt: MessagePacket, ghost p: Packing)
      requires Holds(pkt, p)
      modifies this`handed, pkt`position, pkt`payloadLength, pkt.buf
      ensures Holds(pkt, Sent(p))
    {
      SendPacket(pkt);
      ghost var n := nonce(|old(handed)|);
      SealedCarries(codec, aead, key, n, p.pending);
      CarriesOneMore(codec, Reader(aead, key), old(handed), p.sent,
                     Sealed(aead, key, n, EncodeAll(codec, p.pending)), p.pending);
      assert EncodeAll(codec, []) == [];
    }

    method Pack(pkt: MessagePacket, msg: Message, ghost p: Packing)
      requires Holds(pkt, p)
      modifies this`handed, pkt`position, pkt`payloadLength, pkt.buf
      ensures Holds(pkt, Packed(codec, p, msg))
    {
      EncodeAllOfOne(codec, p.pending, msg);
      var added := pkt.Add(Encode(codec, msg));
      if !added {
        Send(pkt, p);
        assert EncodeAll(codec, []) == [];
        added := pkt.Add(Encode(codec, msg));
      }
    }

    /** The loop. A packet that is pending when it is stopped is not sent. */
    method Run(wakeups: seq<Wakeup>)
      requires Valid() && handed == []
      modifies this`handed
      ensures Carries(codec, Reader(aead, key), handed, AfterAll(codec, IDLE, wakeups).sent)
      ensures forall other :: aead.Distinguishes(key, other) ==> SaysNothing(Reader(aead, other), handed)
    {
      var buf := new bv8[PACKET_SIZE];
      var pkt := new MessagePacket(buf);
      ghost var p := IDLE;
      assert EncodeAll(codec, []) == [];
      for i := 0 to |wakeups|
        invariant fresh(pkt) && fresh(pkt.buf) && Holds(pkt, p)
        invariant AfterAll(codec, p, wakeups[i..]) == AfterAll(codec, IDLE, wakeups)
      {
        p := Wake(pkt, wakeups[i], p);
      }
    }

    method Wake(pkt: MessagePacket, w: Wakeup, ghost p: Packing) returns (ghost q: Packing)
      requires Holds(pkt, p)
      modifies this`handed, pkt`position, pkt`payloadLength, pkt.buf
      ensures q == Woken(codec, p, w) && Holds(pkt, q)
    {
      q := p;
      match w
      case Batch(ms) =>
        for i := 0 to |ms|
          invariant Holds(pkt, q) && AllPacked(codec, q, ms[i..]) == AllPacked(codec, p, ms)
        {
          Pack(pkt, ms[i], q);
          q := Packed(codec, q, ms[i]);
          assert ms[i..][1..] == ms[i + 1..];
        }
      case Timeout =>
        PendingIsPayload(codec, p.pending);
        if pkt.HasPayload() {
          Send(pkt, p);
          q := Sent(p);
        }
    }
  }

  function Reader(aead: Aead, key: Bytes): Bytes -> Bytes {
    d => OpenedPayload(aead, key, d)
  }

  ghost predicate SaysNothing(read: Bytes -> Bytes, datagrams: seq<Bytes>) {
    forall i :: 0 <= i < |datagrams| ==> read(datagrams[i]) == []
  }

  /** A datagram is read by the holders of its key and by nobody else. */
  lemma SealedCarries(codec: Codec, aead: Aead, key: Bytes, nonce: Bytes, batch: seq<Message>)
    requires aead.Lawful() && |nonce| == NONCE_LEN
    ensures CarriesOne(codec, Reader(aead, key), Sealed(aead, key, nonce, EncodeAll(codec, batch)), batch)
    ensures forall other :: aead.Distinguishes(key, other) ==>
      Reader(aead, other)(Sealed(aead, key, nonce, EncodeAll(codec, batch))) == []
  {}

  /** A stopped multicast sender has sent all but the packet it was filling. What was popped
      and fits arrives, in order, if and only if the receiver accepts all that was sent and
      nothing was left pending: nothing was popped since a timeout, or the last message popped
      fits no packet. */
  lemma MulticastToReceiver(codec: Codec, read: Bytes -> Bytes, datagrams: seq<Bytes>, ws: seq<Wakeup>)
    requires codec.Lawful()
    requires Carries(codec, read, datagrams, AfterAll(codec, IDLE, ws).sent)
    ensures forall i :: 0 <= i < |datagrams| ==> |datagrams[i]| <= 1200
    ensures Received(codec, read, datagrams) + AfterAll(codec, IDLE, ws).pending == Sendable(codec, Popped(ws))
       <==> AllAccepted(Flat(AfterAll(codec, IDLE, ws).sent))
    ensures Received(codec, read, datagrams) == Sendable(codec, Popped(ws))
       <==> AllAccepted(Flat(AfterAll(codec, IDLE, ws).sent)) && LeavesNothing(codec, ws)
  {
    var p := AfterAll(codec, IDLE, ws);
    AllHasAll(codec, ws);
    LeftPending(codec, ws);
    ReceivedWhole(codec, read, datagrams, p.sent);
    SameWithTail(Received(codec, read, datagrams), Flat(p.sent), p.pending);
    SameWithoutTail(Received(codec, read, datagrams), Flat(p.sent), p.pending);
    forall i | 0 <= i < |datagrams| ensures |datagrams[i]| <= 1200 {
      assert CarriesOne(codec, read, datagrams[i], p.sent[i]);
    }
  }

  lemma SameWithTail(a: seq<Message>, b: seq<Message>, tail: seq<Message>)
    ensures a + tail == b + tail <==> a == b
  {
    if a + tail == b + tail {
      assert |a| == |b| && a == (a + tail)[..|a|] && b == (b + tail)[..|b|];
    }
  }

  lemma SameWithoutTail(a: seq<Message>, b: seq<Message>, tail: seq<Message>)
    requires |a| <= |b|
    ensures a == b + tail <==> a == b && tail == []
  {}

  lemma AllHasAll(codec: Codec, ws: seq<Wakeup>)
    ensures var p := AfterAll(codec, IDLE, ws);
      && Flat(p.sent) + p.pending == Sendable(codec, Popped(ws))
      && WithinPackets(codec, p)
  {
    NothingLostOrReordered(codec, IDLE, ws);
    assert Contents(IDLE) == [];
  }

  lemma PendingIsPayload(codec: Codec, ms: seq<Message>)
    ensures EncodeAll(codec, ms) == [] <==> ms == []
  {}

  // ------------------------------------------------------------------ end to end

  const RECEIVE_SIZE: nat := 1500

  /** The loopback receiver: the messages of each datagram, until reading one fails. */
  method ReceiveAll(codec: Codec, datagrams: seq<Bytes>) returns (msgs: seq<Message>)
    requires forall i :: 0 <= i < |datagrams| ==> |datagrams[i]| <= RECEIVE_SIZE
    ensures msgs == Received(codec, PlainPayload, datagrams)
  {
    msgs := [];
    var buf := new bv8[RECEIVE_SIZE];
    for i := 0 to |datagrams|
      invariant msgs == Received(codec, PlainPayload, datagrams[..i])
    {
      var pkt := new MessagePacket(buf);
      var rc := pkt.Receive(datagrams[i]);
      assert datagrams[..i + 1][..i] == datagrams[..i];
      assert DecodeAll(codec, []) == [];
      if rc > 0 {
        var more := ReadMessages(codec, buf[NONCE_LEN..NONCE_LEN + pkt.payloadLength]);
        msgs := msgs + more;
      }
    }
    assert datagrams[..|datagrams|] == datagrams;
  }

  /** What a loopback sender sends, received: exactly the messages popped that fit a packet, in
      order, if and only if the receiver accepts each of them. */
  method SendAndReceive(codec: Codec, wakeups: seq<Wakeup>) returns (msgs: seq<Message>)
    requires codec.Lawful()
    ensures msgs == Sendable(codec, Popped(wakeups)) <==> AllAccepted(Sendable(codec, Popped(wakeups)))
  {
    var sender := new LoopbackSender(codec);
    sender.Run(wakeups);
    SenderToReceiver(codec, PlainPayload, sender.handed, wakeups);
    msgs := ReceiveAll(codec, sender.handed);
  }
}
