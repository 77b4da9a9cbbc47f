/** The side that asks for a multicast key. */
module KeyRequesters {
  import opened KeyExchange
  import opened Options

  datatype Phase = Initial | KXKeySent | IDSent | Success | Failure

  datatype Requester = Requester(
    me: Id, known: set<Id>, public: Bytes,
    phase: Phase, theirKX: Bytes, sharedKey: SharedKey, theirId: Id, mcastKey: Bytes)

  function NewRequester(me: Id, known: set<Id>, public: Bytes): Requester {
    Requester(me, known, public, Initial, [], {}, "", [])
  }

  /** The requester's own identity and its signature of the other side's public key. */
  function IdAndSignatureOf(r: Requester): Datagram {
    Sealed(r.sharedKey, IdAndSignature(r.me, Signed(r.me, r.theirKX)))
  }

  function KeyReceived(r: Requester, d: Datagram, misread: Option<Bytes>, canSend: bool): Outcome<Requester> {
    match ReadPublicKey(d, misread)
    case Some(theirs) =>
      var next := r.(theirKX := theirs, sharedKey := Shared(r.public, theirs));
      if canSend then Outcome(next.(phase := IDSent), [IdAndSignatureOf(next)], true)
      else Outcome(next.(phase := Failure), [], false)
    case None => Outcome(r.(phase := Failure), [], false)
  }

  /** The multicast key in a message signed by `id`, when the message is meant for this
      requester and the signer is known. */
  function KeyFrom(r: Requester, id: Id, signed: Signed): Option<Bytes> {
    match OpenSigned(id, signed)
    case Some(content) =>
      if id in r.known && |content| == |r.public| + KEY_SIZE && content[..|r.public|] == r.public
      then Some(content[|r.public|..]) else None
    case None => None
  }

  function AnswerReceived(r: Requester, d: Datagram): Outcome<Requester> {
    match Decrypt(r.sharedKey, d)
    case Some(IdAndSignature(id, signed)) =>
      (match KeyFrom(r, id, signed)
       case Some(key) => Outcome(r.(phase := Success, theirId := id, mcastKey := key), [], true)
       case None => Outcome(r.(phase := Failure, theirId := id), [], false))
    case Some(IdOnly(id)) => Outcome(r.(phase := Failure, theirId := id), [], false)
    case _ => Outcome(r.(phase := Failure), [], false)
  }

  function PacketProcessed(r: Requester, d: Datagram, misread: Option<Bytes>, canSend: bool): Outcome<Requester> {
    match r.phase
    case KXKeySent => KeyReceived(r, d, misread, canSend)
    case IDSent => AnswerReceived(r, d)
    case Success => Outcome(r, [], true)
    case _ => Outcome(r, [], false)
  }

  /** The first datagram: a key makes the shared key, and is answered with the requester's
      identity and its signature of that key. */
  lemma KeyAnswered(r: Requester, d: Datagram, misread: Option<Bytes>, canSend: bool)
    requires r.phase.KXKeySent?
    ensures PacketProcessed(r, d, misread, canSend)
         == match (if d.PublicKey? then Some(d.key) else misread)
            case None => Outcome(r.(phase := Failure), [], false)
            case Some(key) =>
              Outcome(r.(theirKX := key, sharedKey := {r.public, key}, phase := if canSend then IDSent else Failure),
                      if canSend then [Sealed({r.public, key}, IdAndSignature(r.me, Signed(r.me, key)))] else [],
                      canSend)
  {}

  /** The second datagram: the request succeeds exactly on what a known identity has signed, for
      this requester and of the right size, under the shared key. */
  lemma AnswerTaken(r: Requester, d: Datagram, misread: Option<Bytes>, canSend: bool)
    requires r.phase.IDSent?
    ensures var o, n := PacketProcessed(r, d, misread, canSend), |r.public|;
      if d.Sealed? && d.secret == r.sharedKey && d.payload.IdAndSignature? && d.payload.id in r.known
         && d.payload.signed.signer == d.payload.id
         && |d.payload.signed.content| == n + 32 && d.payload.signed.content[..n] == r.public
      then o == Outcome(r.(phase := Success, theirId := d.payload.id, mcastKey := d.payload.signed.content[n..]), [], true)
      else o.state.phase == Failure && o.sent == [] && !o.rc
  {}

  function Rank(p: Phase): nat {
    match p
    case Initial => 0
    case KXKeySent => 1
    case IDSent => 2
    case Success => 3
    case Failure => 3
  }

  predicate IsOver(p: Phase) {
    p.Success? || p.Failure?
  }

  /** A packet takes the requester to a later state, or leaves it as it is once it is over (or
      not yet begun); exactly the packets that are answered with true go on. */
  lemma RequesterAdvances(r: Requester, d: Datagram, misread: Option<Bytes>, canSend: bool)
    ensures var o := PacketProcessed(r, d, misread, canSend);
      && (o.state == r <==> Rank(o.state.phase) <= Rank(r.phase))
      && (o.state == r <==> IsOver(r.phase) || r.phase.Initial?)
      && (o.rc <==> o.state.phase.IDSent? || o.state.phase.Success?)
      && (o.sent != [] <==> r.phase.KXKeySent? && o.state.phase.IDSent?)
  {}

  // ------------------------------------------------------------------ asking for the key

  /** What a second of waiting for the socket brings. */
  datatype Event = Timeout | NoData | Packet(datagram: Datagram, misread: Option<Bytes>, canSend: bool)

  datatype Drive = Drive(requester: Requester, sent: seq<Datagram>, processed: nat)

  /** The loop of `GetKey`, which ends when the requester is over, when a packet is refused,
      or when none comes for a second. */
  function Driven(r: Requester, events: seq<Event>): Drive
    decreases |events|
  {
    if IsOver(r.phase) || events == [] || events[0].Timeout? then
      Drive(r, [], 0)
    else if events[0].NoData? then
      Driven(r, events[1..])
    else
      var o := PacketProcessed(r, events[0].datagram, events[0].misread, events[0].canSend);
      var d := if o.rc then Driven(o.state, events[1..]) else Drive(o.state, [], 0);
      Drive(d.requester, o.sent + d.sent, d.processed + 1)
  }

  /** A second without a packet ends the waiting; an empty receive does not; a packet that is
      refused does. */
  lemma WaitingEnds(r: Requester, events: seq<Event>)
    requires !IsOver(r.phase)
    ensures Driven(r, [Timeout] + events) == Drive(r, [], 0)
    ensures Driven(r, [NoData] + events) == Driven(r, events)
    ensures forall d, misread, canSend :: !PacketProcessed(r, d, misread, canSend).rc ==>
      Driven(r, [Packet(d, misread, canSend)] + events).requester == PacketProcessed(r, d, misread, canSend).state
  {
    assert ([NoData] + events)[1..] == events;
  }

  /** A requester that is successful has a key of the right size. */
  predicate HasItsKey(r: Requester) {
    if r.phase.Success? then |r.mcastKey| == KEY_SIZE else r.mcastKey == []
  }

  lemma PacketKeepsKey(r: Requester, d: Datagram, misread: Option<Bytes>, canSend: bool)
    requires HasItsKey(r)
    ensures HasItsKey(PacketProcessed(r, d, misread, canSend).state)
  {}

  /** However many packets come, a request processes two at most and sends at most one, and
      it ends with a key if and only if it ends in success. */
  lemma {:induction false} TwoPacketsAtMost(r: Requester, events: seq<Event>)
    requires HasItsKey(r) && !r.phase.Initial?
    ensures var d := Driven(r, events);
      && HasItsKey(d.requester)
      && Rank(r.phase) + d.processed <= 3
      && |d.sent| <= (if r.phase.KXKeySent? then 1 else 0)
      && (d.requester.phase.Success? ==> d.processed == 3 - Rank(r.phase))
      && (d.requester.phase.Success? && r.phase.KXKeySent? ==> |d.sent| == 1)
    decreases |events|
  {
    if !IsOver(r.phase) && events != [] && !events[0].Timeout? {
      if events[0].NoData? {
        TwoPacketsAtMost(r, events[1..]);
      } else {
        var o := PacketProcessed(r, events[0].datagram, events[0].misread, events[0].canSend);
        RequesterAdvances(r, events[0].datagram, events[0].misread, events[0].canSend);
        PacketKeepsKey(r, events[0].datagram, events[0].misread, events[0].canSend);
        if o.rc {
          TwoPacketsAtMost(o.state, events[1..]);
        }
      }
    }
  }

  // ------------------------------------------------------------------ in place

  class KeyRequesterState {
    const me: Id
    const known: set<Id>
    const public: Bytes
    var phase: Phase
    var theirKX: Bytes
    var sharedKey: SharedKey
    var theirId: Id
    var mcastKey: Bytes

    constructor (me: Id, known: set<Id>, public: Bytes)
      ensures View() == NewRequester(me, known, public)
    {
      this.me, this.known, this.public := me, known, public;
      phase, theirKX, sharedKey, theirId, mcastKey := Initial, [], {}, "", [];
    }

    function View(): Requester
      reads this
    {
      Requester(me, known, public, phase, theirKX, sharedKey, theirId, mcastKey)
    }

    method ChangeState(next: Phase)
      modifies this`phase
      ensures phase == next
    {
      phase := next;
    }

    method SendIdAndSig(canSend: bool) returns (rc: bool, sent: seq<Datagram>)
      ensures rc == canSend && sent == if canSend then [IdAndSignatureOf(View())] else []
    {
      var pkt := IdAndSignature(me, Signed(me, theirKX));
      rc, sent := canSend, if canSend then [Sealed(sharedKey, pkt)] else [];
    }

    method KXKeySent(d: Datagram, misread: Option<Bytes>, canSend: bool) returns (rc: bool, sent: seq<Datagram>)
      modifies this
      ensures Outcome(View(), sent, rc) == KeyReceived(old(View()), d, misread, canSend)
    {
      rc, sent := false, [];
      match ReadPublicKey(d, misread) {
        case Some(theirs) =>
          theirKX := theirs;
          sharedKey := Shared(public, theirKX);
          rc, sent := SendIdAndSig(canSend);
          if rc {
            ChangeState(Phase.IDSent);
          } else {
            ChangeState(Phase.Failure);
          }
        case None =>
          ChangeState(Phase.Failure);
      }
    }

    method IsValidUser(id: Id, signed: Signed) returns (rc: bool)
      modifies this`mcastKey
      ensures rc <==> KeyFrom(old(View()), id, signed).Some?
      ensures mcastKey == if rc then KeyFrom(old(View()), id, signed).value else old(mcastKey)
    {
      rc := false;
      if id in known {
        match OpenSigned(id, signed)
        case Some(content) =>
          if |content| == |public| + KEY_SIZE && content[..|public|] == public {
            mcastKey, rc := content[|public|..], true;
          }
        case None =>
      }
    }

    method IDSent(d: Datagram) returns (rc: bool)
      modifies this
      ensures Outcome(View(), [], rc) == AnswerReceived(old(View()), d)
    {
      rc := false;
      match Decrypt(sharedKey, d)
      case Some(payload) =>
        if !payload.Nothing? {
          theirId := payload.id;
        }
        if payload.IdAndSignature? {
          rc := IsValidUser(theirId, payload.signed);
        }
        ChangeState(if rc then Phase.Success else Phase.Failure);
      case None =>
        ChangeState(Phase.Failure);
    }

    method ProcessPacket(d: Datagram, misread: Option<Bytes>, canSend: bool) returns (rc: bool, sent: seq<Datagram>)
      modifies this
      ensures Outcome(View(), sent, rc) == PacketProcessed(old(View()), d, misread, canSend)
    {
      rc, sent := false, [];
      match phase
      case KXKeySent => rc, sent := KXKeySent(d, misread, canSend);
      case IDSent => rc := IDSent(d);
      case Success => rc := true;
      case _ =>
    }
  }

  /** Sends the public key and waits for answers; the key is empty unless the request
      succeeded. */
  method GetKey(state: KeyRequesterState, canSend: bool, events: seq<Event>)
      returns (key: Bytes, sent: seq<Datagram>, processed: nat)
    requires state.phase.Initial? && state.mcastKey == []
    modifies state
    ensures key != [] <==> state.phase.Success?
    ensures key == state.mcastKey && processed <= 2
    ensures canSend ==>
      var d := Driven(old(state.View()).(phase := Phase.KXKeySent), events);
      state.View() == d.requester && sent == [PublicKey(state.public)] + d.sent && processed == d.processed
    ensures !canSend ==> sent == [] && state.phase.Initial?
  {
    key, sent, processed := [], [], 0;
    if canSend {
      state.ChangeState(Phase.KXKeySent);
      TwoPacketsAtMost(state.View(), events);
      sent, processed := WaitForAnswers(state, events);
      sent := [PublicKey(state.public)] + sent;
      if state.phase == Phase.Success {
        key := state.mcastKey;
      }
    }
  }

  method WaitForAnswers(state: KeyRequesterState, events: seq<Event>) returns (sent: seq<Datagram>, processed: nat)
    modifies state
    ensures Drive(state.View(), sent, processed) == Driven(old(state.View()), events)
  {
    sent, processed := [], 0;
    var rest := events;
    while state.phase != Phase.Success && state.phase != Phase.Failure && rest != [] && !rest[0].Timeout?
      invariant Driven(old(state.View()), events) == Joined(sent, processed, Driven(state.View(), rest))
      decreases |rest|
    {
      if rest[0].Packet? {
        DrivenOn(state.View(), rest, sent, processed);
        var ok, more := state.ProcessPacket(rest[0].datagram, rest[0].misread, rest[0].canSend);
        sent, processed := sent + more, processed + 1;
        if !ok {
          break;
        }
      }
      rest := rest[1..];
    }
  }

  /** The first packet's part of what the loop does. */
  lemma DrivenOn(r: Requester, events: seq<Event>, sent: seq<Datagram>, processed: nat)
    requires !IsOver(r.phase) && events != [] && events[0].Packet?
    ensures var o := PacketProcessed(r, events[0].datagram, events[0].misread, events[0].canSend);
      Joined(sent, processed, Driven(r, events))
      == if o.rc then Joined(sent + o.sent, processed + 1, Driven(o.state, events[1..]))
         else Drive(o.state, sent + o.sent, processed + 1)
  {}

  function Joined(sent: seq<Datagram>, processed: nat, d: Drive): Drive {
    Drive(d.requester, sent + d.sent, processed + d.processed)
  }
}
