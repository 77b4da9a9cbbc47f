/** The side that hands out a multicast key: a session for each endpoint that asks. */
module KeyRequestListeners {
  import opened KeyExchange
  import opened Options

  /** Whoever runs a listener, and what it knows. */
  datatype Host = Host(me: Id, known: set<Id>, mcastKey: Bytes)

  datatype Stage = Initial | KXKeySent | IDSent | Failure

  datatype Session = Session(
    public: Bytes, stage: Stage, changed: int, theirKX: Bytes, sharedKey: SharedKey, theirId: Id)

  function NewSession(public: Bytes, now: int): Session {
    Session(public, Initial, now, [], {}, "")
  }

  function Changed(s: Session, stage: Stage, now: int): Session {
    s.(stage := stage, changed := now)
  }

  function KeyReceived(s: Session, d: Datagram, misread: Option<Bytes>, canSend: bool, now: int): Outcome<Session> {
    match ReadPublicKey(d, misread)
    case Some(theirs) =>
      var next := s.(theirKX := theirs);
      if |theirs| != KEY_SIZE then Outcome(Changed(next, Failure, now), [], false)
      else
        var keyed := next.(sharedKey := Shared(s.public, theirs));
        if canSend then Outcome(Changed(keyed, KXKeySent, now), [PublicKey(s.public)], true)
        else Outcome(Changed(keyed, Failure, now), [], false)
    case None => Outcome(Changed(s, Failure, now), [], false)
  }

  /** A known identity has signed this session's public key. */
  predicate IsValidUser(host: Host, s: Session, id: Id, signed: Signed) {
    id in host.known && OpenSigned(id, signed) == Some(s.public)
  }

  /** The host's identity, and its signature of the other side's public key and the
      multicast key. */
  function Answer(host: Host, s: Session): Datagram {
    Sealed(s.sharedKey, IdAndSignature(host.me, Signed(host.me, s.theirKX + host.mcastKey)))
  }

  /** A packet that does not decrypt or does not read leaves the session as it was, so another
      may follow; one that is too short or not validly signed ends it. */
  function UserReceived(host: Host, s: Session, d: Datagram, canSend: bool, now: int): Outcome<Session> {
    if IsShort(d) then Outcome(Changed(s, Failure, now), [], false)
    else match Decrypt(s.sharedKey, d)
      case Some(IdAndSignature(id, signed)) =>
        var next := s.(theirId := id);
        if !IsValidUser(host, s, id, signed) then Outcome(Changed(next, Failure, now), [], false)
        else if canSend then Outcome(Changed(next, IDSent, now), [Answer(host, s)], true)
        else Outcome(next, [], false)
      case Some(IdOnly(id)) => Outcome(s.(theirId := id), [], false)
      case _ => Outcome(s, [], false)
  }

  function PacketProcessed(host: Host, s: Session, d: Datagram, misread: Option<Bytes>, canSend: bool, now: int)
      : Outcome<Session>
  {
    match s.stage
    case Initial => KeyReceived(s, d, misread, canSend, now)
    case KXKeySent => UserReceived(host, s, d, canSend, now)
    case _ => Outcome(s, [], false)
  }

  function Rank(s: Stage): nat {
    match s
    case Initial => 0
    case KXKeySent => 1
    case IDSent => 2
    case Failure => 2
  }

  /** A packet takes a session to a later stage or leaves it there; the stages `IDSent` and
      `Failure` are final. The result is true, and something is sent, exactly when a stage is
      reached that is not `Failure`. */
  lemma SessionAdvances(host: Host, s: Session, d: Datagram, misread: Option<Bytes>, canSend: bool, now: int)
    ensures var o := PacketProcessed(host, s, d, misread, canSend, now);
      && (o.state.stage == s.stage || Rank(s.stage) < Rank(o.state.stage))
      && (s.stage.Initial? ==> o.state.stage != s.stage)
      && (s.stage.IDSent? || s.stage.Failure? ==> o.state == s)
      && (o.rc <==> o.state.stage != s.stage && !o.state.stage.Failure?)
      && (o.rc <==> o.sent != [])
      && o.state.public == s.public
      && o.state.changed == if o.state.stage == s.stage then s.changed else now
  {}

  // ------------------------------------------------------------------ the listener

  type Endpoint = nat

  datatype Listener = Listener(host: Host, clients: map<Endpoint, Session>, done: seq<(Endpoint, Session)>)

  /** The session of an endpoint, or a new one. */
  function SessionOf(l: Listener, e: Endpoint, newKey: Bytes, now: int): Session {
    if e in l.clients then l.clients[e] else NewSession(newKey, now)
  }

  /** One packet: a session that has succeeded moves to those that are done. */
  function Heard(l: Listener, e: Endpoint, newKey: Bytes, d: Datagram, misread: Option<Bytes>, canSend: bool, now: int)
      : Outcome<Listener>
  {
    var o := PacketProcessed(l.host, SessionOf(l, e, newKey, now), d, misread, canSend, now);
    if o.rc && o.state.stage.IDSent? then
      Outcome(l.(clients := l.clients - {e}, done := l.done + [(e, o.state)]), o.sent, o.rc)
    else
      Outcome(l.(clients := l.clients[e := o.state]), o.sent, o.rc)
  }

  predicate IsExpired(s: Session, now: int) {
    s.changed < now - 5
  }

  function Unexpired(done: seq<(Endpoint, Session)>, now: int): seq<(Endpoint, Session)> {
    if done == [] then [] else
      (if IsExpired(done[0].1, now) then [] else [done[0]]) + Unexpired(done[1..], now)
  }

  function ExpiredCleared(l: Listener, now: int): Listener {
    l.(done := Unexpired(l.done, now), clients := map e | e in l.clients && !IsExpired(l.clients[e], now) :: l.clients[e])
  }

  lemma {:induction false} UnexpiredAreRecent(done: seq<(Endpoint, Session)>, now: int)
    ensures forall x :: x in Unexpired(done, now) <==> x in done && !IsExpired(x.1, now)
  {
    if done != [] {
      UnexpiredAreRecent(done[1..], now);
      assert done == [done[0]] + done[1..];
    }
  }

  /** Exactly the sessions whose stage changed within the last five seconds are left. */
  lemma OnlyRecentLeft(l: Listener, now: int)
    ensures var m := ExpiredCleared(l, now);
      && (forall e :: e in m.clients <==> e in l.clients && now - 5 <= l.clients[e].changed)
      && (forall e :: e in m.clients ==> m.clients[e] == l.clients[e])
      && (forall x :: x in m.done <==> x in l.done && now - 5 <= x.1.changed)
  {
    UnexpiredAreRecent(l.done, now);
  }

  // ------------------------------------------------------------------ in place

  class KeyRequestClientState {
    const host: Host
    const public: Bytes
    var stage: Stage
    var changed: int
    var theirKX: Bytes
    var sharedKey: SharedKey
    var theirId: Id

    constructor (host: Host, session: Session)
      ensures this.host == host && View() == session
    {
      this.host, public, stage, changed := host, session.public, session.stage, session.changed;
      theirKX, sharedKey, theirId := session.theirKX, session.sharedKey, session.theirId;
    }

    function View(): Session
      reads this
    {
      Session(public, stage, changed, theirKX, sharedKey, theirId)
    }

    method ChangeState(next: Stage, now: int)
      modifies this`stage, this`changed
      ensures stage == next && changed == now
    {
      stage, changed := next, now;
    }

    method InitialPacket(d: Datagram, misread: Option<Bytes>, canSend: bool, now: int)
        returns (rc: bool, sent: seq<Datagram>)
      modifies this
      ensures Outcome(View(), sent, rc) == KeyReceived(old(View()), d, misread, canSend, now)
    {
      rc, sent := false, [];
      match ReadPublicKey(d, misread)
      case Some(theirs) =>
        theirKX := theirs;
        if |theirKX| == KEY_SIZE {
          sharedKey := Shared(public, theirKX);
          if canSend {
            rc, sent := true, [PublicKey(public)];
            ChangeState(Stage.KXKeySent, now);
          } else {
            ChangeState(Stage.Failure, now);
          }
        } else {
          ChangeState(Stage.Failure, now);
        }
      case None =>
        ChangeState(Stage.Failure, now);
    }

    method SendIdAndSig(canSend: bool) returns (rc: bool, sent: seq<Datagram>)
      ensures rc == canSend && sent == if canSend then [Answer(host, View())] else []
    {
      var pkt := IdAndSignature(host.me, Signed(host.me, theirKX + host.mcastKey));
      rc, sent := canSend, if canSend then [Sealed(sharedKey, pkt)] else [];
    }

    method KXKeySentPacket(d: Datagram, canSend: bool, now: int) returns (rc: bool, sent: seq<Datagram>)
      modifies this
      ensures Outcome(View(), sent, rc) == UserReceived(host, old(View()), d, canSend, now)
    {
      rc, sent := false, [];
      if IsShort(d) {
        ChangeState(Stage.Failure, now);
        return;
      }
      match Decrypt(sharedKey, d)
      case Some(IdAndSignature(id, signed)) =>
        theirId := id;
        if IsValidUser(host, View(), theirId, signed) {
          rc, sent := SendIdAndSig(canSend);
          if rc {
            ChangeState(Stage.IDSent, now);
          }
        } else {
          ChangeState(Stage.Failure, now);
        }
      case Some(IdOnly(id)) =>
        theirId := id;
      case _ =>
    }

    method ProcessPacket(d: Datagram, misread: Option<Bytes>, canSend: bool, now: int)
        returns (rc: bool, sent: seq<Datagram>)
      modifies this
      ensures Outcome(View(), sent, rc) == PacketProcessed(host, old(View()), d, misread, canSend, now)
    {
      rc, sent := false, [];
      match stage
      case Initial => rc, sent := InitialPacket(d, misread, canSend, now);
      case KXKeySent => rc, sent := KXKeySentPacket(d, canSend, now);
      case _ =>
    }
  }

  /** A packet that `Run` receives, with the public key that a new session would have. */
  datatype Arrival = Arrival(
    from: Endpoint, newKey: Bytes, datagram: Datagram, misread: Option<Bytes>, canSend: bool, at: int)

  /** What one `select` reports: a packet on each of the two sockets, or none; and the time
      when expired sessions are cleared. */
  datatype Round = Round(first: Option<Arrival>, second: Option<Arrival>, end: int)

  function Arrived(l: Listener, a: Option<Arrival>): (Listener, seq<Datagram>) {
    match a
    case Some(a) =>
      var o := Heard(l, a.from, a.newKey, a.datagram, a.misread, a.canSend, a.at);
      (o.state, o.sent)
    case None => (l, [])
  }

  function RoundDone(l: Listener, r: Round): (Listener, seq<Datagram>) {
    var (l1, sent1) := Arrived(l, r.first);
    var (l2, sent2) := Arrived(l1, r.second);
    (ExpiredCleared(l2, r.end), sent1 + sent2)
  }

  function AllRounds(l: Listener, rounds: seq<Round>): (Listener, seq<Datagram>) {
    if rounds == [] then (l, []) else
      var (before, sent) := AllRounds(l, rounds[..|rounds| - 1]);
      var (after, more) := RoundDone(before, rounds[|rounds| - 1]);
      (after, sent + more)
  }

  method EraseExpired(done: seq<(Endpoint, Session)>, now: int) returns (left: seq<(Endpoint, Session)>)
    ensures left == Unexpired(done, now)
  {
    left := [];
    var rest := done;
    while rest != []
      invariant Unexpired(done, now) == left + Unexpired(rest, now)
    {
      if !IsExpired(rest[0].1, now) {
        left := left + [rest[0]];
      }
      rest := rest[1..];
    }
  }

  class KeyRequestListener {
    const host: Host
    var clients: map<Endpoint, Session>
    var clientsDone: seq<(Endpoint, Session)>

    constructor (host: Host)
      requires |host.mcastKey| == KEY_SIZE
      ensures View() == Listener(host, map[], [])
    {
      this.host, clients, clientsDone := host, map[], [];
    }

    function View(): Listener
      reads this
    {
      Listener(host, clients, clientsDone)
    }

    method ClearExpired(now: int)
      modifies this
      ensures View() == ExpiredCleared(old(View()), now)
    {
      clientsDone := EraseExpired(clientsDone, now);
      clients := map e | e in clients && !IsExpired(clients[e], now) :: clients[e];
      assert clients == ExpiredCleared(old(View()), now).clients;
    }

    method Receive(a: Arrival) returns (sent: seq<Datagram>)
      modifies this
      ensures (View(), sent) == Arrived(old(View()), Some(a))
    {
      if a.from !in clients {
        clients := clients[a.from := NewSession(a.newKey, a.at)];
      }
      var client := new KeyRequestClientState(host, clients[a.from]);
      var rc;
      rc, sent := client.ProcessPacket(a.datagram, a.misread, a.canSend, a.at);
      clients := clients[a.from := client.View()];
      if rc && client.stage == Stage.IDSent {
        clientsDone := clientsDone + [(a.from, client.View())];
        clients := clients - {a.from};
      }
      assert clients == Arrived(old(View()), Some(a)).0.clients;
    }

    /** The listener's loop. */
    method Run(rounds: seq<Round>) returns (sent: seq<Datagram>)
      modifies this
      ensures (View(), sent) == AllRounds(old(View()), rounds)
    {
      sent := [];
      for i := 0 to |rounds|
        invariant (View(), sent) == AllRounds(old(View()), rounds[..i])
      {
        var more := RunOnce(rounds[i]);
        sent := sent + more;
        assert rounds[..i + 1][..i] == rounds[..i];
      }
      assert rounds[..|rounds|] == rounds;
    }

    method RunOnce(r: Round) returns (sent: seq<Datagram>)
      modifies this
      ensures (View(), sent) == RoundDone(old(View()), r)
    {
      var more := [];
      sent := [];
      if r.first.Some? {
        sent := Receive(r.first.value);
      }
      assert (View(), sent) == Arrived(old(View()), r.first);
      if r.second.Some? {
        more := Receive(r.second.value);
      }
      sent := sent + more;
      ClearExpired(r.end);
    }
  }
}
