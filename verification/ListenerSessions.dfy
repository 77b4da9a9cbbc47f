/** What each datagram does to an endpoint's session, and what a session withstands. */
module ListenerSessions {
  import opened KeyExchange
  import opened KeyRequestListeners
  import opened Options

  /** The first datagram of an endpoint makes a session: it is answered with the session's
      public key if it reads as a key of 32 bytes and the answer can be sent, and has failed
      otherwise. */
  lemma FirstDatagram(l: Listener, e: Endpoint, newKey: Bytes, d: Datagram, misread: Option<Bytes>, canSend: bool, now: int)
    requires e !in l.clients
    ensures var o := Heard(l, e, newKey, d, misread, canSend, now);
      && o.state.done == l.done && o.state.host == l.host && o.state.clients.Keys == l.clients.Keys + {e}
      && match (if d.PublicKey? then Some(d.key) else misread)
         case None => o.sent == [] && o.state.clients[e] == Session(newKey, Failure, now, [], {}, "")
         case Some(key) =>
           if |key| == 32 then
             o.state.clients[e] == Session(newKey, if canSend then KXKeySent else Failure, now, key, {newKey, key}, "")
             && o.sent == if canSend then [PublicKey(newKey)] else []
           else o.sent == [] && o.state.clients[e] == Session(newKey, Failure, now, key, {}, "")
  {}

  /** A datagram of 40 bytes or more that does not open under the session's key. */
  predicate IsStray(x: Session, d: Datagram) {
    match d
    case PublicKey(key) => |key| >= 39
    case Sealed(secret, payload) => secret != x.sharedKey || payload.Nothing?
  }

  predicate IsOpen(l: Listener, e: Endpoint) {
    e in l.clients && l.clients[e].stage.KXKeySent?
  }

  /** It changes nothing and is not answered. */
  lemma StrayIgnored(l: Listener, e: Endpoint, newKey: Bytes, d: Datagram, misread: Option<Bytes>, canSend: bool, now: int)
    requires IsOpen(l, e) && IsStray(l.clients[e], d)
    ensures Heard(l, e, newKey, d, misread, canSend, now) == Outcome(l, [], false)
  {
    assert l.clients[e := l.clients[e]] == l.clients;
  }

  /** A datagram of less than 40 bytes ends the session. */
  lemma ShortDatagram(l: Listener, e: Endpoint, newKey: Bytes, key: Bytes, misread: Option<Bytes>, canSend: bool, now: int)
    requires IsOpen(l, e) && |key| < 39
    ensures Heard(l, e, newKey, PublicKey(key), misread, canSend, now)
         == Outcome(l.(clients := l.clients[e := l.clients[e].(stage := Failure, changed := now)]), [], false)
  {}

  /** An identity without signature is noted, and another datagram may follow. */
  lemma IdentityOnly(l: Listener, e: Endpoint, newKey: Bytes, id: Id, misread: Option<Bytes>, canSend: bool, now: int)
    requires IsOpen(l, e)
    ensures Heard(l, e, newKey, Sealed(l.clients[e].sharedKey, IdOnly(id)), misread, canSend, now)
         == Outcome(l.(clients := l.clients[e := l.clients[e].(theirId := id)]), [], false)
  {}

  /** A signed identity ends the session unless a known identity has signed the session's public
      key; then it is answered with the host's identity and its signature of the other side's
      public key and the multicast key, and the session is done, unless the answer cannot be
      sent: then another datagram may follow. */
  lemma SignedIdentity(l: Listener, e: Endpoint, newKey: Bytes, id: Id, signed: Signed, misread: Option<Bytes>,
                       canSend: bool, now: int)
    requires IsOpen(l, e)
    ensures var x, host := l.clients[e], l.host;
      var o := Heard(l, e, newKey, Sealed(x.sharedKey, IdAndSignature(id, signed)), misread, canSend, now);
      if id !in host.known || signed != Signed(id, x.public) then
        o == Outcome(l.(clients := l.clients[e := x.(theirId := id, stage := Failure, changed := now)]), [], false)
      else if canSend then
        o == Outcome(l.(clients := l.clients - {e},
                        done := l.done + [(e, x.(theirId := id, stage := IDSent, changed := now))]),
                     [Sealed(x.sharedKey, IdAndSignature(host.me, Signed(host.me, x.theirKX + host.mcastKey)))], true)
      else
        o == Outcome(l.(clients := l.clients[e := x.(theirId := id)]), [], false)
  {}

  /** A session that has failed takes nothing more. */
  lemma OverIsOver(l: Listener, e: Endpoint, newKey: Bytes, d: Datagram, misread: Option<Bytes>, canSend: bool, now: int)
    requires e in l.clients && l.clients[e].stage.Failure?
    ensures Heard(l, e, newKey, d, misread, canSend, now) == Outcome(l, [], false)
  {
    assert l.clients[e := l.clients[e]] == l.clients;
  }

  /** No datagram touches the session of another endpoint, or those that are done. */
  lemma OthersUntouched(l: Listener, e: Endpoint, newKey: Bytes, d: Datagram, misread: Option<Bytes>, canSend: bool,
                        now: int, other: Endpoint)
    requires other != e
    ensures var m := Heard(l, e, newKey, d, misread, canSend, now).state;
      && (other in m.clients <==> other in l.clients) && (other in l.clients ==> m.clients[other] == l.clients[other])
      && l.done <= m.done && m.host == l.host
  {}

  // ------------------------------------------------------------------ over any number of rounds

  /** A datagram that leaves the session open: a stray one, an identity alone, or a valid user
      that could not be answered. */
  predicate IsHarmless(host: Host, x: Session, d: Datagram, canSend: bool) {
    IsStray(x, d)
    || (d.Sealed? && d.secret == x.sharedKey
        && (d.payload.IdOnly?
            || (d.payload.IdAndSignature? && !canSend
                && d.payload.id in host.known && d.payload.signed == Signed(d.payload.id, x.public))))
  }

  /** From the endpoint, only harmless datagrams arrive; from others, anything. */
  predicate LeavesOpen(host: Host, x: Session, e: Endpoint, a: Option<Arrival>) {
    a.Some? && a.value.from == e ==> IsHarmless(host, x, a.value.datagram, a.value.canSend)
  }

  predicate SameButForId(x: Session, y: Session) {
    y == x.(theirId := y.theirId)
  }

  /** The session is open as it was. */
  predicate StillOpen(l: Listener, e: Endpoint, host: Host, x: Session) {
    l.host == host && e in l.clients && SameButForId(x, l.clients[e])
  }

  lemma ArrivedStaysOpen(l: Listener, a: Option<Arrival>, e: Endpoint, x: Session)
    requires x.stage.KXKeySent? && StillOpen(l, e, l.host, x) && LeavesOpen(l.host, x, e, a)
    ensures StillOpen(Arrived(l, a).0, e, l.host, x)
  {
    match a
    case None =>
    case Some(a) =>
      if a.from != e {
        OthersUntouched(l, a.from, a.newKey, a.datagram, a.misread, a.canSend, a.at, e);
      } else if IsStray(x, a.datagram) {
        StrayIgnored(l, e, a.newKey, a.datagram, a.misread, a.canSend, a.at);
      } else if a.datagram.payload.IdOnly? {
        IdentityOnly(l, e, a.newKey, a.datagram.payload.id, a.misread, a.canSend, a.at);
      } else {
        SignedIdentity(l, e, a.newKey, a.datagram.payload.id, a.datagram.payload.signed, a.misread, a.canSend, a.at);
      }
  }

  predicate AllLeaveOpen(host: Host, x: Session, e: Endpoint, rounds: seq<Round>) {
    forall i :: 0 <= i < |rounds| ==> RoundLeavesOpen(host, x, e, rounds[i])
  }

  /** And the round ends within five seconds of the session's last change. */
  predicate RoundLeavesOpen(host: Host, x: Session, e: Endpoint, r: Round) {
    LeavesOpen(host, x, e, r.first) && LeavesOpen(host, x, e, r.second) && r.end <= x.changed + 5
  }

  lemma RoundStaysOpen(l: Listener, r: Round, e: Endpoint, x: Session)
    requires x.stage.KXKeySent? && StillOpen(l, e, l.host, x) && RoundLeavesOpen(l.host, x, e, r)
    ensures StillOpen(RoundDone(l, r).0, e, l.host, x)
  {
    var l1 := Arrived(l, r.first).0;
    ArrivedStaysOpen(l, r.first, e, x);
    ArrivedStaysOpen(l1, r.second, e, x);
    OnlyRecentLeft(Arrived(l1, r.second).0, r.end);
  }

  lemma {:induction false} RoundsStayOpen(l: Listener, rounds: seq<Round>, e: Endpoint, x: Session)
    requires x.stage.KXKeySent? && StillOpen(l, e, l.host, x) && AllLeaveOpen(l.host, x, e, rounds)
    ensures StillOpen(AllRounds(l, rounds).0, e, l.host, x)
  {
    if rounds != [] {
      var front := rounds[..|rounds| - 1];
      assert forall i :: 0 <= i < |front| ==> front[i] == rounds[i];
      RoundsStayOpen(l, front, e, x);
      RoundStaysOpen(AllRounds(l, front).0, rounds[|rounds| - 1], e, x);
    }
  }

  /** After any number of rounds in which only harmless datagrams arrive from an endpoint, the
      valid datagram of a known identity still finishes its session, and gets the host's answer. */
  lemma AnsweredAfterStrays(l: Listener, rounds: seq<Round>, e: Endpoint, newKey: Bytes, id: Id,
                            misread: Option<Bytes>, now: int)
    requires IsOpen(l, e) && AllLeaveOpen(l.host, l.clients[e], e, rounds) && id in l.host.known
    ensures var x, m, host := l.clients[e], AllRounds(l, rounds).0, l.host;
      var o := Heard(m, e, newKey, Sealed(x.sharedKey, IdAndSignature(id, Signed(id, x.public))), misread, true, now);
      && o.sent == [Sealed(x.sharedKey, IdAndSignature(host.me, Signed(host.me, x.theirKX + host.mcastKey)))]
      && o.state.done == m.done + [(e, x.(theirId := id, stage := IDSent, changed := now))]
      && e !in o.state.clients
  {
    var x, m := l.clients[e], AllRounds(l, rounds).0;
    RoundsStayOpen(l, rounds, e, x);
    SignedIdentity(m, e, newKey, id, Signed(id, x.public), misread, true, now);
  }

  /** Valid datagrams of two endpoints that arrive on the two sockets at once are both answered. */
  lemma BothSocketsHeard(l: Listener, e: Endpoint, f: Endpoint, a: Arrival, b: Arrival, end: int)
    requires e != f && IsOpen(l, e) && IsOpen(l, f) && a.canSend && b.canSend && a.from == e && b.from == f
    requires a.datagram.Sealed? && a.datagram.secret == l.clients[e].sharedKey && a.datagram.payload.IdAndSignature?
    requires b.datagram.Sealed? && b.datagram.secret == l.clients[f].sharedKey && b.datagram.payload.IdAndSignature?
    requires var p := a.datagram.payload; p.id in l.host.known && p.signed == Signed(p.id, l.clients[e].public)
    requires var q := b.datagram.payload; q.id in l.host.known && q.signed == Signed(q.id, l.clients[f].public)
    ensures var x, y, host := l.clients[e], l.clients[f], l.host;
      AllRounds(l, [Round(Some(a), Some(b), end)]).1
      == [Sealed(x.sharedKey, IdAndSignature(host.me, Signed(host.me, x.theirKX + host.mcastKey))),
          Sealed(y.sharedKey, IdAndSignature(host.me, Signed(host.me, y.theirKX + host.mcastKey)))]
  {
    var p, q := a.datagram.payload, b.datagram.payload;
    var m := Arrived(l, Some(a)).0;
    SignedIdentity(l, e, a.newKey, p.id, p.signed, a.misread, true, a.at);
    OthersUntouched(l, e, a.newKey, a.datagram, a.misread, true, a.at, f);
    SignedIdentity(m, f, b.newKey, q.id, q.signed, b.misread, true, b.at);
    var r := Round(Some(a), Some(b), end);
    assert [r][..0] == [];
    assert AllRounds(l, []) == (l, []);
  }

  /** After each round of `Run`, only sessions are left whose stage has changed within the last
      five seconds before its end. */
  lemma RoundsLeaveRecent(l: Listener, rounds: seq<Round>)
    requires rounds != []
    ensures var m, end := AllRounds(l, rounds).0, rounds[|rounds| - 1].end;
      && (forall e :: e in m.clients ==> end - 5 <= m.clients[e].changed)
      && (forall x :: x in m.done ==> end - 5 <= x.1.changed)
  {
    var before, r := AllRounds(l, rounds[..|rounds| - 1]).0, rounds[|rounds| - 1];
    OnlyRecentLeft(Arrived(Arrived(before, r.first).0, r.second).0, r.end);
  }
}
