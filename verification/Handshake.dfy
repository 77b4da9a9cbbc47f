/**
  Any number of requesters and listeners on one network, in every run.

  Datagrams that were sent may be lost, duplicated, reordered and delivered to anyone, in the
  name of any endpoint; but none is forged. Hosts may play both roles.
 */
module Handshake {
  import opened KeyExchange
  import opened KeyRequesters
  import opened Listeners = KeyRequestListeners
  import opened Options

  /** `keys` counts the key pairs made so far. */
  datatype State = State(requesters: seq<Requester>, listeners: seq<Listener>, sent: set<Datagram>, keys: nat, now: int)

  datatype Action =
    | StartListener(host: Host)
    | StartRequest(me: Id, known: set<Id>)
    | ToRequester(requester: nat, datagram: Datagram, misread: Option<Bytes>, canSend: bool)
    | ToListener(listener: nat, from: Endpoint, datagram: Datagram, misread: Option<Bytes>, canSend: bool)
    | Clear(listener: nat)
    | Tick(passed: nat)

  /** The public keys in the order in which they are made: no two are the same. */
  type Pool = seq<Bytes>

  ghost predicate IsPool(pool: Pool) {
    && (forall i :: 0 <= i < |pool| ==> |pool[i]| == KEY_SIZE)
    && (forall i, j :: 0 <= i < j < |pool| ==> pool[i] != pool[j])
  }

  /** A string that does not begin with anyone's public key. */
  predicate IsForeign(pool: Pool, b: Bytes) {
    forall i :: 0 <= i < |pool| ==> !(pool[i] <= b)
  }

  /** A datagram that was sent; what else it may be read as is not someone's key. */
  predicate CanArrive(pool: Pool, s: State, d: Datagram, misread: Option<Bytes>) {
    d in s.sent && (misread.Some? ==> IsForeign(pool, misread.value))
  }

  function SentBy(sent: seq<Datagram>): set<Datagram> {
    set d | d in sent
  }

  function RequestStarted(pool: Pool, s: State, me: Id, known: set<Id>): State
    requires s.keys < |pool|
  {
    var r := NewRequester(me, known, pool[s.keys]).(phase := KeyRequesters.KXKeySent);
    s.(requesters := s.requesters + [r], keys := s.keys + 1, sent := s.sent + {PublicKey(r.public)})
  }

  function RequesterStepped(s: State, j: nat, d: Datagram, misread: Option<Bytes>, canSend: bool): State
    requires j < |s.requesters|
  {
    var o := KeyRequesters.PacketProcessed(s.requesters[j], d, misread, canSend);
    s.(requesters := s.requesters[j := o.state], sent := s.sent + SentBy(o.sent))
  }

  function ListenerStepped(pool: Pool, s: State, i: nat, e: Endpoint, d: Datagram, misread: Option<Bytes>, canSend: bool)
      : State
    requires i < |s.listeners| && s.keys < |pool|
  {
    var o := Heard(s.listeners[i], e, pool[s.keys], d, misread, canSend, s.now);
    s.(listeners := s.listeners[i := o.state], keys := s.keys + 1, sent := s.sent + SentBy(o.sent))
  }

  /** Actions that cannot happen in a state leave it as it is. */
  function Next(pool: Pool, s: State, a: Action): State {
    match a
    case StartListener(host) =>
      if |host.mcastKey| == KEY_SIZE then s.(listeners := s.listeners + [Listener(host, map[], [])]) else s
    case StartRequest(me, known) =>
      if s.keys < |pool| then RequestStarted(pool, s, me, known) else s
    case ToRequester(j, d, misread, canSend) =>
      if j < |s.requesters| && CanArrive(pool, s, d, misread) then RequesterStepped(s, j, d, misread, canSend) else s
    case ToListener(i, e, d, misread, canSend) =>
      if i < |s.listeners| && s.keys < |pool| && CanArrive(pool, s, d, misread)
      then ListenerStepped(pool, s, i, e, d, misread, canSend) else s
    case Clear(i) =>
      if i < |s.listeners| then s.(listeners := s.listeners[i := ExpiredCleared(s.listeners[i], s.now)]) else s
    case Tick(passed) => s.(now := s.now + passed)
  }

  function After(pool: Pool, actions: seq<Action>): State {
    if actions == [] then State([], [], {}, 0, 0)
    else Next(pool, After(pool, actions[..|actions| - 1]), actions[|actions| - 1])
  }

  // ------------------------------------------------------------------ sessions that are done

  /** The sessions that some listener has among those that are done. */
  function DoneIn(s: State): set<(nat, Session)> {
    set i, x | 0 <= i < |s.listeners| && x in s.listeners[i].done :: (i, x.1)
  }

  /** Those that were done at some time of the run. */
  function EverDone(pool: Pool, actions: seq<Action>): set<(nat, Session)> {
    if actions == [] then {} else EverDone(pool, actions[..|actions| - 1]) + DoneIn(After(pool, actions))
  }

  lemma {:induction false} WasDone(pool: Pool, actions: seq<Action>, i: nat, x: Session) returns (n: nat)
    requires (i, x) in EverDone(pool, actions)
    ensures n <= |actions| && (i, x) in DoneIn(After(pool, actions[..n]))
  {
    n := |actions|;
    assert actions[..n] == actions;
    if (i, x) !in DoneIn(After(pool, actions)) {
      n := WasDone(pool, actions[..n - 1], i, x);
      assert actions[..|actions| - 1][..n] == actions[..n];
    }
  }

  // ------------------------------------------------------------------ the invariant

  /** A requester with this identity has signed `content` and encrypted that for the holder
      of the public key `content`. */
  ghost predicate FromRequester(s: State, secret: SharedKey, id: Id, content: Bytes) {
    exists j :: 0 <= j < |s.requesters| && HasSigned(s.requesters[j], secret, id, content)
  }

  predicate HasSigned(r: Requester, secret: SharedKey, id: Id, content: Bytes) {
    !r.phase.KXKeySent? && r.me == id && r.theirKX == content && secret == Shared(r.public, content)
  }

  /** A listener with this identity has finished a session with this shared key, and has
      signed the other side's public key and its multicast key. */
  ghost predicate FromListener(s: State, log: set<(nat, Session)>, secret: SharedKey, id: Id, content: Bytes) {
    exists i, x :: (i, x) in log && i < |s.listeners| && HasAnswered(s.listeners[i].host, x, secret, id, content)
  }

  predicate HasAnswered(host: Host, x: Session, secret: SharedKey, id: Id, content: Bytes) {
    host.me == id && content == x.theirKX + host.mcastKey && secret == x.sharedKey
  }

  ghost predicate SentOk(pool: Pool, s: State, log: set<(nat, Session)>, d: Datagram) {
    match d
    case PublicKey(key) => key in pool
    case Sealed(secret, IdAndSignature(id, signed)) =>
      signed.signer == id
      && (FromRequester(s, secret, id, signed.content) || FromListener(s, log, secret, id, signed.content))
    case _ => false
  }

  predicate KeyOrForeign(pool: Pool, b: Bytes) {
    b in pool || IsForeign(pool, b)
  }

  /** A known identity has signed the session's public key and sent that, encrypted with the
      session's shared key, from a request that has the session for its peer. */
  ghost predicate Authentic(s: State, host: Host, x: Session) {
    && x.theirId in host.known
    && Sealed(x.sharedKey, IdAndSignature(x.theirId, Signed(x.theirId, x.public))) in s.sent
    && exists j :: 0 <= j < |s.requesters| && IsPeer(s.requesters[j], x)
  }

  predicate IsPeer(r: Requester, x: Session) {
    !r.phase.KXKeySent? && r.me == x.theirId && r.public == x.theirKX && r.theirKX == x.public
  }

  ghost predicate SessionOk(pool: Pool, x: Session) {
    && x.public in pool
    && (x.stage.KXKeySent? || x.stage.IDSent? ==> |x.theirKX| == KEY_SIZE && x.sharedKey == Shared(x.public, x.theirKX))
  }

  ghost predicate LogOk(pool: Pool, s: State, log: set<(nat, Session)>) {
    forall i, x :: (i, x) in log ==>
      i < |s.listeners| && x.stage.IDSent? && SessionOk(pool, x) && Authentic(s, s.listeners[i].host, x)
  }

  ghost predicate ListenerOk(pool: Pool, l: Listener) {
    |l.host.mcastKey| == KEY_SIZE
    && (forall e :: e in l.clients ==> SessionOk(pool, l.clients[e]) && !l.clients[e].stage.IDSent?)
  }

  /** The requester and the listener's session agree on each other, on their shared key and on
      the multicast key. */
  predicate Agree(r: Requester, host: Host, x: Session) {
    && host.me == r.theirId && r.theirId in r.known && x.theirId == r.me && x.theirId in host.known
    && r.mcastKey == host.mcastKey
    && x.theirKX == r.public && r.theirKX == x.public && x.sharedKey == r.sharedKey
  }

  ghost predicate Agreed(s: State, log: set<(nat, Session)>, r: Requester) {
    exists i, x :: (i, x) in log && i < |s.listeners| && Agree(r, s.listeners[i].host, x)
  }

  ghost predicate RequesterOk(pool: Pool, s: State, log: set<(nat, Session)>, r: Requester) {
    && r.public in pool && !r.phase.Initial? && KeyOrForeign(pool, r.theirKX)
    && (r.phase.IDSent? || r.phase.Success? ==> r.sharedKey == Shared(r.public, r.theirKX))
    && (r.phase.Success? ==> Agreed(s, log, r))
  }

  /** Requesters are told apart by their public keys. */
  ghost predicate KeysApart(pool: Pool, s: State) {
    && s.keys <= |pool|
    && (forall j :: 0 <= j < |s.requesters| ==> s.requesters[j].public in pool[..s.keys])
    && (forall j, k :: 0 <= j < k < |s.requesters| ==> s.requesters[j].public != s.requesters[k].public)
  }

  ghost predicate Inv(pool: Pool, s: State, log: set<(nat, Session)>) {
    && KeysApart(pool, s)
    && (forall j :: 0 <= j < |s.requesters| ==> RequesterOk(pool, s, log, s.requesters[j]))
    && (forall i :: 0 <= i < |s.listeners| ==> ListenerOk(pool, s.listeners[i]))
    && (forall d :: d in s.sent ==> SentOk(pool, s, log, d))
    && LogOk(pool, s, log) && DoneIn(s) <= log
  }

  // ------------------------------------------------------------------ what stays true

  /** Hosts do not change, and what a requester has signed stays signed. */
  ghost predicate Extends(s: State, t: State) {
    && |s.requesters| <= |t.requesters| && |s.listeners| <= |t.listeners| && s.sent <= t.sent
    && (forall j :: 0 <= j < |s.requesters| ==> Keeps(s.requesters[j], t.requesters[j]))
    && (forall i :: 0 <= i < |s.listeners| ==> s.listeners[i].host == t.listeners[i].host)
  }

  predicate Keeps(r: Requester, q: Requester) {
    q.me == r.me && q.public == r.public
    && (!r.phase.KXKeySent? ==> !q.phase.KXKeySent? && q.theirKX == r.theirKX)
  }

  lemma RequesterKeeps(r: Requester, d: Datagram, misread: Option<Bytes>, canSend: bool)
    ensures Keeps(r, KeyRequesters.PacketProcessed(r, d, misread, canSend).state)
  {}

  lemma NextExtends(pool: Pool, s: State, a: Action)
    ensures Extends(s, Next(pool, s, a))
  {}

  // ------------------------------------------------------------------ the two checks

  /** A signed content of the size that a requester accepts, with its key in front, comes from
      a listener: what requesters sign is shorter, or does not begin with a key. */
  lemma NotFromRequester(pool: Pool, s: State, log: set<(nat, Session)>, secret: SharedKey, id: Id, content: Bytes)
    requires IsPool(pool) && Inv(pool, s, log) && |content| > KEY_SIZE && content[..KEY_SIZE] in pool
    ensures !FromRequester(s, secret, id, content)
  {}

  /** A signed content of the size of a key comes from a requester. */
  lemma NotFromListener(pool: Pool, s: State, log: set<(nat, Session)>, secret: SharedKey, id: Id, content: Bytes)
    requires Inv(pool, s, log) && |content| == KEY_SIZE
    ensures !FromListener(s, log, secret, id, content)
  {}

  lemma SuccessIsAgreed(pool: Pool, s: State, log: set<(nat, Session)>, j: nat, d: Datagram)
    requires IsPool(pool) && Inv(pool, s, log) && d in s.sent
    requires j < |s.requesters| && s.requesters[j].phase.IDSent?
    ensures var q := KeyRequesters.AnswerReceived(s.requesters[j], d).state;
      q.phase.Success? ==> Agreed(s, log, q)
  {
    var r := s.requesters[j];
    var q := KeyRequesters.AnswerReceived(r, d).state;
    if q.phase.Success? {
      var id, content := d.payload.id, d.payload.signed.content;
      assert SentOk(pool, s, log, d) && RequesterOk(pool, s, log, r);
      KeyInFront(pool, r.public, content);
      NotFromRequester(pool, s, log, d.secret, id, content);
      var i, x :| (i, x) in log && i < |s.listeners| && HasAnswered(s.listeners[i].host, x, d.secret, id, content);
      AnswerAgrees(pool, s, log, j, i, x, q, content);
    }
  }

  lemma KeyInFront(pool: Pool, key: Bytes, content: Bytes)
    requires IsPool(pool) && key in pool && |content| == |key| + KEY_SIZE && content[..|key|] == key
    ensures |key| == KEY_SIZE && content[..KEY_SIZE] in pool
  {}

  lemma AnswerAgrees(pool: Pool, s: State, log: set<(nat, Session)>, j: nat, i: nat, x: Session, q: Requester,
                     content: Bytes)
    requires Inv(pool, s, log) && j < |s.requesters| && i < |s.listeners| && (i, x) in log
    requires var r := s.requesters[j];
      && |r.public| == KEY_SIZE && q.public == r.public && q.me == r.me && q.theirKX == r.theirKX && q.known == r.known
      && q.sharedKey == r.sharedKey == Shared(r.public, r.theirKX)
      && |content| == 2 * KEY_SIZE && content[..KEY_SIZE] == r.public
    requires HasAnswered(s.listeners[i].host, x, q.sharedKey, q.theirId, content)
    requires q.theirId in q.known && q.mcastKey == content[KEY_SIZE..]
    ensures Agree(q, s.listeners[i].host, x)
  {
    var host := s.listeners[i].host;
    assert SessionOk(pool, x) && Authentic(s, host, x) && ListenerOk(pool, s.listeners[i]);
    assert x.theirKX == content[..KEY_SIZE] && host.mcastKey == content[KEY_SIZE..];
    SharedTells(x.public, q.public, q.theirKX);
    var k :| 0 <= k < |s.requesters| && IsPeer(s.requesters[k], x);
    assert k == j;
  }

  /** The listener's check: a content equal to the session's own key was signed in a request
      that has the session for its peer. */
  lemma DoneIsAuthentic(pool: Pool, s: State, log: set<(nat, Session)>, host: Host, x: Session, d: Datagram,
                        canSend: bool, now: int)
    requires IsPool(pool) && Inv(pool, s, log) && d in s.sent && SessionOk(pool, x) && x.stage.KXKeySent?
    ensures var y := UserReceived(host, x, d, canSend, now).state;
      y.stage.IDSent? ==> Authentic(s, host, y) && SessionOk(pool, y)
  {}

  // ------------------------------------------------------------------ every step

  /** What a step has to show of what it changed. */
  ghost predicate StepOk(pool: Pool, s: State, t: State, log: set<(nat, Session)>, more: set<(nat, Session)>) {
    && KeysApart(pool, t) && DoneIn(t) <= more
    && (forall j :: 0 <= j < |t.requesters| ==>
          (j < |s.requesters| && t.requesters[j] == s.requesters[j]) || RequesterOk(pool, t, more, t.requesters[j]))
    && (forall i :: 0 <= i < |t.listeners| ==> ListenerOk(pool, t.listeners[i]))
    && NewSentOk(pool, s, t, more) && NewDoneOk(pool, t, log, more)
  }

  ghost predicate NewSentOk(pool: Pool, s: State, t: State, more: set<(nat, Session)>) {
    forall d :: d in t.sent && d !in s.sent ==> SentOk(pool, t, more, d)
  }

  ghost predicate NewDoneOk(pool: Pool, t: State, log: set<(nat, Session)>, more: set<(nat, Session)>) {
    forall i, x :: (i, x) in more && (i, x) !in log ==>
      i < |t.listeners| && x.stage.IDSent? && SessionOk(pool, x) && Authentic(t, t.listeners[i].host, x)
  }

  lemma StepKeepsInv(pool: Pool, s: State, t: State, log: set<(nat, Session)>, more: set<(nat, Session)>)
    requires Inv(pool, s, log) && Extends(s, t) && log <= more && StepOk(pool, s, t, log, more)
    ensures Inv(pool, t, more)
  {}

  lemma RequestStartedOk(pool: Pool, s: State, log: set<(nat, Session)>, me: Id, known: set<Id>)
    requires IsPool(pool) && Inv(pool, s, log) && s.keys < |pool|
    ensures StepOk(pool, s, RequestStarted(pool, s, me, known), log, log)
  {}

  /** A requester that receives a key: what it signs is a key or foreign. */
  lemma KeyReceivedOk(pool: Pool, s: State, log: set<(nat, Session)>, j: nat, d: Datagram,
                      misread: Option<Bytes>, canSend: bool)
    requires IsPool(pool) && Inv(pool, s, log) && j < |s.requesters| && CanArrive(pool, s, d, misread)
    requires s.requesters[j].phase.KXKeySent?
    ensures var t := RequesterStepped(s, j, d, misread, canSend);
      && RequesterOk(pool, t, log, t.requesters[j])
      && forall d :: d in t.sent && d !in s.sent ==> SentOk(pool, t, log, d)
  {}

  /** The requester's check: a content of this size with the requester's own key in front was
      signed in a session that has the requester for its peer. */
  lemma AnswerReceivedOk(pool: Pool, s: State, log: set<(nat, Session)>, j: nat, d: Datagram,
                         misread: Option<Bytes>, canSend: bool)
    requires IsPool(pool) && Inv(pool, s, log) && j < |s.requesters| && CanArrive(pool, s, d, misread)
    requires !s.requesters[j].phase.KXKeySent?
    ensures var t := RequesterStepped(s, j, d, misread, canSend);
      t.sent == s.sent && (t.requesters[j] == s.requesters[j] || RequesterOk(pool, t, log, t.requesters[j]))
  {
    var t, r := RequesterStepped(s, j, d, misread, canSend), s.requesters[j];
    assert RequesterOk(pool, s, log, r);
    if r.phase.IDSent? {
      SuccessIsAgreed(pool, s, log, j, d);
      AgreedWhenStepped(s, t, log, t.requesters[j]);
    }
  }

  lemma RequesterSteppedOk(pool: Pool, s: State, log: set<(nat, Session)>, j: nat, d: Datagram,
                           misread: Option<Bytes>, canSend: bool)
    requires IsPool(pool) && Inv(pool, s, log) && j < |s.requesters| && CanArrive(pool, s, d, misread)
    ensures StepOk(pool, s, RequesterStepped(s, j, d, misread, canSend), log, log)
  {
    var t := RequesterStepped(s, j, d, misread, canSend);
    RequesterKeeps(s.requesters[j], d, misread, canSend);
    assert DoneIn(t) == DoneIn(s);
    if s.requesters[j].phase.KXKeySent? {
      KeyReceivedOk(pool, s, log, j, d, misread, canSend);
    } else {
      AnswerReceivedOk(pool, s, log, j, d, misread, canSend);
    }
  }

  lemma AgreedWhenStepped(s: State, t: State, log: set<(nat, Session)>, q: Requester)
    requires t.listeners == s.listeners
    ensures Agreed(s, log, q) ==> Agreed(t, log, q)
  {}

  /** One session's packet: what it leaves behind and what it sends. */
  lemma SessionStepped(pool: Pool, s: State, log: set<(nat, Session)>, host: Host, x: Session, d: Datagram,
                       misread: Option<Bytes>, canSend: bool)
    requires IsPool(pool) && Inv(pool, s, log) && CanArrive(pool, s, d, misread)
    requires SessionOk(pool, x) && !x.stage.IDSent?
    ensures var o := Listeners.PacketProcessed(host, x, d, misread, canSend, s.now);
      && SessionOk(pool, o.state)
      && (o.rc <==> o.sent != [])
      && (o.state.stage.IDSent? ==> o.rc && Authentic(s, host, o.state))
      && (o.state.stage.IDSent? ==> o.sent == [Answer(host, o.state)])
      && (o.rc && !o.state.stage.IDSent? ==> o.sent == [PublicKey(x.public)])
  {
    SessionAdvances(host, x, d, misread, canSend, s.now);
    if x.stage.KXKeySent? {
      DoneIsAuthentic(pool, s, log, host, x, d, canSend, s.now);
    }
  }

  predicate HasDone(l: Listener, x: Session) {
    exists k :: 0 <= k < |l.done| && l.done[k].1 == x
  }

  lemma DoneMember(s: State, p: (nat, Session))
    ensures p in DoneIn(s) <==> p.0 < |s.listeners| && HasDone(s.listeners[p.0], p.1)
  {}

  lemma DoneAfter(s: State, t: State, i: nat, l: Listener, p: (nat, Session))
    requires i < |s.listeners| && t.listeners == s.listeners[i := l]
    ensures p in DoneIn(t) <==> if p.0 == i then HasDone(l, p.1) else p in DoneIn(s)
  {
    DoneMember(s, p);
    DoneMember(t, p);
  }

  lemma NoMoreDone(s: State, t: State, i: nat, l: Listener)
    requires i < |s.listeners| && t.listeners == s.listeners[i := l]
    requires forall x :: x in l.done ==> x in s.listeners[i].done
    ensures DoneIn(t) <= DoneIn(s)
  {}

  lemma OneMoreDone(s: State, t: State, i: nat, l: Listener, e: Endpoint, x: Session)
    requires i < |s.listeners| && t.listeners == s.listeners[i := l] && l.done == s.listeners[i].done + [(e, x)]
    ensures DoneIn(t) == DoneIn(s) + {(i, x)}
  {
    var was := s.listeners[i];
    forall p ensures p in DoneIn(t) <==> p in DoneIn(s) || p == (i, x) {
      DoneMember(s, p);
      DoneAfter(s, t, i, l, p);
      if HasDone(was, p.1) {
        var k :| 0 <= k < |was.done| && was.done[k].1 == p.1;
        assert l.done[k].1 == p.1;
      }
      assert l.done[|was.done|].1 == x;
    }
  }

  lemma StartedDone(s: State, t: State, host: Host)
    requires t.listeners == s.listeners + [Listener(host, map[], [])]
    ensures DoneIn(t) == DoneIn(s)
  {
    forall p ensures p in DoneIn(t) <==> p in DoneIn(s) {
      DoneMember(s, p);
      DoneMember(t, p);
    }
  }

  lemma SessionToStep(pool: Pool, s: State, i: nat, e: Endpoint)
    requires i < |s.listeners| && s.keys < |pool| && ListenerOk(pool, s.listeners[i])
    ensures var x := SessionOf(s.listeners[i], e, pool[s.keys], s.now); SessionOk(pool, x) && !x.stage.IDSent?
  {}

  lemma ListenerSteppedOk(pool: Pool, s: State, log: set<(nat, Session)>, i: nat, e: Endpoint, d: Datagram,
                          misread: Option<Bytes>, canSend: bool)
    requires IsPool(pool) && Inv(pool, s, log) && i < |s.listeners| && s.keys < |pool| && CanArrive(pool, s, d, misread)
    ensures var t := ListenerStepped(pool, s, i, e, d, misread, canSend); StepOk(pool, s, t, log, log + DoneIn(t))
  {
    var t, l := ListenerStepped(pool, s, i, e, d, misread, canSend), s.listeners[i];
    var x := SessionOf(l, e, pool[s.keys], s.now);
    var o := Listeners.PacketProcessed(l.host, x, d, misread, canSend, s.now);
    SessionToStep(pool, s, i, e);
    SessionStepped(pool, s, log, l.host, x, d, misread, canSend);
    KeysStillApart(pool, s, t);
    NextExtends(pool, s, ToListener(i, e, d, misread, canSend));
    ListenerStillOk(pool, l, t.listeners[i], e, o.state);
    SentByOne(o.sent);
    if o.state.stage.IDSent? {
      FinishedOk(pool, s, t, log, i, e, o.state);
    } else {
      OngoingOk(pool, s, t, log, i);
    }
  }

  lemma SentByOne(sent: seq<Datagram>)
    ensures sent == [] ==> SentBy(sent) == {}
    ensures |sent| == 1 ==> SentBy(sent) == {sent[0]}
  {}

  lemma OngoingOk(pool: Pool, s: State, t: State, log: set<(nat, Session)>, i: nat)
    requires Inv(pool, s, log) && KeysApart(pool, t) && t.requesters == s.requesters
    requires i < |s.listeners| && |t.listeners| == |s.listeners| && t.listeners == s.listeners[i := t.listeners[i]]
    requires t.listeners[i].done == s.listeners[i].done && ListenerOk(pool, t.listeners[i])
    requires forall d :: d in t.sent && d !in s.sent ==> d.PublicKey? && d.key in pool
    ensures StepOk(pool, s, t, log, log + DoneIn(t))
  {}

  lemma ListenerStillOk(pool: Pool, l: Listener, m: Listener, e: Endpoint, x: Session)
    requires ListenerOk(pool, l) && SessionOk(pool, x) && m.host == l.host
    requires m.clients == if x.stage.IDSent? then l.clients - {e} else l.clients[e := x]
    ensures ListenerOk(pool, m)
  {}

  lemma FinishedOk(pool: Pool, s: State, t: State, log: set<(nat, Session)>, i: nat, e: Endpoint, x: Session)
    requires Inv(pool, s, log) && Extends(s, t) && KeysApart(pool, t) && t.requesters == s.requesters
    requires i < |s.listeners| && |t.listeners| == |s.listeners| && t.listeners == s.listeners[i := t.listeners[i]]
    requires t.listeners[i].done == s.listeners[i].done + [(e, x)] && ListenerOk(pool, t.listeners[i])
    requires x.stage.IDSent? && SessionOk(pool, x) && Authentic(s, s.listeners[i].host, x)
    requires t.sent == s.sent + {Answer(s.listeners[i].host, x)}
    ensures StepOk(pool, s, t, log, log + DoneIn(t))
  {
    var more := log + {(i, x)};
    OneMoreDone(s, t, i, t.listeners[i], e, x);
    assert log + DoneIn(t) == more;
    OneNewDoneOk(pool, s, t, log, i, x);
    OneNewSentOk(pool, s, t, more, i, x);
  }

  lemma OneNewDoneOk(pool: Pool, s: State, t: State, log: set<(nat, Session)>, i: nat, x: Session)
    requires Extends(s, t) && i < |s.listeners| && x.stage.IDSent? && SessionOk(pool, x)
    requires Authentic(s, s.listeners[i].host, x)
    ensures NewDoneOk(pool, t, log, log + {(i, x)})
  {}

  lemma OneNewSentOk(pool: Pool, s: State, t: State, more: set<(nat, Session)>, i: nat, x: Session)
    requires i < |t.listeners| && (i, x) in more && t.sent == s.sent + {Answer(t.listeners[i].host, x)}
    ensures NewSentOk(pool, s, t, more)
  {}

  lemma KeysStillApart(pool: Pool, s: State, t: State)
    requires KeysApart(pool, s) && t.requesters == s.requesters && s.keys <= t.keys <= |pool|
    ensures KeysApart(pool, t)
  {}

  lemma ClearedOk(pool: Pool, s: State, log: set<(nat, Session)>, i: nat)
    requires Inv(pool, s, log) && i < |s.listeners|
    ensures var t := s.(listeners := s.listeners[i := ExpiredCleared(s.listeners[i], s.now)]); StepOk(pool, s, t, log, log)
  {
    var t := s.(listeners := s.listeners[i := ExpiredCleared(s.listeners[i], s.now)]);
    OnlyRecentLeft(s.listeners[i], s.now);
    NoMoreDone(s, t, i, t.listeners[i]);
    assert ListenerOk(pool, s.listeners[i]);
    assert ListenerOk(pool, t.listeners[i]);
  }

  lemma NextKeepsInv(pool: Pool, s: State, log: set<(nat, Session)>, a: Action)
    requires IsPool(pool) && Inv(pool, s, log)
    ensures Inv(pool, Next(pool, s, a), log + DoneIn(Next(pool, s, a)))
  {
    var t := Next(pool, s, a);
    var more := log + DoneIn(t);
    NextExtends(pool, s, a);
    if t != s {
      StepOfAction(pool, s, log, a);
      StepKeepsInv(pool, s, t, log, more);
    } else {
      assert more == log;
    }
  }

  lemma StepOfAction(pool: Pool, s: State, log: set<(nat, Session)>, a: Action)
    requires IsPool(pool) && Inv(pool, s, log) && Next(pool, s, a) != s
    ensures var t := Next(pool, s, a); StepOk(pool, s, t, log, log + DoneIn(t))
  {
    var t := Next(pool, s, a);
    match a
    case StartListener(host) =>
      StartedDone(s, t, host);
      assert log + DoneIn(t) == log;
    case StartRequest(me, known) =>
      RequestStartedOk(pool, s, log, me, known);
      assert log + DoneIn(t) == log;
    case ToRequester(j, d, misread, canSend) =>
      RequesterSteppedOk(pool, s, log, j, d, misread, canSend);
      assert log + DoneIn(t) == log;
    case ToListener(i, e, d, misread, canSend) =>
      ListenerSteppedOk(pool, s, log, i, e, d, misread, canSend);
    case Clear(i) =>
      ClearedOk(pool, s, log, i);
      assert log + DoneIn(t) == log;
    case Tick(passed) =>
      assert DoneIn(t) == DoneIn(s);
      assert log + DoneIn(t) == log;
  }

  lemma {:induction false} AlwaysInv(pool: Pool, actions: seq<Action>)
    requires IsPool(pool)
    ensures Inv(pool, After(pool, actions), EverDone(pool, actions))
  {
    if actions != [] {
      var front := actions[..|actions| - 1];
      AlwaysInv(pool, front);
      NextKeepsInv(pool, After(pool, front), EverDone(pool, front), actions[|actions| - 1]);
    }
  }

  // ------------------------------------------------------------------ what is promised

  /** In every run, a requester in `Success` has the multicast key of a listener whose identity
      it knows and has authenticated, and that listener has finished a session that agrees with
      the requester on both public keys, on the shared key and on the requester's identity. */
  lemma KeyAgreement(pool: Pool, actions: seq<Action>, j: nat)
    requires IsPool(pool)
    requires j < |After(pool, actions).requesters| && After(pool, actions).requesters[j].phase.Success?
    ensures var s := After(pool, actions);
      exists i: nat, x, n :: i < |s.listeners| && Agree(s.requesters[j], s.listeners[i].host, x)
        && 0 <= n <= |actions| && (i, x) in DoneIn(After(pool, actions[..n]))
  {
    var s := After(pool, actions);
    AlwaysInv(pool, actions);
    assert RequesterOk(pool, s, EverDone(pool, actions), s.requesters[j]);
    var i, x :| (i, x) in EverDone(pool, actions) && i < |s.listeners| && Agree(s.requesters[j], s.listeners[i].host, x);
    var n := WasDone(pool, actions, i, x);
  }

  /** No two requesters succeed with the same session. */
  lemma OneRequesterPerSession(pool: Pool, actions: seq<Action>, j: nat, k: nat, host: Host, x: Session)
    requires IsPool(pool)
    requires j < |After(pool, actions).requesters| && k < |After(pool, actions).requesters|
    requires Agree(After(pool, actions).requesters[j], host, x) && Agree(After(pool, actions).requesters[k], host, x)
    ensures j == k
  {
    AlwaysInv(pool, actions);
  }

  /** In every run, each session that a listener holds as done has reached `IDSent`, for a
      known identity that has signed that session's own public key and has sent that encrypted
      with that session's shared key, in a request with the session's peer; and no session
      among the others has. */
  lemma ListenersAuthenticate(pool: Pool, actions: seq<Action>, i: nat)
    requires IsPool(pool) && i < |After(pool, actions).listeners|
    ensures var s := After(pool, actions);
      var l := s.listeners[i];
      && (forall e, x :: (e, x) in l.done ==> x.stage.IDSent? && Authentic(s, l.host, x))
      && (forall e :: e in l.clients ==> !l.clients[e].stage.IDSent?)
  {
    var s := After(pool, actions);
    AlwaysInv(pool, actions);
    assert ListenerOk(pool, s.listeners[i]);
    forall e, x | (e, x) in s.listeners[i].done ensures x.stage.IDSent? && Authentic(s, s.listeners[i].host, x) {
      assert (i, (e, x).1) in DoneIn(s);
    }
  }

  /** In every run, a multicast key leaves its listener only encrypted with a key shared with a
      request of an identity that the listener knows. */
  lemma KeyOnlyToKnown(pool: Pool, actions: seq<Action>, secret: SharedKey, id: Id, signed: Signed)
    requires IsPool(pool) && Sealed(secret, IdAndSignature(id, signed)) in After(pool, actions).sent
    requires |signed.content| == 2 * KEY_SIZE && signed.content[..KEY_SIZE] in pool
    ensures var s := After(pool, actions);
      exists i, j :: 0 <= i < |s.listeners| && 0 <= j < |s.requesters|
        && s.listeners[i].host.me == id && signed.content[KEY_SIZE..] == s.listeners[i].host.mcastKey
        && s.requesters[j].me in s.listeners[i].host.known && signed.content[..KEY_SIZE] == s.requesters[j].public
        && secret == Shared(s.requesters[j].public, s.requesters[j].theirKX)
  {
    var s, log := After(pool, actions), EverDone(pool, actions);
    AlwaysInv(pool, actions);
    assert SentOk(pool, s, log, Sealed(secret, IdAndSignature(id, signed)));
    NotFromRequester(pool, s, log, secret, id, signed.content);
    var i, x :| (i, x) in log && i < |s.listeners| && HasAnswered(s.listeners[i].host, x, secret, id, signed.content);
    assert SessionOk(pool, x) && Authentic(s, s.listeners[i].host, x);
    var j :| 0 <= j < |s.requesters| && IsPeer(s.requesters[j], x);
    assert signed.content[..KEY_SIZE] == x.theirKX;
    assert signed.content[KEY_SIZE..] == s.listeners[i].host.mcastKey;
    SharedTells(s.requesters[j].public, x.public, x.theirKX);
  }

  /** When the datagrams that are sent arrive in turn, the requester gets the listener's key if,
      and only if, the two know each other. */
  lemma CompletesIfAcquainted(r: Requester, host: Host, public: Bytes, now: int)
      returns (server1: Outcome<Session>, client1: Outcome<Requester>, server2: Outcome<Session>, last: Requester)
    requires r.phase.KXKeySent? && |r.public| == KEY_SIZE && |public| == KEY_SIZE && |host.mcastKey| == KEY_SIZE
    ensures server1 == Listeners.PacketProcessed(host, NewSession(public, now), PublicKey(r.public), None, true, now)
    ensures |server1.sent| == 1
    ensures client1 == KeyRequesters.PacketProcessed(r, server1.sent[0], None, true)
    ensures |client1.sent| == 1
    ensures server2 == Listeners.PacketProcessed(host, server1.state, client1.sent[0], None, true, now)
    ensures last == if server2.sent == [] then client1.state
                    else KeyRequesters.PacketProcessed(client1.state, server2.sent[0], None, true).state
    ensures last.phase.Success? <==> r.me in host.known && host.me in r.known
    ensures last.phase.Success? ==> last.mcastKey == host.mcastKey
  {
    server1 := Listeners.PacketProcessed(host, NewSession(public, now), PublicKey(r.public), None, true, now);
    client1 := KeyRequesters.PacketProcessed(r, PublicKey(public), None, true);
    server2 := Listeners.PacketProcessed(host, server1.state, IdAndSignatureOf(client1.state), None, true, now);
    last := if server2.sent == [] then client1.state
            else KeyRequesters.PacketProcessed(client1.state, Answer(host, server1.state), None, true).state;
    SharedTells(public, r.public, public);
    var content := r.public + host.mcastKey;
    assert content[..KEY_SIZE] == r.public && content[KEY_SIZE..] == host.mcastKey;
  }

  lemma Do(pool: Pool, done: seq<Action>, a: Action) returns (more: seq<Action>)
    ensures |more| == |done| + 1 && After(pool, more) == Next(pool, After(pool, done), a)
  {
    more := done + [a];
    assert more[..|more| - 1] == done;
  }

  lemma BothStarted(pool: Pool, me: Id, known: set<Id>, host: Host) returns (run: seq<Action>)
    requires IsPool(pool) && |pool| >= 3 && |host.mcastKey| == KEY_SIZE
    ensures |run| == 2
    ensures After(pool, run)
         == State([NewRequester(me, known, pool[0]).(phase := KeyRequesters.KXKeySent)], [Listener(host, map[], [])],
                  {PublicKey(pool[0])}, 1, 0)
  {
    run := Do(pool, [], StartListener(host));
    run := Do(pool, run, StartRequest(me, known));
  }

  /** A listener and a request, with the request's public key and the listener's answer to it
      delivered. */
  lemma KeysExchanged(pool: Pool, me: Id, known: set<Id>, host: Host, e: Endpoint) returns (run: seq<Action>)
    requires IsPool(pool) && |pool| >= 3 && |host.mcastKey| == KEY_SIZE
    ensures |run| == 4
    ensures var s := After(pool, run);
      var r := NewRequester(me, known, pool[0])
        .(phase := KeyRequesters.IDSent, theirKX := pool[1], sharedKey := Shared(pool[0], pool[1]));
      var x := Changed(NewSession(pool[1], 0), Listeners.KXKeySent, 0)
        .(theirKX := pool[0], sharedKey := Shared(pool[1], pool[0]));
      && s.requesters == [r] && s.listeners == [Listener(host, map[e := x], [])]
      && IdAndSignatureOf(r) in s.sent && s.keys == 2 && s.now == 0
  {
    run := BothStarted(pool, me, known, host);
    run := Do(pool, run, ToListener(0, e, PublicKey(pool[0]), None, true));
    run := Do(pool, run, ToRequester(0, PublicKey(pool[1]), None, true));
  }

  /** For any listener and any requester that know each other there is a run of six steps in
      which the requester gets the listener's multicast key. */
  lemma SomeRunSucceeds(pool: Pool, me: Id, known: set<Id>, host: Host, e: Endpoint) returns (run: seq<Action>)
    requires IsPool(pool) && |pool| >= 3 && |host.mcastKey| == KEY_SIZE
    requires host.me in known && me in host.known
    ensures |run| == 6 && |After(pool, run).requesters| == 1
    ensures After(pool, run).requesters[0].phase.Success? && After(pool, run).requesters[0].mcastKey == host.mcastKey
  {
    run := KeysExchanged(pool, me, known, host, e);
    var s := After(pool, run);
    var r, x := s.requesters[0], s.listeners[0].clients[e];
    SharedTells(pool[0], pool[1], pool[0]);
    run := Do(pool, run, ToListener(0, e, IdAndSignatureOf(r), None, true));
    assert Answer(host, x) in After(pool, run).sent;
    AnswerIsAccepted(r, host, x);
    run := Do(pool, run, ToRequester(0, Answer(host, x), None, true));
  }

  lemma AnswerIsAccepted(r: Requester, host: Host, x: Session)
    requires r.phase.IDSent? && r.sharedKey == x.sharedKey && x.theirKX == r.public && |r.public| == KEY_SIZE
    requires |host.mcastKey| == KEY_SIZE && host.me in r.known
    ensures var q := KeyRequesters.PacketProcessed(r, Answer(host, x), None, true).state;
      q.phase.Success? && q.mcastKey == host.mcastKey
  {
    var content := r.public + host.mcastKey;
    assert content[..KEY_SIZE] == r.public && content[KEY_SIZE..] == host.mcastKey;
  }
}
