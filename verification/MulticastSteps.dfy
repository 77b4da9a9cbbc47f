/**
  One source of encrypted multicast packets. A receiver decrypts its packets while a query
  thread fetches the key; packets that cannot be decrypted yet wait in a backlog.

  Every read or write of what the two threads share is one step here, and the steps may be
  interleaved in any way.
 */
module MulticastSteps {
  import opened Options
  import opened Wire

  const BACKLOG_LIMIT: nat := 100

  /** Five seconds, in microseconds. */
  const EXPIRY: nat := 5000000

  /** The key is empty while it is not known. */
  type Key = Bytes

  /** A packet and its place in the order of arrival. */
  datatype Packet = Packet(id: nat, data: Bytes)

  datatype Entry = Entry(packet: Packet, received: nat)

  datatype Delivery = Delivery(id: nat, key: Key, payload: Bytes)

  /** Where the receiver is within `ProcessPacket`. */
  datatype Receiver =
    | Idle
    | ReadingKey(packet: Packet)
    | ReadingBacklogKey(packet: Packet, key: Key)
    | Draining(packet: Packet, key: Key, backlogKey: Key)
    | Decrypting(packet: Packet, key: Key)
    | Forgetting(packet: Packet)
    | Queueing(packet: Packet, failed: bool)
    | Deciding
    | Loading
    | Joining
    | Claiming
    | Spawning
    | Sampling
    | Clearing(sampled: nat)

  /** Where a query thread is within `QueryForKey`. */
  datatype Query = Asking | Writing(result: Key) | Storing | Leaving | Exited

  /** What the threads share and where they are, and what became of the packets.
      `damaged` holds the packets that a failed decryption has overwritten. */
  datatype State = State(
    now: nat, arrivals: seq<Bytes>, receiver: Receiver, lastReceive: nat,
    key: Key, backlog: seq<Entry>, queryDone: bool,
    threads: seq<Query>, joinable: Option<nat>,
    delivered: seq<Delivery>, undecryptable: seq<nat>, expired: seq<nat>, refused: seq<nat>,
    damaged: set<nat>)

  /** How decryption opens a packet, as `MessagePackets.Opened` does. */
  type Opener = (Key, Bytes) -> Option<Bytes>

  const START: State :=
    State(0, [], Idle, 0, [], [], true, [], None, [], [], [], [], {})

  /** `debris` is what a failed decryption leaves in the packet. */
  datatype Action = Tick(passed: nat) | Arrive(data: Bytes) | Receive(debris: Bytes) | Query(thread: nat, result: Key)

  // ------------------------------------------------------------------ the steps

  predicate IsYoung(e: Entry, now: nat) {
    now < e.received + EXPIRY
  }

  /** `PushBack` on a queue that is full refuses. */
  function Pushed(s: State, e: Entry): State {
    if |s.backlog| < BACKLOG_LIMIT then s.(backlog := s.backlog + [e])
    else s.(refused := s.refused + [e.packet.id])
  }

  /** One packet taken off the backlog. */
  function DrainedOne(open: Opener, key: Key, s: State): State
    requires s.backlog != []
  {
    var p := s.backlog[0].packet;
    match open(key, p.data)
    case Some(payload) => s.(backlog := s.backlog[1..], delivered := s.delivered + [Delivery(p.id, key, payload)])
    case None => s.(backlog := s.backlog[1..], undecryptable := s.undecryptable + [p.id])
  }

  function ExpiredOne(s: State): State
    requires s.backlog != []
  {
    s.(backlog := s.backlog[1..], expired := s.expired + [s.backlog[0].packet.id])
  }

  function Decrypted(open: Opener, s: State, p: Packet, key: Key, debris: Bytes): State {
    match open(key, p.data)
    case Some(payload) => s.(receiver := Sampling, delivered := s.delivered + [Delivery(p.id, key, payload)])
    case None => s.(receiver := Forgetting(p.(data := debris)), damaged := s.damaged + {p.id})
  }

  function Received(open: Opener, s: State, debris: Bytes): State {
    match s.receiver
    case Idle => s
    case ReadingKey(p) => s.(receiver := if s.key != [] then ReadingBacklogKey(p, s.key) else Queueing(p, false))
    case ReadingBacklogKey(p, key) =>
      s.(receiver := if s.key != [] then Draining(p, key, s.key) else Decrypting(p, key))
    case Draining(p, key, backlogKey) =>
      if s.backlog == [] then s.(receiver := Decrypting(p, key)) else DrainedOne(open, backlogKey, s)
    case Decrypting(p, key) => Decrypted(open, s, p, key, debris)
    case Forgetting(p) => s.(key := [], receiver := Queueing(p, true))
    case Queueing(p, failed) =>
      Pushed(s, Entry(p, s.now)).(receiver := if failed then Deciding else Loading)
    case Deciding => s.(receiver := if EXPIRY < s.now then Loading else Sampling)
    case Loading => s.(receiver := if s.queryDone then Joining else Sampling)
    case Joining => Joined(s)
    case Claiming => s.(queryDone := false, receiver := Spawning)
    case Spawning => s.(threads := s.threads + [Asking], joinable := Some(|s.threads|), receiver := Sampling)
    case Sampling => s.(receiver := Clearing(s.now))
    case Clearing(sampled) =>
      if s.backlog == [] || IsYoung(s.backlog[0], sampled) then s.(receiver := Idle) else ExpiredOne(s)
  }

  /** Joining waits until the thread has exited. */
  function Joined(s: State): State {
    match s.joinable
    case Some(t) => if t < |s.threads| && s.threads[t].Exited? then s.(joinable := None, receiver := Claiming) else s
    case None => s.(receiver := Claiming)
  }

  function Queried(s: State, t: nat, result: Key): State
    requires t < |s.threads|
  {
    match s.threads[t]
    case Asking => s.(threads := s.threads[t := Writing(result)])
    case Writing(key) => s.(key := key, threads := s.threads[t := Storing])
    case Storing => s.(queryDone := true, threads := s.threads[t := Leaving])
    case Leaving => s.(threads := s.threads[t := Exited])
    case Exited => s
  }

  /** Actions that cannot happen in a state leave it as it is. */
  function Next(open: Opener, s: State, a: Action): State {
    match a
    case Tick(passed) => s.(now := s.now + passed)
    case Arrive(data) =>
      if !s.receiver.Idle? then s
      else s.(arrivals := s.arrivals + [data], lastReceive := s.now, receiver := ReadingKey(Packet(|s.arrivals|, data)))
    case Receive(debris) => Received(open, s, debris)
    case Query(t, result) => if t < |s.threads| then Queried(s, t, result) else s
  }

  function After(open: Opener, s: State, actions: seq<Action>): State {
    if actions == [] then s else Next(open, After(open, s, actions[..|actions| - 1]), actions[|actions| - 1])
  }

  // ------------------------------------------------------------------ conservation

  function DeliveredIds(ds: seq<Delivery>): seq<nat> {
    seq(|ds|, i requires 0 <= i < |ds| => ds[i].id)
  }

  function BacklogIds(es: seq<Entry>): seq<nat> {
    seq(|es|, i requires 0 <= i < |es| => es[i].packet.id)
  }

  function InFlight(r: Receiver): seq<nat> {
    if r.ReadingKey? || r.ReadingBacklogKey? || r.Draining? || r.Decrypting? || r.Forgetting? || r.Queueing?
    then [r.packet.id] else []
  }

  /** Every place where a packet can be, with the packets that are there. */
  function Places(s: State): multiset<nat> {
    multiset(DeliveredIds(s.delivered)) + multiset(s.undecryptable) + multiset(s.expired)
    + multiset(s.refused) + multiset(BacklogIds(s.backlog)) + multiset(InFlight(s.receiver))
  }

  function UpTo(n: nat): seq<nat> {
    seq(n, i requires 0 <= i < n => i)
  }

  ghost predicate Conserved(s: State) {
    Places(s) == multiset(UpTo(|s.arrivals|))
  }

  lemma IdsAppend(ds: seq<Delivery>, d: Delivery, es: seq<Entry>, e: Entry)
    ensures DeliveredIds(ds + [d]) == DeliveredIds(ds) + [d.id]
    ensures BacklogIds(es + [e]) == BacklogIds(es) + [e.packet.id]
  {}

  lemma BacklogIdsFront(es: seq<Entry>)
    requires es != []
    ensures multiset(BacklogIds(es)) == multiset{es[0].packet.id} + multiset(BacklogIds(es[1..]))
  {
    assert BacklogIds(es) == [es[0].packet.id] + BacklogIds(es[1..]);
  }

  lemma DrainedOneConserves(open: Opener, key: Key, s: State)
    requires s.backlog != []
    ensures Places(DrainedOne(open, key, s)) == Places(s)
  {
    var e := s.backlog[0];
    BacklogIdsFront(s.backlog);
    IdsAppend(s.delivered, Delivery(e.packet.id, key, open(key, e.packet.data).GetOr([])), [], e);
  }

  lemma DecryptedConserves(open: Opener, s: State, p: Packet, key: Key, debris: Bytes)
    requires s.receiver == Decrypting(p, key)
    ensures Places(Decrypted(open, s, p, key, debris)) == Places(s)
  {
    IdsAppend(s.delivered, Delivery(p.id, key, open(key, p.data).GetOr([])), s.backlog, Entry(p, s.now));
  }

  lemma PushedConserves(s: State, p: Packet, next: Receiver)
    requires InFlight(s.receiver) == [p.id] && InFlight(next) == []
    ensures Places(Pushed(s, Entry(p, s.now)).(receiver := next)) == Places(s)
  {
    IdsAppend(s.delivered, Delivery(p.id, [], []), s.backlog, Entry(p, s.now));
  }

  lemma ExpiredOneConserves(s: State)
    requires s.backlog != []
    ensures Places(ExpiredOne(s)) == Places(s)
  {
    BacklogIdsFront(s.backlog);
  }

  /** No packet was moved. */
  ghost predicate SameLedger(s: State, t: State) {
    && t.arrivals == s.arrivals && t.delivered == s.delivered && t.undecryptable == s.undecryptable
    && t.expired == s.expired && t.refused == s.refused && t.backlog == s.backlog
    && InFlight(t.receiver) == InFlight(s.receiver)
  }

  predicate Moves(s: State) {
    match s.receiver
    case Draining(_, _, _) => s.backlog != []
    case Decrypting(_, _) => true
    case Queueing(_, _) => true
    case Clearing(sampled) => s.backlog != [] && !IsYoung(s.backlog[0], sampled)
    case _ => false
  }

  lemma OtherStepsMoveNothing(open: Opener, s: State, debris: Bytes)
    requires !Moves(s)
    ensures SameLedger(s, Received(open, s, debris))
  {}

  lemma ReceivedConserves(open: Opener, s: State, debris: Bytes)
    requires Moves(s)
    ensures Places(Received(open, s, debris)) == Places(s)
  {
    match s.receiver
    case Draining(p, key, backlogKey) => DrainedOneConserves(open, backlogKey, s);
    case Decrypting(p, key) => DecryptedConserves(open, s, p, key, debris);
    case Queueing(p, failed) => PushedConserves(s, p, if failed then Deciding else Loading);
    case Clearing(sampled) => ExpiredOneConserves(s);
  }

  lemma ArrivedConserves(open: Opener, s: State, data: Bytes)
    requires s.receiver.Idle?
    ensures Places(Next(open, s, Arrive(data))) == Places(s) + multiset{|s.arrivals|}
  {}

  lemma UpToNext(n: nat)
    ensures multiset(UpTo(n + 1)) == multiset(UpTo(n)) + multiset{n}
  {
    assert UpTo(n + 1) == UpTo(n) + [n];
  }

  lemma SameLedgerConserves(s: State, t: State)
    requires SameLedger(s, t) && Conserved(s)
    ensures Conserved(t)
  {}

  lemma ReceivedKeepsArrivals(open: Opener, s: State, debris: Bytes)
    ensures Received(open, s, debris).arrivals == s.arrivals
  {}

  lemma ReceivedKeepsConserved(open: Opener, s: State, debris: Bytes)
    requires Conserved(s)
    ensures Conserved(Received(open, s, debris))
  {
    if Moves(s) {
      ReceivedKeepsArrivals(open, s, debris);
      ReceivedConserves(open, s, debris);
    } else {
      OtherStepsMoveNothing(open, s, debris);
      SameLedgerConserves(s, Received(open, s, debris));
    }
  }

  lemma OthersMoveNothing(open: Opener, s: State, a: Action)
    requires a.Tick? || a.Query?
    ensures SameLedger(s, Next(open, s, a))
  {}

  lemma NextConserves(open: Opener, s: State, a: Action)
    requires Conserved(s)
    ensures Conserved(Next(open, s, a))
  {
    match a
    case Arrive(data) =>
      if s.receiver.Idle? {
        ArrivedConserves(open, s, data);
        UpToNext(|s.arrivals|);
      }
    case Receive(debris) => ReceivedKeepsConserved(open, s, debris);
    case _ =>
      OthersMoveNothing(open, s, a);
      SameLedgerConserves(s, Next(open, s, a));
  }

  lemma {:induction false} AlwaysConserved(open: Opener, actions: seq<Action>)
    ensures Conserved(After(open, START, actions))
  {
    if actions == [] {
      assert UpTo(0) == [] && DeliveredIds([]) == [] && BacklogIds([]) == [];
    } else {
      AlwaysConserved(open, actions[..|actions| - 1]);
      NextConserves(open, After(open, START, actions[..|actions| - 1]), actions[|actions| - 1]);
    }
  }

  lemma {:induction false} OnceEach(n: nat, id: nat)
    ensures multiset(UpTo(n))[id] == if id < n then 1 else 0
  {
    if n == 0 {
      assert UpTo(0) == [];
    } else {
      assert UpTo(n) == UpTo(n - 1) + [n - 1];
      OnceEach(n - 1, id);
    }
  }

  /** In every interleaving, each packet given to the source is, exactly once, delivered,
      dropped because it does not decrypt, dropped because it is too old, refused by a full
      backlog, still in the backlog, or the one being processed; and nothing else is. */
  lemma EachPacketOnce(open: Opener, actions: seq<Action>, id: nat)
    ensures var s := After(open, START, actions);
      multiset(DeliveredIds(s.delivered))[id] + multiset(s.undecryptable)[id] + multiset(s.expired)[id]
      + multiset(s.refused)[id] + multiset(BacklogIds(s.backlog))[id] + multiset(InFlight(s.receiver))[id]
      == if id < |s.arrivals| then 1 else 0
  {
    var s := After(open, START, actions);
    AlwaysConserved(open, actions);
    OnceEach(|s.arrivals|, id);
  }

  /** A step drops or delivers a packet only for its reason: of a backlog being drained, the
      first packet is delivered or dropped by whether the key opens it; of one being cleared,
      the first is dropped if it is too old; the packet at hand is refused if the backlog is
      full, and delivered if the key opens it. */
  lemma FatesHaveReasons(open: Opener, s: State, debris: Bytes)
    ensures var t, r := Received(open, s, debris), s.receiver;
      && (t.undecryptable != s.undecryptable <==>
          r.Draining? && s.backlog != [] && open(r.backlogKey, s.backlog[0].packet.data).None?)
      && (t.expired != s.expired <==> r.Clearing? && s.backlog != [] && s.backlog[0].received + 5_000_000 <= r.sampled)
      && (t.refused != s.refused <==> r.Queueing? && |s.backlog| >= 100)
      && (t.delivered != s.delivered <==>
          ((r.Draining? && s.backlog != [] && open(r.backlogKey, s.backlog[0].packet.data).Some?)
           || (r.Decrypting? && open(r.key, r.packet.data).Some?)))
  {}

  // ------------------------------------------------------------------ the backlog

  ghost predicate BacklogInOrder(s: State) {
    && |s.backlog| <= BACKLOG_LIMIT
    && (forall i, j :: 0 <= i < j < |s.backlog| ==> s.backlog[i].received <= s.backlog[j].received)
    && (forall i :: 0 <= i < |s.backlog| ==> s.backlog[i].received <= s.now)
  }

  lemma PushedInOrder(s: State, p: Packet, next: Receiver)
    requires BacklogInOrder(s)
    ensures BacklogInOrder(Pushed(s, Entry(p, s.now)).(receiver := next))
  {}

  lemma RestInOrder(s: State, t: State)
    requires BacklogInOrder(s) && s.backlog != [] && t.backlog == s.backlog[1..] && t.now == s.now
    ensures BacklogInOrder(t)
  {}

  lemma MovesKeepBacklogInOrder(open: Opener, s: State, debris: Bytes)
    requires BacklogInOrder(s) && Moves(s)
    ensures BacklogInOrder(Received(open, s, debris))
  {
    match s.receiver
    case Queueing(p, failed) => PushedInOrder(s, p, if failed then Deciding else Loading);
    case Decrypting(_, _) =>
    case _ => RestInOrder(s, Received(open, s, debris));
  }

  lemma NextKeepsBacklogInOrder(open: Opener, s: State, a: Action)
    requires BacklogInOrder(s)
    ensures BacklogInOrder(Next(open, s, a))
  {
    ClockIsMonotone(open, s, a);
    match a
    case Receive(debris) =>
      if Moves(s) {
        MovesKeepBacklogInOrder(open, s, debris);
      } else {
        OtherStepsMoveNothing(open, s, debris);
      }
    case Arrive(data) =>
    case _ => OthersMoveNothing(open, s, a);
  }

  lemma ClockIsMonotone(open: Opener, s: State, a: Action)
    ensures s.now <= Next(open, s, a).now
  {}

  /** The backlog is always sorted by receive time, and never longer than its limit. */
  lemma {:induction false} BacklogAlwaysInOrder(open: Opener, actions: seq<Action>)
    ensures BacklogInOrder(After(open, START, actions)) && |After(open, START, actions).backlog| <= 100
  {
    if actions != [] {
      BacklogAlwaysInOrder(open, actions[..|actions| - 1]);
      NextKeepsBacklogInOrder(open, After(open, START, actions[..|actions| - 1]), actions[|actions| - 1]);
    }
  }

  /** When clearing ends, exactly the entries younger than five seconds at the time that was
      sampled are left. */
  lemma ClearingLeavesTheYoung(open: Opener, s: State, debris: Bytes)
    requires BacklogInOrder(s) && s.receiver.Clearing?
    ensures Received(open, s, debris).receiver.Idle?
       <==> forall e :: e in s.backlog ==> s.receiver.sampled < e.received + 5_000_000
    ensures !Received(open, s, debris).receiver.Idle? ==>
      Received(open, s, debris) == ExpiredOne(s) && !IsYoung(s.backlog[0], s.receiver.sampled)
  {}

  function Stage(r: Receiver): nat {
    match r
    case Idle => 0
    case Clearing(_) => 1
    case Sampling => 2
    case Spawning => 3
    case Claiming => 4
    case Joining => 5
    case Loading => 6
    case Deciding => 7
    case Queueing(_, _) => 8
    case Forgetting(_) => 9
    case Decrypting(_, _) => 10
    case Draining(_, _, _) => 11
    case ReadingBacklogKey(_, _) => 12
    case ReadingKey(_) => 13
  }

  function StepsLeft(s: State): nat {
    Stage(s.receiver) * (BACKLOG_LIMIT + 2) + |s.backlog|
  }

  predicate Waits(s: State) {
    s.receiver.Joining? && s.joinable.Some? && !(s.joinable.value < |s.threads| && s.threads[s.joinable.value].Exited?)
  }

  lemma MovingFalls(open: Opener, s: State, debris: Bytes)
    requires Moves(s)
    ensures var t := Received(open, s, debris);
      || (Stage(t.receiver) < Stage(s.receiver) && |t.backlog| <= |s.backlog| + 1)
      || (Stage(t.receiver) == Stage(s.receiver) && |t.backlog| < |s.backlog|)
  {}

  lemma OtherStageFalls(open: Opener, s: State, debris: Bytes)
    requires !Moves(s) && !s.receiver.Idle? && !Waits(s)
    ensures Stage(Received(open, s, debris).receiver) < Stage(s.receiver)
  {}

  /** `ProcessPacket` ends: each of its steps takes it closer, except that joining waits for
      a thread that has stored its result to return. */
  lemma ReceiverAdvances(open: Opener, s: State, debris: Bytes)
    requires BacklogInOrder(s) && OneQuery(s) && !s.receiver.Idle?
    ensures StepsLeft(Received(open, s, debris)) < StepsLeft(s)
         || (s.receiver.Joining? && s.joinable.Some? && s.threads[s.joinable.value].Leaving?)
  {
    var t := Received(open, s, debris);
    if Moves(s) {
      MovingFalls(open, s, debris);
    } else if !Waits(s) {
      OtherStepsMoveNothing(open, s, debris);
      OtherStageFalls(open, s, debris);
    }
    NextKeepsBacklogInOrder(open, s, Receive(debris));
  }

  // ------------------------------------------------------------------ queries

  predicate Unfinished(q: Query) {
    q.Asking? || q.Writing? || q.Storing?
  }

  /** Only the last thread may be running, it is the one that can be joined, and it is
      unfinished exactly while `queryDone` is false; but the receiver stores false before it
      starts the thread. */
  ghost predicate OneQuery(s: State) {
    var n := |s.threads|;
    && (forall t :: 0 <= t < n - 1 ==> s.threads[t].Exited?)
    && (s.joinable.Some? ==> 0 < n && s.joinable.value == n - 1)
    && (s.joinable.None? && 0 < n ==> s.threads[n - 1].Exited?)
    && (s.receiver.Spawning? || s.receiver.Claiming? ==> s.joinable.None?)
    && (s.receiver.Joining? || s.receiver.Claiming? ==> s.queryDone)
    && (s.queryDone <==> !s.receiver.Spawning? && (0 < n ==> !Unfinished(s.threads[n - 1])))
  }

  lemma QueriedKeepsOneQuery(s: State, t: nat, result: Key)
    requires OneQuery(s) && t < |s.threads|
    ensures OneQuery(Queried(s, t, result))
  {}

  predicate StartsQuery(r: Receiver) {
    r.Loading? || r.Joining? || r.Claiming? || r.Spawning?
  }

  lemma StartingKeepsOneQuery(open: Opener, s: State, debris: Bytes)
    requires OneQuery(s) && StartsQuery(s.receiver)
    ensures OneQuery(Received(open, s, debris))
  {}

  lemma OtherStepsStartNothing(open: Opener, s: State, debris: Bytes)
    requires !StartsQuery(s.receiver)
    ensures var t := Received(open, s, debris);
      t.threads == s.threads && t.joinable == s.joinable && t.queryDone == s.queryDone
      && (t.receiver.Loading? || !StartsQuery(t.receiver))
  {}

  lemma ReceivedKeepsOneQuery(open: Opener, s: State, debris: Bytes)
    requires OneQuery(s)
    ensures OneQuery(Received(open, s, debris))
  {
    if StartsQuery(s.receiver) {
      StartingKeepsOneQuery(open, s, debris);
    } else {
      OtherStepsStartNothing(open, s, debris);
    }
  }

  lemma {:induction false} AlwaysOneQuery(open: Opener, actions: seq<Action>)
    ensures OneQuery(After(open, START, actions))
  {
    if actions != [] {
      var s, a := After(open, START, actions[..|actions| - 1]), actions[|actions| - 1];
      AlwaysOneQuery(open, actions[..|actions| - 1]);
      match a
      case Receive(debris) => ReceivedKeepsOneQuery(open, s, debris);
      case Query(t, result) =>
        if t < |s.threads| {
          QueriedKeepsOneQuery(s, t, result);
        }
      case _ =>
    }
  }

  /** A thread is unfinished. */
  ghost predicate Querying(s: State) {
    exists t :: 0 <= t < |s.threads| && Unfinished(s.threads[t])
  }

  lemma OnlyLastUnfinished(s: State, t: nat)
    requires OneQuery(s) && t < |s.threads| && Unfinished(s.threads[t])
    ensures t == |s.threads| - 1
  {}

  lemma QueryingIsNotDone(s: State)
    requires OneQuery(s)
    ensures !s.queryDone && !s.receiver.Spawning? <==> Querying(s)
    ensures s.receiver.Spawning? ==> s.joinable.None? && forall t :: 0 <= t < |s.threads| ==> s.threads[t].Exited?
  {
    if !s.queryDone && !s.receiver.Spawning? {
      assert Unfinished(s.threads[|s.threads| - 1]);
    }
  }

  /** In every interleaving at most one query thread is unfinished, and one is exactly when
      `queryDone` is false and the receiver is not about to start it; a thread is started only
      when none is left to be joined. */
  lemma AtMostOneQuery(open: Opener, actions: seq<Action>, t: nat, u: nat)
    ensures var s := After(open, START, actions);
      && (t < |s.threads| && u < |s.threads| && Unfinished(s.threads[t]) && Unfinished(s.threads[u]) ==> t == u)
      && (!s.queryDone && !s.receiver.Spawning? <==> Querying(s))
      && (s.receiver.Spawning? ==> s.joinable.None? && forall v :: 0 <= v < |s.threads| ==> s.threads[v].Exited?)
  {
    var s := After(open, START, actions);
    AlwaysOneQuery(open, actions);
    QueryingIsNotDone(s);
    if t < |s.threads| && u < |s.threads| && Unfinished(s.threads[t]) && Unfinished(s.threads[u]) {
      OnlyLastUnfinished(s, t);
      OnlyLastUnfinished(s, u);
    }
  }

  // ------------------------------------------------------------------ order of delivery

  ghost predicate Increasing(ids: seq<nat>) {
    forall i, j :: 0 <= i < j < |ids| ==> ids[i] < ids[j]
  }

  /** The packets delivered, those in the backlog and the one at hand, in this order. */
  function Line(s: State): seq<nat> {
    DeliveredIds(s.delivered) + BacklogIds(s.backlog) + InFlight(s.receiver)
  }

  /** They are in the order of their arrival. */
  ghost predicate Ordered(s: State) {
    && Increasing(Line(s))
    && (forall i :: 0 <= i < |Line(s)| ==> Line(s)[i] < |s.arrivals|)
  }

  predicate Overtakes(open: Opener, s: State, a: Action) {
    a.Receive? && s.receiver.Decrypting? && s.backlog != [] && open(s.receiver.key, s.receiver.packet.data).Some?
  }

  lemma LineWithout(a: seq<nat>, x: nat, b: seq<nat>, bound: nat)
    requires Increasing(a + [x] + b) && forall i :: 0 <= i < |a + [x] + b| ==> (a + [x] + b)[i] < bound
    ensures Increasing(a + b) && forall i :: 0 <= i < |a + b| ==> (a + b)[i] < bound
  {
    var whole, rest := a + [x] + b, a + b;
    assert forall i :: 0 <= i < |rest| ==> rest[i] == whole[if i < |a| then i else i + 1];
  }

  /** Every step keeps the order, but one: the packet at hand is delivered while older ones
      wait in the backlog. */
  lemma NextKeepsOrder(open: Opener, s: State, a: Action)
    requires Ordered(s)
    ensures Ordered(Next(open, s, a)) <==> !Overtakes(open, s, a)
  {
    match a
    case Receive(debris) =>
      if Moves(s) {
        MovingKeepsOrder(open, s, debris);
      } else {
        OtherStepsMoveNothing(open, s, debris);
      }
    case Arrive(data) => ArrivingKeepsOrder(open, s, data);
    case _ => OthersMoveNothing(open, s, a);
  }

  lemma ArrivingKeepsOrder(open: Opener, s: State, data: Bytes)
    requires Ordered(s)
    ensures Ordered(Next(open, s, Arrive(data)))
  {
    if s.receiver.Idle? {
      assert Line(Next(open, s, Arrive(data))) == Line(s) + [|s.arrivals|];
    }
  }

  lemma MovingKeepsOrder(open: Opener, s: State, debris: Bytes)
    requires Ordered(s) && Moves(s)
    ensures Ordered(Received(open, s, debris)) <==> !Overtakes(open, s, Receive(debris))
  {
    match s.receiver
    case Draining(p, key, backlogKey) => DrainingKeepsOrder(open, backlogKey, s);
    case Decrypting(p, key) => DecryptingAndOrder(open, s, debris);
    case Queueing(p, failed) => QueueingKeepsOrder(s, p, if failed then Deciding else Loading);
    case Clearing(sampled) => ExpiringKeepsOrder(s);
  }

  lemma FrontOfLine(s: State)
    requires s.backlog != []
    ensures Line(s) == DeliveredIds(s.delivered) + [s.backlog[0].packet.id]
                       + (BacklogIds(s.backlog[1..]) + InFlight(s.receiver))
  {}

  lemma DrainingKeepsOrder(open: Opener, key: Key, s: State)
    requires Ordered(s) && s.backlog != []
    ensures Ordered(DrainedOne(open, key, s))
  {
    var p := s.backlog[0].packet;
    var t := DrainedOne(open, key, s);
    FrontOfLine(s);
    var behind := BacklogIds(s.backlog[1..]) + InFlight(s.receiver);
    LineWithout(DeliveredIds(s.delivered), p.id, behind, |s.arrivals|);
    assert open(key, p.data).Some? ==> DeliveredIds(t.delivered) == DeliveredIds(s.delivered) + [p.id];
    assert Line(t) == DeliveredIds(t.delivered) + behind;
  }

  lemma ExpiringKeepsOrder(s: State)
    requires Ordered(s) && s.backlog != []
    ensures Ordered(ExpiredOne(s))
  {
    FrontOfLine(s);
    var behind := BacklogIds(s.backlog[1..]) + InFlight(s.receiver);
    LineWithout(DeliveredIds(s.delivered), s.backlog[0].packet.id, behind, |s.arrivals|);
    assert Line(ExpiredOne(s)) == DeliveredIds(s.delivered) + behind;
  }

  lemma QueueingKeepsOrder(s: State, p: Packet, next: Receiver)
    requires Ordered(s) && InFlight(s.receiver) == [p.id] && InFlight(next) == []
    ensures Ordered(Pushed(s, Entry(p, s.now)).(receiver := next))
  {
    var t := Pushed(s, Entry(p, s.now)).(receiver := next);
    var ahead := DeliveredIds(s.delivered) + BacklogIds(s.backlog);
    LineWithout(ahead, p.id, [], |s.arrivals|);
    assert Line(s) == ahead + [p.id] + [];
    if |s.backlog| < BACKLOG_LIMIT {
      assert BacklogIds(t.backlog) == BacklogIds(s.backlog) + [p.id];
      assert Line(t) == Line(s);
    } else {
      assert Line(t) == ahead + [];
    }
  }

  lemma DecryptingAndOrder(open: Opener, s: State, debris: Bytes)
    requires Ordered(s) && s.receiver.Decrypting?
    ensures Ordered(Received(open, s, debris)) <==> !Overtakes(open, s, Receive(debris))
  {
    var t, p, n := Received(open, s, debris), s.receiver.packet, |s.delivered|;
    if open(s.receiver.key, p.data).Some? {
      assert DeliveredIds(t.delivered) == DeliveredIds(s.delivered) + [p.id];
      if s.backlog == [] {
        assert Line(t) == Line(s);
      } else {
        var m := n + |s.backlog|;
        assert Line(s)[n] == s.backlog[0].packet.id && Line(s)[m] == p.id;
        assert Line(t)[n] == p.id && Line(t)[n + 1] == s.backlog[0].packet.id;
      }
    } else {
      assert Line(t) == Line(s);
    }
  }

  /** The query thread empties the key after the receiver has read one and before it reads the
      key again for the backlog. */
  predicate EmptiesInBetween(s: State, a: Action) {
    s.receiver.ReadingBacklogKey? && a.Query? && a.thread < |s.threads| && s.threads[a.thread] == Writing([])
  }

  predicate NeverEmptiesInBetween(open: Opener, actions: seq<Action>) {
    actions == []
    || (var front, last := actions[..|actions| - 1], actions[|actions| - 1];
        NeverEmptiesInBetween(open, front) && !EmptiesInBetween(After(open, START, front), last))
  }

  /** The receiver finds a key for the backlog, and the packet at hand after an empty backlog. */
  ghost predicate BacklogFirst(s: State) {
    && (s.receiver.ReadingBacklogKey? ==> s.key != [])
    && (s.receiver.Decrypting? ==> s.backlog == [])
  }

  lemma NextKeepsBacklogFirst(open: Opener, s: State, a: Action)
    requires BacklogFirst(s) && !EmptiesInBetween(s, a)
    ensures BacklogFirst(Next(open, s, a))
  {}

  /** If the key is never emptied between the two reads of it, whether packets wait or not,
      packets are delivered in the order of their arrival. */
  lemma {:induction false} OrderedDelivery(open: Opener, actions: seq<Action>)
    requires NeverEmptiesInBetween(open, actions)
    ensures Ordered(After(open, START, actions)) && BacklogFirst(After(open, START, actions))
    ensures Increasing(DeliveredIds(After(open, START, actions).delivered))
  {
    if actions != [] {
      var front, last := actions[..|actions| - 1], actions[|actions| - 1];
      var s := After(open, START, front);
      OrderedDelivery(open, front);
      NextKeepsOrder(open, s, last);
      NextKeepsBacklogFirst(open, s, last);
    }
    DeliveredInOrder(After(open, START, actions));
  }

  lemma DeliveredInOrder(s: State)
    requires Ordered(s)
    ensures Increasing(DeliveredIds(s.delivered))
  {
    forall i, j | 0 <= i < j < |s.delivered| ensures s.delivered[i].id < s.delivered[j].id {
      assert Line(s)[i] < Line(s)[j];
    }
  }

  predicate NeverOvertakes(open: Opener, actions: seq<Action>) {
    actions == []
    || (var front, last := actions[..|actions| - 1], actions[|actions| - 1];
        NeverOvertakes(open, front) && !Overtakes(open, After(open, START, front), last))
  }

  /** In order after the actions, and all the time before. */
  ghost predicate AlwaysOrdered(open: Opener, actions: seq<Action>) {
    Ordered(After(open, START, actions)) && (actions == [] || AlwaysOrdered(open, actions[..|actions| - 1]))
  }

  /** A run is in order all the time if and only if no packet overtakes those that wait. */
  lemma {:induction false} OrderedExactly(open: Opener, actions: seq<Action>)
    ensures AlwaysOrdered(open, actions) <==> NeverOvertakes(open, actions)
  {
    if actions == [] {
      assert Line(START) == [];
    } else {
      var front, last := actions[..|actions| - 1], actions[|actions| - 1];
      OrderedExactly(open, front);
      if AlwaysOrdered(open, front) {
        NextKeepsOrder(open, After(open, START, front), last);
      }
    }
  }

  /** The last time the receiver read the key for the backlog, it found none while packets
      were waiting. */
  predicate SkippedBacklog(open: Opener, actions: seq<Action>) {
    actions != []
    && (var front, last := actions[..|actions| - 1], actions[|actions| - 1];
        var s := After(open, START, front);
        if last.Receive? && s.receiver.ReadingBacklogKey? then s.key == [] && s.backlog != []
        else SkippedBacklog(open, front))
  }

  /** While the packet at hand is to be decrypted, packets wait exactly if the backlog was
      skipped; and it is not drained if it was. */
  predicate WaitsIfSkipped(s: State, skipped: bool) {
    && (s.receiver.Decrypting? ==> (s.backlog != [] <==> skipped))
    && (s.receiver.Draining? ==> !skipped)
  }

  lemma NextWaitsIfSkipped(open: Opener, s: State, a: Action, skipped: bool)
    requires WaitsIfSkipped(s, skipped)
    ensures WaitsIfSkipped(Next(open, s, a),
                           if a.Receive? && s.receiver.ReadingBacklogKey? then s.key == [] && s.backlog != [] else skipped)
  {}

  lemma {:induction false} WaitingMeansSkipped(open: Opener, actions: seq<Action>)
    ensures WaitsIfSkipped(After(open, START, actions), SkippedBacklog(open, actions))
  {
    if actions != [] {
      var front := actions[..|actions| - 1];
      WaitingMeansSkipped(open, front);
      NextWaitsIfSkipped(open, After(open, START, front), actions[|actions| - 1], SkippedBacklog(open, front));
    }
  }

  /** A packet overtakes exactly when it opens after its call has skipped the backlog: the second
      read of the key found none while packets were waiting. */
  lemma OvertakesIfSkipped(open: Opener, actions: seq<Action>, a: Action)
    ensures var s := After(open, START, actions);
      Overtakes(open, s, a)
      <==> a.Receive? && s.receiver.Decrypting? && SkippedBacklog(open, actions)
           && open(s.receiver.key, s.receiver.packet.data).Some?
  {
    WaitingMeansSkipped(open, actions);
  }

  // ------------------------------------------------------------------ which key is used

  /** The key at the last time the receiver read it for the packet at hand. */
  function FirstRead(open: Opener, actions: seq<Action>): Key {
    if actions == [] then [] else
      var front, last := actions[..|actions| - 1], actions[|actions| - 1];
      var s := After(open, START, front);
      if last.Receive? && s.receiver.ReadingKey? then s.key else FirstRead(open, front)
  }

  /** The key at the last time the receiver read it for the backlog. */
  function SecondRead(open: Opener, actions: seq<Action>): Key {
    if actions == [] then [] else
      var front, last := actions[..|actions| - 1], actions[|actions| - 1];
      var s := After(open, START, front);
      if last.Receive? && s.receiver.ReadingBacklogKey? then s.key else SecondRead(open, front)
  }

  predicate HoldsKeys(r: Receiver, first: Key, second: Key) {
    && (r.ReadingBacklogKey? || r.Draining? || r.Decrypting? ==> r.key == first)
    && (r.Draining? ==> r.backlogKey == second)
  }

  lemma NextHoldsKeys(open: Opener, s: State, a: Action, first: Key, second: Key)
    requires HoldsKeys(s.receiver, first, second)
    ensures HoldsKeys(Next(open, s, a).receiver,
                      if a.Receive? && s.receiver.ReadingKey? then s.key else first,
                      if a.Receive? && s.receiver.ReadingBacklogKey? then s.key else second)
  {}

  lemma {:induction false} ReadKeysAreHeld(open: Opener, actions: seq<Action>)
    ensures HoldsKeys(After(open, START, actions).receiver, FirstRead(open, actions), SecondRead(open, actions))
  {
    if actions != [] {
      var front := actions[..|actions| - 1];
      ReadKeysAreHeld(open, front);
      NextHoldsKeys(open, After(open, START, front), actions[|actions| - 1],
                    FirstRead(open, front), SecondRead(open, front));
    }
  }

  /** The step delivers nothing, or one packet under this key. */
  ghost predicate DeliversUnder(s: State, t: State, key: Key) {
    t.delivered == s.delivered
    || exists id, payload :: t.delivered == s.delivered + [Delivery(id, key, payload)]
  }

  lemma DrainingDeliversUnder(open: Opener, s: State, key: Key)
    requires s.backlog != []
    ensures DeliversUnder(s, DrainedOne(open, key, s), key)
  {
    var p := s.backlog[0].packet;
    if open(key, p.data).Some? {
      assert DrainedOne(open, key, s).delivered == s.delivered + [Delivery(p.id, key, open(key, p.data).value)];
    }
  }

  lemma DecryptingDeliversUnder(open: Opener, s: State, p: Packet, key: Key, debris: Bytes)
    ensures DeliversUnder(s, Decrypted(open, s, p, key, debris), key)
  {
    if open(key, p.data).Some? {
      assert Decrypted(open, s, p, key, debris).delivered == s.delivered + [Delivery(p.id, key, open(key, p.data).value)];
    }
  }

  lemma OthersDeliverNothing(open: Opener, s: State, debris: Bytes)
    requires !s.receiver.Draining? && !s.receiver.Decrypting?
    ensures Received(open, s, debris).delivered == s.delivered
  {}

  /** In every run, what is delivered from the backlog was opened with the key that was stored
      when its call read it the second time, and the packet at hand with that of the first. */
  lemma OpenedWithReadKey(open: Opener, actions: seq<Action>, debris: Bytes)
    ensures var s := After(open, START, actions);
      DeliversUnder(s, Received(open, s, debris),
                    if s.receiver.Draining? then SecondRead(open, actions) else FirstRead(open, actions))
  {
    var s := After(open, START, actions);
    ReadKeysAreHeld(open, actions);
    match s.receiver
    case Draining(p, key, backlogKey) =>
      if s.backlog != [] {
        DrainingDeliversUnder(open, s, backlogKey);
      }
    case Decrypting(p, key) => DecryptingDeliversUnder(open, s, p, key, debris);
    case _ => OthersDeliverNothing(open, s, debris);
  }

  // ------------------------------------------------------------------ what is delivered

  ghost predicate Genuine(open: Opener, s: State, d: Delivery) {
    d.id < |s.arrivals| && d.key != [] && (d.id in s.damaged || open(d.key, s.arrivals[d.id]) == Some(d.payload))
  }

  ghost predicate Intact(s: State, p: Packet) {
    p.id < |s.arrivals| && (p.id in s.damaged || s.arrivals[p.id] == p.data)
  }

  ghost predicate Waiting(s: State) {
    forall i :: 0 <= i < |s.backlog| ==> Intact(s, s.backlog[i].packet)
  }

  ghost predicate AtHand(s: State) {
    && (InFlight(s.receiver) != [] ==> Intact(s, s.receiver.packet))
    && (s.receiver.Draining? ==> s.receiver.backlogKey != [])
    && (s.receiver.ReadingBacklogKey? || s.receiver.Draining? || s.receiver.Decrypting? ==> s.receiver.key != [])
  }

  ghost predicate Holding(s: State) {
    Waiting(s) && AtHand(s)
  }

  ghost predicate AllGenuine(open: Opener, s: State) {
    forall i :: 0 <= i < |s.delivered| ==> Genuine(open, s, s.delivered[i])
  }

  lemma ReceivedKeepsAtHand(open: Opener, s: State, debris: Bytes)
    requires AtHand(s)
    ensures AtHand(Received(open, s, debris))
  {}

  lemma MovesKeepWaiting(open: Opener, s: State, debris: Bytes)
    requires Holding(s) && Moves(s)
    ensures Waiting(Received(open, s, debris))
  {}

  lemma DamageGrows(open: Opener, s: State, debris: Bytes)
    ensures s.damaged <= Received(open, s, debris).damaged
  {}

  lemma ReceivedKeepsHolding(open: Opener, s: State, debris: Bytes)
    requires Holding(s)
    ensures Holding(Received(open, s, debris))
  {
    ReceivedKeepsAtHand(open, s, debris);
    DamageGrows(open, s, debris);
    if Moves(s) {
      MovesKeepWaiting(open, s, debris);
    } else {
      OtherStepsMoveNothing(open, s, debris);
    }
  }

  lemma NextKeepsHolding(open: Opener, s: State, a: Action)
    requires Holding(s)
    ensures Holding(Next(open, s, a))
  {
    match a
    case Receive(debris) => ReceivedKeepsHolding(open, s, debris);
    case Arrive(data) =>
    case _ => OthersMoveNothing(open, s, a);
  }

  lemma MovesKeepGenuine(open: Opener, s: State, debris: Bytes)
    requires Holding(s) && AllGenuine(open, s) && Moves(s)
    ensures AllGenuine(open, Received(open, s, debris))
  {}

  lemma NextKeepsGenuine(open: Opener, s: State, a: Action)
    requires Holding(s) && AllGenuine(open, s)
    ensures AllGenuine(open, Next(open, s, a))
  {
    match a
    case Receive(debris) =>
      if Moves(s) {
        MovesKeepGenuine(open, s, debris);
      } else {
        OtherStepsMoveNothing(open, s, debris);
        DamageGrows(open, s, debris);
      }
    case Arrive(data) =>
    case _ => OthersMoveNothing(open, s, a);
  }

  /** Every packet delivered is what the key opened of the packet that arrived, unless a
      failed decryption had overwritten it before. */
  lemma {:induction false} DeliveriesAreGenuine(open: Opener, actions: seq<Action>)
    ensures Holding(After(open, START, actions)) && AllGenuine(open, After(open, START, actions))
  {
    if actions != [] {
      var s := After(open, START, actions[..|actions| - 1]);
      DeliveriesAreGenuine(open, actions[..|actions| - 1]);
      NextKeepsHolding(open, s, actions[|actions| - 1]);
      NextKeepsGenuine(open, s, actions[|actions| - 1]);
    }
  }
}
