/** A source of multicast packets, among the other threads. */
module MulticastSources {
  import opened Messages
  import opened MulticastSteps
  import opened Options
  import opened Wire

  /** The messages that the deliveries gave to the sinks. */
  function MessagesOf(codec: Codec, ds: seq<Delivery>): seq<Message> {
    if ds == [] then [] else MessagesOf(codec, ds[..|ds| - 1]) + DecodeAll(codec, ds[|ds| - 1].payload)
  }

  lemma OneMoreAction(open: Opener, trace: seq<Action>, a: Action)
    ensures After(open, START, trace + [a]) == Next(open, After(open, START, trace), a)
  {
    assert (trace + [a])[..|trace|] == trace;
  }

  /** A thread that is to be joined has returned, or is about to. */
  lemma MayBeJoined(open: Opener, s: State)
    requires OneQuery(s) && s.receiver.Joining? && s.joinable.Some?
    ensures var t := s.joinable.value;
      && t < |s.threads| && (s.threads[t].Leaving? || s.threads[t].Exited?)
      && (s.threads[t].Leaving? ==> Next(open, s, Query(t, [])) == s.(threads := s.threads[t := Exited]))
  {}

  /** The `dropped` oldest are gone: exactly those received at least 5,000,000 microseconds ago. */
  ghost predicate LeftYoung(before: seq<Entry>, after: seq<Entry>, now: nat, dropped: nat) {
    && dropped <= |before| && after == before[dropped..]
    && forall i :: 0 <= i < |before| ==> (now < before[i].received + 5_000_000 <==> dropped <= i)
  }

  ghost predicate AllYoung(es: seq<Entry>, now: nat) {
    forall i :: 0 <= i < |es| ==> now < es[i].received + 5_000_000
  }

  lemma OldestDropped(before: seq<Entry>, after: seq<Entry>, now: nat, dropped: nat)
    requires dropped <= |before| && after == before[dropped..]
    requires forall i :: 0 <= i < dropped ==> !IsYoung(before[i], now)
    requires forall i :: 0 <= i < |after| ==> IsYoung(after[i], now)
    ensures LeftYoung(before, after, now, dropped) && AllYoung(after, now)
  {
    forall i | dropped <= i < |before| ensures IsYoung(before[i], now) {
      assert after[i - dropped] == before[i];
    }
  }

  /** The source's code, with the query threads and the clock free to act before each access to
      what is shared. Whatever they do, the object has taken the steps of a run. */
  class MulticastSource {
    const codec: Codec
    const open: Opener
    var clock: nat
    var key: Key
    var backlog: seq<Entry>
    var queryDone: bool
    var threads: seq<Query>
    var joinable: Option<nat>
    var lastReceive: nat
    /** What each of the sinks was given. */
    var sunk: seq<Message>

    /** A record of what happened to each packet. */
    var arrivals: seq<Bytes>
    var delivered: seq<Delivery>
    var undecryptable: seq<nat>
    var expired: seq<nat>
    var refused: seq<nat>
    var damaged: set<nat>

    /** Where the receiver is, and the steps that were taken so far. */
    ghost var receiver: Receiver
    ghost var trace: seq<Action>

    constructor (codec: Codec, open: Opener)
      ensures this.codec == codec && this.open == open && Valid() && receiver.Idle? && trace == []
    {
      this.codec, this.open, clock := codec, open, 0;
      key, backlog, queryDone, threads, joinable, lastReceive, sunk := [], [], true, [], None, 0, [];
      arrivals, delivered, undecryptable, expired, refused, damaged := [], [], [], [], [], {};
      receiver, trace := Idle, [];
    }

    ghost function View(): State
      reads this
    {
      State(clock, arrivals, receiver, lastReceive, key, backlog, queryDone, threads, joinable,
            delivered, undecryptable, expired, refused, damaged)
    }

    /** The object is as the run leaves it, and the sinks were given the messages of the packets
        delivered, in that order. */
    ghost predicate Valid()
      reads this
    {
      View() == After(open, START, trace) && sunk == MessagesOf(codec, delivered)
    }

    /** The run went on, without another arrival. */
    twostate predicate Continued()
      reads this
    {
      old(trace) <= trace && arrivals == old(arrivals) && old(clock) <= clock
    }

    /** One action of a query thread or of the clock. */
    method Act(a: Action)
      requires Valid()
      modifies this`clock, this`key, this`queryDone, this`threads, this`trace
      ensures Valid() && Continued()
      ensures a.Query? ==> View() == Next(open, old(View()), a)
    {
      ghost var before, done := View(), trace;
      match a {
        case Tick(passed) => clock := clock + passed;
        case Query(t, result) =>
          if t < |threads| {
            QueryStep(t, result);
          }
        case _ => return;
      }
      OneMoreAction(open, done, a);
      trace := done + [a];
      assert View() == Next(open, before, a);
    }

    /** The body of the query thread, one access at a time. */
    method QueryStep(t: nat, result: Key)
      requires t < |threads|
      modifies this`key, this`queryDone, this`threads
      ensures View() == Queried(old(View()), t, result)
    {
      match threads[t] {
        case Asking => threads := threads[t := Writing(result)];
        case Writing(fetched) =>
          key := fetched;
          threads := threads[t := Storing];
        case Storing =>
          queryDone := true;
          threads := threads[t := Leaving];
        case Leaving => threads := threads[t := Exited];
        case Exited =>
      }
    }

    /** What the others do meanwhile. */
    method Interfere()
      requires Valid()
      modifies this`clock, this`key, this`queryDone, this`threads, this`trace
      ensures Valid() && Continued()
    {
      var n: int := *;
      for i := 0 to if n < 0 then 0 else n
        invariant Valid() && Continued()
      {
        var a: Action := *;
        Act(a);
      }
    }

    /** Records a step of the receiver that has just been taken. */
    ghost method Took(before: State, debris: Bytes)
      requires before == After(open, START, trace)
      requires View() == Received(open, before, debris) && sunk == MessagesOf(codec, delivered)
      modifies this`trace
      ensures Valid() && trace == old(trace) + [Receive(debris)]
    {
      OneMoreAction(open, trace, Receive(debris));
      trace := trace + [Receive(debris)];
    }

    method ReadKey(p: Packet) returns (k: Key)
      requires Valid() && receiver == ReadingKey(p)
      modifies this`clock, this`key, this`queryDone, this`threads, this`trace, this`receiver
      ensures Valid() && Continued()
      ensures receiver == if k != [] then ReadingBacklogKey(p, k) else Queueing(p, false)
    {
      Interfere();
      ghost var before := View();
      k := key;
      receiver := if k != [] then ReadingBacklogKey(p, k) else Queueing(p, false);
      Took(before, []);
    }

    method Deliver(id: nat, usedKey: Key, payload: Bytes) returns (any: bool)
      requires sunk == MessagesOf(codec, delivered)
      modifies this`delivered, this`sunk
      ensures sunk == MessagesOf(codec, delivered) && delivered == old(delivered) + [Delivery(id, usedKey, payload)]
      ensures any == (DecodeAll(codec, payload) != [])
    {
      var msgs := ReadMessages(codec, payload);
      sunk := sunk + msgs;
      delivered := delivered + [Delivery(id, usedKey, payload)];
      assert delivered[..|delivered| - 1] == old(delivered);
      any := msgs != [];
    }

    /** Drains the backlog if the key it reads is not empty. */
    method ProcessBacklog(p: Packet, k: Key)
      requires Valid() && receiver == ReadingBacklogKey(p, k)
      modifies this
      ensures Valid() && receiver == Decrypting(p, k) && Continued()
    {
      var mcastKey := ReadBacklogKey(p, k);
      if mcastKey != [] {
        while backlog != []
          invariant Valid() && receiver == Draining(p, k, mcastKey) && Continued()
          decreases |backlog|
        {
          DrainOne(p, k, mcastKey);
        }
        ghost var before := View();
        receiver := Decrypting(p, k);
        Took(before, []);
      }
    }

    method ReadBacklogKey(p: Packet, k: Key) returns (mcastKey: Key)
      requires Valid() && receiver == ReadingBacklogKey(p, k)
      modifies this`clock, this`key, this`queryDone, this`threads, this`joinable, this`receiver, this`trace
      ensures Valid() && Continued()
      ensures receiver == if mcastKey != [] then Draining(p, k, mcastKey) else Decrypting(p, k)
    {
      Interfere();
      ghost var before := View();
      mcastKey := key;
      receiver := if mcastKey != [] then Draining(p, k, mcastKey) else Decrypting(p, k);
      Took(before, []);
    }

    method DrainOne(p: Packet, k: Key, mcastKey: Key)
      requires Valid() && backlog != [] && receiver == Draining(p, k, mcastKey)
      modifies this
      ensures Valid() && receiver == old(receiver) && Continued() && backlog == old(backlog)[1..]
    {
      Interfere();
      ghost var before := View();
      PopAndDecrypt(mcastKey);
      Took(before, []);
    }

    method PopAndDecrypt(mcastKey: Key)
      requires backlog != [] && sunk == MessagesOf(codec, delivered)
      modifies this`backlog, this`delivered, this`undecryptable, this`sunk
      ensures View() == DrainedOne(open, mcastKey, old(View())) && sunk == MessagesOf(codec, delivered)
    {
      ghost var before := View();
      var front := backlog[0].packet;
      backlog := backlog[1..];
      var payload := open(mcastKey, front.data);
      if payload.Some? {
        var _ := Deliver(front.id, mcastKey, payload.value);
        assert View() == before.(backlog := before.backlog[1..],
                                 delivered := before.delivered + [Delivery(front.id, mcastKey, payload.value)]);
      } else {
        undecryptable := undecryptable + [front.id];
        assert View() == before.(backlog := before.backlog[1..], undecryptable := before.undecryptable + [front.id]);
      }
    }

    /** Decrypts the packet at hand in place; what a failure leaves of it is not known. */
    method DecryptCurrent(p: Packet, k: Key, debris: Bytes) returns (success: bool, rc: bool)
      requires Valid() && receiver == Decrypting(p, k)
      modifies this
      ensures Valid() && Continued()
      ensures receiver == if success then Sampling else Forgetting(p.(data := debris))
      ensures rc == (open(k, p.data).Some? && DecodeAll(codec, open(k, p.data).value) != [])
    {
      var payload := open(k, p.data);
      success, rc := payload.Some?, false;
      if success {
        rc := DeliverCurrent(p, k, payload.value, debris);
      } else {
        Spoil(p, k, debris);
      }
    }

    method DeliverCurrent(p: Packet, k: Key, payload: Bytes, debris: Bytes) returns (rc: bool)
      requires Valid() && receiver == Decrypting(p, k) && open(k, p.data) == Some(payload)
      modifies this
      ensures Valid() && Continued() && receiver == Sampling && rc == (DecodeAll(codec, payload) != [])
    {
      ghost var before := View();
      rc := Deliver(p.id, k, payload);
      receiver := Sampling;
      assert View() == before.(receiver := Sampling, delivered := before.delivered + [Delivery(p.id, k, payload)]);
      Took(before, debris);
    }

    method Spoil(p: Packet, k: Key, debris: Bytes)
      requires Valid() && receiver == Decrypting(p, k) && open(k, p.data) == None
      modifies this
      ensures Valid() && Continued() && receiver == Forgetting(p.(data := debris))
    {
      ghost var before := View();
      damaged := damaged + {p.id};
      receiver := Forgetting(p.(data := debris));
      Took(before, debris);
    }

    method ForgetKey(p: Packet)
      requires Valid() && receiver == Forgetting(p)
      modifies this`clock, this`key, this`queryDone, this`threads, this`joinable, this`receiver, this`trace
      ensures Valid() && receiver == Queueing(p, true) && Continued()
    {
      Interfere();
      ghost var before := View();
      key, receiver := [], Queueing(p, true);
      Took(before, []);
    }

    /** A backlog of a hundred packets takes no more. */
    method PushBack(p: Packet, failed: bool) returns (received: nat)
      requires Valid() && receiver == Queueing(p, failed)
      modifies this
      ensures Valid() && receiver == (if failed then Deciding else Loading)
      ensures Continued() && old(clock) <= received <= clock
      ensures backlog == old(backlog) + (if |old(backlog)| < 100 then [Entry(p, received)] else [])
    {
      Interfere();
      ghost var before := View();
      received := clock;
      Enqueue(Entry(p, received));
      receiver := if failed then Deciding else Loading;
      Took(before, []);
    }

    method Enqueue(e: Entry)
      modifies this`backlog, this`refused
      ensures View() == Pushed(old(View()), e)
      ensures backlog == old(backlog) + (if |old(backlog)| < 100 then [e] else [])
    {
      if |backlog| < BACKLOG_LIMIT {
        backlog := backlog + [e];
      } else {
        refused := refused + [e.packet.id];
      }
    }

    /** Compares with the time of the key's last update, which its copy does not carry. */
    method StartQueryUnlessRecent()
      requires Valid() && receiver.Deciding?
      modifies this`clock, this`key, this`queryDone, this`threads, this`joinable, this`receiver, this`trace
      ensures Valid() && receiver.Sampling? && Continued()
    {
      Interfere();
      ghost var before := View();
      var expired := EXPIRY < clock;
      receiver := if expired then Loading else Sampling;
      Took(before, []);
      if expired {
        StartQuery();
      }
    }

    /** Starts a thread if none is unfinished; one that has stored its result is waited for. */
    method StartQuery()
      requires Valid() && receiver.Loading?
      modifies this`clock, this`key, this`queryDone, this`threads, this`joinable, this`receiver, this`trace
      ensures Valid() && receiver.Sampling? && Continued()
    {
      var done := LoadQueryDone();
      if done {
        Join();
        StoreQueryNotDone();
        Spawn();
      }
    }

    method LoadQueryDone() returns (done: bool)
      requires Valid() && receiver.Loading?
      modifies this`clock, this`key, this`queryDone, this`threads, this`joinable, this`receiver, this`trace
      ensures Valid() && receiver == (if done then Joining else Sampling) && Continued()
    {
      Interfere();
      ghost var before := View();
      done := queryDone;
      receiver := if done then Joining else Sampling;
      Took(before, []);
    }

    method StoreQueryNotDone()
      requires Valid() && receiver.Claiming?
      modifies this`clock, this`key, this`queryDone, this`threads, this`joinable, this`receiver, this`trace
      ensures Valid() && receiver.Spawning? && Continued()
    {
      Interfere();
      ghost var before := View();
      queryDone, receiver := false, Spawning;
      Took(before, []);
    }

    method Spawn()
      requires Valid() && receiver.Spawning?
      modifies this`clock, this`key, this`queryDone, this`threads, this`joinable, this`receiver, this`trace
      ensures Valid() && receiver.Sampling? && Continued()
    {
      Interfere();
      ghost var before := View();
      joinable, threads, receiver := Some(|threads|), threads + [Asking], Sampling;
      Took(before, []);
    }

    /** Waits for the thread to return, which has stored its result. */
    method Join()
      requires Valid() && receiver.Joining?
      modifies this`clock, this`key, this`queryDone, this`threads, this`joinable, this`receiver, this`trace
      ensures Valid() && receiver.Claiming? && Continued()
    {
      Interfere();
      WaitForThread();
      ghost var before := View();
      joinable, receiver := None, Claiming;
      Took(before, []);
    }

    method WaitForThread()
      requires Valid() && receiver.Joining?
      modifies this`key, this`queryDone, this`threads, this`clock, this`trace
      ensures Valid() && Continued()
      ensures joinable.Some? ==> joinable.value < |threads| && threads[joinable.value].Exited?
    {
      AlwaysOneQuery(open, trace);
      if joinable.Some? {
        MayBeJoined(open, View());
      }
      if joinable.Some? && !threads[joinable.value].Exited? {
        Act(Query(joinable.value, []));
      }
    }

    /** Drops exactly the packets that are five seconds old at the time that is read. */
    method ClearOldBacklog() returns (now: nat, ghost dropped: nat)
      requires Valid() && receiver.Sampling?
      modifies this
      ensures Valid() && receiver.Idle? && Continued() && old(clock) <= now <= clock
      ensures LeftYoung(old(backlog), backlog, now, dropped) && AllYoung(backlog, now)
    {
      now := SampleTime();
      dropped := 0;
      while backlog != [] && !IsYoung(backlog[0], now)
        invariant Valid() && receiver == Clearing(now) && Continued() && old(clock) <= now <= clock
        invariant dropped <= |old(backlog)| && backlog == old(backlog)[dropped..]
        invariant forall i :: 0 <= i < dropped ==> !IsYoung(old(backlog)[i], now)
        decreases |backlog|
      {
        DropOldest(now);
        dropped := dropped + 1;
      }
      FinishClearing(now);
      OldestDropped(old(backlog), backlog, now, dropped);
    }

    method SampleTime() returns (now: nat)
      requires Valid() && receiver.Sampling?
      modifies this`clock, this`key, this`queryDone, this`threads, this`joinable, this`receiver, this`trace
      ensures Valid() && receiver == Clearing(now) && Continued() && old(clock) <= now <= clock
    {
      Interfere();
      ghost var before := View();
      now := clock;
      receiver := Clearing(now);
      Took(before, []);
    }

    method FinishClearing(now: nat)
      requires Valid() && receiver == Clearing(now) && (backlog == [] || IsYoung(backlog[0], now))
      modifies this`receiver, this`trace
      ensures Valid() && receiver.Idle? && Continued()
      ensures forall i :: 0 <= i < |backlog| ==> IsYoung(backlog[i], now)
    {
      ghost var before := View();
      BacklogAlwaysInOrder(open, trace);
      receiver := Idle;
      Took(before, []);
    }

    method DropOldest(now: nat)
      requires Valid() && receiver == Clearing(now) && backlog != [] && !IsYoung(backlog[0], now)
      modifies this
      ensures Valid() && receiver == old(receiver) && Continued() && backlog == old(backlog)[1..]
    {
      ghost var before := View();
      expired, backlog := expired + [backlog[0].packet.id], backlog[1..];
      Took(before, []);
    }

    /** Takes the packet as the next arrival. The result is true if the key that was read first
        is empty, or opens the packet and a message can be read. Without a key, the packet joins
        those that wait, unless they are a hundred, and of all of them exactly the ones younger
        than five seconds are kept. */
    method ProcessPacket(data: Bytes, debris: Bytes)
        returns (rc: bool, ghost firstKey: Key, ghost received: nat, ghost now: nat, ghost dropped: nat)
      requires Valid() && receiver.Idle?
      modifies this
      ensures Valid() && receiver.Idle? && arrivals == old(arrivals) + [data] && old(trace) <= trace
      ensures rc <==> firstKey == [] || (open(firstKey, data).Some? && DecodeAll(codec, open(firstKey, data).value) != [])
      ensures old(clock) <= now <= clock && AllYoung(backlog, now)
      ensures firstKey == [] ==> old(clock) <= received <= now
      ensures firstKey == [] ==>
        var entry := Entry(Packet(|old(arrivals)|, data), received);
        LeftYoung(old(backlog) + (if |old(backlog)| < 100 then [entry] else []), backlog, now, dropped)
    {
      var p := Arrived(data);
      var mcastKey := ReadKey(p);
      firstKey := mcastKey;
      if mcastKey != [] {
        received := 0;
        rc := ProcessWithKey(p, mcastKey, debris);
      } else {
        received := ProcessWithoutKey(p);
        rc := true;
      }
      now, dropped := ClearOldBacklog();
    }

    method ProcessWithoutKey(p: Packet) returns (received: nat)
      requires Valid() && receiver == Queueing(p, false)
      modifies this
      ensures Valid() && receiver.Sampling? && Continued() && old(clock) <= received <= clock
      ensures backlog == old(backlog) + (if |old(backlog)| < 100 then [Entry(p, received)] else [])
    {
      received := PushBack(p, false);
      StartQuery();
    }

    method ProcessWithKey(p: Packet, k: Key, debris: Bytes) returns (rc: bool)
      requires Valid() && receiver == ReadingBacklogKey(p, k)
      modifies this
      ensures Valid() && receiver.Sampling? && Continued()
      ensures rc == (open(k, p.data).Some? && DecodeAll(codec, open(k, p.data).value) != [])
    {
      ProcessBacklog(p, k);
      var success;
      success, rc := DecryptCurrent(p, k, debris);
      if !success {
        ForgetKey(p.(data := debris));
        var _ := PushBack(p.(data := debris), true);
        StartQueryUnlessRecent();
      }
    }

    method Arrived(data: Bytes) returns (p: Packet)
      requires Valid() && receiver.Idle?
      modifies this`clock, this`key, this`queryDone, this`threads, this`trace,
        this`lastReceive, this`arrivals, this`receiver
      ensures Valid() && p == Packet(|old(arrivals)|, data) && receiver == ReadingKey(p)
      ensures arrivals == old(arrivals) + [data] && old(clock) <= clock && old(trace) <= trace
    {
      Interfere();
      p := Packet(|arrivals|, data);
      OneMoreAction(open, trace, Action.Arrive(data));
      lastReceive, arrivals := clock, arrivals + [data];
      receiver, trace := ReadingKey(p), trace + [Action.Arrive(data)];
    }
  }
}
