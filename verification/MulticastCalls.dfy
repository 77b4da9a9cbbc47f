/** Whole calls of `ProcessPacket`, and a run in which packets are delivered out of order. */
module MulticastCalls {
  import opened MulticastSteps
  import opened Options
  import opened Wire

  /** `n` steps of the receiver alone. */
  function Steps(open: Opener, s: State, debris: Bytes, n: nat): State
    decreases n
  {
    if n == 0 then s else Steps(open, Received(open, s, debris), debris, n - 1)
  }

  lemma {:induction false} StepsOfBoth(open: Opener, s: State, debris: Bytes, m: nat, n: nat)
    ensures Steps(open, s, debris, m + n) == Steps(open, Steps(open, s, debris, m), debris, n)
    decreases m
  {
    if m > 0 {
      StepsOfBoth(open, Received(open, s, debris), debris, m - 1, n);
    }
  }

  /** The loop of `ProcessBacklog`. */
  function AllDrained(open: Opener, key: Key, s: State): State
    decreases |s.backlog|
  {
    if s.backlog == [] then s else AllDrained(open, key, DrainedOne(open, key, s))
  }

  /** The loop of `ClearOldBacklog`. */
  function Cleared(s: State, sampled: nat): State
    decreases |s.backlog|
  {
    if s.backlog == [] || IsYoung(s.backlog[0], sampled) then s else Cleared(ExpiredOne(s), sampled)
  }

  /** `StartQuery`, when it need not wait. */
  function QueryStarted(s: State): State {
    if s.queryDone then s.(queryDone := false, joinable := Some(|s.threads|), threads := s.threads + [Asking]) else s
  }

  predicate MustWait(s: State) {
    s.queryDone && s.joinable.Some? && !(s.joinable.value < |s.threads| && s.threads[s.joinable.value].Exited?)
  }

  function ArrivedAt(s: State, data: Bytes): State {
    s.(arrivals := s.arrivals + [data], lastReceive := s.now)
  }

  function QueuedAndAsked(s: State, p: Packet): State {
    QueryStarted(Pushed(s, Entry(p, s.now)))
  }

  /** The packet at hand, decrypted after the backlog was drained. */
  function Tried(open: Opener, s: State, p: Packet, key: Key, debris: Bytes): State {
    match open(key, p.data)
    case Some(payload) => s.(delivered := s.delivered + [Delivery(p.id, key, payload)])
    case None =>
      var t := s.(key := [], damaged := s.damaged + {p.id});
      var q := p.(data := debris);
      if EXPIRY < s.now then QueuedAndAsked(t, q) else Pushed(t, Entry(q, s.now))
  }

  /** A whole call of `ProcessPacket` during which no query thread steps and the clock stands
      still. */
  function Handled(open: Opener, s: State, data: Bytes, debris: Bytes): State {
    Cleared(Taken(open, ArrivedAt(s, data), Packet(|s.arrivals|, data), debris), s.now)
  }

  function Taken(open: Opener, s: State, p: Packet, debris: Bytes): State {
    if s.key == [] then QueuedAndAsked(s, p) else Tried(open, AllDrained(open, s.key, s), p, s.key, debris)
  }

  lemma {:induction false} DrainingSteps(open: Opener, s: State, p: Packet, key: Key, backlogKey: Key, debris: Bytes)
    ensures Steps(open, s.(receiver := Draining(p, key, backlogKey)), debris, |s.backlog| + 1)
         == AllDrained(open, backlogKey, s).(receiver := Decrypting(p, key))
    decreases |s.backlog|
  {
    if s.backlog != [] {
      DrainingSteps(open, DrainedOne(open, backlogKey, s), p, key, backlogKey, debris);
    }
  }

  lemma {:induction false} ClearingSteps(open: Opener, s: State, sampled: nat, debris: Bytes) returns (n: nat)
    ensures Steps(open, s.(receiver := Clearing(sampled)), debris, n) == Cleared(s, sampled).(receiver := Idle)
    decreases |s.backlog|
  {
    if s.backlog == [] || IsYoung(s.backlog[0], sampled) {
      n := 1;
    } else {
      n := ClearingSteps(open, ExpiredOne(s), sampled, debris);
      n := n + 1;
    }
  }

  lemma SamplingSteps(open: Opener, s: State, debris: Bytes) returns (n: nat)
    ensures Steps(open, s.(receiver := Sampling), debris, n) == Cleared(s, s.now).(receiver := Idle)
  {
    n := ClearingSteps(open, s, s.now, debris);
    n := n + 1;
  }

  lemma LoadingSteps(open: Opener, s: State, debris: Bytes) returns (n: nat)
    requires !MustWait(s)
    ensures Steps(open, s.(receiver := Loading), debris, n) == Cleared(QueryStarted(s), s.now).(receiver := Idle)
  {
    var m := SamplingSteps(open, QueryStarted(s), debris);
    n := (if s.queryDone then 4 else 1) + m;
    StartingSteps(open, s, debris);
    StepsOfBoth(open, s.(receiver := Loading), debris, if s.queryDone then 4 else 1, m);
  }

  lemma StartingSteps(open: Opener, s: State, debris: Bytes)
    requires !MustWait(s)
    ensures Steps(open, s.(receiver := Loading), debris, if s.queryDone then 4 else 1)
         == QueryStarted(s).(receiver := Sampling)
  {
    var loading := s.(receiver := Loading);
    if s.queryDone {
      var joining := Received(open, loading, debris);
      var claiming := Received(open, joining, debris);
      assert claiming == s.(joinable := None, receiver := Claiming);
      var spawning := Received(open, claiming, debris);
      assert Received(open, spawning, debris) == QueryStarted(s).(receiver := Sampling);
      assert Steps(open, spawning, debris, 1) == Steps(open, QueryStarted(s).(receiver := Sampling), debris, 0);
      assert Steps(open, claiming, debris, 2) == Steps(open, spawning, debris, 1);
    } else {
      assert Steps(open, loading, debris, 1) == Steps(open, s.(receiver := Sampling), debris, 0);
    }
  }

  lemma QueueingSteps(open: Opener, s: State, p: Packet, failed: bool, debris: Bytes) returns (n: nat)
    requires !MustWait(s)
    ensures var t := Pushed(s, Entry(p, s.now));
      Steps(open, s.(receiver := Queueing(p, failed)), debris, n)
      == Cleared(if failed && s.now <= EXPIRY then t else QueryStarted(t), s.now).(receiver := Idle)
  {
    var t := Pushed(s, Entry(p, s.now));
    if failed && s.now <= EXPIRY {
      n := SamplingSteps(open, t, debris);
      assert Received(open, t.(receiver := Deciding), debris) == t.(receiver := Sampling);
      n := n + 1;
    } else {
      n := LoadingSteps(open, t, debris);
      if failed {
        assert Received(open, t.(receiver := Deciding), debris) == t.(receiver := Loading);
        n := n + 1;
      }
    }
    assert Received(open, s.(receiver := Queueing(p, failed)), debris)
        == t.(receiver := if failed then Deciding else Loading);
    n := n + 1;
  }

  lemma ForgettingSteps(open: Opener, s: State, p: Packet, debris: Bytes) returns (n: nat)
    requires !MustWait(s)
    ensures var t := s.(key := []);
      Steps(open, s.(receiver := Forgetting(p)), debris, n)
      == Cleared(if EXPIRY < s.now then QueuedAndAsked(t, p) else Pushed(t, Entry(p, s.now)), s.now).(receiver := Idle)
  {
    var t := s.(key := []);
    n := QueueingSteps(open, t, p, true, debris);
    assert Received(open, s.(receiver := Forgetting(p)), debris) == t.(receiver := Queueing(p, true));
    n := n + 1;
  }

  lemma DecryptingSteps(open: Opener, s: State, p: Packet, key: Key, debris: Bytes) returns (n: nat)
    requires !MustWait(s)
    ensures Steps(open, s.(receiver := Decrypting(p, key)), debris, n)
         == Cleared(Tried(open, s, p, key, debris), s.now).(receiver := Idle)
  {
    var decrypting := s.(receiver := Decrypting(p, key));
    match open(key, p.data)
    case Some(payload) =>
      var t := Tried(open, s, p, key, debris);
      n := SamplingSteps(open, t, debris);
      assert Received(open, decrypting, debris) == t.(receiver := Sampling);
      n := n + 1;
    case None =>
      var q, t := p.(data := debris), s.(damaged := s.damaged + {p.id});
      n := ForgettingSteps(open, t, q, debris);
      assert Received(open, decrypting, debris) == t.(receiver := Forgetting(q));
      n := n + 1;
  }

  lemma {:induction false} DrainingKeeps(open: Opener, key: Key, s: State)
    ensures var t := AllDrained(open, key, s);
      && t.now == s.now && t.queryDone == s.queryDone && t.joinable == s.joinable && t.threads == s.threads
      && t.receiver == s.receiver && t.key == s.key && t.backlog == []
      && t.arrivals == s.arrivals && t.lastReceive == s.lastReceive
    decreases |s.backlog|
  {
    if s.backlog != [] {
      DrainingKeeps(open, key, DrainedOne(open, key, s));
    }
  }

  lemma DrainingThenDecrypting(open: Opener, s: State, p: Packet, key: Key, backlogKey: Key, debris: Bytes)
      returns (n: nat)
    requires !MustWait(s)
    ensures Steps(open, s.(receiver := Draining(p, key, backlogKey)), debris, n)
         == Cleared(Tried(open, AllDrained(open, backlogKey, s), p, key, debris), s.now).(receiver := Idle)
  {
    var m := |s.backlog| + 1;
    DrainingKeeps(open, backlogKey, s);
    DrainingSteps(open, s, p, key, backlogKey, debris);
    n := DecryptingSteps(open, AllDrained(open, backlogKey, s), p, key, debris);
    StepsOfBoth(open, s.(receiver := Draining(p, key, backlogKey)), debris, m, n);
    n := m + n;
  }

  lemma ReadingSteps(open: Opener, s: State, p: Packet, debris: Bytes)
    requires s.key != []
    ensures Steps(open, s.(receiver := ReadingKey(p)), debris, 2) == s.(receiver := Draining(p, s.key, s.key))
  {}

  /** `ProcessPacket`, left alone, does in its steps what a whole call is to do. */
  lemma HandledInSteps(open: Opener, s: State, data: Bytes, debris: Bytes) returns (n: nat)
    requires s.receiver.Idle? && !MustWait(s)
    ensures Steps(open, Next(open, s, Arrive(data)), debris, n) == Handled(open, s, data, debris).(receiver := Idle)
  {
    var p, arrived := Packet(|s.arrivals|, data), ArrivedAt(s, data);
    var reading := arrived.(receiver := ReadingKey(p));
    if s.key == [] {
      n := QueueingSteps(open, arrived, p, false, debris);
      assert Received(open, reading, debris) == arrived.(receiver := Queueing(p, false));
      n := n + 1;
    } else {
      n := DrainingThenDecrypting(open, arrived, p, s.key, s.key, debris);
      ReadingSteps(open, arrived, p, debris);
      StepsOfBoth(open, reading, debris, 2, n);
      n := 2 + n;
    }
  }

  lemma {:induction false} IdleStays(open: Opener, s: State, debris: Bytes, n: nat)
    requires s.receiver.Idle?
    ensures Steps(open, s, debris, n) == s
    decreases n
  {
    if n > 0 {
      IdleStays(open, s, debris, n - 1);
    }
  }

  /** However many steps it takes: a call that is left alone ends as specified. */
  lemma HandledIfAlone(open: Opener, s: State, data: Bytes, debris: Bytes, n: nat)
    requires s.receiver.Idle? && !MustWait(s)
    requires Steps(open, Next(open, s, Arrive(data)), debris, n).receiver.Idle?
    ensures Steps(open, Next(open, s, Arrive(data)), debris, n) == Handled(open, s, data, debris).(receiver := Idle)
  {
    var start := Next(open, s, Arrive(data));
    var k := HandledInSteps(open, s, data, debris);
    if n <= k {
      StepsOfBoth(open, start, debris, n, k - n);
      IdleStays(open, Steps(open, start, debris, n), debris, k - n);
    } else {
      StepsOfBoth(open, start, debris, k, n - k);
      IdleStays(open, Steps(open, start, debris, k), debris, n - k);
    }
  }

  lemma {:induction false} ClearedKeepsRest(s: State, sampled: nat)
    ensures var t := Cleared(s, sampled);
      && t.now == s.now && t.arrivals == s.arrivals && t.lastReceive == s.lastReceive && t.key == s.key
      && t.queryDone == s.queryDone && t.delivered == s.delivered
    decreases |s.backlog|
  {
    if s.backlog != [] && !IsYoung(s.backlog[0], sampled) {
      ClearedKeepsRest(ExpiredOne(s), sampled);
    }
  }

  /** A call without a key, left alone: the packet waits, unless a hundred do, a query runs, and
      of those that wait exactly the ones younger than five seconds are kept. */
  lemma CallWithoutKey(open: Opener, s: State, data: Bytes, debris: Bytes) returns (n: nat)
    requires BacklogInOrder(s) && s.key == []
    ensures var t, queue := Handled(open, s, data, debris),
                            s.backlog + (if |s.backlog| < 100 then [Entry(Packet(|s.arrivals|, data), s.now)] else []);
      && n <= |queue| && t.backlog == queue[n..]
      && (forall i :: 0 <= i < |queue| ==> (s.now < queue[i].received + 5_000_000 <==> n <= i))
      && t.key == [] && !t.queryDone && t.delivered == s.delivered
      && t.arrivals == s.arrivals + [data] && t.lastReceive == s.now
  {
    var queued := QueuedAndAsked(ArrivedAt(s, data), Packet(|s.arrivals|, data));
    ClearedKeepsRest(queued, s.now);
    n := ClearedKeepsTheYoung(queued, s.now);
  }

  lemma YoungOnly(s: State)
    requires s.backlog == [] || (|s.backlog| == 1 && s.backlog[0].received == s.now)
    ensures Cleared(s, s.now) == s
  {}

  /** A call with a key that opens the packet, left alone: the backlog is drained and then the
      packet is delivered. */
  lemma CallThatDelivers(open: Opener, s: State, data: Bytes, debris: Bytes)
    requires s.key != [] && open(s.key, data).Some?
    ensures var t, drained := Handled(open, s, data, debris), AllDrained(open, s.key, ArrivedAt(s, data));
      && t.delivered == drained.delivered + [Delivery(|s.arrivals|, s.key, open(s.key, data).value)]
      && t.key == s.key && t.backlog == [] && t.queryDone == s.queryDone
      && t.arrivals == s.arrivals + [data] && t.lastReceive == s.now
  {
    DrainingKeeps(open, s.key, ArrivedAt(s, data));
    YoungOnly(Tried(open, AllDrained(open, s.key, ArrivedAt(s, data)), Packet(|s.arrivals|, data), s.key, debris));
  }

  /** A call with a key that does not open the packet, left alone: the backlog is drained, the
      key is forgotten, the packet waits as the failure has left it, and a query runs, once five
      seconds have passed since the epoch. */
  lemma CallThatForgets(open: Opener, s: State, data: Bytes, debris: Bytes)
    requires s.key != [] && open(s.key, data).None?
    ensures var t, drained := Handled(open, s, data, debris), AllDrained(open, s.key, ArrivedAt(s, data));
      && t.backlog == [Entry(Packet(|s.arrivals|, debris), s.now)] && t.delivered == drained.delivered
      && t.key == [] && t.queryDone == (s.queryDone && s.now <= 5_000_000)
      && t.arrivals == s.arrivals + [data] && t.lastReceive == s.now
  {
    DrainingKeeps(open, s.key, ArrivedAt(s, data));
    YoungOnly(Tried(open, AllDrained(open, s.key, ArrivedAt(s, data)), Packet(|s.arrivals|, data), s.key, debris));
  }

  /** Draining delivers, in their order, the packets of the backlog that the key opens. */
  lemma {:induction false} DrainedInOrder(open: Opener, key: Key, s: State)
    ensures AllDrained(open, key, s).delivered == s.delivered + Openable(open, key, s.backlog)
    decreases |s.backlog|
  {
    if s.backlog != [] {
      DrainedInOrder(open, key, DrainedOne(open, key, s));
    }
  }

  function Openable(open: Opener, key: Key, es: seq<Entry>): seq<Delivery> {
    if es == [] then [] else
      (match open(key, es[0].packet.data)
       case Some(payload) => [Delivery(es[0].packet.id, key, payload)]
       case None => [])
      + Openable(open, key, es[1..])
  }

  /** Clearing a sorted backlog drops the `n` oldest entries, which are those of five seconds
      or more, and keeps the others. */
  lemma {:induction false} ClearedKeepsTheYoung(s: State, sampled: nat) returns (n: nat)
    requires BacklogInOrder(s)
    ensures n <= |s.backlog| && Cleared(s, sampled).backlog == s.backlog[n..]
    ensures forall i :: 0 <= i < |s.backlog| ==> (sampled < s.backlog[i].received + 5_000_000 <==> n <= i)
    decreases |s.backlog|
  {
    n := 0;
    if s.backlog != [] && !IsYoung(s.backlog[0], sampled) {
      n := ClearedKeepsTheYoung(ExpiredOne(s), sampled);
      n := n + 1;
      assert forall i :: 1 <= i < |s.backlog| ==> s.backlog[i] == ExpiredOne(s).backlog[i - 1];
    }
  }

  // ------------------------------------------------------------------ a run out of order

  /** A query thread has taken all its steps. */
  function QueryEnded(s: State, t: nat, result: Key): State
    requires t < |s.threads|
  {
    s.(key := result, queryDone := true, threads := s.threads[t := Exited])
  }

  lemma Do(open: Opener, done: seq<Action>, a: Action) returns (more: seq<Action>)
    ensures After(open, START, more) == Next(open, After(open, START, done), a)
  {
    more := done + [a];
    assert more[..|more| - 1] == done;
  }

  lemma Receives(open: Opener, done: seq<Action>, debris: Bytes, n: nat) returns (more: seq<Action>)
    ensures After(open, START, more) == Steps(open, After(open, START, done), debris, n)
  {
    more := done;
    for i := 0 to n
      invariant Steps(open, After(open, START, more), debris, n - i) == Steps(open, After(open, START, done), debris, n)
    {
      more := Do(open, more, Receive(debris));
    }
  }

  lemma Call(open: Opener, done: seq<Action>, data: Bytes) returns (more: seq<Action>)
    requires var s := After(open, START, done); s.receiver.Idle? && !MustWait(s)
    ensures After(open, START, more) == Handled(open, After(open, START, done), data, []).(receiver := Idle)
  {
    var n := HandledInSteps(open, After(open, START, done), data, []);
    more := Do(open, done, Arrive(data));
    more := Receives(open, more, [], n);
  }

  const THE_KEY: Key := [1]

  function OneKeyOpener(key: Key, data: Bytes): Option<Bytes> {
    if key == THE_KEY then Some(data) else None
  }

  function Queued(id: nat): Entry {
    Entry(Packet(id, []), 0)
  }

  lemma FirstWaits() returns (run: seq<Action>)
    ensures After(OneKeyOpener, START, run)
         == State(0, [[]], Idle, 0, [], [Queued(0)], false, [Asking], Some(0), [], [], [], [], {})
  {
    run := Call(OneKeyOpener, [], []);
  }

  /** The second packet has found no key. */
  lemma SecondFindsNoKey() returns (run: seq<Action>)
    ensures After(OneKeyOpener, START, run)
         == State(0, [[], []], Queueing(Packet(1, []), false), 0, [], [Queued(0)], false, [Asking], Some(0),
                  [], [], [], [], {})
  {
    run := FirstWaits();
    run := Do(OneKeyOpener, run, Arrive([]));
    run := Do(OneKeyOpener, run, Receive([]));
  }

  lemma QueryWrites(open: Opener, done: seq<Action>, t: nat, result: Key) returns (more: seq<Action>)
    requires var s := After(open, START, done); t < |s.threads| && s.threads[t].Asking?
    ensures var s := After(open, START, done);
      After(open, START, more) == s.(key := result, threads := s.threads[t := Storing])
  {
    more := Do(open, done, Query(t, result));
    more := Do(open, more, Query(t, result));
  }

  lemma QueryLeaves(open: Opener, done: seq<Action>, t: nat) returns (more: seq<Action>)
    requires var s := After(open, START, done); t < |s.threads| && s.threads[t].Storing?
    ensures var s := After(open, START, done);
      After(open, START, more) == s.(queryDone := true, threads := s.threads[t := Exited])
  {
    more := Do(open, done, Query(t, []));
    more := Do(open, more, Query(t, []));
  }

  /** A query thread that takes its steps without interference. */
  lemma QueryRuns(open: Opener, done: seq<Action>, t: nat, result: Key) returns (more: seq<Action>)
    requires var s := After(open, START, done); t < |s.threads| && s.threads[t].Asking?
    ensures After(open, START, more) == QueryEnded(After(open, START, done), t, result)
  {
    more := QueryWrites(open, done, t, result);
    more := QueryLeaves(open, more, t);
  }

  /** The first query ends only then. */
  lemma KeyComesTooLate() returns (run: seq<Action>)
    ensures After(OneKeyOpener, START, run)
         == State(0, [[], []], Queueing(Packet(1, []), false), 0, THE_KEY, [Queued(0)], true, [Exited], Some(0),
                  [], [], [], [], {})
  {
    run := SecondFindsNoKey();
    run := QueryRuns(OneKeyOpener, run, 0, THE_KEY);
  }

  /** So two packets wait, and a second query runs although there is a key. */
  lemma TwoWaitWithAKey() returns (run: seq<Action>)
    ensures After(OneKeyOpener, START, run)
         == State(0, [[], []], Idle, 0, THE_KEY, [Queued(0), Queued(1)], false, [Exited, Asking], Some(1),
                  [], [], [], [], {})
  {
    run := KeyComesTooLate();
    var s := After(OneKeyOpener, START, run);
    var n := QueueingSteps(OneKeyOpener, s, Packet(1, []), false, []);
    run := Receives(OneKeyOpener, run, [], n);
  }

  lemma ThirdFindsTheKey() returns (run: seq<Action>)
    ensures After(OneKeyOpener, START, run)
         == State(0, [[], [], []], ReadingBacklogKey(Packet(2, []), THE_KEY), 0, THE_KEY, [Queued(0), Queued(1)], false,
                  [Exited, Asking], Some(1), [], [], [], [], {})
  {
    run := TwoWaitWithAKey();
    run := Do(OneKeyOpener, run, Arrive([]));
    run := Do(OneKeyOpener, run, Receive([]));
  }

  /** The third packet finds the key, then the failing query takes it away. */
  lemma KeyIsEmptied() returns (run: seq<Action>)
    ensures After(OneKeyOpener, START, run)
         == State(0, [[], [], []], ReadingBacklogKey(Packet(2, []), THE_KEY), 0, [], [Queued(0), Queued(1)], true,
                  [Exited, Exited], Some(1), [], [], [], [], {})
  {
    run := ThirdFindsTheKey();
    run := QueryRuns(OneKeyOpener, run, 1, []);
  }

  /** So the backlog stays, and the third packet is delivered. */
  lemma ThirdPacketOvertakes() returns (run: seq<Action>)
    ensures After(OneKeyOpener, START, run)
         == State(0, [[], [], []], Idle, 0, [], [Queued(0), Queued(1)], true, [Exited, Exited], Some(1),
                  [Delivery(2, THE_KEY, [])], [], [], [], {})
  {
    run := KeyIsEmptied();
    run := Do(OneKeyOpener, run, Receive([]));
    var s := After(OneKeyOpener, START, run);
    var n := DecryptingSteps(OneKeyOpener, s, Packet(2, []), THE_KEY, []);
    run := Receives(OneKeyOpener, run, [], n);
  }

  /** Then a third query succeeds while a fourth packet waits. */
  lemma ThirdQuerySucceeds() returns (run: seq<Action>)
    ensures After(OneKeyOpener, START, run)
         == State(0, [[], [], [], []], Idle, 0, THE_KEY, [Queued(0), Queued(1), Queued(3)], false,
                  [Exited, Exited, Storing], Some(2), [Delivery(2, THE_KEY, [])], [], [], [], {})
  {
    run := ThirdPacketOvertakes();
    run := Call(OneKeyOpener, run, []);
    run := Do(OneKeyOpener, run, Query(2, THE_KEY));
    run := Do(OneKeyOpener, run, Query(2, []));
  }

  /** There is a run in which packets are not delivered in the order of their arrival. */
  lemma OutOfOrder() returns (run: seq<Action>)
    ensures !Increasing(DeliveredIds(After(OneKeyOpener, START, run).delivered))
  {
    run := ThirdQuerySucceeds();
    run := Do(OneKeyOpener, run, Arrive([]));
    run := Do(OneKeyOpener, run, Receive([]));
    run := Do(OneKeyOpener, run, Receive([]));
    run := Do(OneKeyOpener, run, Receive([]));
    var d := After(OneKeyOpener, START, run).delivered;
    assert DeliveredIds(d)[0] == 2 && DeliveredIds(d)[1] == 0;
  }
}
