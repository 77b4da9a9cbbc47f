/**
  From a multicast sender to the sinks of a source that its datagrams arrive at: any of them,
  any number of times and in any order.
 */
module MulticastPath {
  import opened MessagePackets
  import opened Messages
  import opened MulticastSources
  import opened MulticastSteps
  import opened Options
  import Senders
  import opened Wire

  function OpenerOf(aead: Aead): Opener {
    (key, datagram) => Opened(aead, key, datagram)
  }

  /** A sender's datagrams, and which of them each arrival is. */
  ghost predicate AreSent(codec: Codec, aead: Aead, key: Key, datagrams: seq<Bytes>, batches: seq<seq<Message>>) {
    && codec.Lawful() && aead.Lawful()
    && Senders.Carries(codec, Senders.Reader(aead, key), datagrams, batches)
    && forall other :: aead.Distinguishes(key, other) ==> Senders.SaysNothing(Senders.Reader(aead, other), datagrams)
  }

  ghost predicate ArriveFrom(arrivals: seq<Bytes>, datagrams: seq<Bytes>, from: seq<nat>) {
    && |from| == |arrivals|
    && forall i :: 0 <= i < |from| ==> from[i] < |datagrams| && arrivals[i] == datagrams[from[i]]
  }

  /** The keys used are the sender's or told apart from it. */
  ghost predicate KeysApart(aead: Aead, key: Key, ds: seq<Delivery>) {
    forall i :: 0 <= i < |ds| ==> ds[i].key == key || aead.Distinguishes(key, ds[i].key)
  }

  /** A datagram that opens, opens with the sender's key to its batch. */
  lemma OpensToItsBatch(codec: Codec, aead: Aead, key: Key, datagrams: seq<Bytes>, batches: seq<seq<Message>>,
                        k: nat, used: Key, payload: Bytes)
    requires AreSent(codec, aead, key, datagrams, batches) && k < |datagrams|
    requires used == key || aead.Distinguishes(key, used)
    requires Opened(aead, used, datagrams[k]) == Some(payload)
    ensures used == key && payload == EncodeAll(codec, batches[k])
  {
    var d := datagrams[k];
    assert Senders.CarriesOne(codec, Senders.Reader(aead, key), d, batches[k]);
    assert |d[NONCE_LEN..]| == |payload| + MAC_LEN;
    assert Senders.Reader(aead, used)(d) == payload != [];
  }

  /** The deliveries of packets that no failed decryption has overwritten. */
  function Undamaged(ds: seq<Delivery>, damaged: set<nat>): seq<Delivery> {
    if ds == [] then [] else
      Undamaged(ds[..|ds| - 1], damaged) + (if ds[|ds| - 1].id in damaged then [] else [ds[|ds| - 1]])
  }

  /** What the sinks are to be given of the batches that were delivered. */
  function AcceptedOf(batches: seq<seq<Message>>, from: seq<nat>, ds: seq<Delivery>): seq<Message>
    requires forall i :: 0 <= i < |ds| ==> ds[i].id < |from| && from[ds[i].id] < |batches|
  {
    if ds == [] then [] else
      AcceptedOf(batches, from, ds[..|ds| - 1]) + AcceptedPrefix(batches[from[ds[|ds| - 1].id]])
  }

  ghost predicate IsBatch(codec: Codec, key: Key, batches: seq<seq<Message>>, from: seq<nat>, d: Delivery) {
    && d.id < |from| && from[d.id] < |batches|
    && d.key == key && d.payload == EncodeAll(codec, batches[from[d.id]])
  }

  ghost predicate AreBatches(codec: Codec, key: Key, batches: seq<seq<Message>>, from: seq<nat>, ds: seq<Delivery>) {
    forall i :: 0 <= i < |ds| ==> IsBatch(codec, key, batches, from, ds[i])
  }

  lemma {:induction false} BatchesGiveMessages(codec: Codec, key: Key, batches: seq<seq<Message>>, from: seq<nat>,
                                               ds: seq<Delivery>)
    requires codec.Lawful() && AreBatches(codec, key, batches, from, ds)
    ensures MessagesOf(codec, ds) == AcceptedOf(batches, from, ds)
  {
    if ds != [] {
      BatchesGiveMessages(codec, key, batches, from, ds[..|ds| - 1]);
      ReceiveLoop(codec, batches[from[ds[|ds| - 1].id]]);
    }
  }

  lemma {:induction false} UndamagedAreThose(ds: seq<Delivery>, damaged: set<nat>)
    ensures forall d :: d in Undamaged(ds, damaged) <==> d in ds && d.id !in damaged
  {
    if ds != [] {
      UndamagedAreThose(ds[..|ds| - 1], damaged);
      assert ds == ds[..|ds| - 1] + [ds[|ds| - 1]];
    }
  }

  /** In the order in which the packets arrived, and none twice. */
  ghost predicate InOrder(ds: seq<Delivery>) {
    forall i, j :: 0 <= i < j < |ds| ==> ds[i].id < ds[j].id
  }

  lemma {:induction false} UndamagedInOrder(ds: seq<Delivery>, damaged: set<nat>)
    requires InOrder(ds)
    ensures InOrder(Undamaged(ds, damaged))
  {
    if ds != [] {
      var front, last := ds[..|ds| - 1], ds[|ds| - 1];
      UndamagedInOrder(front, damaged);
      UndamagedAreThose(front, damaged);
      forall d | d in Undamaged(front, damaged) ensures d.id < last.id {
        assert d in front;
      }
    }
  }

  lemma EachIsABatch(codec: Codec, aead: Aead, key: Key, datagrams: seq<Bytes>, batches: seq<seq<Message>>,
                     from: seq<nat>, s: State, i: nat)
    requires AreSent(codec, aead, key, datagrams, batches) && ArriveFrom(s.arrivals, datagrams, from)
    requires KeysApart(aead, key, s.delivered) && AllGenuine(OpenerOf(aead), s)
    requires i < |s.delivered| && s.delivered[i].id !in s.damaged
    ensures IsBatch(codec, key, batches, from, s.delivered[i])
  {
    var d := s.delivered[i];
    assert Genuine(OpenerOf(aead), s, d);
    OpensToItsBatch(codec, aead, key, datagrams, batches, from[d.id], d.key, d.payload);
  }

  lemma DeliveredInOrderOfArrival(open: Opener, actions: seq<Action>)
    requires NeverOvertakes(open, actions)
    ensures InOrder(After(open, START, actions).delivered)
  {
    var ds := After(open, START, actions).delivered;
    OrderedExactly(open, actions);
    DeliveredInOrder(After(open, START, actions));
    forall i, j | 0 <= i < j < |ds| ensures ds[i].id < ds[j].id {
      assert DeliveredIds(ds)[i] < DeliveredIds(ds)[j];
    }
  }

  /** In every interleaving, the sinks get from the packets that no failed decryption has
      overwritten the messages of whole batches, each up to the first that reading refuses; in
      the order of arrival, and no packet twice, if no packet overtakes those that wait. */
  lemma SinksGetBatches(codec: Codec, aead: Aead, key: Key, datagrams: seq<Bytes>, batches: seq<seq<Message>>,
                        from: seq<nat>, actions: seq<Action>)
    requires AreSent(codec, aead, key, datagrams, batches)
    requires ArriveFrom(After(OpenerOf(aead), START, actions).arrivals, datagrams, from)
    requires KeysApart(aead, key, After(OpenerOf(aead), START, actions).delivered)
    ensures var s := After(OpenerOf(aead), START, actions);
      var ds := Undamaged(s.delivered, s.damaged);
      && AreBatches(codec, key, batches, from, ds) && MessagesOf(codec, ds) == AcceptedOf(batches, from, ds)
      && (NeverOvertakes(OpenerOf(aead), actions) ==> InOrder(ds))
  {
    var s := After(OpenerOf(aead), START, actions);
    var ds := Undamaged(s.delivered, s.damaged);
    DeliveriesAreGenuine(OpenerOf(aead), actions);
    UndamagedAreThose(s.delivered, s.damaged);
    forall i | 0 <= i < |ds| ensures IsBatch(codec, key, batches, from, ds[i]) {
      assert ds[i] in s.delivered;
      var j :| 0 <= j < |s.delivered| && s.delivered[j] == ds[i];
      EachIsABatch(codec, aead, key, datagrams, batches, from, s, j);
    }
    BatchesGiveMessages(codec, key, batches, from, ds);
    if NeverOvertakes(OpenerOf(aead), actions) {
      DeliveredInOrderOfArrival(OpenerOf(aead), actions);
      UndamagedInOrder(s.delivered, s.damaged);
    }
  }

  /** If all the messages sent are accepted, the sinks get every one of those batches. */
  lemma {:induction false} WholeBatches(batches: seq<seq<Message>>, from: seq<nat>, ds: seq<Delivery>)
    requires forall i :: 0 <= i < |ds| ==> ds[i].id < |from| && from[ds[i].id] < |batches|
    requires forall b :: b in batches ==> Senders.AllAccepted(b)
    ensures AcceptedOf(batches, from, ds)
         == Senders.Flat(seq(|ds|, i requires 0 <= i < |ds| => batches[from[ds[i].id]]))
  {
    var picked := seq(|ds|, i requires 0 <= i < |ds| => batches[from[ds[i].id]]);
    if ds != [] {
      var n := |ds| - 1;
      WholeBatches(batches, from, ds[..n]);
      assert picked[..n] == seq(n, i requires 0 <= i < n => batches[from[ds[..n][i].id]]);
      assert picked[n] in batches;
      Senders.AcceptedWhole(picked[n]);
    }
  }
}
