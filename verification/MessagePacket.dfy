/**
  The network form of messages: a buffer with room for a nonce, a payload and an
  authentication tag (section 2.8 of RFC 8439), filled and encrypted in place.
 */
module MessagePackets {
  import opened Options
  import opened Wire

  const NONCE_LEN: nat := 24
  const MAC_LEN: nat := 16
  const MIN_PACKET_LEN: nat := NONCE_LEN + MAC_LEN

  /** Authenticated encryption by key and nonce, as functions. */
  datatype Aead = Aead(seal: (Bytes, Bytes, Bytes) -> Bytes, open: (Bytes, Bytes, Bytes) -> Option<Bytes>) {

    /** A sealed text is one tag longer and opens under its own key. */
    ghost predicate Lawful() {
      && (forall k, n, p :: |seal(k, n, p)| == |p| + MAC_LEN)
      && (forall k, n, c :: open(k, n, c).Some? ==> |c| == |open(k, n, c).value| + MAC_LEN)
      && (forall k, n, p :: open(k, n, seal(k, n, p)) == Some(p))
    }

    /** Nothing sealed with `key` opens with `other`. No scheme with tags of fixed length can
        promise this of all pairs of keys, so it is assumed of the pair at hand. */
    ghost predicate Distinguishes(key: Bytes, other: Bytes) {
      forall n, p :: open(other, n, seal(key, n, p)) == None
    }
  }

  /** The laws are consistent, also with two keys that are told apart. */
  lemma LawsAreConsistent(key: Bytes, other: Bytes)
    requires |key| >= MAC_LEN && |other| >= MAC_LEN && key[..MAC_LEN] != other[..MAC_LEN]
    ensures exists aead: Aead :: aead.Lawful() && aead.Distinguishes(key, other)
  {
    var none: seq<bv8> := seq(MAC_LEN, _ => 0);
    var tag := (k: Bytes) => (k + none)[..MAC_LEN];
    var aead := Aead((k, n, p) => p + tag(k),
                     (k, n, c) => if |c| >= MAC_LEN && c[|c| - MAC_LEN..] == tag(k) then Some(c[..|c| - MAC_LEN]) else None);
    forall k, n, p ensures aead.open(k, n, aead.seal(k, n, p)) == Some(p) {
      assert (p + tag(k))[|p|..] == tag(k) && (p + tag(k))[..|p|] == p;
    }
    forall n, p ensures aead.open(other, n, aead.seal(key, n, p)) == None {
      assert (p + tag(key))[|p|..] == tag(key) == key[..MAC_LEN] && tag(other) == other[..MAC_LEN];
    }
    assert aead.Lawful() && aead.Distinguishes(key, other);
  }

  /** The datagram of a payload. */
  function Sealed(aead: Aead, key: Bytes, nonce: Bytes, payload: Bytes): Bytes {
    nonce + aead.seal(key, nonce, payload)
  }

  /** The payload of a datagram; a datagram without payload is not opened. */
  function Opened(aead: Aead, key: Bytes, datagram: Bytes): Option<Bytes> {
    if |datagram| > MIN_PACKET_LEN then aead.open(key, datagram[..NONCE_LEN], datagram[NONCE_LEN..]) else None
  }

  /** Exactly the payloads that are not empty come back, and only with the same key. */
  lemma OpenedInvertsSealed(aead: Aead, key: Bytes, other: Bytes, nonce: Bytes, payload: Bytes)
    requires aead.Lawful() && |nonce| == NONCE_LEN
    ensures Opened(aead, key, Sealed(aead, key, nonce, payload)) == if payload != [] then Some(payload) else None
    ensures aead.Distinguishes(key, other) ==> Opened(aead, other, Sealed(aead, key, nonce, payload)) == None
  {}

  /** What `RecvFrom` takes for the payload of a datagram sent without encryption. */
  function PlainPayload(datagram: Bytes): Bytes {
    if |datagram| > MIN_PACKET_LEN then datagram[NONCE_LEN..|datagram| - MAC_LEN] else []
  }

  class MessagePacket {
    const buf: array<bv8>
    /** The payload stream: its capacity after the nonce, and its put position. */
    var capacity: nat
    var position: nat
    var payloadLength: nat

    ghost predicate Valid()
      reads this
    {
      buf.Length > MIN_PACKET_LEN && NONCE_LEN + capacity <= buf.Length && payloadLength <= capacity
    }

    /** Being filled, rather than just received. */
    ghost predicate Filling()
      reads this
    {
      Valid() && position == payloadLength && NONCE_LEN + capacity + MAC_LEN == buf.Length
    }

    ghost function Payload(): Bytes
      requires Valid()
      reads this, buf
    {
      buf[NONCE_LEN..NONCE_LEN + payloadLength]
    }

    constructor (buf: array<bv8>)
      requires buf.Length > MIN_PACKET_LEN
      ensures Filling() && this.buf == buf && Payload() == []
      ensures capacity == buf.Length - 40
    {
      this.buf := buf;
      capacity := buf.Length - MIN_PACKET_LEN;
      position, payloadLength := 0, 0;
    }

    /** Writes the encoding into the payload stream; the part that fits is written even when
        the rest does not. */
    method Write(encoding: Bytes) returns (ok: bool)
      requires Filling()
      modifies this`position, buf
      ensures ok == (payloadLength + |encoding| <= capacity)
      ensures ok ==> position == payloadLength + |encoding|
      ensures ok ==> buf[NONCE_LEN..NONCE_LEN + position] == old(Payload()) + encoding
      ensures Payload() == old(Payload())
    {
      var i := 0;
      while i < |encoding| && position < capacity
        invariant i <= |encoding| && position == payloadLength + i <= capacity
        invariant buf[NONCE_LEN..NONCE_LEN + position] == old(Payload()) + encoding[..i]
      {
        buf[NONCE_LEN + position] := encoding[i];
        assert encoding[..i + 1] == encoding[..i] + [encoding[i]];
        assert buf[NONCE_LEN..NONCE_LEN + position] == old(Payload()) + encoding[..i];
        position, i := position + 1, i + 1;
        assert buf[NONCE_LEN..NONCE_LEN + position]
            == buf[NONCE_LEN..NONCE_LEN + position - 1] + [encoding[i - 1]];
      }
      assert buf[NONCE_LEN..NONCE_LEN + position][..payloadLength] == buf[NONCE_LEN..NONCE_LEN + payloadLength];
      ok := i == |encoding|;
      if ok {
        assert encoding[..i] == encoding;
      }
    }

    /** Appends the encoding whole or not at all. */
    method Add(encoding: Bytes) returns (ok: bool)
      requires Filling()
      modifies this`position, this`payloadLength, buf
      ensures Filling() && ok == (old(payloadLength) + |encoding| <= capacity)
      ensures Payload() == old(Payload()) + if ok then encoding else []
    {
      var before := position;
      ok := Write(encoding);
      if !ok {
        position := before;
      }
      payloadLength := position;
    }

    method Reset()
      requires Filling()
      modifies this`position, this`payloadLength
      ensures Filling() && Payload() == []
    {
      position, payloadLength := 0, 0;
    }

    predicate HasPayload()
      reads this
    {
      payloadLength > 0
    }

    /** The datagram that `SendTo` hands to the socket. */
    function Datagram(): (d: Bytes)
      ensures |d| == 24 + payloadLength + 16 && d[24..24 + payloadLength] == Payload()
      requires Valid() && payloadLength + MIN_PACKET_LEN <= buf.Length
      reads this, buf
    {
      buf[..MIN_PACKET_LEN + payloadLength]
    }

    /** Encrypts the payload in place. */
    method Encrypt(aead: Aead, key: Bytes, nonce: Bytes)
      requires Filling() && aead.Lawful() && |nonce| == NONCE_LEN
      modifies buf
      ensures Filling() && Datagram() == Sealed(aead, key, nonce, old(Payload()))
      ensures |Datagram()| == 24 + |old(Payload())| + 16
      ensures Datagram()[..24] == nonce && Datagram()[24..] == aead.seal(key, nonce, old(Payload()))
    {
      var cipher := aead.seal(key, nonce, buf[NONCE_LEN..NONCE_LEN + payloadLength]);
      Store(0, nonce);
      Store(NONCE_LEN, cipher);
      assert buf[..MIN_PACKET_LEN + payloadLength] == buf[..NONCE_LEN] + buf[NONCE_LEN..NONCE_LEN + |cipher|];
    }

    method Store(at: nat, bytes: Bytes)
      requires at + |bytes| <= buf.Length
      modifies buf
      ensures buf[..] == old(buf[..at]) + bytes + old(buf[at + |bytes|..])
    {
      for i := 0 to |bytes|
        invariant buf[..] == old(buf[..at]) + bytes[..i] + old(buf[at + i..])
      {
        buf[at + i] := bytes[i];
      }
    }

    /** Decrypts the first `length` bytes of the buffer in place; what a failure leaves in
        their place is not known. */
    method Decrypt(length: nat, aead: Aead, key: Bytes, debris: Bytes) returns (rc: int)
      requires Valid() && length <= buf.Length && aead.Lawful() && |debris| == length
      modifies this, buf
      ensures Valid()
      ensures match Opened(aead, key, old(buf[..length]))
              case Some(plain) => rc == length && Payload() == plain
              case None => rc == -1 && Payload() == []
      ensures length <= 40 ==> rc == -1 && Payload() == []
      ensures length > 40 ==>
        match aead.open(key, old(buf[..24]), old(buf[24..length]))
        case Some(plain) => rc == length && Payload() == plain && |plain| == length - 40
        case None => rc == -1 && Payload() == []
    {
      rc := -1;
      if length > MIN_PACKET_LEN {
        var nonce, cipher := buf[..NONCE_LEN], buf[NONCE_LEN..length];
        assert buf[..length][..NONCE_LEN] == nonce && buf[..length][NONCE_LEN..] == cipher;
        match aead.open(key, nonce, cipher)
        case Some(plain) =>
          rc := length;
          Store(NONCE_LEN, plain);
          capacity, position, payloadLength := |plain|, 0, |plain|;
        case None =>
          Store(0, debris);
          capacity, position, payloadLength := 0, 0, 0;
      } else {
        capacity, position, payloadLength := 0, 0, 0;
      }
    }

    /** Receives a datagram that was sent without encryption. */
    method Receive(datagram: Bytes) returns (rc: int)
      requires Valid() && |datagram| <= buf.Length
      modifies this, buf
      ensures Valid() && Payload() == PlainPayload(datagram)
      ensures rc == if |datagram| > 40 then |datagram| else if |datagram| > 0 then 0 else -1
      ensures Payload() == if |datagram| > 40 then datagram[24..|datagram| - 16] else []
    {
      Store(0, datagram);
      rc := -1;
      if |datagram| > 0 {
        rc := 0;
      }
      capacity, position, payloadLength := 0, 0, 0;
      if |datagram| > MIN_PACKET_LEN {
        rc := |datagram|;
        payloadLength := |datagram| - MIN_PACKET_LEN;
        capacity := payloadLength;
      }
    }
  }
}
