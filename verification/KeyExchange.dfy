/**
  What the two sides of the key request exchange, with symbolic cryptography: a shared key is
  known by the two public keys it is made of, a signature by its signer and its content, and
  an encrypted datagram opens under its own key only.
 */
module KeyExchange {
  import opened Options
  import Wire

  type Bytes = Wire.Bytes
  type Id = string

  /** The size of public keys for key exchange, of session keys and of multicast keys. */
  const KEY_SIZE: nat := 32

  /** The same for both sides, whoever computes it. */
  type SharedKey = set<Bytes>

  function Shared(mine: Bytes, theirs: Bytes): SharedKey {
    {mine, theirs}
  }

  datatype Signed = Signed(signer: Id, content: Bytes)

  datatype Payload = Nothing | IdOnly(id: Id) | IdAndSignature(id: Id, signed: Signed)

  datatype Datagram = PublicKey(key: Bytes) | Sealed(secret: SharedKey, payload: Payload)

  /** The content of the signed message, if it was signed by `id`. */
  function OpenSigned(id: Id, signed: Signed): Option<Bytes> {
    if signed.signer == id then Some(signed.content) else None
  }

  /** A datagram without payload is not decrypted. */
  function Decrypt(secret: SharedKey, d: Datagram): Option<Payload> {
    if d.Sealed? && d.secret == secret && !d.payload.Nothing? then Some(d.payload) else None
  }

  /** What reading a public key from a datagram gives. An encrypted datagram may by chance
      read as some other string, or as none. */
  function ReadPublicKey(d: Datagram, misread: Option<Bytes>): Option<Bytes> {
    match d
    case PublicKey(key) => Some(key)
    case Sealed(_, _) => misread
  }

  /** A public key is sent as a length byte and the key, and is shorter than anything
      encrypted. */
  predicate IsShort(d: Datagram) {
    d.PublicKey? && 1 + |d.key| < 40
  }

  /** The state after a packet, the datagrams sent, and the result. */
  datatype Outcome<T> = Outcome(state: T, sent: seq<Datagram>, rc: bool)

  /** The shared key tells who holds it. */
  lemma SharedTells(mine: Bytes, theirs: Bytes, other: Bytes)
    ensures Shared(mine, theirs) == Shared(theirs, other) <==> other == mine
  {}
}
