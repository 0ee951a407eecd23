/** The client's half of the handshake and of the encrypted channel. */
module ClientCrypto {
  import opened Bytes
  import opened Crypto
  import opened KeyExchange
  import opened Options

  /** The client end of one connection: `aes` is the cipher made from the session key. */
  datatype Client = Client(connected: bool, aes: Option<Key>, ready: bool, serverNonce: Nonce, clientNonce: Nonce)

  /** Fresh values a client may draw (key, nonce, the randomness of the RSA padding), and what it happens to read
      when a length field points past the payload. */
  datatype ClientDraw = ClientDraw(key: Key, nonce: Nonce, coins: nat, beyond: Offer)

  datatype ClientHandled = ClientHandled(client: Client, sent: seq<Msg>, delivered: seq<Msg>)

  /** After connecting: no secrets, HELLO on its way. */
  const Started: Client := Client(true, None, false, ZERO_NONCE, ZERO_NONCE)

  const Stopped: Client := Client(false, None, false, ZERO_NONCE, ZERO_NONCE)

  /** disconnect(): it returns at once if the connection is already gone. */
  function ClientDisconnect(cl: Client): Client {
    if cl.connected then Stopped else cl
  }

  /** A read that fails: the receive thread marks the connection as gone and ends. */
  function ClientLost(cl: Client): Client {
    cl.(connected := false)
  }

  /** Answering an offer; None when the source throws. */
  function Answer(rsa: Rsa, cl: Client, offer: Offer, d: ClientDraw): Option<(Client, Msg)> {
    var blob := rsa.encrypt(offer.pem, d.coins, d.key + d.nonce);
    if blob.None? then None
    else Some((cl.(aes := Some(d.key), serverNonce := offer.nonce, clientNonce := d.nonce),
               Msg(MSG_CRYPTO_KEY_ACCEPT, EncodeAccept(blob.value))))
  }

  function KeyOffer(rsa: Rsa, cl: Client, payload: seq<byte>, d: ClientDraw): Option<(Client, Msg)> {
    match DecodeOffer(payload)
    case Field(offer) => Answer(rsa, cl, offer, d)
    case OutOfBounds => Answer(rsa, cl, d.beyond, d)
    case Rejected => None
  }

  /** A packet in the receive loop. */
  function ClientReceive(rsa: Rsa, aead: Aead, cl: Client, m: Msg, d: ClientDraw): ClientHandled {
    if m.kind == MSG_CRYPTO_KEY_OFFER then
      match KeyOffer(rsa, cl, m.payload, d)
      case Some(r) => ClientHandled(r.0, [r.1], [])
      case None => ClientHandled(Stopped, [], [])
    else if m.kind == MSG_CRYPTO_HANDSHAKE_OK then
      ClientHandled(if cl.aes.Some? then cl.(ready := true) else Stopped, [], [])
    else if cl.ready then
      var plain := if cl.aes.Some? then aead.unseal(cl.aes.value, m.payload) else None;
      match plain
      case Some(p) => ClientHandled(cl, [], [m.(payload := p)])
      case None => ClientHandled(Stopped, [], [])
    else if m.kind == MSG_CONNECT_REJECT then ClientHandled(cl, [], [m])
    else ClientHandled(Stopped, [], [])
  }

  /** One round of the receive loop: a packet, or a read that failed. */
  function ClientRound(rsa: Rsa, aead: Aead, cl: Client, read: Option<Msg>, d: ClientDraw): ClientHandled {
    if !cl.connected then ClientHandled(cl, [], [])
    else if read.None? then ClientHandled(ClientLost(cl), [], [])
    else ClientReceive(rsa, aead, cl, read.value, d)
  }

  /** No key, no nonces, not ready. */
  predicate Secretless(cl: Client) {
    cl.aes.None? && !cl.ready && cl.serverNonce == ZERO_NONCE && cl.clientNonce == ZERO_NONCE
  }

  /** disconnect() leaves no secret behind exactly if the client was still connected or held none. */
  lemma ClearsExactly(cl: Client)
    ensures Secretless(ClientDisconnect(cl)) <==> cl.connected || Secretless(cl)
    ensures !ClientDisconnect(cl).connected
  {
  }

  /** sendPacket: everything but handshake packets is encrypted once the handshake is done. */
  function ClientOutgoing(aead: Aead, cl: Client, m: Msg, iv: Nonce): Msg {
    if !HandshakeKind(m.kind) && cl.ready && cl.aes.Some? then m.(payload := aead.seal(cl.aes.value, iv, m.payload))
    else m
  }

  class TcpClient {
    const rsa: Rsa
    const aead: Aead
    var connected: bool
    var aesSessionKey: Option<Key>
    var aes: Option<Key>
    var handshakeDone: bool
    var serverNonce: Nonce
    var clientNonce: Nonce

    ghost function State(): Client
      reads this
    {
      Client(connected, aes, handshakeDone, serverNonce, clientNonce)
    }

    constructor (rsa: Rsa, aead: Aead)
      ensures this.rsa == rsa && this.aead == aead
      ensures State() == Stopped && aesSessionKey == None
    {
      this.rsa := rsa;
      this.aead := aead;
      connected := false;
      aesSessionKey, aes, handshakeDone := None, None, false;
      serverNonce, clientNonce := ZERO_NONCE, ZERO_NONCE;
    }

    method CryptoDisconnect()
      modifies this
      ensures connected == old(connected)
      ensures aesSessionKey == None && aes == None && !handshakeDone
      ensures serverNonce == clientNonce == ZERO_NONCE
    {
      handshakeDone := false;
      if aesSessionKey.Some? {
        aesSessionKey := None;
      }
      aes := None;
      serverNonce := ZERO_NONCE;
      clientNonce := ZERO_NONCE;
    }

    /** Nothing is cleared if the connection is already gone. */
    method Disconnect()
      modifies this
      ensures State() == ClientDisconnect(old(State()))
      ensures aesSessionKey == if old(connected) then None else old(aesSessionKey)
    {
      if !connected {
        return;
      }
      connected := false;
      CryptoDisconnect();
    }

    /** Connecting starts the handshake at once. */
    method Connect() returns (sent: Msg)
      modifies this
      ensures State() == Started && aesSessionKey == None
      ensures sent == Msg(MSG_CRYPTO_HELLO, [])
    {
      connected := true;
      CryptoDisconnect();
      sent := Msg(MSG_CRYPTO_HELLO, []);
    }

    method ProcessKeyOffer(payload: seq<byte>, d: ClientDraw) returns (r: Option<Msg>)
      modifies this
      ensures connected == old(connected)
      ensures r.None? <==> KeyOffer(rsa, old(State()), payload, d).None?
      ensures r.Some? ==> KeyOffer(rsa, old(State()), payload, d) == Some((State(), r.value)) && aesSessionKey == aes
    {
      if |payload| < 4 + 16 {
        return None;
      }
      var pemLen: nat := FromBigEndian(payload[..4]);
      var needed := U32Add(U32Add(4, pemLen), 16);
      if |payload| < needed {
        return None;
      }
      var inside := 4 + pemLen + 16 <= |payload|;
      var pem := if inside then payload[4..4 + pemLen] else d.beyond.pem;
      serverNonce := if inside then payload[4 + pemLen..4 + pemLen + 16] else d.beyond.nonce;
      aesSessionKey := Some(d.key);
      clientNonce := d.nonce;
      var blob := d.key + d.nonce;
      var rsaBlob := rsa.encrypt(pem, d.coins, blob);
      if rsaBlob.None? {
        return None;
      }
      aes := aesSessionKey;
      var acceptPayload := BigEndian(Truncate(|rsaBlob.value|));
      acceptPayload := acceptPayload + rsaBlob.value;
      return Some(Msg(MSG_CRYPTO_KEY_ACCEPT, acceptPayload));
    }

    /** The body of the receive loop. The key bytes and the cipher are set and cleared together. */
    method ReceiveOne(read: Option<Msg>, d: ClientDraw) returns (sent: seq<Msg>, delivered: seq<Msg>)
      requires aesSessionKey == aes
      modifies this
      ensures aesSessionKey == aes
      ensures ClientHandled(State(), sent, delivered) == ClientRound(rsa, aead, old(State()), read, d)
    {
      sent, delivered := [], [];
      if !connected {
        return;
      }
      if read.None? {
        connected := false;
        return;
      }
      var m := read.value;
      if m.kind == MSG_CRYPTO_KEY_OFFER {
        var reply := ProcessKeyOffer(m.payload, d);
        if reply.Some? {
          sent := [reply.value];
        } else {
          Disconnect();
        }
      } else if m.kind == MSG_CRYPTO_HANDSHAKE_OK {
        if aes.None? {
          Disconnect();
        } else {
          handshakeDone := true;
        }
      } else if handshakeDone {
        var plain := if aes.Some? then aead.unseal(aes.value, m.payload) else None;
        if plain.None? {
          Disconnect();
        } else {
          delivered := [m.(payload := plain.value)];
        }
      } else if m.kind == MSG_CONNECT_REJECT {
        delivered := [m];
      } else {
        Disconnect();
      }
    }
  }
}
