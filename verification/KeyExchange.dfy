/**
 The server's half of the handshake: per-connection phases, the blocking of
 addresses that keep failing, and the table of session keys.
 */
module KeyExchange {
  import opened Bytes
  import opened Crypto
  import opened Options

  const MSG_CONNECT_REJECT: byte := 0x03

  const MSG_CRYPTO_HELLO: byte := 0x40

  const MSG_CRYPTO_KEY_OFFER: byte := 0x41

  const MSG_CRYPTO_KEY_ACCEPT: byte := 0x42

  const MSG_CRYPTO_HANDSHAKE_OK: byte := 0x43

  const MSG_ERROR: byte := 0xFF

  const ERR_CRYPTO_HANDSHAKE_FAIL: byte := 0x0B

  const MAX_HANDSHAKE_FAILURES: nat := 3

  const IP_BLOCK_SECONDS: nat := 300

  /** A packet as the handlers see it: its type and its payload. */
  datatype Msg = Msg(kind: byte, payload: seq<byte>)

  predicate HandshakeKind(kind: byte) {
    kind == MSG_CRYPTO_HELLO || kind == MSG_CRYPTO_KEY_OFFER
    || kind == MSG_CRYPTO_KEY_ACCEPT || kind == MSG_CRYPTO_HANDSHAKE_OK
  }

  datatype Phase = WaitingHello | SentKeyOffer | Established | Failed

  datatype PerClient = PerClient(
    phase: Phase, serverNonce: Nonce, clientNonce: Nonce, handshakeTime: int, peerIp: string)

  datatype Failures = Failures(count: nat, blockedUntil: int)

  datatype Exchange = Exchange(clients: map<int, PerClient>, ipFailures: map<string, Failures>)

  const ZERO_NONCE: Nonce := [0, 0, 0, 0, 0, 0, 0, 0, 0, 0, 0, 0, 0, 0, 0, 0]

  const HandshakeError: Msg := Msg(MSG_ERROR, [ERR_CRYPTO_HANDSHAKE_FAIL])

  const HandshakeOk: Msg := Msg(MSG_CRYPTO_HANDSHAKE_OK, [])

  // ----- What the handlers do -----

  function AddClient(x: Exchange, fd: int, ip: string, now: int): Exchange {
    x.(clients := x.clients[fd := PerClient(WaitingHello, ZERO_NONCE, ZERO_NONCE, now, ip)])
  }

  function SetPhase(x: Exchange, fd: int, phase: Phase): Exchange
    requires fd in x.clients
  {
    x.(clients := x.clients[fd := x.clients[fd].(phase := phase)])
  }

  predicate Blocked(x: Exchange, ip: string, now: int) {
    && ip in x.ipFailures
    && x.ipFailures[ip].count >= MAX_HANDSHAKE_FAILURES
    && now < x.ipFailures[ip].blockedUntil
  }

  function RecordFailure(x: Exchange, ip: string, now: int): Exchange {
    var f := if ip in x.ipFailures then x.ipFailures[ip] else Failures(0, 0);
    var until := if f.count + 1 >= MAX_HANDSHAKE_FAILURES then now + IP_BLOCK_SECONDS else f.blockedUntil;
    x.(ipFailures := x.ipFailures[ip := Failures(f.count + 1, until)])
  }

  /** The new state, the reply and the key passed to the session-key callback, if any. */
  datatype Outcome = Outcome(exchange: Exchange, reply: Msg, install: Option<Key>)

  function Hello(x: Exchange, pem: seq<byte>, fd: int, nonce: Nonce, now: int): Outcome
    requires |pem| < U32_LIMIT
  {
    if fd !in x.clients then Outcome(x, HandshakeError, None)
    else if x.clients[fd].phase != WaitingHello || Blocked(x, x.clients[fd].peerIp, now) then
      Outcome(SetPhase(x, fd, Failed), HandshakeError, None)
    else
      var cs := x.clients[fd].(serverNonce := nonce, phase := SentKeyOffer, handshakeTime := now);
      Outcome(x.(clients := x.clients[fd := cs]), Msg(MSG_CRYPTO_KEY_OFFER, EncodeOffer(pem, nonce)), None)
  }

  datatype Secret = Secret(key: Key, nonce: Nonce)

  /** The key and nonce in an RSA block, if the server can read them. */
  function SecretIn(rsa: Rsa, blob: seq<byte>): Option<Secret> {
    var d := rsa.decrypt(blob);
    if d.Some? && |d.value| == 48 then Some(Secret(d.value[..32], d.value[32..48])) else None
  }

  /** `beyond` is whatever is read when the length field points past the payload. */
  function AcceptedSecret(rsa: Rsa, payload: seq<byte>, beyond: seq<byte>): Option<Secret> {
    match DecodeAccept(payload)
    case Field(blob) => SecretIn(rsa, blob)
    case OutOfBounds => SecretIn(rsa, beyond)
    case Rejected => None
  }

  function KeyAccept(x: Exchange, rsa: Rsa, fd: int, payload: seq<byte>, beyond: seq<byte>, now: int): Outcome {
    if fd !in x.clients then Outcome(x, HandshakeError, None)
    else
      var cs := x.clients[fd];
      var secret := AcceptedSecret(rsa, payload, beyond);
      if cs.phase != SentKeyOffer || secret.None? then
        Outcome(RecordFailure(SetPhase(x, fd, Failed), cs.peerIp, now), HandshakeError, None)
      else
        Outcome(x.(clients := x.clients[fd := cs.(clientNonce := secret.value.nonce, phase := Established)]),
                HandshakeOk, Some(secret.value.key))
  }

  // ----- The handlers -----

  class KeyExchange {
    const rsa: Rsa
    var clients: map<int, PerClient>
    var ipFailures: map<string, Failures>

    ghost function State(): Exchange
      reads this
    {
      Exchange(clients, ipFailures)
    }

    constructor (rsa: Rsa)
      ensures this.rsa == rsa
      ensures State() == Exchange(map[], map[])
    {
      this.rsa := rsa;
      clients := map[];
      ipFailures := map[];
    }

    method AddPeer(fd: int, ip: string, now: int)
      modifies this
      ensures State() == AddClient(old(State()), fd, ip, now)
    {
      var state := PerClient(WaitingHello, ZERO_NONCE, ZERO_NONCE, now, ip);
      clients := clients[fd := state];
    }

    method RemoveClient(fd: int)
      modifies this
      ensures State() == old(State()).(clients := old(clients) - {fd})
    {
      clients := clients - {fd};
    }

    method Fail(fd: int)
      requires fd in clients
      modifies this`clients
      ensures State() == SetPhase(old(State()), fd, Failed)
    {
      clients := clients[fd := clients[fd].(phase := Failed)];
    }

    method NoteFailure(ip: string, now: int)
      modifies this`ipFailures
      ensures State() == RecordFailure(old(State()), ip, now)
    {
      var entry := if ip in ipFailures then ipFailures[ip] else Failures(0, 0);
      entry := entry.(count := entry.count + 1);
      if entry.count >= MAX_HANDSHAKE_FAILURES {
        entry := entry.(blockedUntil := now + IP_BLOCK_SECONDS);
      }
      ipFailures := ipFailures[ip := entry];
    }

    method HandleHello(fd: int, nonce: Nonce, now: int) returns (reply: Msg)
      requires |rsa.pem| < U32_LIMIT
      modifies this
      ensures Outcome(State(), reply, None) == Hello(old(State()), rsa.pem, fd, nonce, now)
    {
      if fd !in clients {
        return HandshakeError;
      }
      var cs := clients[fd];
      if cs.phase != WaitingHello {
        Fail(fd);
        return HandshakeError;
      }
      if cs.peerIp in ipFailures {
        var entry := ipFailures[cs.peerIp];
        if entry.count >= MAX_HANDSHAKE_FAILURES && now < entry.blockedUntil {
          Fail(fd);
          return HandshakeError;
        }
      }
      cs := cs.(serverNonce := nonce);
      cs := cs.(phase := SentKeyOffer);
      cs := cs.(handshakeTime := now);
      clients := clients[fd := cs];
      var payload := BigEndian(|rsa.pem|);
      payload := payload + rsa.pem;
      payload := payload + nonce;
      return Msg(MSG_CRYPTO_KEY_OFFER, payload);
    }

    method HandleKeyAccept(fd: int, payload: seq<byte>, beyond: seq<byte>, now: int)
      returns (reply: Msg, install: Option<Key>)
      modifies this
      ensures Outcome(State(), reply, install) == KeyAccept(old(State()), rsa, fd, payload, beyond, now)
    {
      reply, install := HandshakeError, None;
      if fd !in clients {
        return;
      }
      var cs := clients[fd];
      if cs.phase != SentKeyOffer || |payload| < 4 {
        Fail(fd);
        NoteFailure(cs.peerIp, now);
        return;
      }
      var blobLen := FromBigEndian(payload[..4]);
      if |payload| < U32Add(4, blobLen) {
        Fail(fd);
        NoteFailure(cs.peerIp, now);
        return;
      }
      var rsaBlob := if 4 + blobLen <= |payload| then payload[4..4 + blobLen] else beyond;
      var decrypted := rsa.decrypt(rsaBlob);
      if decrypted.None? || |decrypted.value| != 48 {
        Fail(fd);
        NoteFailure(cs.peerIp, now);
        return;
      }
      var aesKey := decrypted.value[..32];
      cs := cs.(clientNonce := decrypted.value[32..48]);
      cs := cs.(phase := Established);
      clients := clients[fd := cs];
      return HandshakeOk, Some(aesKey);
    }
  }

  // ----- The table of session keys -----

  /** emplace: an entry already present stays. */
  function Establish(keys: map<int, Key>, fd: int, key: Key): map<int, Key> {
    if fd in keys then keys else keys[fd := key]
  }

  class CryptoEngine {
    const aead: Aead
    var sessionKeys: map<int, Key>

    constructor (aead: Aead)
      ensures this.aead == aead && sessionKeys == map[]
    {
      this.aead := aead;
      sessionKeys := map[];
    }

    /** Only 32-byte keys are taken; the source throws on any other length. */
    method EstablishSession(fd: int, aesKey: seq<byte>) returns (ok: bool)
      modifies this
      ensures ok <==> |aesKey| == 32
      ensures sessionKeys == if ok then Establish(old(sessionKeys), fd, aesKey) else old(sessionKeys)
    {
      if |aesKey| != 32 {
        return false;
      }
      if fd !in sessionKeys {
        sessionKeys := sessionKeys[fd := aesKey];
      }
      return true;
    }

    method RemoveSession(fd: int)
      modifies this
      ensures sessionKeys == old(sessionKeys) - {fd}
    {
      sessionKeys := sessionKeys - {fd};
    }

    method EncryptPayload(fd: int, iv: Nonce, plaintext: seq<byte>) returns (r: Option<seq<byte>>)
      ensures r == if fd in sessionKeys then Some(aead.seal(sessionKeys[fd], iv, plaintext)) else None
    {
      if fd !in sessionKeys {
        return None;
      }
      return Some(aead.seal(sessionKeys[fd], iv, plaintext));
    }

    method DecryptPayload(fd: int, ciphertext: seq<byte>) returns (r: Option<seq<byte>>)
      ensures r == if fd in sessionKeys then aead.unseal(sessionKeys[fd], ciphertext) else None
    {
      if fd !in sessionKeys {
        return None;
      }
      return aead.unseal(sessionKeys[fd], ciphertext);
    }
  }

  // ----- The server's packet entry point -----

  /** `sessions` are the fds of the live sessions. */
  datatype Server = Server(exchange: Exchange, keys: map<int, Key>, sessions: set<int>)

  datatype Config = Config(rsa: Rsa, aead: Aead, encrypting: bool)

  /** Fresh values a handler may draw, the clock, and the bytes that happen to lie behind a payload. */
  datatype Draw = Draw(nonce: Nonce, iv: Nonce, now: int, beyond: seq<byte>)

  /** What handling one packet does: packets sent back and packets passed on to the message switch. */
  datatype Handled = Handled(server: Server, sent: seq<Msg>, dispatched: seq<Msg>)

  function Accept(s: Server, fd: int, ip: string, now: int): Server {
    s.(exchange := AddClient(s.exchange, fd, ip, now), sessions := s.sessions + {fd})
  }

  function Disconnect(s: Server, fd: int): Server {
    Server(s.exchange.(clients := s.exchange.clients - {fd}), s.keys - {fd}, s.sessions - {fd})
  }

  /** sendPacket on a session: everything but handshake packets is encrypted once a key is installed. */
  function Outgoing(cfg: Config, s: Server, fd: int, m: Msg, iv: Nonce): Msg {
    if !HandshakeKind(m.kind) && fd in s.keys then m.(payload := cfg.aead.seal(s.keys[fd], iv, m.payload)) else m
  }

  function Reply(cfg: Config, s: Server, fd: int, m: Msg, iv: Nonce): Handled {
    if fd !in s.sessions then Handled(s, [], [])
    else Handled(if m.kind == MSG_ERROR then Disconnect(s, fd) else s, [Outgoing(cfg, s, fd, m, iv)], [])
  }

  function HandlePacket(cfg: Config, s: Server, fd: int, m: Msg, d: Draw): Handled
    requires |cfg.rsa.pem| < U32_LIMIT
  {
    if m.kind == MSG_CRYPTO_HELLO then
      var r := Hello(s.exchange, cfg.rsa.pem, fd, d.nonce, d.now);
      Reply(cfg, s.(exchange := r.exchange), fd, r.reply, d.iv)
    else if m.kind == MSG_CRYPTO_KEY_ACCEPT then
      var r := KeyAccept(s.exchange, cfg.rsa, fd, m.payload, d.beyond, d.now);
      var keys := if r.install.Some? then Establish(s.keys, fd, r.install.value) else s.keys;
      Reply(cfg, s.(exchange := r.exchange, keys := keys), fd, r.reply, d.iv)
    else if fd in s.keys then
      var plain := cfg.aead.unseal(s.keys[fd], m.payload);
      if plain.Some? then Handled(s, [], [Msg(m.kind, plain.value)])
      else Handled(if fd in s.sessions then Disconnect(s, fd) else s, [], [])
    else if cfg.encrypting then
      Handled(if fd in s.sessions then Disconnect(s, fd) else s, [], [])
    else Handled(s, [], [m])
  }

  // ----- Between handlers, a key is installed exactly for the established connections -----

  ghost predicate Consistent(s: Server) {
    && s.sessions == s.exchange.clients.Keys
    && (forall fd | fd in s.exchange.clients :: s.exchange.clients[fd].phase != Failed)
    && (forall fd :: fd in s.keys <==> fd in s.exchange.clients && s.exchange.clients[fd].phase == Established)
  }

  /** Anything the network or the kernel can make the server do. */
  datatype ServerEvent =
    | Accepted(fd: int, ip: string, now: int)
    | Received(fd: int, msg: Msg, draw: Draw)
    | Closed(fd: int)

  /** The kernel never hands out an fd that is still open. */
  predicate Possible(s: Server, e: ServerEvent) {
    e.Accepted? ==> e.fd !in s.sessions
  }

  function ServerStep(cfg: Config, s: Server, e: ServerEvent): Server
    requires |cfg.rsa.pem| < U32_LIMIT
  {
    match e
    case Accepted(fd, ip, now) => Accept(s, fd, ip, now)
    case Received(fd, m, d) => HandlePacket(cfg, s, fd, m, d).server
    case Closed(fd) => Disconnect(s, fd)
  }

  ghost predicate ServerRun(cfg: Config, trace: seq<Server>, events: seq<ServerEvent>)
    requires |cfg.rsa.pem| < U32_LIMIT
  {
    && |trace| == |events| + 1
    && trace[0] == Server(Exchange(map[], map[]), map[], {})
    && forall i | 0 <= i < |events| ::
         Possible(trace[i], events[i]) && trace[i + 1] == ServerStep(cfg, trace[i], events[i])
  }

  lemma DisconnectKeepsConsistent(s: Server, fd: int)
    requires Consistent(s)
    ensures Consistent(Disconnect(s, fd))
  {
  }

  lemma HelloKeepsConsistent(cfg: Config, s: Server, fd: int, m: Msg, d: Draw)
    requires |cfg.rsa.pem| < U32_LIMIT
    requires Consistent(s) && m.kind == MSG_CRYPTO_HELLO
    ensures Consistent(HandlePacket(cfg, s, fd, m, d).server)
  {
  }

  lemma AcceptKeepsConsistent(cfg: Config, s: Server, fd: int, m: Msg, d: Draw)
    requires |cfg.rsa.pem| < U32_LIMIT
    requires Consistent(s) && m.kind == MSG_CRYPTO_KEY_ACCEPT
    ensures Consistent(HandlePacket(cfg, s, fd, m, d).server)
  {
  }

  lemma HandlePacketKeepsConsistent(cfg: Config, s: Server, fd: int, m: Msg, d: Draw)
    requires |cfg.rsa.pem| < U32_LIMIT
    requires Consistent(s)
    ensures Consistent(HandlePacket(cfg, s, fd, m, d).server)
  {
    if m.kind == MSG_CRYPTO_HELLO {
      HelloKeepsConsistent(cfg, s, fd, m, d);
    } else if m.kind == MSG_CRYPTO_KEY_ACCEPT {
      AcceptKeepsConsistent(cfg, s, fd, m, d);
    } else {
      DisconnectKeepsConsistent(s, fd);
    }
  }

  /** In every run, whatever packets arrive, the key table and the handshake phases agree after every handler. */
  lemma {:induction false} KeysMatchPhases(cfg: Config, trace: seq<Server>, events: seq<ServerEvent>, i: nat)
    requires |cfg.rsa.pem| < U32_LIMIT
    requires ServerRun(cfg, trace, events)
    requires i < |trace|
    ensures Consistent(trace[i])
  {
    if i > 0 {
      KeysMatchPhases(cfg, trace, events, i - 1);
      var (s, e) := (trace[i - 1], events[i - 1]);
      assert trace[i] == ServerStep(cfg, s, e) && Possible(s, e);
      match e {
        case Accepted(fd, ip, now) =>
        case Received(fd, m, d) => HandlePacketKeepsConsistent(cfg, s, fd, m, d);
        case Closed(fd) =>
      }
    }
  }
}
