/**
 The handshake between any number of clients and the server, with connections opening,
 closing and breaking and fds being reused. A client reads in the order of sending; the
 server's workers may handle the packets of a connection in any order, and those that are
 left when it is closed at any time later, on behalf of whoever holds the fd by then.
 */
module Handshake {
  import opened Bytes
  import opened Crypto
  import opened KeyExchange
  import opened ClientCrypto
  import opened Options

  /** Tasks that were not done when their connection was closed; they know its fd and nothing else of it. */
  datatype Leftover = Leftover(fd: int, msgs: seq<Msg>)

  const NothingLeft: Leftover := Leftover(0, [])

  /** One connection: the client end, the packets under way in both directions, the server's fd while the
      server keeps it, and what is left to do when it does not. */
  datatype Conn = Conn(client: Client, toServer: seq<Msg>, toClient: seq<Msg>, fd: Option<int>, left: Leftover)

  /** `installed` is the history of keys the server installed, by connection. */
  datatype World = World(conns: map<nat, Conn>, server: Server, installed: set<(nat, Key)>)

  /** In HandlesLeftover, `c` is the closed connection and `to` the one that has its fd now. */
  datatype Event =
    | Connect(c: nat, fd: int, ip: string, now: int)
    | ServerReceives(c: nat, at: nat, draw: Draw)
    | HandlesLeftover(c: nat, at: nat, to: Option<nat>, draw: Draw)
    | ServerSends(c: nat, msg: Msg, iv: Nonce)
    | ServerCloses(c: nat)
    | ClientReceives(c: nat, clientDraw: ClientDraw)
    | ClientSends(c: nat, msg: Msg, iv: Nonce)
    | ClientLoses(c: nat)
    | ClientCloses(c: nat)

  const Initial: World := World(map[], Server(Exchange(map[], map[]), map[], {}), {})

  predicate Has(w: World, c: nat, fd: int) {
    c in w.conns && w.conns[c].fd == Some(fd)
  }

  predicate Enabled(w: World, e: Event) {
    match e
    case Connect(c, fd, _, _) => c !in w.conns && fd !in w.server.sessions
    case ServerReceives(c, at, _) => c in w.conns && w.conns[c].fd.Some? && at < |w.conns[c].toServer|
    case HandlesLeftover(c, at, to, _) =>
      && c in w.conns && at < |w.conns[c].left.msgs|
      && if to.Some? then Has(w, to.value, w.conns[c].left.fd) else w.conns[c].left.fd !in w.server.sessions
    case ServerSends(c, m, _) => c in w.conns && w.conns[c].fd.Some? && !HandshakeKind(m.kind)
    case ServerCloses(c) => c in w.conns && w.conns[c].fd.Some?
    case ClientReceives(c, _) => c in w.conns && w.conns[c].client.connected && w.conns[c].toClient != []
    case ClientSends(c, m, _) => c in w.conns && w.conns[c].client.connected && !HandshakeKind(m.kind)
    case ClientLoses(c) => c in w.conns && w.conns[c].client.connected
    case ClientCloses(c) => c in w.conns
  }

  function Without<T>(xs: seq<T>, at: nat): seq<T>
    requires at < |xs|
  {
    xs[..at] + xs[at + 1..]
  }

  function Opened(fd: int): Conn {
    Conn(Started, [Msg(MSG_CRYPTO_HELLO, [])], [], Some(fd), NothingLeft)
  }

  /** The packets that were on their way stay behind as tasks of the fd. */
  function Close(conn: Conn, fd: int): Conn {
    conn.(fd := None, toServer := [], left := Leftover(fd, conn.toServer))
  }

  /** The connection after the server handled a packet on its fd. */
  function AfterServer(conn: Conn, fd: int, h: Handled): Conn {
    var next := conn.(toClient := conn.toClient + h.sent);
    if fd in h.server.sessions then next else Close(next, fd)
  }

  function Recorded(w: World, c: nat, fd: int, s: Server): set<(nat, Key)> {
    if fd in s.keys then w.installed + {(c, s.keys[fd])} else w.installed
  }

  /** The server handles a packet on the fd of this connection. */
  function HandleOn(cfg: Config, w: World, c: nat, m: Msg, d: Draw): World
    requires |cfg.rsa.pem| < U32_LIMIT
    requires c in w.conns && w.conns[c].fd.Some?
  {
    var fd := w.conns[c].fd.value;
    var h := HandlePacket(cfg, w.server, fd, m, d);
    World(w.conns[c := AfterServer(w.conns[c], fd, h)], h.server, Recorded(w, c, fd, h.server))
  }

  function TakePacket(conn: Conn, at: nat): Conn
    requires at < |conn.toServer|
  {
    conn.(toServer := Without(conn.toServer, at))
  }

  function TakeLeftover(conn: Conn, at: nat): Conn
    requires at < |conn.left.msgs|
  {
    conn.(left := conn.left.(msgs := Without(conn.left.msgs, at)))
  }

  function Change(w: World, c: nat, conn: Conn): World {
    w.(conns := w.conns[c := conn])
  }

  function Apply(cfg: Config, w: World, e: Event): World
    requires |cfg.rsa.pem| < U32_LIMIT
    requires Enabled(w, e)
  {
    match e
    case Connect(c, fd, ip, now) => Change(w, c, Opened(fd)).(server := Accept(w.server, fd, ip, now))
    case ServerReceives(c, at, d) =>
      HandleOn(cfg, Change(w, c, TakePacket(w.conns[c], at)), c, w.conns[c].toServer[at], d)
    case HandlesLeftover(c, at, to, d) =>
      var left, taken := w.conns[c].left, Change(w, c, TakeLeftover(w.conns[c], at));
      if to.Some? then HandleOn(cfg, taken, to.value, left.msgs[at], d)
      else taken.(server := HandlePacket(cfg, w.server, left.fd, left.msgs[at], d).server)
    case ServerSends(c, m, iv) =>
      var conn := w.conns[c];
      Change(w, c, conn.(toClient := conn.toClient + [Outgoing(cfg, w.server, conn.fd.value, m, iv)]))
    case ServerCloses(c) =>
      var fd := w.conns[c].fd.value;
      Change(w, c, Close(w.conns[c], fd)).(server := Disconnect(w.server, fd))
    case ClientReceives(c, d) =>
      var conn := w.conns[c];
      var h := ClientReceive(cfg.rsa, cfg.aead, conn.client, conn.toClient[0], d);
      Change(w, c, conn.(client := h.client, toClient := conn.toClient[1..], toServer := conn.toServer + h.sent))
    case ClientSends(c, m, iv) =>
      var conn := w.conns[c];
      Change(w, c, conn.(toServer := conn.toServer + [ClientOutgoing(cfg.aead, conn.client, m, iv)]))
    case ClientLoses(c) => Change(w, c, w.conns[c].(client := ClientLost(w.conns[c].client)))
    case ClientCloses(c) => Change(w, c, w.conns[c].(client := ClientDisconnect(w.conns[c].client)))
  }

  // ----- The invariant -----

  predicate Lacks(ch: seq<Msg>, kind: byte) {
    forall i | 0 <= i < |ch| :: ch[i].kind != kind
  }

  /** At most one offer, and it carries the server's own public key. */
  predicate OffersFine(cfg: Config, ch: seq<Msg>) {
    && (forall i, j | 0 <= i < j < |ch| :: ch[i].kind == MSG_CRYPTO_KEY_OFFER ==> ch[j].kind != MSG_CRYPTO_KEY_OFFER)
    && (forall i | 0 <= i < |ch| && ch[i].kind == MSG_CRYPTO_KEY_OFFER ::
          DecodeOffer(ch[i].payload).Field? && DecodeOffer(ch[i].payload).value.pem == cfg.rsa.pem)
  }

  predicate Carries(rsa: Rsa, payload: seq<byte>, key: Key) {
    && DecodeAccept(payload).Field?
    && SecretIn(rsa, DecodeAccept(payload).value).Some?
    && SecretIn(rsa, DecodeAccept(payload).value).value.key == key
  }

  /** Every KEY_ACCEPT on the channel carries this key. */
  predicate AcceptsCarry(cfg: Config, ch: seq<Msg>, key: Key) {
    forall i | 0 <= i < |ch| && ch[i].kind == MSG_CRYPTO_KEY_ACCEPT ::
      Carries(cfg.rsa, ch[i].payload, key)
  }

  /** The key is the client's own: it holds that key, or is gone without one. */
  predicate Owns(cl: Client, key: Key) {
    if cl.aes.Some? then cl.aes.value == key else !cl.connected
  }

  /** Every key the server holds for a connection is the key of the client at its other end. */
  ghost predicate KeysOwn(w: World) {
    forall c | c in w.conns && w.conns[c].fd.Some? && w.conns[c].fd.value in w.server.keys ::
      Owns(w.conns[c].client, w.server.keys[w.conns[c].fd.value])
  }

  /** What the client end and the packets on their way to it guarantee. */
  predicate ClientFine(cfg: Config, w: World, c: nat, conn: Conn) {
    var cl := conn.client;
    && OffersFine(cfg, conn.toClient)
    && (cl.ready ==> cl.aes.Some? && (c, cl.aes.value) in w.installed)
    && (cl.connected && !Lacks(conn.toClient, MSG_CRYPTO_KEY_OFFER) ==> cl.aes.None?)
    && (cl.connected && !Lacks(conn.toClient, MSG_CRYPTO_HANDSHAKE_OK) ==>
          cl.aes.Some? && (c, cl.aes.value) in w.installed)
  }

  /** What holds while the server still keeps the connection under `fd`. */
  predicate ServerFine(cfg: Config, w: World, c: nat, conn: Conn, fd: int) {
    var cl := conn.client;
    && fd in w.server.sessions
    && fd in w.server.exchange.clients
    && (w.server.exchange.clients[fd].phase == WaitingHello ==>
          cl.aes.None? && Lacks(conn.toClient, MSG_CRYPTO_KEY_OFFER) && Lacks(conn.toServer, MSG_CRYPTO_KEY_ACCEPT))
    && (cl.connected && cl.aes.None? ==> Lacks(conn.toServer, MSG_CRYPTO_KEY_ACCEPT))
    && (cl.aes.Some? ==> AcceptsCarry(cfg, conn.toServer, cl.aes.value))
    && (cl.ready || !Lacks(conn.toClient, MSG_CRYPTO_HANDSHAKE_OK) ==> fd in w.server.keys)
    && (fd in w.server.keys ==> (c, w.server.keys[fd]) in w.installed && Owns(cl, w.server.keys[fd]))
  }

  predicate ConnFine(cfg: Config, w: World, c: nat, conn: Conn) {
    ClientFine(cfg, w, c, conn) && (conn.fd.Some? ==> ServerFine(cfg, w, c, conn, conn.fd.value))
  }

  /** Every kept connection has an fd to itself. */
  ghost predicate Placed(w: World) {
    && Consistent(w.server)
    && (forall c | c in w.conns && w.conns[c].fd.Some? ::
          w.conns[c].fd.value in w.server.sessions && w.conns[c].left.msgs == [])
    && (forall c, c' | c in w.conns && c' in w.conns && c != c' && w.conns[c].fd.Some? ::
          w.conns[c'].fd != w.conns[c].fd)
  }

  ghost predicate Inv(cfg: Config, w: World) {
    Placed(w) && forall c | c in w.conns :: ConnFine(cfg, w, c, w.conns[c])
  }

  /** The fd has been sent its offer and has not answered it. */
  predicate AwaitsKey(s: Server, fd: int) {
    fd in s.exchange.clients && s.exchange.clients[fd].phase == SentKeyOffer
  }

  /** If the packet makes the server install a key, it is the key of the client at the other end. */
  predicate Fits(cfg: Config, s: Server, cl: Client, fd: int, m: Msg, d: Draw) {
    var secret := AcceptedSecret(cfg.rsa, m.payload, d.beyond);
    (m.kind == MSG_CRYPTO_KEY_ACCEPT && AwaitsKey(s, fd) && secret.Some?) ==> Owns(cl, secret.value.key)
  }

  /** A left-over packet is harmless unless it is a readable KEY_ACCEPT, the connection that has the fd now has
      been sent its offer and not answered it, and the key is not the one its client holds. */
  predicate Harmless(cfg: Config, w: World, e: Event)
    requires Enabled(w, e)
  {
    e.HandlesLeftover? && e.to.Some? ==>
      var left := w.conns[e.c].left;
      Fits(cfg, w.server, w.conns[e.to.value].client, left.fd, left.msgs[e.at], e.draw)
  }

  // ----- One step keeps it -----

  /** Two servers that agree about every fd but one. */
  ghost predicate SameElsewhere(s: Server, t: Server, fd: int) {
    forall g | g != fd ::
      && (g in s.sessions <==> g in t.sessions)
      && (g in s.keys <==> g in t.keys)
      && (g in s.exchange.clients <==> g in t.exchange.clients)
      && (g in s.keys ==> s.keys[g] == t.keys[g])
      && (g in s.exchange.clients ==> s.exchange.clients[g] == t.exchange.clients[g])
  }

  lemma HandlePacketElsewhere(cfg: Config, s: Server, fd: int, m: Msg, d: Draw)
    requires |cfg.rsa.pem| < U32_LIMIT
    ensures SameElsewhere(s, HandlePacket(cfg, s, fd, m, d).server, fd)
  {
  }

  // The places.

  lemma ChangePlaced(w: World, c: nat, conn: Conn)
    requires Placed(w) && c in w.conns && conn.fd == w.conns[c].fd
    requires conn.fd.Some? ==> conn.left.msgs == []
    ensures Placed(Change(w, c, conn))
  {
  }

  lemma ConnectPlaced(cfg: Config, w: World, c: nat, fd: int, ip: string, now: int)
    requires |cfg.rsa.pem| < U32_LIMIT
    requires Placed(w) && Enabled(w, Connect(c, fd, ip, now))
    ensures Placed(Apply(cfg, w, Connect(c, fd, ip, now)))
    ensures forall c' | c' in w.conns :: w.conns[c'].fd != Some(fd)
  {
  }

  lemma ClosesPlaced(cfg: Config, w: World, c: nat)
    requires |cfg.rsa.pem| < U32_LIMIT
    requires Placed(w) && Enabled(w, ServerCloses(c))
    ensures Placed(Apply(cfg, w, ServerCloses(c)))
  {
    DisconnectKeepsConsistent(w.server, w.conns[c].fd.value);
  }

  lemma HandleOnPlaced(cfg: Config, w: World, c: nat, m: Msg, d: Draw)
    requires |cfg.rsa.pem| < U32_LIMIT
    requires Placed(w) && c in w.conns && w.conns[c].fd.Some?
    ensures Placed(HandleOn(cfg, w, c, m, d))
  {
    var fd := w.conns[c].fd.value;
    HandlePacketKeepsConsistent(cfg, w.server, fd, m, d);
    HandlePacketElsewhere(cfg, w.server, fd, m, d);
  }

  /** A task whose fd nobody has changes nothing. */
  lemma NobodyThere(cfg: Config, s: Server, fd: int, m: Msg, d: Draw)
    requires |cfg.rsa.pem| < U32_LIMIT
    requires Consistent(s) && fd !in s.sessions
    ensures HandlePacket(cfg, s, fd, m, d).server == s
  {
  }

  lemma LeftoverPlaced(cfg: Config, w: World, e: Event)
    requires |cfg.rsa.pem| < U32_LIMIT
    requires Placed(w) && Enabled(w, e) && e.HandlesLeftover?
    ensures Placed(Apply(cfg, w, e))
    ensures w.conns[e.c].fd.None?
  {
    var left, taken := w.conns[e.c].left, Change(w, e.c, TakeLeftover(w.conns[e.c], e.at));
    ChangePlaced(w, e.c, TakeLeftover(w.conns[e.c], e.at));
    if e.to.Some? {
      HandleOnPlaced(cfg, taken, e.to.value, left.msgs[e.at], e.draw);
    } else {
      NobodyThere(cfg, w.server, left.fd, left.msgs[e.at], e.draw);
    }
  }

  lemma StepPlaced(cfg: Config, w: World, e: Event)
    requires |cfg.rsa.pem| < U32_LIMIT
    requires Placed(w) && Enabled(w, e)
    ensures Placed(Apply(cfg, w, e))
  {
    match e {
      case Connect(c, fd, ip, now) => ConnectPlaced(cfg, w, c, fd, ip, now);
      case ServerReceives(c, at, d) =>
        ChangePlaced(w, c, TakePacket(w.conns[c], at));
        HandleOnPlaced(cfg, Change(w, c, TakePacket(w.conns[c], at)), c, w.conns[c].toServer[at], d);
      case HandlesLeftover(_, _, _, _) => LeftoverPlaced(cfg, w, e);
      case ServerCloses(c) => ClosesPlaced(cfg, w, c);
      case _ => ChangePlaced(w, e.c, Apply(cfg, w, e).conns[e.c]);
    }
  }

  // The keys.

  /** A step that changes one connection and, on the server, at most its fd leaves the others fine. */
  lemma OthersFine(cfg: Config, w: World, w': World, c: nat, fd: int)
    requires Inv(cfg, w)
    requires c in w'.conns && w'.conns == w.conns[c := w'.conns[c]]
    requires w.installed <= w'.installed
    requires SameElsewhere(w.server, w'.server, fd)
    requires forall c' | c' in w.conns && c' != c :: w.conns[c'].fd != Some(fd)
    ensures forall c' | c' in w'.conns && c' != c :: ConnFine(cfg, w', c', w'.conns[c'])
  {
    forall c' | c' in w'.conns && c' != c
      ensures ConnFine(cfg, w', c', w'.conns[c'])
    {
      assert w'.conns[c'] == w.conns[c'];
      assert ConnFine(cfg, w, c', w.conns[c']);
    }
  }

  /** A packet to the client that is neither an offer nor a confirmation. */
  lemma PlainSentFine(cfg: Config, w: World, w': World, c: nat, conn: Conn, m: Msg)
    requires ClientFine(cfg, w, c, conn) && w.installed <= w'.installed
    requires m.kind != MSG_CRYPTO_KEY_OFFER && m.kind != MSG_CRYPTO_HANDSHAKE_OK
    ensures ClientFine(cfg, w', c, conn.(toClient := conn.toClient + [m]))
  {
    var ch := conn.toClient + [m];
    assert forall kind | Lacks(conn.toClient, kind) && m.kind != kind :: Lacks(ch, kind);
  }

  /** What the server does with a handshake packet it refuses. */
  predicate Refuses(cfg: Config, w: World, c: nat, m: Msg, d: Draw)
    requires |cfg.rsa.pem| < U32_LIMIT
    requires c in w.conns && w.conns[c].fd.Some?
  {
    var h := HandlePacket(cfg, w.server, w.conns[c].fd.value, m, d);
    w.conns[c].fd.value !in h.server.sessions && |h.sent| == 1 && h.sent[0].kind == MSG_ERROR
  }

  lemma RefusedFine(cfg: Config, w: World, c: nat, m: Msg, d: Draw)
    requires |cfg.rsa.pem| < U32_LIMIT
    requires c in w.conns && w.conns[c].fd.Some? && Refuses(cfg, w, c, m, d)
    requires ClientFine(cfg, w, c, w.conns[c])
    ensures var w' := HandleOn(cfg, w, c, m, d);
            ConnFine(cfg, w', c, w'.conns[c])
  {
    var h := HandlePacket(cfg, w.server, w.conns[c].fd.value, m, d);
    PlainSentFine(cfg, w, HandleOn(cfg, w, c, m, d), c, w.conns[c], h.sent[0]);
    assert h.sent == [h.sent[0]];
  }

  /** The server makes an offer. */
  lemma OfferSentFine(cfg: Config, w: World, w': World, c: nat, conn: Conn, fd: int, nonce: Nonce)
    requires RsaLaw(cfg.rsa) && conn.fd == Some(fd)
    requires ConnFine(cfg, w, c, conn) && w.installed <= w'.installed
    requires w.server.exchange.clients[fd].phase == WaitingHello
    ensures var offer := Msg(MSG_CRYPTO_KEY_OFFER, EncodeOffer(cfg.rsa.pem, nonce));
            ClientFine(cfg, w', c, conn.(toClient := conn.toClient + [offer]))
  {
    OfferRoundTrip(cfg.rsa.pem, nonce);
  }

  /** The server's handling of a packet, seen from the connection that has the fd. */
  lemma HelloFine(cfg: Config, w: World, c: nat, m: Msg, d: Draw)
    requires RsaLaw(cfg.rsa)
    requires c in w.conns && w.conns[c].fd.Some? && m.kind == MSG_CRYPTO_HELLO
    requires Consistent(w.server) && ConnFine(cfg, w, c, w.conns[c])
    ensures var w' := HandleOn(cfg, w, c, m, d);
            ConnFine(cfg, w', c, w'.conns[c])
  {
    var conn := w.conns[c];
    var fd, x := conn.fd.value, w.server.exchange;
    if x.clients[fd].phase != WaitingHello || Blocked(x, x.clients[fd].peerIp, d.now) {
      RefusedFine(cfg, w, c, m, d);
    } else {
      OfferSentFine(cfg, w, HandleOn(cfg, w, c, m, d), c, conn, fd, d.nonce);
    }
  }

  /** The server installs a key and confirms it. */
  lemma ConfirmedFine(cfg: Config, w: World, w': World, c: nat, conn: Conn, fd: int)
    requires conn.fd == Some(fd) && fd in w'.server.keys && (c, w'.server.keys[fd]) in w'.installed
    requires ClientFine(cfg, w, c, conn) && w.installed <= w'.installed && Owns(conn.client, w'.server.keys[fd])
    ensures ClientFine(cfg, w', c, conn.(toClient := conn.toClient + [HandshakeOk]))
  {
  }

  lemma AcceptFine(cfg: Config, w: World, c: nat, m: Msg, d: Draw)
    requires |cfg.rsa.pem| < U32_LIMIT
    requires c in w.conns && w.conns[c].fd.Some? && m.kind == MSG_CRYPTO_KEY_ACCEPT
    requires Fits(cfg, w.server, w.conns[c].client, w.conns[c].fd.value, m, d)
    requires Consistent(w.server) && ConnFine(cfg, w, c, w.conns[c])
    ensures var w' := HandleOn(cfg, w, c, m, d);
            ConnFine(cfg, w', c, w'.conns[c])
  {
    var conn := w.conns[c];
    var fd := conn.fd.value;
    if !AwaitsKey(w.server, fd) || AcceptedSecret(cfg.rsa, m.payload, d.beyond).None? {
      RefusedFine(cfg, w, c, m, d);
    } else {
      ConfirmedFine(cfg, w, HandleOn(cfg, w, c, m, d), c, conn, fd);
    }
  }

  lemma HandleOnFine(cfg: Config, w: World, c: nat, m: Msg, d: Draw)
    requires RsaLaw(cfg.rsa)
    requires c in w.conns && w.conns[c].fd.Some?
    requires Fits(cfg, w.server, w.conns[c].client, w.conns[c].fd.value, m, d)
    requires Consistent(w.server) && ConnFine(cfg, w, c, w.conns[c])
    ensures var w' := HandleOn(cfg, w, c, m, d);
            ConnFine(cfg, w', c, w'.conns[c])
  {
    if m.kind == MSG_CRYPTO_HELLO {
      HelloFine(cfg, w, c, m, d);
    } else if m.kind == MSG_CRYPTO_KEY_ACCEPT {
      AcceptFine(cfg, w, c, m, d);
    }
  }

  /** A packet of the connection itself always fits. */
  lemma OwnPacketFits(cfg: Config, w: World, c: nat, at: nat, d: Draw)
    requires Enabled(w, ServerReceives(c, at, d)) && ConnFine(cfg, w, c, w.conns[c])
    ensures Fits(cfg, w.server, w.conns[c].client, w.conns[c].fd.value, w.conns[c].toServer[at], d)
  {
  }

  lemma TakePacketFine(cfg: Config, w: World, c: nat, at: nat)
    requires c in w.conns && at < |w.conns[c].toServer| && ConnFine(cfg, w, c, w.conns[c])
    ensures ConnFine(cfg, Change(w, c, TakePacket(w.conns[c], at)), c, TakePacket(w.conns[c], at))
  {
  }

  lemma AcceptCarries(rsa: Rsa, blob: seq<byte>, key: Key, nonce: Nonce)
    requires |blob| < U32_LIMIT - 4 && rsa.decrypt(blob) == Some(key + nonce)
    ensures Carries(rsa, EncodeAccept(blob), key)
  {
    AcceptRoundTrip(blob);
    assert (key + nonce)[..32] == key;
  }

  /** The answer to an offer of the server's own key carries the key the client keeps. */
  lemma OfferAnswered(rsa: Rsa, cl: Client, payload: seq<byte>, d: ClientDraw)
    requires RsaLaw(rsa)
    requires DecodeOffer(payload).Field? && DecodeOffer(payload).value.pem == rsa.pem
    ensures var r := KeyOffer(rsa, cl, payload, d);
      && r.Some? && r.value.0.aes == Some(d.key) && r.value.0.connected == cl.connected && r.value.0.ready == cl.ready
      && r.value.1.kind == MSG_CRYPTO_KEY_ACCEPT && Carries(rsa, r.value.1.payload, d.key)
  {
    var blob := rsa.encrypt(rsa.pem, d.coins, d.key + d.nonce);
    AcceptCarries(rsa, blob.value, d.key, d.nonce);
  }

  lemma KeyOfferClientFine(cfg: Config, w: World, c: nat, d: ClientDraw)
    requires RsaLaw(cfg.rsa)
    requires Enabled(w, ClientReceives(c, d)) && ClientFine(cfg, w, c, w.conns[c])
    requires w.conns[c].toClient[0].kind == MSG_CRYPTO_KEY_OFFER
    ensures var w' := Apply(cfg, w, ClientReceives(c, d));
            ClientFine(cfg, w', c, w'.conns[c])
  {
    OfferAnswered(cfg.rsa, w.conns[c].client, w.conns[c].toClient[0].payload, d);
  }

  lemma KeyOfferServerFine(cfg: Config, w: World, c: nat, d: ClientDraw)
    requires RsaLaw(cfg.rsa)
    requires Enabled(w, ClientReceives(c, d))
    requires Consistent(w.server) && ConnFine(cfg, w, c, w.conns[c]) && w.conns[c].fd.Some?
    requires w.conns[c].toClient[0].kind == MSG_CRYPTO_KEY_OFFER
    ensures var w' := Apply(cfg, w, ClientReceives(c, d));
            ServerFine(cfg, w', c, w'.conns[c], w.conns[c].fd.value)
  {
    OfferAnswered(cfg.rsa, w.conns[c].client, w.conns[c].toClient[0].payload, d);
  }

  lemma KeyOfferFine(cfg: Config, w: World, c: nat, d: ClientDraw)
    requires RsaLaw(cfg.rsa)
    requires Enabled(w, ClientReceives(c, d))
    requires Consistent(w.server) && ConnFine(cfg, w, c, w.conns[c])
    requires w.conns[c].toClient[0].kind == MSG_CRYPTO_KEY_OFFER
    ensures var w' := Apply(cfg, w, ClientReceives(c, d));
            ConnFine(cfg, w', c, w'.conns[c])
  {
    KeyOfferClientFine(cfg, w, c, d);
    if w.conns[c].fd.Some? {
      KeyOfferServerFine(cfg, w, c, d);
    }
  }

  lemma ClientReceivesFine(cfg: Config, w: World, c: nat, d: ClientDraw)
    requires RsaLaw(cfg.rsa)
    requires Enabled(w, ClientReceives(c, d))
    requires Consistent(w.server) && ConnFine(cfg, w, c, w.conns[c])
    ensures var w' := Apply(cfg, w, ClientReceives(c, d));
            ConnFine(cfg, w', c, w'.conns[c])
  {
    var conn := w.conns[c];
    assert ConnFine(cfg, w, c, conn);
    if conn.toClient[0].kind == MSG_CRYPTO_KEY_OFFER {
      KeyOfferFine(cfg, w, c, d);
    }
  }

  lemma ConnectKeepsInv(cfg: Config, w: World, c: nat, fd: int, ip: string, now: int)
    requires |cfg.rsa.pem| < U32_LIMIT
    requires Inv(cfg, w)
    requires Enabled(w, Connect(c, fd, ip, now))
    ensures Inv(cfg, Apply(cfg, w, Connect(c, fd, ip, now)))
  {
    ConnectPlaced(cfg, w, c, fd, ip, now);
    OthersFine(cfg, w, Apply(cfg, w, Connect(c, fd, ip, now)), c, fd);
  }

  lemma HandleOnKeepsInv(cfg: Config, w: World, c: nat, m: Msg, d: Draw)
    requires RsaLaw(cfg.rsa)
    requires Inv(cfg, w) && c in w.conns && w.conns[c].fd.Some?
    requires Fits(cfg, w.server, w.conns[c].client, w.conns[c].fd.value, m, d)
    ensures Inv(cfg, HandleOn(cfg, w, c, m, d))
  {
    HandleOnPlaced(cfg, w, c, m, d);
    HandlePacketElsewhere(cfg, w.server, w.conns[c].fd.value, m, d);
    assert ConnFine(cfg, w, c, w.conns[c]);
    HandleOnFine(cfg, w, c, m, d);
    OthersFine(cfg, w, HandleOn(cfg, w, c, m, d), c, w.conns[c].fd.value);
  }

  lemma ServerReceivesKeepsInv(cfg: Config, w: World, c: nat, at: nat, d: Draw)
    requires RsaLaw(cfg.rsa)
    requires Inv(cfg, w)
    requires Enabled(w, ServerReceives(c, at, d))
    ensures Inv(cfg, Apply(cfg, w, ServerReceives(c, at, d)))
  {
    assert ConnFine(cfg, w, c, w.conns[c]);
    OwnPacketFits(cfg, w, c, at, d);
    TakePacketFine(cfg, w, c, at);
    OthersUntouched(cfg, w, c, TakePacket(w.conns[c], at));
    HandleOnKeepsInv(cfg, Change(w, c, TakePacket(w.conns[c], at)), c, w.conns[c].toServer[at], d);
  }

  lemma TakeLeftoverKeepsInv(cfg: Config, w: World, c: nat, at: nat)
    requires Inv(cfg, w) && c in w.conns && w.conns[c].fd.None? && at < |w.conns[c].left.msgs|
    ensures Inv(cfg, Change(w, c, TakeLeftover(w.conns[c], at)))
  {
    assert ConnFine(cfg, w, c, w.conns[c]);
    OthersUntouched(cfg, w, c, TakeLeftover(w.conns[c], at));
  }

  lemma HarmlessKeepsInv(cfg: Config, w: World, e: Event)
    requires RsaLaw(cfg.rsa)
    requires Inv(cfg, w) && Enabled(w, e) && e.HandlesLeftover? && Harmless(cfg, w, e)
    ensures Inv(cfg, Apply(cfg, w, e))
  {
    LeftoverPlaced(cfg, w, e);
    TakeLeftoverKeepsInv(cfg, w, e.c, e.at);
    var left, taken := w.conns[e.c].left, Change(w, e.c, TakeLeftover(w.conns[e.c], e.at));
    if e.to.Some? {
      HandleOnKeepsInv(cfg, taken, e.to.value, left.msgs[e.at], e.draw);
    } else {
      NobodyThere(cfg, w.server, left.fd, left.msgs[e.at], e.draw);
    }
  }

  lemma InvMeansOwn(cfg: Config, w: World)
    requires Inv(cfg, w)
    ensures KeysOwn(w)
  {
    forall c | c in w.conns && w.conns[c].fd.Some? && w.conns[c].fd.value in w.server.keys
      ensures Owns(w.conns[c].client, w.server.keys[w.conns[c].fd.value])
    {
      assert ConnFine(cfg, w, c, w.conns[c]);
    }
  }

  /** A packet that does not fit leaves the connection with a key that is not its client's. */
  lemma MisfitInstalled(cfg: Config, w: World, c: nat, m: Msg, d: Draw)
    requires |cfg.rsa.pem| < U32_LIMIT
    requires Placed(w) && c in w.conns && w.conns[c].fd.Some?
    requires !Fits(cfg, w.server, w.conns[c].client, w.conns[c].fd.value, m, d)
    ensures !KeysOwn(HandleOn(cfg, w, c, m, d))
  {
    var w' := HandleOn(cfg, w, c, m, d);
    var fd := w.conns[c].fd.value;
    assert c in w'.conns && w'.conns[c].fd == Some(fd) && w'.conns[c].client == w.conns[c].client;
    assert fd in w'.server.keys && !Owns(w'.conns[c].client, w'.server.keys[fd]);
  }

  /** What a left-over packet does: the server's keys stay the clients' own exactly if it is harmless. */
  lemma LeftoverExact(cfg: Config, w: World, e: Event)
    requires RsaLaw(cfg.rsa)
    requires Inv(cfg, w) && Enabled(w, e) && e.HandlesLeftover?
    ensures KeysOwn(Apply(cfg, w, e)) <==> Harmless(cfg, w, e)
    ensures Inv(cfg, Apply(cfg, w, e)) <==> Harmless(cfg, w, e)
  {
    LeftoverPlaced(cfg, w, e);
    if Harmless(cfg, w, e) {
      HarmlessKeepsInv(cfg, w, e);
      InvMeansOwn(cfg, Apply(cfg, w, e));
    } else {
      var left, taken := w.conns[e.c].left, Change(w, e.c, TakeLeftover(w.conns[e.c], e.at));
      ChangePlaced(w, e.c, TakeLeftover(w.conns[e.c], e.at));
      MisfitInstalled(cfg, taken, e.to.value, left.msgs[e.at], e.draw);
      if Inv(cfg, Apply(cfg, w, e)) {
        InvMeansOwn(cfg, Apply(cfg, w, e));
        assert false;
      }
    }
  }

  lemma ServerSendsFine(cfg: Config, w: World, c: nat, m: Msg, iv: Nonce)
    requires |cfg.rsa.pem| < U32_LIMIT
    requires Enabled(w, ServerSends(c, m, iv))
    requires ConnFine(cfg, w, c, w.conns[c])
    ensures var w' := Apply(cfg, w, ServerSends(c, m, iv));
            ConnFine(cfg, w', c, w'.conns[c])
  {
  }

  lemma ServerSendsKeepsInv(cfg: Config, w: World, c: nat, m: Msg, iv: Nonce)
    requires |cfg.rsa.pem| < U32_LIMIT
    requires Inv(cfg, w)
    requires Enabled(w, ServerSends(c, m, iv))
    ensures Inv(cfg, Apply(cfg, w, ServerSends(c, m, iv)))
  {
    ServerSendsFine(cfg, w, c, m, iv);
    ChangePlaced(w, c, Apply(cfg, w, ServerSends(c, m, iv)).conns[c]);
    OthersFine(cfg, w, Apply(cfg, w, ServerSends(c, m, iv)), c, w.conns[c].fd.value);
  }

  lemma ServerClosesKeepsInv(cfg: Config, w: World, c: nat)
    requires |cfg.rsa.pem| < U32_LIMIT
    requires Inv(cfg, w)
    requires Enabled(w, ServerCloses(c))
    ensures Inv(cfg, Apply(cfg, w, ServerCloses(c)))
  {
    ClosesPlaced(cfg, w, c);
    assert ConnFine(cfg, w, c, w.conns[c]);
    OthersFine(cfg, w, Apply(cfg, w, ServerCloses(c)), c, w.conns[c].fd.value);
  }

  lemma ClientSendsFine(cfg: Config, w: World, c: nat, m: Msg, iv: Nonce)
    requires |cfg.rsa.pem| < U32_LIMIT
    requires Enabled(w, ClientSends(c, m, iv))
    requires ConnFine(cfg, w, c, w.conns[c])
    ensures var w' := Apply(cfg, w, ClientSends(c, m, iv));
            ConnFine(cfg, w', c, w'.conns[c])
  {
  }

  lemma ClientEndsFine(cfg: Config, w: World, e: Event)
    requires |cfg.rsa.pem| < U32_LIMIT
    requires Enabled(w, e) && (e.ClientLoses? || e.ClientCloses?)
    requires ConnFine(cfg, w, e.c, w.conns[e.c])
    ensures var w' := Apply(cfg, w, e);
            ConnFine(cfg, w', e.c, w'.conns[e.c])
  {
  }

  /** A step of one client leaves the server and the other connections as they are. */
  lemma OthersUntouched(cfg: Config, w: World, c: nat, conn: Conn)
    requires Inv(cfg, w) && c in w.conns && conn.fd == w.conns[c].fd
    requires conn.fd.Some? ==> conn.left.msgs == []
    requires ConnFine(cfg, Change(w, c, conn), c, conn)
    ensures Inv(cfg, Change(w, c, conn))
  {
    var w' := Change(w, c, conn);
    ChangePlaced(w, c, conn);
    forall c' | c' in w'.conns && c' != c
      ensures ConnFine(cfg, w', c', w'.conns[c'])
    {
      assert ConnFine(cfg, w, c', w.conns[c']);
    }
  }

  lemma ClientActsKeepsInv(cfg: Config, w: World, e: Event)
    requires RsaLaw(cfg.rsa)
    requires Inv(cfg, w)
    requires Enabled(w, e)
    requires e.ClientReceives? || e.ClientSends? || e.ClientLoses? || e.ClientCloses?
    ensures Inv(cfg, Apply(cfg, w, e))
  {
    var (c, w') := (e.c, Apply(cfg, w, e));
    assert ConnFine(cfg, w, c, w.conns[c]);
    if e.ClientReceives? {
      ClientReceivesFine(cfg, w, c, e.clientDraw);
    } else if e.ClientSends? {
      ClientSendsFine(cfg, w, c, e.msg, e.iv);
    } else {
      ClientEndsFine(cfg, w, e);
    }
    assert w' == Change(w, c, w'.conns[c]);
    OthersUntouched(cfg, w, c, w'.conns[c]);
  }

  lemma StepKeepsInv(cfg: Config, w: World, e: Event)
    requires RsaLaw(cfg.rsa)
    requires Inv(cfg, w)
    requires Enabled(w, e) && Harmless(cfg, w, e)
    ensures Inv(cfg, Apply(cfg, w, e))
  {
    match e {
      case Connect(c, fd, ip, now) => ConnectKeepsInv(cfg, w, c, fd, ip, now);
      case ServerReceives(c, at, d) => ServerReceivesKeepsInv(cfg, w, c, at, d);
      case HandlesLeftover(_, _, _, _) => HarmlessKeepsInv(cfg, w, e);
      case ServerSends(c, m, iv) => ServerSendsKeepsInv(cfg, w, c, m, iv);
      case ServerCloses(c) => ServerClosesKeepsInv(cfg, w, c);
      case _ => ClientActsKeepsInv(cfg, w, e);
    }
  }
}
