/** The handshake completes; runs that show what fails; and what is left of it when the connection breaks. */
module HandshakeProgress {
  import opened Bytes
  import opened Crypto
  import opened KeyExchange
  import opened ClientCrypto
  import opened Handshake
  import opened HandshakeRuns
  import opened Options

  /** The server's side of a connection. */
  predicate ServerAt(w: World, fd: int, phase: Phase) {
    && fd in w.server.sessions && fd in w.server.exchange.clients
    && w.server.exchange.clients[fd].phase == phase
    && (fd in w.server.keys <==> phase == Established)
  }

  predicate At(w: World, c: nat, conn: Conn, fd: int, phase: Phase) {
    c in w.conns && w.conns[c] == conn && conn.fd == Some(fd) && ServerAt(w, fd, phase)
  }

  function Offering(cfg: Config, nonce: Nonce): Msg
    requires |cfg.rsa.pem| < U32_LIMIT
  {
    Msg(MSG_CRYPTO_KEY_OFFER, EncodeOffer(cfg.rsa.pem, nonce))
  }

  lemma Connected(cfg: Config, w: World, c: nat, fd: int, ip: string, now: int)
    requires |cfg.rsa.pem| < U32_LIMIT
    requires Enabled(w, Connect(c, fd, ip, now)) && fd !in w.server.keys
    ensures var w' := Apply(cfg, w, Connect(c, fd, ip, now));
      && At(w', c, Opened(fd), fd, WaitingHello)
      && w'.server.exchange.clients[fd].peerIp == ip && w'.server.exchange.ipFailures == w.server.exchange.ipFailures
  {
  }

  lemma Offered(cfg: Config, w: World, c: nat, fd: int, d: Draw)
    requires |cfg.rsa.pem| < U32_LIMIT
    requires At(w, c, Opened(fd), fd, WaitingHello)
    requires !Blocked(w.server.exchange, w.server.exchange.clients[fd].peerIp, d.now)
    ensures Enabled(w, ServerReceives(c, 0, d))
    ensures At(Apply(cfg, w, ServerReceives(c, 0, d)), c,
               Conn(Started, [], [Offering(cfg, d.nonce)], Some(fd), NothingLeft), fd, SentKeyOffer)
    ensures Apply(cfg, w, ServerReceives(c, 0, d)).server.exchange.ipFailures == w.server.exchange.ipFailures
  {
    var empty: seq<Msg> := [];
    assert Without([Msg(MSG_CRYPTO_HELLO, [])], 0) == empty;
    assert empty + [Offering(cfg, d.nonce)] == [Offering(cfg, d.nonce)];
  }

  lemma Answered(cfg: Config, w: World, c: nat, fd: int, nonce: Nonce, d: ClientDraw) returns (cl: Client, accept: Msg)
    requires RsaLaw(cfg.rsa)
    requires At(w, c, Conn(Started, [], [Offering(cfg, nonce)], Some(fd), NothingLeft), fd, SentKeyOffer)
    ensures Enabled(w, ClientReceives(c, d))
    ensures At(Apply(cfg, w, ClientReceives(c, d)), c, Conn(cl, [accept], [], Some(fd), NothingLeft), fd, SentKeyOffer)
    ensures cl.connected && cl.aes == Some(d.key)
    ensures accept.kind == MSG_CRYPTO_KEY_ACCEPT && Carries(cfg.rsa, accept.payload, d.key)
  {
    OfferRoundTrip(cfg.rsa.pem, nonce);
    var payload := EncodeOffer(cfg.rsa.pem, nonce);
    OfferAnswered(cfg.rsa, Started, payload, d);
    var r := KeyOffer(cfg.rsa, Started, payload, d);
    cl, accept := r.value.0, r.value.1;
    var empty: seq<Msg> := [];
    assert empty + [accept] == [accept];
    assert [Offering(cfg, nonce)][1..] == empty;
  }

  lemma Confirmed(cfg: Config, w: World, c: nat, fd: int, cl: Client, accept: Msg, key: Key, d: Draw)
    requires |cfg.rsa.pem| < U32_LIMIT
    requires At(w, c, Conn(cl, [accept], [], Some(fd), NothingLeft), fd, SentKeyOffer)
    requires accept.kind == MSG_CRYPTO_KEY_ACCEPT && Carries(cfg.rsa, accept.payload, key)
    ensures Enabled(w, ServerReceives(c, 0, d))
    ensures var w' := Apply(cfg, w, ServerReceives(c, 0, d));
      At(w', c, Conn(cl, [], [HandshakeOk], Some(fd), NothingLeft), fd, Established) && w'.server.keys[fd] == key
  {
    var empty: seq<Msg> := [];
    assert Without([accept], 0) == empty;
    assert empty + [HandshakeOk] == [HandshakeOk];
  }

  lemma Ready(cfg: Config, w: World, c: nat, fd: int, cl: Client, d: ClientDraw)
    requires |cfg.rsa.pem| < U32_LIMIT
    requires At(w, c, Conn(cl, [], [HandshakeOk], Some(fd), NothingLeft), fd, Established)
    requires cl.connected && cl.aes.Some?
    ensures Enabled(w, ClientReceives(c, d))
    ensures At(Apply(cfg, w, ClientReceives(c, d)), c,
               Conn(cl.(ready := true), [], [], Some(fd), NothingLeft), fd, Established)
  {
    var empty: seq<Msg> := [];
    assert [HandshakeOk][1..] == empty && empty + empty == empty;
  }

  /** The values the two ends draw during a handshake. */
  datatype Draws = Draws(hello: Draw, offer: ClientDraw, accept: Draw, ok: ClientDraw)

  function Steps(c: nat, fd: int, ip: string, now: int, d: Draws): seq<Event> {
    [Connect(c, fd, ip, now), ServerReceives(c, 0, d.hello), ClientReceives(c, d.offer),
     ServerReceives(c, 0, d.accept), ClientReceives(c, d.ok)]
  }

  predicate Goes(cfg: Config, w: World, e: Event, w': World)
    requires |cfg.rsa.pem| < U32_LIMIT
  {
    Enabled(w, e) && w' == Apply(cfg, w, e)
  }

  /** A sequence of enabled steps. */
  ghost predicate Path(cfg: Config, ws: seq<World>, es: seq<Event>)
    requires |cfg.rsa.pem| < U32_LIMIT
  {
    |ws| == |es| + 1 && forall i | 0 <= i < |es| :: Goes(cfg, ws[i], es[i], ws[i + 1])
  }

  /** HELLO, KEY_OFFER. */
  lemma FirstHalf(cfg: Config, w: World, c: nat, fd: int, ip: string, now: int, d: Draws)
    returns (w1: World, w2: World, w3: World, cl: Client, accept: Msg)
    requires RsaLaw(cfg.rsa)
    requires Enabled(w, Connect(c, fd, ip, now)) && fd !in w.server.keys
    requires !Blocked(w.server.exchange, ip, d.hello.now)
    ensures Goes(cfg, w, Connect(c, fd, ip, now), w1)
    ensures Goes(cfg, w1, ServerReceives(c, 0, d.hello), w2)
    ensures Goes(cfg, w2, ClientReceives(c, d.offer), w3)
    ensures At(w3, c, Conn(cl, [accept], [], Some(fd), NothingLeft), fd, SentKeyOffer)
    ensures w3.server.exchange.ipFailures == w.server.exchange.ipFailures && w3.conns.Keys == w.conns.Keys + {c}
    ensures cl.connected && cl.aes == Some(d.offer.key)
    ensures accept.kind == MSG_CRYPTO_KEY_ACCEPT && Carries(cfg.rsa, accept.payload, d.offer.key)
  {
    Connected(cfg, w, c, fd, ip, now);
    w1 := Apply(cfg, w, Connect(c, fd, ip, now));
    Offered(cfg, w1, c, fd, d.hello);
    w2 := Apply(cfg, w1, ServerReceives(c, 0, d.hello));
    cl, accept := Answered(cfg, w2, c, fd, d.hello.nonce, d.offer);
    w3 := Apply(cfg, w2, ClientReceives(c, d.offer));
  }

  /** KEY_ACCEPT, HANDSHAKE_OK. */
  lemma SecondHalf(cfg: Config, w3: World, c: nat, fd: int, cl: Client, accept: Msg, key: Key, d: Draws)
    returns (w4: World, w5: World)
    requires |cfg.rsa.pem| < U32_LIMIT
    requires At(w3, c, Conn(cl, [accept], [], Some(fd), NothingLeft), fd, SentKeyOffer)
    requires cl.connected && cl.aes.Some?
    requires accept.kind == MSG_CRYPTO_KEY_ACCEPT && Carries(cfg.rsa, accept.payload, key)
    ensures Goes(cfg, w3, ServerReceives(c, 0, d.accept), w4)
    ensures Goes(cfg, w4, ClientReceives(c, d.ok), w5)
    ensures At(w5, c, Conn(cl.(ready := true), [], [], Some(fd), NothingLeft), fd, Established) && w5.server.keys[fd] == key
  {
    Confirmed(cfg, w3, c, fd, cl, accept, key, d.accept);
    w4 := Apply(cfg, w3, ServerReceives(c, 0, d.accept));
    Ready(cfg, w4, c, fd, cl, d.ok);
    w5 := Apply(cfg, w4, ClientReceives(c, d.ok));
  }

  lemma FiveSteps(cfg: Config, w0: World, w1: World, w2: World, w3: World, w4: World, w5: World,
                  c: nat, fd: int, ip: string, now: int, d: Draws)
    returns (ws: seq<World>)
    requires |cfg.rsa.pem| < U32_LIMIT
    requires Goes(cfg, w0, Connect(c, fd, ip, now), w1)
    requires Goes(cfg, w1, ServerReceives(c, 0, d.hello), w2)
    requires Goes(cfg, w2, ClientReceives(c, d.offer), w3)
    requires Goes(cfg, w3, ServerReceives(c, 0, d.accept), w4)
    requires Goes(cfg, w4, ClientReceives(c, d.ok), w5)
    ensures ws == [w0, w1, w2, w3, w4, w5] && Path(cfg, ws, Steps(c, fd, ip, now, d))
  {
    ws := [w0, w1, w2, w3, w4, w5];
    var es := Steps(c, fd, ip, now, d);
    forall i | 0 <= i < |es|
      ensures Goes(cfg, ws[i], es[i], ws[i + 1])
    {
      assert i == 0 || i == 1 || i == 2 || i == 3 || i == 4;
    }
  }

  /** Both ends hold the key, nothing is under way. */
  predicate Done(w: World, c: nat, fd: int, cl: Client, key: Key) {
    && At(w, c, Conn(cl, [], [], Some(fd), NothingLeft), fd, Established)
    && cl.connected && cl.ready && cl.aes == Some(key) && w.server.keys[fd] == key
  }

  /** From any world, a new connection from an address that is not blocked is ready after four packets, with the
      client's key installed on both ends. */
  lemma HandshakeCompletes(cfg: Config, w: World, c: nat, fd: int, ip: string, now: int, d: Draws)
    returns (ws: seq<World>, cl: Client)
    requires RsaLaw(cfg.rsa)
    requires Enabled(w, Connect(c, fd, ip, now)) && fd !in w.server.keys
    requires !Blocked(w.server.exchange, ip, d.hello.now)
    ensures Path(cfg, ws, Steps(c, fd, ip, now, d)) && ws[0] == w
    ensures Done(ws[5], c, fd, cl, d.offer.key)
  {
    var w1, w2, w3, cl3, accept := FirstHalf(cfg, w, c, fd, ip, now, d);
    var w4, w5 := SecondHalf(cfg, w3, c, fd, cl3, accept, d.offer.key, d);
    cl := cl3.(ready := true);
    ws := FiveSteps(cfg, w, w1, w2, w3, w4, w5, c, fd, ip, now, d);
  }

  // ----- Paths -----

  lemma OneMoreStep(cfg: Config, ws: seq<World>, es: seq<Event>, e: Event)
    requires |cfg.rsa.pem| < U32_LIMIT && Path(cfg, ws, es) && Enabled(ws[|es|], e)
    ensures Path(cfg, ws + [Apply(cfg, ws[|es|], e)], es + [e])
  {
    var w' := Apply(cfg, ws[|es|], e);
    var ws', es' := ws + [w'], es + [e];
    assert Goes(cfg, ws[|es|], e, w');
    forall i | 0 <= i < |es'|
      ensures Goes(cfg, ws'[i], es'[i], ws'[i + 1])
    {
      if i < |es| {
        assert Goes(cfg, ws[i], es[i], ws[i + 1]);
      }
    }
  }

  lemma PathIsRun(cfg: Config, ws: seq<World>, es: seq<Event>)
    requires |cfg.rsa.pem| < U32_LIMIT && Path(cfg, ws, es) && ws[0] == Initial
    ensures Run(cfg, ws, es)
  {
    forall i | 0 <= i < |es|
      ensures Enabled(ws[i], es[i]) && ws[i + 1] == Apply(cfg, ws[i], es[i])
    {
      assert Goes(cfg, ws[i], es[i], ws[i + 1]);
    }
  }

  // ----- A left-over KEY_ACCEPT -----

  /** A connection that is closed with its KEY_ACCEPT still to be handled. */
  predicate Behind(w: World, c: nat, fd: int, accept: Msg) {
    c in w.conns && w.conns[c].fd == None && w.conns[c].left == Leftover(fd, [accept])
  }

  /** The first connection is closed, the second opened on its fd and sent its offer. */
  lemma FdReused(cfg: Config, w3: World, c1: nat, c2: nat, fd: int, ip: string, now: int, cl: Client,
                 accept: Msg, hello: Draw)
    returns (w4: World, w5: World, w6: World)
    requires |cfg.rsa.pem| < U32_LIMIT && c2 !in w3.conns
    requires At(w3, c1, Conn(cl, [accept], [], Some(fd), NothingLeft), fd, SentKeyOffer)
    requires !Blocked(w3.server.exchange, ip, hello.now)
    ensures Goes(cfg, w3, ServerCloses(c1), w4) && Goes(cfg, w4, Connect(c2, fd, ip, now), w5)
    ensures Goes(cfg, w5, ServerReceives(c2, 0, hello), w6)
    ensures Behind(w6, c1, fd, accept)
    ensures At(w6, c2, Conn(Started, [], [Offering(cfg, hello.nonce)], Some(fd), NothingLeft), fd, SentKeyOffer)
  {
    w4 := Apply(cfg, w3, ServerCloses(c1));
    Connected(cfg, w4, c2, fd, ip, now);
    w5 := Apply(cfg, w4, Connect(c2, fd, ip, now));
    Offered(cfg, w5, c2, fd, hello);
    w6 := Apply(cfg, w5, ServerReceives(c2, 0, hello));
  }

  /** The task left over from the first connection installs its key for the second. */
  lemma KeyTaken(cfg: Config, w: World, c1: nat, c2: nat, fd: int, accept: Msg, key: Key, nonce: Nonce, d: Draw)
    returns (w': World)
    requires |cfg.rsa.pem| < U32_LIMIT
    requires Behind(w, c1, fd, accept)
    requires At(w, c2, Conn(Started, [], [Offering(cfg, nonce)], Some(fd), NothingLeft), fd, SentKeyOffer)
    requires accept.kind == MSG_CRYPTO_KEY_ACCEPT && Carries(cfg.rsa, accept.payload, key)
    ensures Goes(cfg, w, HandlesLeftover(c1, 0, Some(c2), d), w')
    ensures At(w', c2, Conn(Started, [], [Offering(cfg, nonce), HandshakeOk], Some(fd), NothingLeft), fd, Established)
    ensures w'.server.keys[fd] == key
  {
    w' := Apply(cfg, w, HandlesLeftover(c1, 0, Some(c2), d));
    assert [Offering(cfg, nonce)] + [HandshakeOk] == [Offering(cfg, nonce), HandshakeOk];
  }

  /** Both ends of the connection believe that they share a key, and do not. */
  predicate Apart(w: World, c: nat, fd: int, mine: Key, theirs: Key) {
    && Has(w, c, fd) && w.conns[c].client.connected && w.conns[c].client.ready
    && w.conns[c].client.aes == Some(mine) && fd in w.server.keys && w.server.keys[fd] == theirs && mine != theirs
  }

  /** The second client answers the offer with a key of its own and takes the confirmation for an answer to it. */
  lemma SecondReady(cfg: Config, w7: World, c: nat, fd: int, nonce: Nonce, key: Key, offer: ClientDraw, ok: ClientDraw)
    returns (w8: World, w9: World)
    requires RsaLaw(cfg.rsa)
    requires At(w7, c, Conn(Started, [], [Offering(cfg, nonce), HandshakeOk], Some(fd), NothingLeft), fd, Established)
    requires w7.server.keys[fd] == key != offer.key
    ensures Goes(cfg, w7, ClientReceives(c, offer), w8) && Goes(cfg, w8, ClientReceives(c, ok), w9)
    ensures Apart(w9, c, fd, offer.key, key)
  {
    OfferRoundTrip(cfg.rsa.pem, nonce);
    OfferAnswered(cfg.rsa, Started, EncodeOffer(cfg.rsa.pem, nonce), offer);
    w8 := Apply(cfg, w7, ClientReceives(c, offer));
    assert w8.conns[c].toClient == [HandshakeOk];
    w9 := Apply(cfg, w8, ClientReceives(c, ok));
  }

  /** Two connections one after the other on the same fd. The KEY_ACCEPT of the first is handled when the second has
      been sent its offer. */
  function Mixed(c1: nat, c2: nat, fd: int, ip: string, now: int, d1: Draws, d2: Draws): seq<Event> {
    [Connect(c1, fd, ip, now), ServerReceives(c1, 0, d1.hello), ClientReceives(c1, d1.offer),
     ServerCloses(c1), Connect(c2, fd, ip, now), ServerReceives(c2, 0, d2.hello),
     HandlesLeftover(c1, 0, Some(c2), d2.accept), ClientReceives(c2, d2.offer), ClientReceives(c2, d2.ok)]
  }

  /** A run in which a left-over KEY_ACCEPT makes a client ready with a key that is not the server's. */
  lemma LeftoverKeyInstalled(cfg: Config, c1: nat, c2: nat, fd: int, ip: string, now: int, d1: Draws, d2: Draws)
    returns (trace: seq<World>, events: seq<Event>)
    requires RsaLaw(cfg.rsa) && c1 != c2 && d1.offer.key != d2.offer.key
    ensures Run(cfg, trace, events) && events == Mixed(c1, c2, fd, ip, now, d1, d2)
    ensures Apart(trace[9], c2, fd, d2.offer.key, d1.offer.key)
  {
    var w1, w2, w3, cl, accept := FirstHalf(cfg, Initial, c1, fd, ip, now, d1);
    var w4, w5, w6, w7, w8, w9 := Takeover(cfg, w3, c1, c2, fd, ip, now, cl, accept, d1.offer.key, d2);
    trace, events := NineSteps(cfg, w1, w2, w3, w4, w5, w6, w7, w8, w9, c1, c2, fd, ip, now, d1, d2);
    PathIsRun(cfg, trace, events);
  }

  lemma Takeover(cfg: Config, w3: World, c1: nat, c2: nat, fd: int, ip: string, now: int, cl: Client,
                 accept: Msg, key: Key, d2: Draws)
    returns (w4: World, w5: World, w6: World, w7: World, w8: World, w9: World)
    requires RsaLaw(cfg.rsa) && c2 !in w3.conns && key != d2.offer.key
    requires At(w3, c1, Conn(cl, [accept], [], Some(fd), NothingLeft), fd, SentKeyOffer)
    requires accept.kind == MSG_CRYPTO_KEY_ACCEPT && Carries(cfg.rsa, accept.payload, key)
    requires !Blocked(w3.server.exchange, ip, d2.hello.now)
    ensures Goes(cfg, w3, ServerCloses(c1), w4) && Goes(cfg, w4, Connect(c2, fd, ip, now), w5)
    ensures Goes(cfg, w5, ServerReceives(c2, 0, d2.hello), w6)
    ensures Goes(cfg, w6, HandlesLeftover(c1, 0, Some(c2), d2.accept), w7)
    ensures Goes(cfg, w7, ClientReceives(c2, d2.offer), w8) && Goes(cfg, w8, ClientReceives(c2, d2.ok), w9)
    ensures Apart(w9, c2, fd, d2.offer.key, key)
  {
    w4, w5, w6 := FdReused(cfg, w3, c1, c2, fd, ip, now, cl, accept, d2.hello);
    w7 := KeyTaken(cfg, w6, c1, c2, fd, accept, key, d2.hello.nonce, d2.accept);
    w8, w9 := SecondReady(cfg, w7, c2, fd, d2.hello.nonce, key, d2.offer, d2.ok);
  }

  lemma NineSteps(cfg: Config, w1: World, w2: World, w3: World, w4: World, w5: World, w6: World,
                  w7: World, w8: World, w9: World,
                  c1: nat, c2: nat, fd: int, ip: string, now: int, d1: Draws, d2: Draws)
    returns (trace: seq<World>, events: seq<Event>)
    requires |cfg.rsa.pem| < U32_LIMIT
    requires Goes(cfg, Initial, Connect(c1, fd, ip, now), w1) && Goes(cfg, w1, ServerReceives(c1, 0, d1.hello), w2)
    requires Goes(cfg, w2, ClientReceives(c1, d1.offer), w3) && Goes(cfg, w3, ServerCloses(c1), w4)
    requires Goes(cfg, w4, Connect(c2, fd, ip, now), w5) && Goes(cfg, w5, ServerReceives(c2, 0, d2.hello), w6)
    requires Goes(cfg, w6, HandlesLeftover(c1, 0, Some(c2), d2.accept), w7)
    requires Goes(cfg, w7, ClientReceives(c2, d2.offer), w8) && Goes(cfg, w8, ClientReceives(c2, d2.ok), w9)
    ensures trace == [Initial, w1, w2, w3, w4, w5, w6, w7, w8, w9]
    ensures events == Mixed(c1, c2, fd, ip, now, d1, d2) && Path(cfg, trace, events)
  {
    trace, events := [Initial, w1, w2, w3, w4, w5, w6, w7, w8, w9], Mixed(c1, c2, fd, ip, now, d1, d2);
    forall i | 0 <= i < |events|
      ensures Goes(cfg, trace[i], events[i], trace[i + 1])
    {
      assert i == 0 || i == 1 || i == 2 || i == 3 || i == 4 || i == 5 || i == 6 || i == 7 || i == 8;
    }
  }

  // ----- When the connection breaks -----

  /** A failed read and then disconnect(): whatever secrets the client held it still holds. */
  lemma LossKeepsSecrets(cfg: Config, w: World, c: nat)
    requires |cfg.rsa.pem| < U32_LIMIT && Enabled(w, ClientLoses(c))
    ensures var w1 := Apply(cfg, w, ClientLoses(c));
      && Enabled(w1, ClientCloses(c))
      && c in Apply(cfg, w1, ClientCloses(c)).conns
      && Apply(cfg, w1, ClientCloses(c)).conns[c].client == w.conns[c].client.(connected := false)
  {
  }

  /** A run in which disconnect() leaves the key in place and the client ready. */
  lemma KeySurvivesDisconnect(cfg: Config, c: nat, fd: int, ip: string, now: int, d: Draws)
    returns (trace: seq<World>, events: seq<Event>)
    requires RsaLaw(cfg.rsa)
    ensures Run(cfg, trace, events)
    ensures events == Steps(c, fd, ip, now, d) + [ClientLoses(c)] + [ClientCloses(c)]
    ensures c in trace[7].conns
    ensures var cl := trace[7].conns[c].client;
      !cl.connected && cl.ready && cl.aes == Some(d.offer.key) && !Secretless(cl)
  {
    var ws, cl := HandshakeCompletes(cfg, Initial, c, fd, ip, now, d);
    var w6 := Apply(cfg, ws[5], ClientLoses(c));
    LossKeepsSecrets(cfg, ws[5], c);
    OneMoreStep(cfg, ws, Steps(c, fd, ip, now, d), ClientLoses(c));
    OneMoreStep(cfg, ws + [w6], Steps(c, fd, ip, now, d) + [ClientLoses(c)], ClientCloses(c));
    trace := ws + [w6] + [Apply(cfg, w6, ClientCloses(c))];
    events := Steps(c, fd, ip, now, d) + [ClientLoses(c)] + [ClientCloses(c)];
    PathIsRun(cfg, trace, events);
  }

  /** The client is disconnected and has secrets. */
  predicate Holds(w: World, c: nat) {
    c in w.conns && !w.conns[c].client.connected && !Secretless(w.conns[c].client)
  }

  predicate LosesSecrets(w: World, e: Event, c: nat) {
    e == ClientLoses(c) && c in w.conns && !Secretless(w.conns[c].client)
  }

  lemma HoldsStep(cfg: Config, w: World, e: Event, c: nat)
    requires |cfg.rsa.pem| < U32_LIMIT && Enabled(w, e)
    ensures Holds(Apply(cfg, w, e), c) <==> Holds(w, c) || LosesSecrets(w, e, c)
  {
  }

  /** Some read failed on this connection while the client had secrets. */
  ghost predicate LostSecrets(trace: seq<World>, events: seq<Event>, c: nat, i: nat)
    requires |trace| == |events| + 1 && i < |trace|
  {
    exists k | 0 <= k < i :: LosesSecrets(trace[k], events[k], c)
  }

  lemma {:induction false} HoldsExactly(cfg: Config, trace: seq<World>, events: seq<Event>, c: nat, i: nat)
    requires |cfg.rsa.pem| < U32_LIMIT && Run(cfg, trace, events) && i < |trace|
    ensures Holds(trace[i], c) <==> LostSecrets(trace, events, c, i)
  {
    if i > 0 {
      HoldsExactly(cfg, trace, events, c, i - 1);
      assert Enabled(trace[i - 1], events[i - 1]) && trace[i] == Apply(cfg, trace[i - 1], events[i - 1]);
      HoldsStep(cfg, trace[i - 1], events[i - 1], c);
    }
  }

  /** In every run disconnect() leaves the client without secrets exactly if no read had failed on the connection
      while the client had some. */
  lemma DisconnectClearsExactly(cfg: Config, trace: seq<World>, events: seq<Event>, c: nat, j: nat)
    requires |cfg.rsa.pem| < U32_LIMIT && Run(cfg, trace, events) && j < |events| && events[j] == ClientCloses(c)
    ensures c in trace[j + 1].conns
    ensures Secretless(trace[j + 1].conns[c].client) <==> !LostSecrets(trace, events, c, j)
  {
    HoldsExactly(cfg, trace, events, c, j);
    assert Enabled(trace[j], events[j]) && trace[j + 1] == Apply(cfg, trace[j], events[j]);
    ClearsExactly(trace[j].conns[c].client);
  }
}
