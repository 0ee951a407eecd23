/** Every run of the handshake: the keys of both ends, and the packets of a ready client. */
module HandshakeRuns {
  import opened Bytes
  import opened Crypto
  import opened KeyExchange
  import opened ClientCrypto
  import opened Handshake
  import opened Options

  ghost predicate Run(cfg: Config, trace: seq<World>, events: seq<Event>)
    requires |cfg.rsa.pem| < U32_LIMIT
  {
    && |trace| == |events| + 1
    && trace[0] == Initial
    && forall i | 0 <= i < |events| ::
         Enabled(trace[i], events[i]) && trace[i + 1] == Apply(cfg, trace[i], events[i])
  }

  lemma {:induction false} PlacedHolds(cfg: Config, trace: seq<World>, events: seq<Event>, i: nat)
    requires |cfg.rsa.pem| < U32_LIMIT
    requires Run(cfg, trace, events) && i < |trace|
    ensures Placed(trace[i])
  {
    if i > 0 {
      PlacedHolds(cfg, trace, events, i - 1);
      assert Enabled(trace[i - 1], events[i - 1]);
      StepPlaced(cfg, trace[i - 1], events[i - 1]);
    }
  }

  predicate Calm(cfg: Config, w: World, e: Event) {
    Enabled(w, e) && Harmless(cfg, w, e)
  }

  /** Every left-over packet handled before this moment was harmless. */
  ghost predicate Undisturbed(cfg: Config, trace: seq<World>, events: seq<Event>, i: nat)
    requires |trace| == |events| + 1 && i < |trace|
  {
    forall k | 0 <= k < i :: Calm(cfg, trace[k], events[k])
  }

  lemma {:induction false} InvHolds(cfg: Config, trace: seq<World>, events: seq<Event>, i: nat)
    requires RsaLaw(cfg.rsa)
    requires Run(cfg, trace, events) && i < |trace| && Undisturbed(cfg, trace, events, i)
    ensures Inv(cfg, trace[i])
  {
    if i > 0 {
      InvHolds(cfg, trace, events, i - 1);
      assert Calm(cfg, trace[i - 1], events[i - 1]);
      StepKeepsInv(cfg, trace[i - 1], events[i - 1]);
    }
  }

  ghost predicate OwnUpTo(trace: seq<World>, i: nat)
    requires i < |trace|
  {
    forall k | 0 <= k <= i :: KeysOwn(trace[k])
  }

  lemma OneFurther(cfg: Config, trace: seq<World>, events: seq<Event>, i: nat)
    requires |trace| == |events| + 1 && i < |events|
    ensures OwnUpTo(trace, i + 1) <==> OwnUpTo(trace, i) && KeysOwn(trace[i + 1])
    ensures Undisturbed(cfg, trace, events, i + 1) <==> Undisturbed(cfg, trace, events, i) && Calm(cfg, trace[i], events[i])
  {
  }

  /** The keys the server holds have been the clients' own all along exactly if no left-over packet was harmful. */
  lemma {:induction false} OwnKeysExactly(cfg: Config, trace: seq<World>, events: seq<Event>, i: nat)
    requires RsaLaw(cfg.rsa)
    requires Run(cfg, trace, events) && i < |trace|
    ensures OwnUpTo(trace, i) <==> Undisturbed(cfg, trace, events, i)
  {
    if i > 0 {
      OwnKeysExactly(cfg, trace, events, i - 1);
      OneFurther(cfg, trace, events, i - 1);
      if Undisturbed(cfg, trace, events, i - 1) {
        LastStepExact(cfg, trace, events, i - 1);
      }
    }
  }

  lemma LastStepExact(cfg: Config, trace: seq<World>, events: seq<Event>, i: nat)
    requires RsaLaw(cfg.rsa)
    requires Run(cfg, trace, events) && i < |events| && Undisturbed(cfg, trace, events, i)
    ensures KeysOwn(trace[i + 1]) <==> Calm(cfg, trace[i], events[i])
  {
    InvHolds(cfg, trace, events, i);
    assert Enabled(trace[i], events[i]) && trace[i + 1] == Apply(cfg, trace[i], events[i]);
    if events[i].HandlesLeftover? {
      LeftoverExact(cfg, trace[i], events[i]);
    } else {
      StepKeepsInv(cfg, trace[i], events[i]);
      InvMeansOwn(cfg, trace[i + 1]);
    }
  }

  /** Whenever both ends of a connection hold a session key, it is the same key. */
  lemma KeyAgreement(cfg: Config, trace: seq<World>, events: seq<Event>, i: nat, c: nat, fd: int)
    requires RsaLaw(cfg.rsa)
    requires Run(cfg, trace, events) && i < |trace| && Undisturbed(cfg, trace, events, i)
    requires c in trace[i].conns && trace[i].conns[c].fd == Some(fd)
    requires trace[i].conns[c].client.aes.Some?
    requires fd in trace[i].server.keys
    ensures trace[i].server.keys[fd] == trace[i].conns[c].client.aes.value
  {
    InvHolds(cfg, trace, events, i);
    assert ConnFine(cfg, trace[i], c, trace[i].conns[c]);
  }

  /** The connection on whose fd a step handles a packet. */
  function On(e: Event): Option<nat> {
    if e.ServerReceives? then Some(e.c) else if e.HandlesLeftover? then e.to else None
  }

  lemma {:induction false} InstalledEarlier(
    cfg: Config, trace: seq<World>, events: seq<Event>, i: nat, c: nat, key: Key)
    returns (j: nat, fd: int)
    requires |cfg.rsa.pem| < U32_LIMIT
    requires Run(cfg, trace, events)
    requires i < |trace|
    requires (c, key) in trace[i].installed
    ensures j < i && On(events[j]) == Some(c)
    ensures trace[j].conns[c].fd == Some(fd)
    ensures fd in trace[j + 1].server.keys && trace[j + 1].server.keys[fd] == key
  {
    assert i > 0;
    assert Enabled(trace[i - 1], events[i - 1]) && trace[i] == Apply(cfg, trace[i - 1], events[i - 1]);
    if (c, key) in trace[i - 1].installed {
      j, fd := InstalledEarlier(cfg, trace, events, i - 1, c, key);
    } else {
      j := i - 1;
      fd := trace[j].conns[c].fd.value;
    }
  }

  /** A client that is ready holds a key the server installed for that connection at an earlier step. */
  lemma ReadyMeansInstalled(cfg: Config, trace: seq<World>, events: seq<Event>, i: nat, c: nat) returns (j: nat, fd: int)
    requires RsaLaw(cfg.rsa)
    requires Run(cfg, trace, events) && i < |trace| && Undisturbed(cfg, trace, events, i)
    requires c in trace[i].conns && trace[i].conns[c].client.ready
    ensures j < i && On(events[j]) == Some(c)
    ensures trace[j].conns[c].fd == Some(fd)
    ensures fd in trace[j + 1].server.keys && Some(trace[j + 1].server.keys[fd]) == trace[i].conns[c].client.aes
  {
    InvHolds(cfg, trace, events, i);
    assert ConnFine(cfg, trace[i], c, trace[i].conns[c]);
    j, fd := InstalledEarlier(cfg, trace, events, i, c, trace[i].conns[c].client.aes.value);
  }

  /** While the server keeps the connection of a ready client, both ends hold the same key. */
  lemma ReadyAndKept(cfg: Config, trace: seq<World>, events: seq<Event>, i: nat, c: nat, fd: int)
    requires RsaLaw(cfg.rsa)
    requires Run(cfg, trace, events) && i < |trace| && Undisturbed(cfg, trace, events, i)
    requires c in trace[i].conns && trace[i].conns[c].client.ready
    requires trace[i].conns[c].fd == Some(fd)
    ensures fd in trace[i].server.keys && trace[i].conns[c].client.aes == Some(trace[i].server.keys[fd])
  {
    InvHolds(cfg, trace, events, i);
    assert ConnFine(cfg, trace[i], c, trace[i].conns[c]);
  }

  // ----- Packets of a ready client -----

  /** While the server keeps a connection it keeps its fd and its key. */
  lemma StepKeepsKey(cfg: Config, w: World, e: Event, c: nat, fd: int)
    requires |cfg.rsa.pem| < U32_LIMIT
    requires Placed(w) && Enabled(w, e)
    requires c in w.conns && Apply(cfg, w, e).conns[c].fd == Some(fd)
    ensures w.conns[c].fd == Some(fd)
    ensures var keys, keys' := w.server.keys, Apply(cfg, w, e).server.keys;
            fd in keys ==> fd in keys' && keys'[fd] == keys[fd]
  {
    if e.ServerReceives? {
      var conn := w.conns[e.c];
      HandlePacketElsewhere(cfg, w.server, conn.fd.value, conn.toServer[e.at], e.draw);
      HandlePacketKeepsKey(cfg, w.server, conn.fd.value, conn.toServer[e.at], e.draw);
    } else if e.HandlesLeftover? {
      var left := w.conns[e.c].left;
      HandlePacketElsewhere(cfg, w.server, left.fd, left.msgs[e.at], e.draw);
      HandlePacketKeepsKey(cfg, w.server, left.fd, left.msgs[e.at], e.draw);
    }
  }

  lemma HandlePacketKeepsKey(cfg: Config, s: Server, fd: int, m: Msg, d: Draw)
    requires |cfg.rsa.pem| < U32_LIMIT
    ensures var t := HandlePacket(cfg, s, fd, m, d).server;
            fd in s.keys && fd in t.sessions ==> fd in t.keys && t.keys[fd] == s.keys[fd]
  {
  }

  /** The connection is still there, and if the server keeps it under this fd, so is the key. */
  predicate Holding(w: World, c: nat, fd: int, key: Key) {
    c in w.conns && (w.conns[c].fd == Some(fd) ==> fd in w.server.keys && w.server.keys[fd] == key)
  }

  predicate GivenUp(w: World, c: nat, fd: int) {
    c in w.conns && w.conns[c].fd != Some(fd)
  }

  lemma StepHolds(cfg: Config, trace: seq<World>, events: seq<Event>, i: nat, c: nat, fd: int, key: Key)
    requires |cfg.rsa.pem| < U32_LIMIT && Run(cfg, trace, events) && i < |events|
    ensures Holding(trace[i], c, fd, key) ==> Holding(trace[i + 1], c, fd, key)
    ensures GivenUp(trace[i], c, fd) ==> GivenUp(trace[i + 1], c, fd)
  {
    var w, e := trace[i], events[i];
    assert Enabled(w, e) && trace[i + 1] == Apply(cfg, w, e);
    PlacedHolds(cfg, trace, events, i);
    if c in w.conns && Apply(cfg, w, e).conns[c].fd == Some(fd) {
      StepKeepsKey(cfg, w, e, c, fd);
    }
  }

  lemma {:induction false} Persists<W>(trace: seq<W>, p: W -> bool, k: nat, j: nat)
    requires k <= j < |trace| && p(trace[k])
    requires forall i | k <= i < j && p(trace[i]) :: p(trace[i + 1])
    ensures p(trace[j])
    decreases j
  {
    if k < j {
      Persists(trace, p, k, j - 1);
    }
  }

  /** While the server keeps a connection it keeps its fd and, once installed, its key. */
  lemma KeyStays(cfg: Config, trace: seq<World>, events: seq<Event>, k: nat, j: nat, c: nat, fd: int)
    requires |cfg.rsa.pem| < U32_LIMIT && Run(cfg, trace, events) && k <= j < |trace|
    requires c in trace[k].conns && c in trace[j].conns && trace[j].conns[c].fd == Some(fd)
    ensures trace[k].conns[c].fd == Some(fd)
    ensures var keys, keys' := trace[k].server.keys, trace[j].server.keys;
            fd in keys ==> fd in keys' && keys'[fd] == keys[fd]
  {
    if trace[k].conns[c].fd != Some(fd) {
      forall i | k <= i < j && GivenUp(trace[i], c, fd)
        ensures GivenUp(trace[i + 1], c, fd)
      {
        StepHolds(cfg, trace, events, i, c, fd, seq(32, _ => 0));
      }
      Persists(trace, (w: World) => GivenUp(w, c, fd), k, j);
    } else if fd in trace[k].server.keys {
      var key := trace[k].server.keys[fd];
      forall i | k <= i < j && Holding(trace[i], c, fd, key)
        ensures Holding(trace[i + 1], c, fd, key)
      {
        StepHolds(cfg, trace, events, i, c, fd, key);
      }
      Persists(trace, (w: World) => Holding(w, c, fd, key), k, j);
    }
  }

  /** Whenever the server handles a packet that a ready client sent, it passes on exactly the plaintext, however
      many packets of this and other connections were handled in between and in whatever order. */
  lemma ReadySendDispatched(
    cfg: Config, trace: seq<World>, events: seq<Event>, k: nat, j: nat, c: nat, m: Msg, iv: Nonce, at: nat, d: Draw)
    requires RsaLaw(cfg.rsa) && AeadLaw(cfg.aead)
    requires Run(cfg, trace, events) && k < j < |events| && Undisturbed(cfg, trace, events, k)
    requires events[k] == ClientSends(c, m, iv) && c in trace[k].conns && trace[k].conns[c].client.ready
    requires events[j] == ServerReceives(c, at, d) && Enabled(trace[j], events[j])
    requires trace[j].conns[c].toServer[at] == ClientOutgoing(cfg.aead, trace[k].conns[c].client, m, iv)
    ensures HandlePacket(cfg, trace[j].server, trace[j].conns[c].fd.value, trace[j].conns[c].toServer[at], d)
         == Handled(trace[j].server, [], [m])
  {
    var fd := trace[j].conns[c].fd.value;
    assert Enabled(trace[k], events[k]);
    KeyStays(cfg, trace, events, k, j, c, fd);
    ReadyAndKept(cfg, trace, events, k, c, fd);
  }

  /** What a step puts on the way to the server on a connection. */
  function SentBy(cfg: Config, w: World, e: Event, c: nat): multiset<Msg>
    requires |cfg.rsa.pem| < U32_LIMIT && Enabled(w, e)
  {
    if e.c != c then multiset{}
    else
      match e
      case Connect(_, _, _, _) => multiset{Msg(MSG_CRYPTO_HELLO, [])}
      case ClientReceives(_, d) =>
        multiset(ClientReceive(cfg.rsa, cfg.aead, w.conns[c].client, w.conns[c].toClient[0], d).sent)
      case ClientSends(_, m, iv) => multiset{ClientOutgoing(cfg.aead, w.conns[c].client, m, iv)}
      case _ => multiset{}
  }

  /** What a step hands to the server's handlers. */
  function HandledBy(w: World, e: Event, c: nat): multiset<Msg>
    requires Enabled(w, e)
  {
    if e.c != c then multiset{}
    else if e.ServerReceives? then multiset{w.conns[c].toServer[e.at]}
    else if e.HandlesLeftover? then multiset{w.conns[c].left.msgs[e.at]}
    else multiset{}
  }

  function SentUpTo(cfg: Config, trace: seq<World>, events: seq<Event>, c: nat, i: nat): multiset<Msg>
    requires |cfg.rsa.pem| < U32_LIMIT && Run(cfg, trace, events) && i <= |events|
  {
    if i == 0 then multiset{}
    else
      assert Enabled(trace[i - 1], events[i - 1]);
      SentUpTo(cfg, trace, events, c, i - 1) + SentBy(cfg, trace[i - 1], events[i - 1], c)
  }

  function HandledUpTo(cfg: Config, trace: seq<World>, events: seq<Event>, c: nat, i: nat): multiset<Msg>
    requires |cfg.rsa.pem| < U32_LIMIT && Run(cfg, trace, events) && i <= |events|
  {
    if i == 0 then multiset{}
    else
      assert Enabled(trace[i - 1], events[i - 1]);
      HandledUpTo(cfg, trace, events, c, i - 1) + HandledBy(trace[i - 1], events[i - 1], c)
  }

  function Pending(w: World, c: nat): multiset<Msg> {
    if c in w.conns then multiset(w.conns[c].toServer) + multiset(w.conns[c].left.msgs) else multiset{}
  }

  lemma WithoutOne<T>(xs: seq<T>, at: nat)
    requires at < |xs|
    ensures multiset(Without(xs, at)) + multiset{xs[at]} == multiset(xs)
  {
    assert xs == xs[..at] + [xs[at]] + xs[at + 1..];
  }

  /** Handling a packet puts none in the way of the server and takes none from it. */
  lemma HandleOnPending(cfg: Config, w: World, t: nat, m: Msg, d: Draw, c: nat)
    requires |cfg.rsa.pem| < U32_LIMIT
    requires Placed(w) && t in w.conns && w.conns[t].fd.Some?
    ensures Pending(HandleOn(cfg, w, t, m, d), c) == Pending(w, c)
  {
    ClosePending(w.conns[t], w.conns[t].fd.value);
  }

  lemma ClosePending(conn: Conn, fd: int)
    requires conn.left.msgs == []
    ensures multiset(Close(conn, fd).toServer) + multiset(Close(conn, fd).left.msgs)
         == multiset(conn.toServer) + multiset(conn.left.msgs)
  {
  }

  lemma ReceiptConserves(cfg: Config, w: World, e: Event, c: nat)
    requires |cfg.rsa.pem| < U32_LIMIT && Placed(w) && Enabled(w, e) && e.ServerReceives?
    ensures Pending(Apply(cfg, w, e), c) + HandledBy(w, e, c) == Pending(w, c)
  {
    var conn := w.conns[e.c];
    WithoutOne(conn.toServer, e.at);
    ChangePlaced(w, e.c, TakePacket(conn, e.at));
    HandleOnPending(cfg, Change(w, e.c, TakePacket(conn, e.at)), e.c, conn.toServer[e.at], e.draw, c);
  }

  lemma LeftoverConserves(cfg: Config, w: World, e: Event, c: nat)
    requires |cfg.rsa.pem| < U32_LIMIT && Placed(w) && Enabled(w, e) && e.HandlesLeftover?
    ensures Pending(Apply(cfg, w, e), c) + HandledBy(w, e, c) == Pending(w, c)
  {
    var conn := w.conns[e.c];
    WithoutOne(conn.left.msgs, e.at);
    if e.to.Some? {
      ChangePlaced(w, e.c, TakeLeftover(conn, e.at));
      HandleOnPending(cfg, Change(w, e.c, TakeLeftover(conn, e.at)), e.to.value, conn.left.msgs[e.at], e.draw, c);
    }
  }

  /** A client puts packets on the way. */
  lemma SendingConserves(w: World, c: nat, conn: Conn, sent: seq<Msg>)
    requires c in w.conns && conn.toServer == w.conns[c].toServer + sent && conn.left == w.conns[c].left
    ensures Pending(Change(w, c, conn), c) == Pending(w, c) + multiset(sent)
  {
  }

  lemma ClientConserves(cfg: Config, w: World, e: Event, c: nat)
    requires |cfg.rsa.pem| < U32_LIMIT && Enabled(w, e) && (e.ClientReceives? || e.ClientSends?)
    ensures Pending(Apply(cfg, w, e), c) == Pending(w, c) + SentBy(cfg, w, e, c)
  {
    if e.c == c {
      var sent := if e.ClientSends? then [ClientOutgoing(cfg.aead, w.conns[c].client, e.msg, e.iv)]
                  else ClientReceive(cfg.rsa, cfg.aead, w.conns[c].client, w.conns[c].toClient[0], e.clientDraw).sent;
      SendingConserves(w, c, Apply(cfg, w, e).conns[c], sent);
    }
  }

  lemma QuietConserves(cfg: Config, w: World, e: Event, c: nat)
    requires |cfg.rsa.pem| < U32_LIMIT && Enabled(w, e)
    requires e.Connect? || e.ServerSends? || e.ClientLoses? || e.ClientCloses?
    ensures Pending(Apply(cfg, w, e), c) == Pending(w, c) + SentBy(cfg, w, e, c)
  {
    if e.Connect? && e.c == c {
      assert Pending(Apply(cfg, w, e), c) == multiset(Opened(e.fd).toServer) + multiset(NothingLeft.msgs);
    }
  }

  lemma ClosingConserves(cfg: Config, w: World, e: Event, c: nat)
    requires |cfg.rsa.pem| < U32_LIMIT && Placed(w) && Enabled(w, e) && e.ServerCloses?
    ensures Pending(Apply(cfg, w, e), c) == Pending(w, c)
  {
    ClosePending(w.conns[e.c], w.conns[e.c].fd.value);
  }

  lemma StepConserves(cfg: Config, w: World, e: Event, c: nat)
    requires |cfg.rsa.pem| < U32_LIMIT && Placed(w) && Enabled(w, e)
    ensures Pending(Apply(cfg, w, e), c) + HandledBy(w, e, c) == Pending(w, c) + SentBy(cfg, w, e, c)
  {
    if e.ServerReceives? {
      ReceiptConserves(cfg, w, e, c);
    } else if e.HandlesLeftover? {
      LeftoverConserves(cfg, w, e, c);
    } else if e.ServerCloses? {
      ClosingConserves(cfg, w, e, c);
    } else if e.ClientReceives? || e.ClientSends? {
      ClientConserves(cfg, w, e, c);
    } else {
      QuietConserves(cfg, w, e, c);
    }
  }

  lemma Balance<T>(handled: multiset<T>, pending: multiset<T>, sent: multiset<T>,
                   h: multiset<T>, pending': multiset<T>, s: multiset<T>)
    requires handled + pending == sent && pending' + h == pending + s
    ensures handled + h + pending' == sent + s
  {
    assert handled + h + pending' == handled + (pending' + h);
    assert handled + (pending + s) == (handled + pending) + s;
  }

  /** No packet is lost, repeated or invented on its way to the server: what was sent on a connection is what was
      handled and what is still under way or left over. */
  lemma {:induction false} PacketsConserved(cfg: Config, trace: seq<World>, events: seq<Event>, c: nat, i: nat)
    requires |cfg.rsa.pem| < U32_LIMIT && Run(cfg, trace, events) && i <= |events|
    ensures HandledUpTo(cfg, trace, events, c, i) + Pending(trace[i], c) == SentUpTo(cfg, trace, events, c, i)
  {
    if i > 0 {
      var w, e := trace[i - 1], events[i - 1];
      assert Enabled(w, e) && trace[i] == Apply(cfg, w, e);
      PacketsConserved(cfg, trace, events, c, i - 1);
      PlacedHolds(cfg, trace, events, i - 1);
      StepConserves(cfg, w, e, c);
      Balance(HandledUpTo(cfg, trace, events, c, i - 1), Pending(w, c), SentUpTo(cfg, trace, events, c, i - 1),
              HandledBy(w, e, c), Pending(trace[i], c), SentBy(cfg, w, e, c));
    }
  }
}
