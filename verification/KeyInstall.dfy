/**
 The handler of KEY_ACCEPT seen more finely: it gives up its lock before it hands the key on,
 so other handlers and the closing of connections may come in between.
 */
module KeyInstall {
  import opened Bytes
  import opened Crypto
  import opened KeyExchange
  import opened Options

  predicate Succeeds(cfg: Config, s: Server, fd: int, m: Msg, d: Draw) {
    KeyAccept(s.exchange, cfg.rsa, fd, m.payload, d.beyond, d.now).install.Some?
  }

  function KeyOf(cfg: Config, s: Server, fd: int, m: Msg, d: Draw): Key
    requires Succeeds(cfg, s, fd, m, d)
  {
    KeyAccept(s.exchange, cfg.rsa, fd, m.payload, d.beyond, d.now).install.value
  }

  /** The first half: the phase is ESTABLISHED, the key is not in the table. */
  function PhaseSet(cfg: Config, s: Server, fd: int, m: Msg, d: Draw): Server {
    s.(exchange := KeyAccept(s.exchange, cfg.rsa, fd, m.payload, d.beyond, d.now).exchange)
  }

  /** The second half. */
  function Installed(s: Server, fd: int, key: Key): Server {
    s.(keys := Establish(s.keys, fd, key))
  }

  /** Phases and keys agree, but for the key of one fd that may be still to come. */
  ghost predicate Owing(s: Server, fd: int) {
    && s.sessions == s.exchange.clients.Keys
    && (forall g | g in s.exchange.clients :: s.exchange.clients[g].phase != Failed)
    && (forall g | g in s.keys :: g in s.exchange.clients && s.exchange.clients[g].phase == Established)
    && (forall g | g in s.exchange.clients && s.exchange.clients[g].phase == Established && g != fd :: g in s.keys)
  }

  predicate IsEstablished(s: Server, fd: int) {
    fd in s.exchange.clients && s.exchange.clients[fd].phase == Established
  }

  /** What comes in between: a sequence of steps of the server. */
  ghost predicate Between(cfg: Config, trace: seq<Server>, events: seq<ServerEvent>)
    requires |cfg.rsa.pem| < U32_LIMIT
  {
    && |trace| == |events| + 1
    && forall i | 0 <= i < |events| ::
         Possible(trace[i], events[i]) && trace[i + 1] == ServerStep(cfg, trace[i], events[i])
  }

  lemma HelloOwing(cfg: Config, s: Server, fd: int, g: int, m: Msg, d: Draw)
    requires |cfg.rsa.pem| < U32_LIMIT && Owing(s, fd) && m.kind == MSG_CRYPTO_HELLO
    ensures Owing(HandlePacket(cfg, s, g, m, d).server, fd)
  {
  }

  lemma AcceptOwing(cfg: Config, s: Server, fd: int, g: int, m: Msg, d: Draw)
    requires |cfg.rsa.pem| < U32_LIMIT && Owing(s, fd) && m.kind == MSG_CRYPTO_KEY_ACCEPT
    ensures Owing(HandlePacket(cfg, s, g, m, d).server, fd)
  {
  }

  lemma StepOwing(cfg: Config, s: Server, e: ServerEvent, fd: int)
    requires |cfg.rsa.pem| < U32_LIMIT && Owing(s, fd) && Possible(s, e)
    ensures Owing(ServerStep(cfg, s, e), fd)
  {
    if e.Received? && e.msg.kind == MSG_CRYPTO_HELLO {
      HelloOwing(cfg, s, fd, e.fd, e.msg, e.draw);
    } else if e.Received? && e.msg.kind == MSG_CRYPTO_KEY_ACCEPT {
      AcceptOwing(cfg, s, fd, e.fd, e.msg, e.draw);
    }
  }

  lemma {:induction false} AllOwing(cfg: Config, trace: seq<Server>, events: seq<ServerEvent>, i: nat, fd: int)
    requires |cfg.rsa.pem| < U32_LIMIT && Between(cfg, trace, events) && i < |trace| && Owing(trace[0], fd)
    ensures Owing(trace[i], fd)
  {
    if i > 0 {
      AllOwing(cfg, trace, events, i - 1, fd);
      assert Possible(trace[i - 1], events[i - 1]);
      StepOwing(cfg, trace[i - 1], events[i - 1], fd);
    }
  }

  /** No step but one that closes the fd ends its phase or gives it a key. */
  lemma StepStays(cfg: Config, s: Server, e: ServerEvent, fd: int)
    requires |cfg.rsa.pem| < U32_LIMIT && Owing(s, fd) && Possible(s, e)
    requires IsEstablished(s, fd) && fd !in s.keys && fd in ServerStep(cfg, s, e).sessions
    ensures IsEstablished(ServerStep(cfg, s, e), fd) && fd !in ServerStep(cfg, s, e).keys
  {
  }

  lemma {:induction false} Stays(cfg: Config, trace: seq<Server>, events: seq<ServerEvent>, i: nat, fd: int)
    requires |cfg.rsa.pem| < U32_LIMIT && Between(cfg, trace, events) && i < |trace| && Owing(trace[0], fd)
    requires IsEstablished(trace[0], fd) && fd !in trace[0].keys
    requires forall k | 0 <= k < |trace| :: fd in trace[k].sessions
    ensures IsEstablished(trace[i], fd) && fd !in trace[i].keys
  {
    if i > 0 {
      Stays(cfg, trace, events, i - 1, fd);
      AllOwing(cfg, trace, events, i - 1, fd);
      assert Possible(trace[i - 1], events[i - 1]) && fd in trace[i].sessions;
      StepStays(cfg, trace[i - 1], events[i - 1], fd);
    }
  }

  lemma HalfDone(cfg: Config, s: Server, fd: int, m: Msg, d: Draw)
    requires Consistent(s) && Succeeds(cfg, s, fd, m, d)
    ensures var t := PhaseSet(cfg, s, fd, m, d); Owing(t, fd) && IsEstablished(t, fd) && fd !in t.keys
  {
  }

  /**
   Whatever comes in between the halves, the second leaves keys and phases in agreement if
   and only if it finds the fd established; and if the fd was open all the while it is, and
   gets its own key.
   */
  lemma LateInstallExact(cfg: Config, s: Server, fd: int, m: Msg, d: Draw, trace: seq<Server>, events: seq<ServerEvent>)
    requires |cfg.rsa.pem| < U32_LIMIT && Consistent(s) && Succeeds(cfg, s, fd, m, d)
    requires Between(cfg, trace, events) && trace[0] == PhaseSet(cfg, s, fd, m, d)
    ensures var t, key := trace[|events|], KeyOf(cfg, s, fd, m, d);
      && (Consistent(Installed(t, fd, key)) <==> IsEstablished(t, fd))
      && ((forall k | 0 <= k < |trace| :: fd in trace[k].sessions) ==>
            IsEstablished(t, fd) && Installed(t, fd, key).keys == t.keys[fd := key])
  {
    HalfDone(cfg, s, fd, m, d);
    AllOwing(cfg, trace, events, |events|, fd);
    InstallExact(trace[|events|], fd, KeyOf(cfg, s, fd, m, d));
    if forall k | 0 <= k < |trace| :: fd in trace[k].sessions {
      Stays(cfg, trace, events, |events|, fd);
    }
  }

  lemma InstallExact(t: Server, fd: int, key: Key)
    requires Owing(t, fd)
    ensures Consistent(Installed(t, fd, key)) <==> IsEstablished(t, fd)
  {
    var u := Installed(t, fd, key);
    assert fd in u.keys;
  }

  /** The connection is closed in between: its key stays, and the next connection on that fd is established without
      its own key ever being installed. */
  lemma KeyOutlivesConnection(
    cfg: Config, s: Server, fd: int, m: Msg, d: Draw, ip: string, now: int, hello: Draw, m': Msg, d': Draw)
    requires |cfg.rsa.pem| < U32_LIMIT && Consistent(s) && Succeeds(cfg, s, fd, m, d)
    requires !Blocked(s.exchange, ip, hello.now)
    requires m'.kind == MSG_CRYPTO_KEY_ACCEPT && AcceptedSecret(cfg.rsa, m'.payload, d'.beyond).Some?
    ensures var key := KeyOf(cfg, s, fd, m, d);
      var s1 := Installed(Disconnect(PhaseSet(cfg, s, fd, m, d), fd), fd, key);
      var s2 := HandlePacket(cfg, Accept(s1, fd, ip, now), fd, Msg(MSG_CRYPTO_HELLO, []), hello).server;
      var s3 := HandlePacket(cfg, s2, fd, m', d').server;
      && fd in s1.keys && fd !in s1.sessions && s1.keys[fd] == key
      && IsEstablished(s3, fd) && fd in s3.keys && s3.keys[fd] == key
  {
  }
}
