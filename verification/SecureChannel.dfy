/**
 The encrypted channel end to end: encryption, framing, an arbitrary cutting of
 the stream into reads, parsing and decryption.
 */
module SecureChannel {
  import opened Bytes
  import opened Crypto
  import opened KeyExchange
  import opened ClientCrypto
  import opened Framing
  import FrameStream
  import Handshake
  import HandshakeRuns
  import Folds
  import opened Options

  /** A message an application hands to sendPacket, with the vector its encryption draws. */
  datatype Outbound = Outbound(msg: Msg, iv: Nonce)

  const MAX_PLAINTEXT: nat := MAX_PAYLOAD_LEN - AEAD_OVERHEAD

  predicate Sendable(o: Outbound) {
    !HandshakeKind(o.msg.kind) && |o.msg.payload| <= MAX_PLAINTEXT
  }

  /** The packet sendPacket puts on the wire for a message encrypted under `key`. */
  function OnWire(aead: Aead, key: Key, o: Outbound): WirePacket {
    NewPacket(o.msg.kind, aead.seal(key, o.iv, o.msg.payload))
  }

  function AllOnWire(aead: Aead, key: Key, os: seq<Outbound>): seq<WirePacket> {
    if os == [] then [] else [OnWire(aead, key, os[0])] + AllOnWire(aead, key, os[1..])
  }

  function Messages(os: seq<Outbound>): seq<Msg> {
    if os == [] then [] else [os[0].msg] + Messages(os[1..])
  }

  function Arrived(pkt: WirePacket): Msg {
    Msg(pkt.header.msgType, pkt.payload)
  }

  /** The server handling packets one after another, each with its own draws. */
  function HandleAll(cfg: Config, s: Server, fd: int, pkts: seq<WirePacket>, draws: nat -> Draw): Handled
    requires |cfg.rsa.pem| < U32_LIMIT
    decreases pkts
  {
    if pkts == [] then Handled(s, [], [])
    else
      var first := HandlePacket(cfg, s, fd, Arrived(pkts[0]), draws(|pkts|));
      var later := HandleAll(cfg, first.server, fd, pkts[1..], draws);
      Handled(later.server, first.sent + later.sent, first.dispatched + later.dispatched)
  }

  /** The client's receive loop over packets. */
  function ReceiveAll(rsa: Rsa, aead: Aead, cl: Client, pkts: seq<WirePacket>, draws: nat -> ClientDraw): ClientHandled
    decreases pkts
  {
    if pkts == [] then ClientHandled(cl, [], [])
    else
      var first := ClientReceive(rsa, aead, cl, Arrived(pkts[0]), draws(|pkts|));
      var later := ReceiveAll(rsa, aead, first.client, pkts[1..], draws);
      ClientHandled(later.client, first.sent + later.sent, first.delivered + later.delivered)
  }

  lemma {:induction false} WireWellFormed(aead: Aead, key: Key, os: seq<Outbound>)
    requires AeadLaw(aead)
    requires forall o | o in os :: Sendable(o)
    ensures forall p | p in AllOnWire(aead, key, os) :: FrameStream.WellFormed(Wire, p)
  {
    if os != [] {
      WireWellFormed(aead, key, os[1..]);
      assert Sendable(os[0]);
      assert FrameStream.WellFormed(Wire, OnWire(aead, key, os[0]));
    }
  }

  lemma {:induction false} ServerDispatches(cfg: Config, s: Server, fd: int, os: seq<Outbound>, draws: nat -> Draw)
    requires |cfg.rsa.pem| < U32_LIMIT
    requires AeadLaw(cfg.aead)
    requires fd in s.keys
    requires forall o | o in os :: Sendable(o)
    ensures HandleAll(cfg, s, fd, FrameStream.SealedAll(Wire, AllOnWire(cfg.aead, s.keys[fd], os)), draws)
         == Handled(s, [], Messages(os))
  {
    if os != [] {
      assert Sendable(os[0]);
      ServerDispatches(cfg, s, fd, os[1..], draws);
    }
  }

  lemma {:induction false} ClientDelivers(rsa: Rsa, aead: Aead, cl: Client, key: Key, os: seq<Outbound>, draws: nat -> ClientDraw)
    requires AeadLaw(aead)
    requires cl.ready && cl.aes == Some(key)
    requires forall o | o in os :: Sendable(o)
    ensures ReceiveAll(rsa, aead, cl, FrameStream.SealedAll(Wire, AllOnWire(aead, key, os)), draws)
         == ClientHandled(cl, [], Messages(os))
  {
    if os != [] {
      assert Sendable(os[0]);
      ClientDelivers(rsa, aead, cl, key, os[1..], draws);
    }
  }

  // ----- Packets handled in another order -----

  predicate Within(order: seq<nat>, n: nat) {
    forall i | 0 <= i < |order| :: order[i] < n
  }

  /** A selection from a sequence by positions. */
  function Pick<T>(xs: seq<T>, order: seq<nat>): (r: seq<T>)
    requires Within(order, |xs|)
    ensures |r| == |order| && forall i | 0 <= i < |order| :: r[i] == xs[order[i]]
  {
    if order == [] then [] else [xs[order[0]]] + Pick(xs, order[1..])
  }

  /** Each position once. */
  ghost predicate Permutation(order: seq<nat>, n: nat) {
    |order| == n && Within(order, n) && forall i, j | 0 <= i < j < n :: order[i] != order[j]
  }

  /** The packets the server parses. */
  function Parcels(aead: Aead, key: Key, os: seq<Outbound>): seq<WirePacket> {
    FrameStream.SealedAll(Wire, AllOnWire(aead, key, os))
  }

  lemma {:induction false} ParcelsLength(aead: Aead, key: Key, os: seq<Outbound>)
    ensures |Parcels(aead, key, os)| == |os| == |Messages(os)|
    decreases |os|
  {
    if os != [] {
      ParcelsLength(aead, key, os[1..]);
      assert AllOnWire(aead, key, os)[1..] == AllOnWire(aead, key, os[1..]);
    }
  }

  lemma {:induction false} ParcelAt(aead: Aead, key: Key, os: seq<Outbound>, k: nat)
    requires k < |os| == |Parcels(aead, key, os)| == |Messages(os)|
    ensures Parcels(aead, key, os)[k] == FrameStream.Sealed(Wire, OnWire(aead, key, os[k]))
    ensures Messages(os)[k] == os[k].msg
    decreases |os|
  {
    if k > 0 {
      ParcelsLength(aead, key, os[1..]);
      ParcelAt(aead, key, os[1..], k - 1);
      assert AllOnWire(aead, key, os)[1..] == AllOnWire(aead, key, os[1..]);
    }
  }

  lemma PickParcels(aead: Aead, key: Key, os: seq<Outbound>, order: seq<nat>)
    requires Within(order, |os|) && |Parcels(aead, key, os)| == |os| == |Messages(os)|
    ensures Parcels(aead, key, Pick(os, order)) == Pick(Parcels(aead, key, os), order)
    ensures Messages(Pick(os, order)) == Pick(Messages(os), order)
  {
    var picked := Pick(os, order);
    ParcelsLength(aead, key, picked);
    forall i | 0 <= i < |order|
      ensures Parcels(aead, key, picked)[i] == Parcels(aead, key, os)[order[i]]
      ensures Messages(picked)[i] == Messages(os)[order[i]]
    {
      ParcelAt(aead, key, picked, i);
      ParcelAt(aead, key, os, order[i]);
    }
  }

  /** Whatever the order in which packets are handled, each is passed on as it was meant. */
  lemma AnyOrderDispatched(cfg: Config, s: Server, fd: int, os: seq<Outbound>, order: seq<nat>, draws: nat -> Draw)
    requires |cfg.rsa.pem| < U32_LIMIT && AeadLaw(cfg.aead)
    requires fd in s.keys
    requires forall o | o in os :: Sendable(o)
    requires Within(order, |os|)
    ensures |Parcels(cfg.aead, s.keys[fd], os)| == |os| == |Messages(os)|
    ensures HandleAll(cfg, s, fd, Pick(Parcels(cfg.aead, s.keys[fd], os), order), draws)
         == Handled(s, [], Pick(Messages(os), order))
  {
    ParcelsLength(cfg.aead, s.keys[fd], os);
    PickParcels(cfg.aead, s.keys[fd], os, order);
    ServerDispatches(cfg, s, fd, Pick(os, order), draws);
  }

  /** What the session makes of the stream. */
  lemma StreamParsed(aead: Aead, key: Key, os: seq<Outbound>, chunks: seq<seq<byte>>)
    requires AeadLaw(aead)
    requires forall o | o in os :: Sendable(o)
    requires Folds.Flatten(chunks) == FrameStream.StreamOf(Wire, AllOnWire(aead, key, os))
    ensures FrameStream.FeedAll(Wire, FrameStream.Parsed([], true, []), chunks)
         == FrameStream.Parsed(Parcels(aead, key, os), true, [])
  {
    WireWellFormed(aead, key, os);
    ServerReceivesSent(AllOnWire(aead, key, os), chunks);
  }

  /**
   In any run of the handshake without a harmful left-over packet, messages a ready client sends over a connection the
   server keeps reach the server's message switch with the same types and plaintexts
   and nothing else, however the stream is cut into reads: in the order in which the
   workers handle the packets, and so in the order of sending if they are handled so.
   */
  lemma ClientToServer(
    cfg: Config, trace: seq<Handshake.World>, events: seq<Handshake.Event>, i: nat, c: nat, fd: int, key: Key,
    os: seq<Outbound>, chunks: seq<seq<byte>>, order: seq<nat>, draws: nat -> Draw)
    requires RsaLaw(cfg.rsa) && AeadLaw(cfg.aead)
    requires HandshakeRuns.Run(cfg, trace, events) && i < |trace|
    requires HandshakeRuns.Undisturbed(cfg, trace, events, i)
    requires c in trace[i].conns && trace[i].conns[c].client.ready && trace[i].conns[c].fd == Some(fd)
    requires trace[i].conns[c].client.aes == Some(key)
    requires forall o | o in os :: Sendable(o)
    requires Folds.Flatten(chunks) == FrameStream.StreamOf(Wire, AllOnWire(cfg.aead, key, os))
    requires Permutation(order, |os|)
    ensures |Messages(os)| == |os|
    ensures var received := FrameStream.FeedAll(Wire, FrameStream.Parsed([], true, []), chunks);
            && received.open && received.rest == [] && |received.packets| == |os|
            && HandleAll(cfg, trace[i].server, fd, Pick(received.packets, order), draws)
            == Handled(trace[i].server, [], Pick(Messages(os), order))
            && HandleAll(cfg, trace[i].server, fd, received.packets, draws)
            == Handled(trace[i].server, [], Messages(os))
  {
    HandshakeRuns.ReadyAndKept(cfg, trace, events, i, c, fd);
    StreamParsed(cfg.aead, key, os, chunks);
    AnyOrderDispatched(cfg, trace[i].server, fd, os, order, draws);
    ServerDispatches(cfg, trace[i].server, fd, os, draws);
  }

  /** The same from the server to the client's packet callback, through the blocking reader. */
  lemma ServerToClient(
    cfg: Config, trace: seq<Handshake.World>, events: seq<Handshake.Event>, i: nat, c: nat, fd: int,
    os: seq<Outbound>, draws: nat -> ClientDraw)
    requires RsaLaw(cfg.rsa) && AeadLaw(cfg.aead)
    requires HandshakeRuns.Run(cfg, trace, events) && i < |trace|
    requires HandshakeRuns.Undisturbed(cfg, trace, events, i)
    requires c in trace[i].conns && trace[i].conns[c].client.ready && trace[i].conns[c].fd == Some(fd)
    requires forall o | o in os :: Sendable(o)
    ensures fd in trace[i].server.keys
    ensures var stream := FrameStream.StreamOf(Wire, AllOnWire(cfg.aead, trace[i].server.keys[fd], os));
            ReceiveAll(cfg.rsa, cfg.aead, trace[i].conns[c].client, FrameStream.ReadAll(Wire, stream), draws)
            == ClientHandled(trace[i].conns[c].client, [], Messages(os))
  {
    HandshakeRuns.ReadyAndKept(cfg, trace, events, i, c, fd);
    var key := trace[i].server.keys[fd];
    WireWellFormed(cfg.aead, key, os);
    ClientReceivesSent(AllOnWire(cfg.aead, key, os));
    ClientDelivers(cfg.rsa, cfg.aead, trace[i].conns[c].client, key, os, draws);
  }

  /** What sendPacket produces on either end is the packet the theorems speak of. */
  lemma SendersAgree(cfg: Config, cl: Client, s: Server, fd: int, o: Outbound)
    requires !HandshakeKind(o.msg.kind)
    ensures cl.ready && cl.aes.Some? ==>
              var m := ClientOutgoing(cfg.aead, cl, o.msg, o.iv);
              NewPacket(m.kind, m.payload) == OnWire(cfg.aead, cl.aes.value, o)
    ensures fd in s.keys ==>
              var m := Outgoing(cfg, s, fd, o.msg, o.iv);
              NewPacket(m.kind, m.payload) == OnWire(cfg.aead, s.keys[fd], o)
  {
  }

  lemma WellFormedIff(aead: Aead, key: Key, o: Outbound)
    requires AeadLaw(aead)
    requires |o.msg.payload| < U32_LIMIT - AEAD_OVERHEAD
    ensures FrameStream.WellFormed(Wire, OnWire(aead, key, o)) <==> |o.msg.payload| <= MAX_PLAINTEXT
  {
  }

  lemma LongMessageCloses(aead: Aead, key: Key, o: Outbound)
    requires AeadLaw(aead)
    requires MAX_PLAINTEXT < |o.msg.payload| < U32_LIMIT - AEAD_OVERHEAD
    ensures var bytes := FrameStream.PacketBytes(Wire, OnWire(aead, key, o));
      FrameStream.ParseAll(Wire, bytes) == FrameStream.Parsed([], false, [])
      && FrameStream.ReadFrame(Wire, bytes) == FrameStream.Closed
  {
    var pkt := OnWire(aead, key, o);
    WireLawful();
    WellFormedIff(aead, key, o);
    FrameStream.BadHeaderCloses(Wire, Seal(pkt.header, pkt.payload), pkt.payload);
  }

  /** The size limit is exact: a longer plaintext is never delivered, it closes the connection at either end. */
  lemma SizeLimitExact(aead: Aead, key: Key, o: Outbound)
    requires AeadLaw(aead)
    requires |o.msg.payload| < U32_LIMIT - AEAD_OVERHEAD
    ensures var bytes := FrameStream.PacketBytes(Wire, OnWire(aead, key, o));
      if |o.msg.payload| <= MAX_PLAINTEXT
      then FrameStream.ParseAll(Wire, bytes).packets == [FrameStream.Sealed(Wire, OnWire(aead, key, o))]
      else FrameStream.ParseAll(Wire, bytes) == FrameStream.Parsed([], false, [])
           && FrameStream.ReadFrame(Wire, bytes) == FrameStream.Closed
  {
    if |o.msg.payload| <= MAX_PLAINTEXT {
      WireLawful();
      WellFormedIff(aead, key, o);
      FrameStream.RoundTripIff(Wire, OnWire(aead, key, o));
    } else {
      LongMessageCloses(aead, key, o);
    }
  }
}
