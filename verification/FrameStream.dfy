/**
 Length-prefixed frames in a byte stream, for any header format: the session's
 incremental parser, the client's blocking reader and the serializer they undo.
 */
module FrameStream {
  import opened Bytes
  import opened Folds

  /** A header format. `seal` computes the header the serializer writes for a payload. */
  datatype Format<!H> = Format(
    headerSize: nat,
    encode: H -> seq<byte>,
    decode: seq<byte> -> H,
    good: H -> bool,
    length: H -> nat,
    seal: (H, seq<byte>) -> H,
    intact: (H, seq<byte>) -> bool)

  ghost predicate Lawful<H(!new)>(f: Format<H>) {
    && f.headerSize > 0
    && (forall h :: |f.encode(h)| == f.headerSize && f.decode(f.encode(h)) == h)
    && (forall h, p :: f.intact(f.seal(h, p), p))
    && (forall h, p :: f.good(f.seal(h, p)) == f.good(h) && f.length(f.seal(h, p)) == f.length(h))
  }

  datatype Packet<H> = Packet(header: H, payload: seq<byte>)

  // ----- What a stream of bytes contains -----

  datatype Scan<H> = Partial | Malformed | Frame(packet: Packet<H>, size: nat)

  /** The first frame of a buffer, if it is all there. */
  function ScanFrame<H>(f: Format<H>, buf: seq<byte>): (s: Scan<H>)
    ensures s.Frame? ==> f.headerSize <= s.size <= |buf|
  {
    if |buf| < f.headerSize then Partial
    else
      var h := f.decode(buf[..f.headerSize]);
      if !f.good(h) then Malformed
      else if |buf| < f.headerSize + f.length(h) then Partial
      else Frame(Packet(h, buf[f.headerSize..f.headerSize + f.length(h)]), f.headerSize + f.length(h))
  }

  predicate Intact<H>(f: Format<H>, pkt: Packet<H>) {
    f.intact(pkt.header, pkt.payload)
  }

  /** `rest` is what a session still open keeps for its next read. */
  datatype Parsed<H> = Parsed(packets: seq<Packet<H>>, open: bool, rest: seq<byte>)

  /** One pass over a whole stream: intact frames are delivered, damaged ones skipped, a bad header closes. */
  function ParseAll<H>(f: Format<H>, buf: seq<byte>): Parsed<H>
    requires f.headerSize > 0
    decreases |buf|
  {
    match ScanFrame(f, buf)
    case Partial => Parsed([], true, buf)
    case Malformed => Parsed([], false, [])
    case Frame(pkt, size) =>
      After(Delivery(f, pkt), ParseAll(f, buf[size..]))
  }

  /** What a complete first frame contributes. */
  function Delivery<H>(f: Format<H>, pkt: Packet<H>): seq<Packet<H>> {
    if Intact(f, pkt) then [pkt] else []
  }

  function After<H>(done: seq<Packet<H>>, later: Parsed<H>): Parsed<H> {
    later.(packets := done + later.packets)
  }

  lemma AfterAfter<H>(a: seq<Packet<H>>, b: seq<Packet<H>>, later: Parsed<H>)
    ensures After(a, After(b, later)) == After(a + b, later)
  {
    assert a + (b + later.packets) == (a + b) + later.packets;
  }

  /** What comes out of a buffer: the packets, whether the session stays open and, if so, what it keeps. */
  predicate Outcome<H(==)>(f: Format<H>, buf: seq<byte>, packets: seq<Packet<H>>, open: bool, rest: seq<byte>)
    requires f.headerSize > 0
  {
    var all := ParseAll(f, buf);
    packets == all.packets && open == all.open && (open ==> rest == all.rest)
  }

  /** Parsing a suffix of a buffer, in terms of positions in the buffer. */
  lemma ParseAt<H>(f: Format<H>, s: seq<byte>, k: nat)
    requires f.headerSize > 0
    requires k + f.headerSize <= |s|
    ensures var h := f.decode(s[k..k + f.headerSize]);
            var next := k + f.headerSize + f.length(h);
            ParseAll(f, s[k..]) ==
              if !f.good(h) then Parsed([], false, [])
              else if |s| < next then Parsed([], true, s[k..])
              else After(Delivery(f, Packet(h, s[k + f.headerSize..next])), ParseAll(f, s[next..]))
  {
    var buf := s[k..];
    assert buf[..f.headerSize] == s[k..k + f.headerSize];
    var h := f.decode(s[k..k + f.headerSize]);
    var next := k + f.headerSize + f.length(h);
    if next <= |s| {
      assert buf[f.headerSize..next - k] == s[k + f.headerSize..next];
      assert buf[next - k..] == s[next..];
    }
  }

  /** The loop meets a header that is bad, or a frame that is not all there yet: nothing more comes out. */
  lemma NoMoreFrames<H>(f: Format<H>, s: seq<byte>, k: nat, done: seq<Packet<H>>, all: Parsed<H>)
    requires f.headerSize > 0
    requires k + f.headerSize <= |s|
    requires all == After(done, ParseAll(f, s[k..]))
    ensures var h := f.decode(s[k..k + f.headerSize]);
      && (!f.good(h) ==> all == Parsed(done, false, []))
      && (f.good(h) && |s| < k + f.headerSize + f.length(h) ==> all == Parsed(done, true, s[k..]))
  {
    ParseAt(f, s, k);
    assert done + [] == done;
  }

  /** The loop passes a whole frame. */
  lemma NextFrame<H>(f: Format<H>, s: seq<byte>, k: nat, done: seq<Packet<H>>, all: Parsed<H>, h: H, next: nat)
    requires f.headerSize > 0
    requires k + f.headerSize <= |s|
    requires all == After(done, ParseAll(f, s[k..]))
    requires h == f.decode(s[k..k + f.headerSize]) && f.good(h)
    requires next == k + f.headerSize + f.length(h) && next <= |s|
    ensures all == After(done + Delivery(f, Packet(h, s[k + f.headerSize..next])), ParseAll(f, s[next..]))
  {
    ParseAt(f, s, k);
    AfterAfter(done, Delivery(f, Packet(h, s[k + f.headerSize..next])), ParseAll(f, s[next..]));
  }

  lemma AfterNothing<H>(all: Parsed<H>)
    ensures After([], all) == all
  {
    assert [] + all.packets == all.packets;
  }

  lemma EndOfBuffer<H>(f: Format<H>, rest: seq<byte>, done: seq<Packet<H>>)
    requires 0 <= |rest| < f.headerSize
    ensures After(done, ParseAll(f, rest)) == Parsed(done, true, rest)
  {
    assert done + [] == done;
  }

  // ----- The session's incremental parser -----

  datatype Turn = Passed | Bad | Short

  class SessionReader<H> {
    const format: Format<H>
    var readBuffer: seq<byte>
    var open: bool

    constructor (format: Format<H>)
      ensures this.format == format
      ensures open && readBuffer == []
    {
      this.format := format;
      readBuffer := [];
      open := true;
    }

    /** One turn of the loop: `next` is behind the frame at `offset`, which is delivered if it is intact. */
    method ParseFrame(buf: seq<byte>, offset: nat, received: seq<Packet<H>>, ghost all: Parsed<H>)
      returns (turn: Turn, next: nat, more: seq<Packet<H>>)
      requires format.headerSize > 0 && offset + format.headerSize <= |buf|
      requires all == After(received, ParseAll(format, buf[offset..]))
      ensures turn == Passed ==> offset < next <= |buf| && all == After(more, ParseAll(format, buf[next..]))
      ensures turn == Bad ==> all == Parsed(received, false, [])
      ensures turn == Short ==> all == Parsed(received, true, buf[offset..])
    {
      next, more := offset, received;
      var hdr := format.decode(buf[offset..offset + format.headerSize]);
      if !format.good(hdr) {
        NoMoreFrames(format, buf, offset, received, all);
        return Bad, next, more;
      }
      var totalPacketSize := format.headerSize + format.length(hdr);
      if |buf| - offset < totalPacketSize {
        NoMoreFrames(format, buf, offset, received, all);
        return Short, next, more;
      }
      next := offset + totalPacketSize;
      var payload := buf[offset + format.headerSize..next];
      NextFrame(format, buf, offset, received, all, hdr, next);
      if format.intact(hdr, payload) {
        more := received + [Packet(hdr, payload)];
      }
      assert more == received + Delivery(format, Packet(hdr, payload));
      turn := Passed;
    }

    /** The loop over the buffer: `offset` is where it stops, `good` whether it met no bad header. */
    method ParseFrames(buf: seq<byte>) returns (received: seq<Packet<H>>, good: bool, offset: nat)
      requires format.headerSize > 0
      ensures offset <= |buf|
      ensures Outcome(format, buf, received, good, buf[offset..])
    {
      received, good, offset := [], true, 0;
      ghost var all := ParseAll(format, buf);
      assert buf[0..] == buf;
      AfterNothing(all);
      while |buf| - offset >= format.headerSize
        invariant offset <= |buf| && good
        invariant all == After(received, ParseAll(format, buf[offset..]))
        decreases |buf| - offset
      {
        var turn, next, more := ParseFrame(buf, offset, received, all);
        if turn == Bad {
          good := false;
          return;
        }
        if turn == Short {
          return;
        }
        offset, received := next, more;
      }
      EndOfBuffer(format, buf[offset..], received);
    }

    /** Append a read and hand over every complete packet; the server drops the session on close. */
    method AppendAndParseBytes(data: seq<byte>) returns (received: seq<Packet<H>>)
      requires format.headerSize > 0
      requires open
      modifies this
      ensures Outcome(format, old(readBuffer) + data, received, open, readBuffer)
    {
      readBuffer := readBuffer + data;
      var good, offset;
      received, good, offset := ParseFrames(readBuffer);
      open := good;
      if offset > 0 {
        readBuffer := readBuffer[offset..];
      } else {
        assert readBuffer[0..] == readBuffer;
      }
    }
  }

  /** The effect of one more read on a session. */
  function Feed<H>(f: Format<H>, st: Parsed<H>, chunk: seq<byte>): Parsed<H>
    requires f.headerSize > 0
  {
    if !st.open then st else After(st.packets, ParseAll(f, st.rest + chunk))
  }

  /** A session fed with a sequence of reads. */
  function FeedAll<H>(f: Format<H>, st: Parsed<H>, chunks: seq<seq<byte>>): Parsed<H>
    requires f.headerSize > 0
    decreases chunks
  {
    if chunks == [] then st else FeedAll(f, Feed(f, st, chunks[0]), chunks[1..])
  }

  lemma ScanMore<H>(f: Format<H>, a: seq<byte>, b: seq<byte>)
    requires !ScanFrame(f, a).Partial?
    ensures ScanFrame(f, a + b) == ScanFrame(f, a)
  {
    assert (a + b)[..f.headerSize] == a[..f.headerSize];
    if ScanFrame(f, a).Frame? {
      var size := ScanFrame(f, a).size;
      assert (a + b)[f.headerSize..size] == a[f.headerSize..size];
    }
  }

  /** Parsing may be interrupted anywhere and resumed with the rest. */
  lemma {:induction false} ParseMore<H>(f: Format<H>, a: seq<byte>, b: seq<byte>)
    requires f.headerSize > 0
    ensures ParseAll(f, a + b) == Feed(f, ParseAll(f, a), b)
    decreases |a|
  {
    match ScanFrame(f, a)
    case Partial =>
    case Malformed =>
      ScanMore(f, a, b);
    case Frame(pkt, size) =>
      ScanMore(f, a, b);
      assert (a + b)[size..] == a[size..] + b;
      ParseMore(f, a[size..], b);
      var later := ParseAll(f, a[size..]);
      AfterAfter(Delivery(f, pkt), later.packets, ParseAll(f, later.rest + b));
  }

  lemma {:induction false} ChunksFrom<H>(f: Format<H>, st: Parsed<H>, seen: seq<byte>, chunks: seq<seq<byte>>)
    requires f.headerSize > 0
    requires st == ParseAll(f, seen)
    ensures FeedAll(f, st, chunks) == ParseAll(f, seen + Flatten(chunks))
    decreases chunks
  {
    if chunks == [] {
      assert seen + Flatten(chunks) == seen;
    } else {
      ParseMore(f, seen, chunks[0]);
      ChunksFrom(f, Feed(f, st, chunks[0]), seen + chunks[0], chunks[1..]);
      assert seen + chunks[0] + Flatten(chunks[1..]) == seen + Flatten(chunks);
    }
  }

  /** However a stream is cut into reads, a session ends as one pass over the stream does. */
  lemma ChunkingIrrelevant<H>(f: Format<H>, chunks: seq<seq<byte>>)
    requires f.headerSize > 0
    ensures FeedAll(f, Parsed([], true, []), chunks) == ParseAll(f, Flatten(chunks))
  {
    ChunksFrom(f, Parsed([], true, []), [], chunks);
    assert [] + Flatten(chunks) == Flatten(chunks);
  }

  /** The packets of complete frames, damaged ones left out. */
  function PacketsIn<H>(f: Format<H>, frames: seq<seq<byte>>): seq<Packet<H>> {
    if frames == [] then []
    else
      var scan := ScanFrame(f, frames[0]);
      (if scan.Frame? then Delivery(f, scan.packet) else []) + PacketsIn(f, frames[1..])
  }

  lemma HeadScan<H>(f: Format<H>, buf: seq<byte>)
    requires ScanFrame(f, buf).Frame?
    ensures ScanFrame(f, buf[..ScanFrame(f, buf).size]) == ScanFrame(f, buf)
  {
    var size := ScanFrame(f, buf).size;
    var head := buf[..size];
    assert head[..f.headerSize] == buf[..f.headerSize];
    assert head[f.headerSize..size] == buf[f.headerSize..size];
  }

  /** The frames a session passes over. */
  function Frames<H>(f: Format<H>, buf: seq<byte>): seq<seq<byte>>
    requires f.headerSize > 0
    decreases |buf|
  {
    var scan := ScanFrame(f, buf);
    if scan.Frame? then [buf[..scan.size]] + Frames(f, buf[scan.size..]) else []
  }

  /** Where it stops. */
  function Remainder<H>(f: Format<H>, buf: seq<byte>): (tail: seq<byte>)
    requires f.headerSize > 0
    ensures !ScanFrame(f, tail).Frame?
    decreases |buf|
  {
    var scan := ScanFrame(f, buf);
    if scan.Frame? then Remainder(f, buf[scan.size..]) else buf
  }

  lemma {:induction false} FramesCover<H>(f: Format<H>, buf: seq<byte>)
    requires f.headerSize > 0
    ensures buf == Flatten(Frames(f, buf)) + Remainder(f, buf)
    decreases |buf|
  {
    var scan := ScanFrame(f, buf);
    if scan.Frame? {
      var head, rest := buf[..scan.size], buf[scan.size..];
      FramesCover(f, rest);
      assert Frames(f, buf)[1..] == Frames(f, rest);
      assert head + (Flatten(Frames(f, rest)) + Remainder(f, rest)) == (head + Flatten(Frames(f, rest))) + Remainder(f, rest);
    }
  }

  lemma {:induction false} FramesComplete<H>(f: Format<H>, buf: seq<byte>, x: seq<byte>)
    requires f.headerSize > 0 && x in Frames(f, buf)
    ensures ScanFrame(f, x).Frame? && ScanFrame(f, x).size == |x|
    decreases |buf|
  {
    var scan := ScanFrame(f, buf);
    if x == buf[..scan.size] {
      HeadScan(f, buf);
    } else {
      FramesComplete(f, buf[scan.size..], x);
    }
  }

  lemma {:induction false} FramesDelivered<H>(f: Format<H>, buf: seq<byte>)
    requires f.headerSize > 0
    ensures ParseAll(f, buf).packets == PacketsIn(f, Frames(f, buf))
    ensures ParseAll(f, buf).open == ScanFrame(f, Remainder(f, buf)).Partial?
    ensures ParseAll(f, buf).open ==> ParseAll(f, buf).rest == Remainder(f, buf)
    decreases |buf|
  {
    var scan := ScanFrame(f, buf);
    if scan.Frame? {
      HeadScan(f, buf);
      FramesDelivered(f, buf[scan.size..]);
      assert Frames(f, buf)[1..] == Frames(f, buf[scan.size..]);
    }
  }

  /** Every stream is complete frames and a remainder: the frames' intact packets are delivered, and the
      remainder is kept if it is the start of a frame and closes the session if it is not. */
  lemma FrameDecomposition<H>(f: Format<H>, buf: seq<byte>)
    requires f.headerSize > 0
    ensures buf == Flatten(Frames(f, buf)) + Remainder(f, buf)
    ensures forall x | x in Frames(f, buf) :: ScanFrame(f, x).Frame? && ScanFrame(f, x).size == |x|
    ensures ParseAll(f, buf).packets == PacketsIn(f, Frames(f, buf))
    ensures if ScanFrame(f, Remainder(f, buf)).Partial?
            then ParseAll(f, buf).open && ParseAll(f, buf).rest == Remainder(f, buf)
            else !ParseAll(f, buf).open
  {
    FramesCover(f, buf);
    forall x | x in Frames(f, buf)
      ensures ScanFrame(f, x).Frame? && ScanFrame(f, x).size == |x|
    {
      FramesComplete(f, buf, x);
    }
    FramesDelivered(f, buf);
  }

  // ----- Round trips -----

  function Sealed<H>(f: Format<H>, pkt: Packet<H>): Packet<H> {
    pkt.(header := f.seal(pkt.header, pkt.payload))
  }

  function PacketBytes<H>(f: Format<H>, pkt: Packet<H>): seq<byte> {
    f.encode(f.seal(pkt.header, pkt.payload)) + pkt.payload
  }

  predicate WellFormed<H>(f: Format<H>, pkt: Packet<H>) {
    f.good(pkt.header) && f.length(pkt.header) == |pkt.payload|
  }

  function StreamOf<H>(f: Format<H>, pkts: seq<Packet<H>>): seq<byte> {
    if pkts == [] then [] else PacketBytes(f, pkts[0]) + StreamOf(f, pkts[1..])
  }

  function SealedAll<H>(f: Format<H>, pkts: seq<Packet<H>>): seq<Packet<H>> {
    if pkts == [] then [] else [Sealed(f, pkts[0])] + SealedAll(f, pkts[1..])
  }

  lemma ScanEncoded<H(!new)>(f: Format<H>, h: H, payload: seq<byte>, more: seq<byte>)
    requires Lawful(f)
    requires f.good(h) && f.length(h) == |payload|
    ensures ScanFrame(f, f.encode(h) + payload + more) == Frame(Packet(h, payload), f.headerSize + |payload|)
    ensures (f.encode(h) + payload + more)[f.headerSize + |payload|..] == more
  {
    var s := f.encode(h) + payload + more;
    assert s[..f.headerSize] == f.encode(h);
    assert s[f.headerSize..f.headerSize + |payload|] == payload;
  }

  /** A header the checks refuse closes the session, whatever follows it. */
  lemma BadHeaderCloses<H(!new)>(f: Format<H>, h: H, more: seq<byte>)
    requires Lawful(f) && !f.good(h)
    ensures ParseAll(f, f.encode(h) + more) == Parsed([], false, [])
    ensures ReadFrame(f, f.encode(h) + more) == Closed
  {
    assert (f.encode(h) + more)[..f.headerSize] == f.encode(h);
  }

  /** A concatenation of serialized packets, followed by anything, is parsed packet by packet. */
  lemma {:induction false} StreamRoundTrip<H(!new)>(f: Format<H>, pkts: seq<Packet<H>>)
    requires Lawful(f)
    requires forall p | p in pkts :: WellFormed(f, p)
    ensures ParseAll(f, StreamOf(f, pkts)) == Parsed(SealedAll(f, pkts), true, [])
  {
    if pkts != [] {
      var more := StreamOf(f, pkts[1..]);
      assert WellFormed(f, pkts[0]);
      ScanEncoded(f, Sealed(f, pkts[0]).header, pkts[0].payload, more);
      StreamRoundTrip(f, pkts[1..]);
    }
  }

  lemma {:induction false} DeliveredWellFormed<H(!new)>(f: Format<H>, buf: seq<byte>)
    requires f.headerSize > 0
    ensures forall p | p in ParseAll(f, buf).packets :: WellFormed(f, p) && Intact(f, p)
    decreases |buf|
  {
    if ScanFrame(f, buf).Frame? {
      DeliveredWellFormed(f, buf[ScanFrame(f, buf).size..]);
    }
  }

  /** A serialized packet comes back exactly when its header is one the parser accepts for its payload. */
  lemma RoundTripIff<H(!new)>(f: Format<H>, pkt: Packet<H>)
    requires Lawful(f)
    ensures ParseAll(f, PacketBytes(f, pkt)).packets == [Sealed(f, pkt)] <==> WellFormed(f, pkt)
  {
    if WellFormed(f, pkt) {
      StreamRoundTrip(f, [pkt]);
      assert StreamOf(f, [pkt]) == PacketBytes(f, pkt);
      assert SealedAll(f, [pkt]) == [Sealed(f, pkt)];
    } else {
      DeliveredWellFormed(f, PacketBytes(f, pkt));
      assert Sealed(f, pkt) in [Sealed(f, pkt)];
    }
  }

  // ----- The client's blocking reader -----

  datatype Read<H> = Closed | Got(packet: Packet<H>, rest: seq<byte>)

  function ReadFrame<H>(f: Format<H>, stream: seq<byte>): Read<H> {
    match ScanFrame(f, stream)
    case Frame(pkt, size) => if Intact(f, pkt) then Got(pkt, stream[size..]) else Closed
    case _ => Closed
  }

  /** memcpy into a buffer. */
  method CopyInto(buffer: array<byte>, at: nat, data: seq<byte>)
    requires at + |data| <= buffer.Length
    modifies buffer
    ensures buffer[..] == old(buffer[..at]) + data + old(buffer[at + |data|..])
  {
    forall i | 0 <= i < |data| {
      buffer[at + i] := data[i];
    }
  }

  lemma TakeOfThree<T>(a: seq<T>, b: seq<T>, c: seq<T>, all: seq<T>, n: nat)
    requires all == a + b + c && n == |a| + |b|
    ensures all[..n] == a + b
  {
  }

  /** A connected socket: the bytes still to arrive before the peer closes or fails. */
  class Socket {
    var incoming: seq<byte>

    constructor (bytes: seq<byte>)
      ensures incoming == bytes
    {
      incoming := bytes;
    }

    /** recv in a loop until `len` bytes arrived; `interrupts` bounds the EINTR retries. */
    method RecvAll(buf: array<byte>, len: nat, interrupts: nat) returns (ok: bool)
      requires len <= buf.Length
      modifies this, buf
      ensures ok <==> len <= |old(incoming)|
      ensures ok ==> buf[..len] == old(incoming)[..len] && incoming == old(incoming)[len..]
    {
      var received := 0;
      var retries := interrupts;
      while received < len
        invariant 0 <= received <= len
        invariant received <= |old(incoming)|
        invariant buf[..received] == old(incoming)[..received]
        invariant incoming == old(incoming)[received..]
        decreases len - received, retries
      {
        if retries > 0 {
          var interrupted: bool := *;
          if interrupted {
            retries := retries - 1;
            continue;
          }
        }
        if incoming == [] {
          return false;
        }
        var n :| 1 <= n <= len - received && n <= |incoming|;
        label Reading:
        ghost var before := buf[..received];
        CopyInto(buf, received, incoming[..n]);
        TakeOfThree(before, incoming[..n], old@Reading(buf[received + n..]), buf[..], received + n);
        incoming := incoming[n..];
        received := received + n;
      }
      return true;
    }

    /** Reads one packet; any failure ends the connection. */
    method ReadPacketFromFd<H>(f: Format<H>, interrupts: nat) returns (out: Read<H>)
      modifies this
      ensures out == ReadFrame(f, old(incoming))
      ensures out.Got? ==> incoming == out.rest
    {
      var headerBuf := new byte[f.headerSize];
      var ok := RecvAll(headerBuf, f.headerSize, interrupts);
      if !ok {
        return Closed;
      }
      var hdr := f.decode(headerBuf[..]);
      assert headerBuf[..] == headerBuf[..f.headerSize];
      if !f.good(hdr) {
        return Closed;
      }
      var payload := new byte[f.length(hdr)];
      if f.length(hdr) > 0 {
        ok := RecvAll(payload, f.length(hdr), interrupts);
        if !ok {
          return Closed;
        }
      }
      assert payload[..] == payload[..f.length(hdr)]
          == old(incoming)[f.headerSize..f.headerSize + f.length(hdr)];
      if !f.intact(hdr, payload[..]) {
        return Closed;
      }
      return Got(Packet(hdr, payload[..]), incoming);
    }
  }

  /** What the receive loop hands over before the connection ends. */
  function ReadAll<H>(f: Format<H>, stream: seq<byte>): seq<Packet<H>>
    requires f.headerSize > 0
    decreases |stream|
  {
    match ReadFrame(f, stream)
    case Closed => []
    case Got(pkt, rest) => [pkt] + ReadAll(f, rest)
  }

  /** Both readers deliver the same packets until the client stops. */
  lemma {:induction false} ReadersAgree<H>(f: Format<H>, stream: seq<byte>)
    requires f.headerSize > 0
    ensures ReadAll(f, stream) <= ParseAll(f, stream).packets
    decreases |stream|
  {
    if ReadFrame(f, stream).Got? {
      ReadersAgree(f, ReadFrame(f, stream).rest);
    }
  }

  /** The client reads a concatenation of serialized packets in full. */
  lemma {:induction false} ReadRoundTrip<H(!new)>(f: Format<H>, pkts: seq<Packet<H>>)
    requires Lawful(f)
    requires forall p | p in pkts :: WellFormed(f, p)
    ensures ReadAll(f, StreamOf(f, pkts)) == SealedAll(f, pkts)
  {
    if pkts != [] {
      var more := StreamOf(f, pkts[1..]);
      assert WellFormed(f, pkts[0]);
      ScanEncoded(f, Sealed(f, pkts[0]).header, pkts[0].payload, more);
      ReadRoundTrip(f, pkts[1..]);
    }
  }
}
