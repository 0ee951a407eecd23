/**
 The chat protocol's packets: a packed 17-byte little-endian header with a CRC-32
 of the payload, as an instance of the frame theory.
 */
module Framing {
  import opened Bytes
  import opened FrameStream
  import Crc32
  import Folds

  const HEADER_SIZE: nat := 17

  const MAX_PAYLOAD_LEN: nat := 1048576

  const MAGIC_BYTE_0: byte := 0xAB

  const MAGIC_BYTE_1: byte := 0x53

  const PROTOCOL_VERSION: byte := 1

  datatype Header = Header(
    magic0: byte,
    magic1: byte,
    version: byte,
    msgType: byte,
    flags: byte,
    sequenceNum: u32,
    payloadLength: u32,
    checksum: bv32)

  type WirePacket = Packet<Header>

  /** A packet as the source's two-argument constructor builds it. */
  function NewPacket(msgType: byte, data: seq<byte>): WirePacket {
    Packet(Header(MAGIC_BYTE_0, MAGIC_BYTE_1, PROTOCOL_VERSION, msgType, 0, 0, Truncate(|data|), 0), data)
  }

  // ----- The packed header, little-endian host -----

  function EncodeHeader(h: Header): (s: seq<byte>)
    ensures |s| == HEADER_SIZE
  {
    [h.magic0, h.magic1, h.version, h.msgType, h.flags]
    + LittleEndian(h.sequenceNum) + LittleEndian(h.payloadLength) + Word(h.checksum)
  }

  /** Reads the packed header; only ever applied to 17 bytes. */
  function DecodeHeader(s: seq<byte>): Header {
    if |s| != HEADER_SIZE then Header(0, 0, 0, 0, 0, 0, 0, 0)
    else Header(s[0], s[1], s[2], s[3], s[4],
                FromLittleEndian(s[5..9]), FromLittleEndian(s[9..13]), FromWord(s[13..17]))
  }

  /** Where the fields lie in the packed header. */
  lemma HeaderFields(h: Header)
    ensures var s := EncodeHeader(h);
      && s[..5] == [h.magic0, h.magic1, h.version, h.msgType, h.flags]
      && s[5..9] == LittleEndian(h.sequenceNum) && s[9..13] == LittleEndian(h.payloadLength)
      && s[13..17] == Word(h.checksum)
  {
    var fixed := [h.magic0, h.magic1, h.version, h.msgType, h.flags];
    var (a, b, c) := (LittleEndian(h.sequenceNum), LittleEndian(h.payloadLength), Word(h.checksum));
    Fields(fixed, a, b, c);
  }

  lemma Fields(fixed: seq<byte>, a: seq<byte>, b: seq<byte>, c: seq<byte>)
    requires |fixed| == 5 && |a| == |b| == |c| == 4
    ensures var s := fixed + a + b + c;
      |s| == 17 && s[..5] == fixed && s[5..9] == a && s[9..13] == b && s[13..17] == c
  {
  }

  lemma HeaderRoundTrip(h: Header)
    ensures DecodeHeader(EncodeHeader(h)) == h
  {
    HeaderFields(h);
    LittleEndianRoundTrip(h.sequenceNum);
    LittleEndianRoundTrip(h.payloadLength);
    WordRoundTrip(h.checksum);
    var (s, fixed) := (EncodeHeader(h), [h.magic0, h.magic1, h.version, h.msgType, h.flags]);
    assert s[0] == fixed[0] && s[1] == fixed[1] && s[2] == fixed[2] && s[3] == fixed[3] && s[4] == fixed[4];
  }

  /** Magic bytes, version and length limit, as both readers check them. */
  predicate GoodHeader(h: Header) {
    && h.magic0 == MAGIC_BYTE_0
    && h.magic1 == MAGIC_BYTE_1
    && h.version == PROTOCOL_VERSION
    && h.payloadLength <= MAX_PAYLOAD_LEN
  }

  function Seal(h: Header, payload: seq<byte>): Header {
    h.(checksum := Crc32.Crc(payload))
  }

  const Wire: Format<Header> := Format(
    HEADER_SIZE,
    EncodeHeader,
    DecodeHeader,
    GoodHeader,
    (h: Header) => h.payloadLength,
    Seal,
    (h: Header, payload: seq<byte>) => h.checksum == Crc32.Crc(payload))

  lemma WireLawful()
    ensures Lawful(Wire)
  {
    forall h: Header
      ensures |Wire.encode(h)| == Wire.headerSize && Wire.decode(Wire.encode(h)) == h
    {
      HeaderRoundTrip(h);
    }
  }

  lemma SealedHeader(h: Header, payload: seq<byte>)
    ensures EncodeHeader(Seal(h, payload)) == EncodeHeader(h)[..HEADER_SIZE - 4] + Word(Crc32.Crc(payload))
  {
  }

  /** The serializer fills one buffer: header, checksum over its last four bytes, payload. */
  method PacketToBytes(pkt: WirePacket) returns (result: array<byte>)
    ensures fresh(result)
    ensures result[..] == PacketBytes(Wire, pkt)
  {
    var checksum := Crc32.ComputeCrc32(pkt.payload);
    var head, word := EncodeHeader(pkt.header), Word(checksum);
    result := new byte[HEADER_SIZE + |pkt.payload|];
    CopyInto(result, 0, head);
    assert result[..HEADER_SIZE - 4] == head[..HEADER_SIZE - 4];
    CopyInto(result, HEADER_SIZE - 4, word);
    assert result[..HEADER_SIZE] == head[..HEADER_SIZE - 4] + word;
    CopyInto(result, HEADER_SIZE, pkt.payload);
    SealedHeader(pkt.header, pkt.payload);
  }

  /** Serialized packets, cut into reads anywhere, reach the server as exactly those packets. */
  lemma ServerReceivesSent(pkts: seq<WirePacket>, chunks: seq<seq<byte>>)
    requires forall p | p in pkts :: WellFormed(Wire, p)
    requires Folds.Flatten(chunks) == StreamOf(Wire, pkts)
    ensures FeedAll(Wire, Parsed([], true, []), chunks) == Parsed(SealedAll(Wire, pkts), true, [])
  {
    WireLawful();
    ChunkingIrrelevant(Wire, chunks);
    StreamRoundTrip(Wire, pkts);
  }

  /** Serialized packets reach the client's receive loop as exactly those packets. */
  lemma ClientReceivesSent(pkts: seq<WirePacket>)
    requires forall p | p in pkts :: WellFormed(Wire, p)
    ensures ReadAll(Wire, StreamOf(Wire, pkts)) == SealedAll(Wire, pkts)
  {
    WireLawful();
    ReadRoundTrip(Wire, pkts);
  }

  /**
   A frame whose payload is damaged inside 32 consecutive bits is never delivered:
   the session skips it and stays in step with the frames after it, the client closes.
   */
  lemma DamagedFrame(pkt: WirePacket, damaged: seq<byte>, pre: seq<bool>, u: seq<bool>, v: seq<bool>, post: seq<bool>, more: seq<byte>)
    requires WellFormed(Wire, pkt)
    requires |damaged| == |pkt.payload| && damaged != pkt.payload
    requires |u| == |v| <= 32
    requires Crc32.Bits(pkt.payload) == pre + u + post
    requires Crc32.Bits(damaged) == pre + v + post
    ensures ParseAll(Wire, EncodeHeader(Seal(pkt.header, pkt.payload)) + damaged + more) == ParseAll(Wire, more)
    ensures ReadFrame(Wire, EncodeHeader(Seal(pkt.header, pkt.payload)) + damaged + more) == Closed
  {
    WireLawful();
    Crc32.BurstChangesCrc(pkt.payload, damaged, pre, u, v, post);
    ScanEncoded(Wire, Seal(pkt.header, pkt.payload), damaged, more);
    assert [] + ParseAll(Wire, more).packets == ParseAll(Wire, more).packets;
  }

  /** The same for damage confined to four consecutive payload bytes. */
  lemma DamagedBytes(pkt: WirePacket, pre: seq<byte>, u: seq<byte>, v: seq<byte>, post: seq<byte>, more: seq<byte>)
    requires WellFormed(Wire, pkt)
    requires pkt.payload == pre + u + post
    requires |u| == |v| <= 4 && u != v
    ensures ParseAll(Wire, EncodeHeader(Seal(pkt.header, pkt.payload)) + (pre + v + post) + more) == ParseAll(Wire, more)
    ensures ReadFrame(Wire, EncodeHeader(Seal(pkt.header, pkt.payload)) + (pre + v + post) + more) == Closed
  {
    WireLawful();
    Crc32.ByteBurstChangesCrc(pre, u, v, post);
    ScanEncoded(Wire, Seal(pkt.header, pkt.payload), pre + v + post, more);
    assert [] + ParseAll(Wire, more).packets == ParseAll(Wire, more).packets;
  }
}
