/**
 The primitives the handshake rests on, as abstract operations with their laws,
 and the byte layouts of the two handshake payloads.
 */
module Crypto {
  import opened Bytes
  import opened Options

  type Key = k: seq<byte> | |k| == 32 witness seq(32, _ => 0)

  type Nonce = n: seq<byte> | |n| == 16 witness seq(16, _ => 0)

  const AEAD_OVERHEAD: nat := 32

  /** AES-256-GCM: initialization vector, ciphertext and tag in one string. */
  datatype Aead = Aead(
    seal: (Key, Nonce, seq<byte>) -> seq<byte>,
    unseal: (Key, seq<byte>) -> Option<seq<byte>>)

  ghost predicate AeadLaw(a: Aead) {
    forall k, iv, m :: |a.seal(k, iv, m)| == |m| + AEAD_OVERHEAD && a.unseal(k, a.seal(k, iv, m)) == Some(m)
  }

  const RSA_BLOCK: nat := 256

  /** The server's RSA key pair; `encrypt` is what a client does with a PEM text it was sent. */
  datatype Rsa = Rsa(
    pem: seq<byte>,
    encrypt: (seq<byte>, nat, seq<byte>) -> Option<seq<byte>>,
    decrypt: seq<byte> -> Option<seq<byte>>)

  ghost predicate RsaLaw(r: Rsa) {
    && |r.pem| < U32_LIMIT - 20
    && forall coins, m: seq<byte> | |m| == 48 ::
         var c := r.encrypt(r.pem, coins, m);
         c.Some? && |c.value| == RSA_BLOCK && r.decrypt(c.value) == Some(m)
  }

  /** A length-prefixed field. The source computes its bound in 32-bit arithmetic, which can wrap. */
  datatype Field<+T> = Rejected | OutOfBounds | Field(value: T)

  function U32Add(a: nat, b: nat): u32 {
    Truncate(a + b)
  }

  lemma U32AddWraps(a: nat, b: nat)
    requires a + b < 2 * U32_LIMIT
    ensures U32Add(a, b) == if a + b < U32_LIMIT then a + b else a + b - U32_LIMIT
  {
  }

  /** A four-byte length and what follows it. */
  lemma LengthFirst(n: u32, data: seq<byte>)
    ensures var payload := BigEndian(n) + data;
      |payload| == 4 + |data| && payload[..4] == BigEndian(n) && payload[4..] == data && FromBigEndian(payload[..4]) == n
  {
    BigEndianRoundTrip(n);
    assert (BigEndian(n) + data)[..4] == BigEndian(n);
  }

  // ----- KEY_OFFER: length, PEM, server nonce -----

  datatype Offer = Offer(pem: seq<byte>, nonce: Nonce)

  function EncodeOffer(pem: seq<byte>, nonce: Nonce): seq<byte>
    requires |pem| < U32_LIMIT
  {
    BigEndian(|pem|) + pem + nonce
  }

  /** The offer in a payload whose length field says n. */
  function ReadOffer(payload: seq<byte>, n: nat): Field<Offer>
    requires |payload| >= 20
  {
    if |payload| < U32Add(U32Add(4, n), 16) then Rejected
    else if |payload| < 4 + n + 16 then OutOfBounds
    else Field(Offer(payload[4..4 + n], payload[4 + n..4 + n + 16]))
  }

  function DecodeOffer(payload: seq<byte>): Field<Offer> {
    if |payload| < 20 then Rejected else ReadOffer(payload, FromBigEndian(payload[..4]))
  }

  lemma OfferReads(payload: seq<byte>, n: nat, pem: seq<byte>, nonce: Nonce)
    requires |payload| == 4 + n + 16 < U32_LIMIT && |pem| == n && payload[4..] == pem + nonce
    ensures ReadOffer(payload, n) == Field(Offer(pem, nonce))
  {
    U32AddWraps(4, n);
    U32AddWraps(4 + n, 16);
    assert payload[4..4 + n] == payload[4..][..n] == pem;
    assert payload[4 + n..4 + n + 16] == payload[4..][n..] == nonce;
  }

  lemma OfferRoundTrip(pem: seq<byte>, nonce: Nonce)
    requires |pem| < U32_LIMIT - 20
    ensures DecodeOffer(EncodeOffer(pem, nonce)) == Field(Offer(pem, nonce))
  {
    LengthFirst(|pem|, pem + nonce);
    assert EncodeOffer(pem, nonce) == BigEndian(|pem|) + (pem + nonce);
    OfferReads(EncodeOffer(pem, nonce), |pem|, pem, nonce);
  }

  // ----- KEY_ACCEPT: length, RSA block -----

  function EncodeAccept(blob: seq<byte>): seq<byte> {
    BigEndian(Truncate(|blob|)) + blob
  }

  /** The block in a payload whose length field says n. */
  function ReadAccept(payload: seq<byte>, n: nat): Field<seq<byte>>
    requires |payload| >= 4
  {
    if |payload| < U32Add(4, n) then Rejected
    else if |payload| < 4 + n then OutOfBounds
    else Field(payload[4..4 + n])
  }

  function DecodeAccept(payload: seq<byte>): Field<seq<byte>> {
    if |payload| < 4 then Rejected else ReadAccept(payload, FromBigEndian(payload[..4]))
  }

  lemma AcceptReads(payload: seq<byte>, n: nat, blob: seq<byte>)
    requires |payload| == 4 + n < U32_LIMIT && payload[4..] == blob
    ensures ReadAccept(payload, n) == Field(blob)
  {
    U32AddWraps(4, n);
    assert payload[4..4 + n] == payload[4..];
  }

  lemma AcceptRoundTrip(blob: seq<byte>)
    requires |blob| < U32_LIMIT - 4
    ensures DecodeAccept(EncodeAccept(blob)) == Field(blob)
  {
    var n := Truncate(|blob|);
    assert n == |blob|;
    LengthFirst(n, blob);
    AcceptReads(EncodeAccept(blob), n, blob);
  }

  /** The 32-bit length check admits a field longer than the payload exactly when it wraps. */
  lemma AcceptLengthCheckExact(payload: seq<byte>)
    requires |payload| < U32_LIMIT
    ensures DecodeAccept(payload).OutOfBounds? <==> |payload| >= 4 && FromBigEndian(payload[..4]) >= U32_LIMIT - 4
  {
    if |payload| >= 4 {
      U32AddWraps(4, FromBigEndian(payload[..4]));
    }
  }

  lemma OfferLengthCheckExact(payload: seq<byte>)
    requires |payload| < U32_LIMIT
    ensures DecodeOffer(payload).OutOfBounds? <==> |payload| >= 20 && FromBigEndian(payload[..4]) >= U32_LIMIT - 20
  {
    if |payload| >= 20 {
      var n := FromBigEndian(payload[..4]);
      U32AddWraps(4, n);
      U32AddWraps(U32Add(4, n), 16);
    }
  }

  lemma SomeValues()
    ensures Val(0xFF) == 255 && Val(0xFC) == 252 && Val(0xEC) == 236
  {
  }

  lemma FourBytes(payload: seq<byte>, a: nat, b: nat, c: nat, d: nat)
    requires |payload| >= 4
    requires Val(payload[0]) == a && Val(payload[1]) == b && Val(payload[2]) == c && Val(payload[3]) == d
    ensures FromBigEndian(payload[..4]) == 0x100_0000 * a + 0x1_0000 * b + 0x100 * c + d
  {
    var s := payload[..4];
    assert s[0] == payload[0] && s[1] == payload[1] && s[2] == payload[2] && s[3] == payload[3];
  }

  /** Length fields that wrap: four bytes of a KEY_ACCEPT, twenty of a KEY_OFFER. */
  lemma LengthsThatWrap()
    ensures DecodeAccept([0xFF, 0xFF, 0xFF, 0xFC]) == OutOfBounds
    ensures DecodeOffer([0xFF, 0xFF, 0xFF, 0xEC, 0, 0, 0, 0, 0, 0, 0, 0, 0, 0, 0, 0, 0, 0, 0, 0]) == OutOfBounds
  {
    SomeValues();
    var accept: seq<byte> := [0xFF, 0xFF, 0xFF, 0xFC];
    FourBytes(accept, 255, 255, 255, 252);
    AcceptLengthCheckExact(accept);
    var offer: seq<byte> := [0xFF, 0xFF, 0xFF, 0xEC, 0, 0, 0, 0, 0, 0, 0, 0, 0, 0, 0, 0, 0, 0, 0, 0];
    FourBytes(offer, 255, 255, 255, 236);
    OfferLengthCheckExact(offer);
  }
}
