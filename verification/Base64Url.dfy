/**
 Base64 as in section 4 of RFC 4648, and the server's URL-safe variant of it (section 5 of RFC 4648
 without padding), made from the former by editing its text.
 */
module Base64Url {
  import opened Options

  type Octet = n: nat | n < 256

  type Sextet = n: nat | n < 64

  // ----- Section 4 of RFC 4648 -----

  function Symbol(v: Sextet): char {
    if v < 26 then 'A' + v as char
    else if v < 52 then 'a' + (v - 26) as char
    else if v < 62 then '0' + (v - 52) as char
    else if v == 62 then '+' else '/'
  }

  function SymbolValue(c: char): Option<Sextet> {
    if 'A' <= c <= 'Z' then Some((c - 'A') as Sextet)
    else if 'a' <= c <= 'z' then Some((c - 'a') as Sextet + 26)
    else if '0' <= c <= '9' then Some((c - '0') as Sextet + 52)
    else if c == '+' then Some(62)
    else if c == '/' then Some(63)
    else None
  }

  predicate PlainSymbol(c: char) {
    'A' <= c <= 'Z' || 'a' <= c <= 'z' || '0' <= c <= '9' || c == '+' || c == '/'
  }

  lemma SymbolRoundTrip(v: Sextet)
    ensures SymbolValue(Symbol(v)) == Some(v) && PlainSymbol(Symbol(v))
  {
  }

  /** Three octets make four symbols. */
  function Quad(x: Octet, y: Octet, z: Octet): (q: string)
    ensures |q| == 4 && forall c | c in q :: PlainSymbol(c)
  {
    [Symbol(x / 4), Symbol(x % 4 * 16 + y / 16), Symbol(y % 16 * 4 + z / 64), Symbol(z % 64)]
  }

  /** The symbols of the data, without padding; the last group may have missing octets. */
  function Symbols(data: seq<Octet>): string {
    if |data| == 0 then ""
    else if |data| == 1 then Quad(data[0], 0, 0)[..2]
    else if |data| == 2 then Quad(data[0], data[1], 0)[..3]
    else Quad(data[0], data[1], data[2]) + Symbols(data[3..])
  }

  function Padding(data: seq<Octet>): string {
    if |data| % 3 == 0 then "" else if |data| % 3 == 1 then "==" else "="
  }

  function Encode(data: seq<Octet>): string {
    Symbols(data) + Padding(data)
  }

  function Group(a: Sextet, b: Sextet, c: Sextet, d: Sextet): seq<Octet> {
    [a * 4 + b / 16, b % 16 * 16 + c / 4, c % 4 * 64 + d]
  }

  /** Four symbols; padding stands for zero bits, and drops an octet each. */
  function DecodeQuad(q: string): Option<seq<Octet>>
    requires |q| == 4
  {
    var a, b := SymbolValue(q[0]), SymbolValue(q[1]);
    var c := if q[2] == '=' && q[3] == '=' then Some(0) else SymbolValue(q[2]);
    var d := if q[3] == '=' then Some(0) else SymbolValue(q[3]);
    if a.None? || b.None? || c.None? || d.None? then None
    else
      var g := Group(a.value, b.value, c.value, d.value);
      Some(if q[2] == '=' then g[..1] else if q[3] == '=' then g[..2] else g)
  }

  /** The reference decoder; there is nothing to read in an empty text. */
  function Decode(s: string): Option<seq<Octet>> {
    if |s| < 4 then None
    else
      var first := DecodeQuad(s[..4]);
      if |s| == 4 || first.None? then first
      else
        var rest := Decode(s[4..]);
        if rest.None? || |first.value| != 3 then None else Some(first.value + rest.value)
  }

  lemma GroupRoundTrip(x: Octet, y: Octet, z: Octet)
    ensures Group(x / 4, x % 4 * 16 + y / 16, y % 16 * 4 + z / 64, z % 64) == [x, y, z]
  {
  }

  /** The sextets behind the symbols of a group. */
  lemma QuadValues(x: Octet, y: Octet, z: Octet)
    ensures var q := Quad(x, y, z);
      && SymbolValue(q[0]) == Some(x / 4) && SymbolValue(q[1]) == Some(x % 4 * 16 + y / 16)
      && SymbolValue(q[2]) == Some(y % 16 * 4 + z / 64) && SymbolValue(q[3]) == Some(z % 64)
  {
    SymbolRoundTrip(x / 4);
    SymbolRoundTrip(x % 4 * 16 + y / 16);
    SymbolRoundTrip(y % 16 * 4 + z / 64);
    SymbolRoundTrip(z % 64);
  }

  lemma FullQuad(q: string, a: Sextet, b: Sextet, c: Sextet, d: Sextet)
    requires |q| == 4 && q[2] != '=' && q[3] != '='
    requires SymbolValue(q[0]) == Some(a) && SymbolValue(q[1]) == Some(b)
    requires SymbolValue(q[2]) == Some(c) && SymbolValue(q[3]) == Some(d)
    ensures DecodeQuad(q) == Some(Group(a, b, c, d))
  {
  }

  lemma QuadRoundTrip(x: Octet, y: Octet, z: Octet)
    ensures DecodeQuad(Quad(x, y, z)) == Some([x, y, z])
  {
    var q := Quad(x, y, z);
    QuadValues(x, y, z);
    FullQuad(q, x / 4, x % 4 * 16 + y / 16, y % 16 * 4 + z / 64, z % 64);
    GroupRoundTrip(x, y, z);
  }

  lemma PaddedOnce(q: string, a: Sextet, b: Sextet, c: Sextet)
    requires |q| == 4 && q[2] != '=' && q[3] == '='
    requires SymbolValue(q[0]) == Some(a) && SymbolValue(q[1]) == Some(b) && SymbolValue(q[2]) == Some(c)
    ensures DecodeQuad(q) == Some(Group(a, b, c, 0)[..2])
  {
  }

  lemma QuadOfTwo(x: Octet, y: Octet)
    ensures DecodeQuad(Quad(x, y, 0)[..3] + "=") == Some([x, y])
  {
    QuadValues(x, y, 0);
    PaddedOnce(Quad(x, y, 0)[..3] + "=", x / 4, x % 4 * 16 + y / 16, y % 16 * 4);
    GroupRoundTrip(x, y, 0);
    assert [x, y, 0][..2] == [x, y];
  }

  lemma PaddedTwice(q: string, a: Sextet, b: Sextet)
    requires |q| == 4 && q[2] == '=' && q[3] == '='
    requires SymbolValue(q[0]) == Some(a) && SymbolValue(q[1]) == Some(b)
    ensures DecodeQuad(q) == Some(Group(a, b, 0, 0)[..1])
  {
  }

  lemma QuadOfOne(x: Octet)
    ensures DecodeQuad(Quad(x, 0, 0)[..2] + "==") == Some([x])
  {
    QuadValues(x, 0, 0);
    PaddedTwice(Quad(x, 0, 0)[..2] + "==", x / 4, x % 4 * 16);
    GroupRoundTrip(x, 0, 0);
    assert [x, 0, 0][..1] == [x];
  }

  /** Decoding undoes encoding, except that the empty text does not decode. */
  lemma {:induction false} DecodeEncode(data: seq<Octet>)
    requires data != []
    ensures Decode(Encode(data)) == Some(data)
    decreases |data|
  {
    if |data| <= 3 {
      DecodeShort(data);
    } else {
      DecodeEncode(data[3..]);
      DecodeLong(data);
    }
  }

  lemma DecodeShort(data: seq<Octet>)
    requires 1 <= |data| <= 3
    ensures Decode(Encode(data)) == Some(data)
  {
    EncodeShort(data);
    if |data| == 1 {
      QuadOfOne(data[0]);
    } else if |data| == 2 {
      QuadOfTwo(data[0], data[1]);
    } else {
      QuadRoundTrip(data[0], data[1], data[2]);
    }
  }

  lemma DecodeLong(data: seq<Octet>)
    requires |data| > 3 && Decode(Encode(data[3..])) == Some(data[3..])
    ensures Decode(Encode(data)) == Some(data)
  {
    EncodeLong(data);
    QuadRoundTrip(data[0], data[1], data[2]);
    EncodedLength(data[3..]);
    assert data == [data[0], data[1], data[2]] + data[3..];
  }

  lemma EncodeShort(data: seq<Octet>)
    requires 1 <= |data| <= 3
    ensures |data| == 1 ==> data == [data[0]] && Encode(data) == Quad(data[0], 0, 0)[..2] + "=="
    ensures |data| == 2 ==> data == [data[0], data[1]] && Encode(data) == Quad(data[0], data[1], 0)[..3] + "="
    ensures |data| == 3 ==> data == [data[0], data[1], data[2]] && Encode(data) == Quad(data[0], data[1], data[2])
    ensures |Encode(data)| == 4 && Encode(data)[..4] == Encode(data)
  {
    if |data| == 3 {
      assert Symbols(data[3..]) == "";
    }
  }

  lemma EncodeLong(data: seq<Octet>)
    requires |data| >= 3
    ensures Encode(data) == Quad(data[0], data[1], data[2]) + Encode(data[3..])
    ensures Encode(data)[..4] == Quad(data[0], data[1], data[2]) && Encode(data)[4..] == Encode(data[3..])
  {
    assert |data[3..]| % 3 == |data| % 3;
  }

  lemma EncodedLength(data: seq<Octet>)
    requires data != []
    ensures |Encode(data)| >= 4
  {
    if |data| >= 3 {
      EncodeLong(data);
    }
  }

  // ----- The URL-safe variant -----

  function Replace(s: string, from: char, to: char): (r: string)
    ensures |r| == |s|
  {
    if s == "" then "" else [if s[0] == from then to else s[0]] + Replace(s[1..], from, to)
  }

  function Remove(s: string, c: char): string {
    if s == "" then "" else (if s[0] == c then "" else [s[0]]) + Remove(s[1..], c)
  }

  function Pad(s: string): string {
    if |s| % 4 == 0 then s else if |s| % 4 == 1 then s + "===" else if |s| % 4 == 2 then s + "==" else s + "="
  }

  function UrlEncode(data: seq<Octet>): string {
    Remove(Replace(Replace(Encode(data), '+', '-'), '/', '_'), '=')
  }

  /** What the decoder is given. */
  function Standard(encoded: string): string {
    Pad(Replace(Replace(encoded, '-', '+'), '_', '/'))
  }

  predicate UrlSymbol(c: char) {
    'A' <= c <= 'Z' || 'a' <= c <= 'z' || '0' <= c <= '9' || c == '-' || c == '_'
  }

  lemma {:induction false} PlainConcat(s: string, t: string)
    requires AllPlain(s) && AllPlain(t)
    ensures AllPlain(s + t)
    decreases |s|
  {
    if s == "" {
      assert s + t == t;
    } else {
      assert (s + t)[1..] == s[1..] + t;
      PlainConcat(s[1..], t);
    }
  }

  lemma QuadPlain(x: Octet, y: Octet, z: Octet)
    ensures AllPlain(Quad(x, y, z)) && AllPlain(Quad(x, y, z)[..3]) && AllPlain(Quad(x, y, z)[..2])
  {
    var q := Quad(x, y, z);
    AllPlainFour(q[0], q[1], q[2], q[3]);
    assert q == [q[0], q[1], q[2], q[3]] && q[..3] == [q[0], q[1], q[2]] && q[..2] == [q[0], q[1]];
    assert q[0] in q && q[1] in q && q[2] in q && q[3] in q;
  }

  lemma AllPlainFour(a: char, b: char, c: char, d: char)
    ensures PlainSymbol(a) && PlainSymbol(b) ==> AllPlain([a, b])
    ensures PlainSymbol(a) && PlainSymbol(b) && PlainSymbol(c) ==> AllPlain([a, b, c])
    ensures PlainSymbol(a) && PlainSymbol(b) && PlainSymbol(c) && PlainSymbol(d) ==> AllPlain([a, b, c, d])
  {
    assert [a, b, c, d][1..] == [b, c, d] && [b, c, d][1..] == [c, d] && [c, d][1..] == [d] && [d][1..] == [];
    assert [a, b, c][1..] == [b, c] && [b, c][1..] == [c] && [c][1..] == [] && [a, b][1..] == [b] && [b][1..] == [];
    assert PlainSymbol(d) ==> AllPlain([d]);
    assert PlainSymbol(c) ==> AllPlain([c]) && (PlainSymbol(d) ==> AllPlain([c, d]));
    assert PlainSymbol(b) && PlainSymbol(c) ==> AllPlain([b, c]) && (PlainSymbol(d) ==> AllPlain([b, c, d]));
  }

  lemma {:induction false} SymbolsPlain(data: seq<Octet>)
    ensures AllPlain(Symbols(data))
    decreases |data|
  {
    if |data| >= 3 {
      QuadPlain(data[0], data[1], data[2]);
      SymbolsPlain(data[3..]);
      PlainConcat(Quad(data[0], data[1], data[2]), Symbols(data[3..]));
    } else if |data| == 2 {
      QuadPlain(data[0], data[1], 0);
    } else if |data| == 1 {
      QuadPlain(data[0], 0, 0);
    }
  }

  lemma {:induction false} RemoveConcat(s: string, t: string, c: char)
    ensures Remove(s + t, c) == Remove(s, c) + Remove(t, c)
    decreases |s|
  {
    if s == "" {
      assert s + t == t;
    } else {
      assert (s + t)[1..] == s[1..] + t;
      RemoveConcat(s[1..], t, c);
    }
  }

  lemma {:induction false} RemoveNothing(s: string, c: char)
    requires c !in s
    ensures Remove(s, c) == s
    decreases |s|
  {
    if s != "" {
      RemoveNothing(s[1..], c);
    }
  }

  lemma {:induction false} ReplaceConcat(s: string, t: string, from: char, to: char)
    ensures Replace(s + t, from, to) == Replace(s, from, to) + Replace(t, from, to)
    decreases |s|
  {
    if s == "" {
      assert s + t == t;
    } else {
      assert (s + t)[1..] == s[1..] + t;
      ReplaceConcat(s[1..], t, from, to);
    }
  }

  function Swap(s: string): string {
    Replace(Replace(s, '+', '-'), '/', '_')
  }

  lemma SwapConcat(s: string, t: string)
    ensures Swap(s + t) == Swap(s) + Swap(t)
  {
    ReplaceConcat(s, t, '+', '-');
    ReplaceConcat(Replace(s, '+', '-'), Replace(t, '+', '-'), '/', '_');
  }

  predicate AllPlain(s: string) {
    s == "" || (PlainSymbol(s[0]) && AllPlain(s[1..]))
  }

  predicate AllUrl(s: string) {
    s == "" || (UrlSymbol(s[0]) && AllUrl(s[1..]))
  }

  /** Plain symbols become URL-safe ones, and back. */
  lemma {:induction false} SwapPlain(s: string)
    requires AllPlain(s)
    ensures AllUrl(Swap(s))
    ensures Replace(Replace(Swap(s), '-', '+'), '_', '/') == s
    decreases |s|
  {
    if s != "" {
      var head, rest := [s[0]], s[1..];
      assert s == head + rest;
      SwapConcat(head, rest);
      SwapPlain(rest);
      assert Swap(s) == Swap(head) + Swap(rest) && |Swap(head)| == 1;
      assert Swap(s)[1..] == Swap(rest);
      ReplaceConcat(Swap(head), Swap(rest), '-', '+');
      ReplaceConcat(Replace(Swap(head), '-', '+'), Replace(Swap(rest), '-', '+'), '_', '/');
    }
  }

  lemma {:induction false} UrlHasNone(s: string, c: char)
    requires AllUrl(s) && !UrlSymbol(c)
    ensures c !in s
    decreases |s|
  {
    if s != "" {
      UrlHasNone(s[1..], c);
    }
  }

  lemma PaddingGoes(data: seq<Octet>)
    ensures Swap(Padding(data)) == Padding(data) && Remove(Padding(data), '=') == ""
  {
    assert "=="[1..] == "=" && "="[1..] == "";
  }

  /** The padding goes, and only the padding. */
  lemma UrlEncodeIsSwap(data: seq<Octet>)
    ensures UrlEncode(data) == Swap(Symbols(data)) && AllUrl(UrlEncode(data))
  {
    var body, pad := Symbols(data), Padding(data);
    SymbolsPlain(data);
    SwapPlain(body);
    SwapConcat(body, pad);
    PaddingGoes(data);
    RemoveConcat(Swap(body), pad, '=');
    UrlHasNone(Swap(body), '=');
    RemoveNothing(Swap(body), '=');
  }

  /** How many symbols are left over tells how many octets were. */
  function LeftOver(n: nat): nat {
    if n % 3 == 0 then 0 else n % 3 + 1
  }

  lemma LeftOverStep(n: nat, m: nat)
    requires n >= 3 && m % 4 == LeftOver(n - 3)
    ensures (4 + m) % 4 == LeftOver(n)
  {
    assert n % 3 == (n - 3) % 3;
  }

  lemma {:induction false} SymbolCount(data: seq<Octet>)
    ensures |Symbols(data)| % 4 == LeftOver(|data|)
    decreases |data|
  {
    if |data| >= 3 {
      SymbolCount(data[3..]);
      LeftOverStep(|data|, |Symbols(data[3..])|);
    }
  }

  lemma PadIsPadding(data: seq<Octet>)
    ensures Pad(Symbols(data)) == Encode(data)
  {
    SymbolCount(data);
  }

  /** The decoder is given back exactly the standard text. */
  lemma StandardUndoes(data: seq<Octet>)
    ensures Standard(UrlEncode(data)) == Encode(data)
  {
    UrlEncodeIsSwap(data);
    SymbolsPlain(data);
    SwapPlain(Symbols(data));
    PadIsPadding(data);
  }

  /** The variant decodes to what was encoded, and its text has no dot, no padding and no reserved character. */
  lemma UrlRoundTrip(data: seq<Octet>)
    requires data != []
    ensures Decode(Standard(UrlEncode(data))) == Some(data)
    ensures '.' !in UrlEncode(data) && '=' !in UrlEncode(data) && '+' !in UrlEncode(data) && '/' !in UrlEncode(data)
  {
    StandardUndoes(data);
    DecodeEncode(data);
    UrlEncodeIsSwap(data);
    var text := UrlEncode(data);
    UrlHasNone(text, '.');
    UrlHasNone(text, '=');
    UrlHasNone(text, '+');
    UrlHasNone(text, '/');
  }

  // ----- The loops -----

  lemma {:induction false} ReplaceAt(s: string, from: char, to: char, i: nat)
    requires i < |s|
    ensures Replace(s, from, to)[i] == if s[i] == from then to else s[i]
    decreases |s|
  {
    if i > 0 {
      ReplaceAt(s[1..], from, to, i - 1);
    }
  }

  /** std::replace. */
  method ReplaceAll(s: string, from: char, to: char) returns (r: string)
    ensures r == Replace(s, from, to)
  {
    r := s;
    for i := 0 to |s|
      invariant |r| == |s|
      invariant forall k | 0 <= k < i :: r[k] == if s[k] == from then to else s[k]
      invariant forall k | i <= k < |s| :: r[k] == s[k]
    {
      if r[i] == from {
        r := r[i := to];
      }
    }
    forall k | 0 <= k < |s|
      ensures r[k] == Replace(s, from, to)[k]
    {
      ReplaceAt(s, from, to, k);
    }
  }

  /** erase after std::remove. */
  method RemoveAll(s: string, c: char) returns (r: string)
    ensures r == Remove(s, c)
  {
    r := "";
    assert s[0..] == s;
    for i := 0 to |s|
      invariant r + Remove(s[i..], c) == Remove(s, c)
    {
      assert s[i..][1..] == s[i + 1..];
      if s[i] != c {
        r := r + [s[i]];
      }
    }
  }

  method Base64UrlEncode(data: seq<Octet>) returns (encoded: string)
    ensures encoded == UrlEncode(data)
  {
    encoded := Encode(data);
    encoded := ReplaceAll(encoded, '+', '-');
    encoded := ReplaceAll(encoded, '/', '_');
    encoded := RemoveAll(encoded, '=');
  }

  /** The library then decodes the result. */
  method Base64UrlRestore(encoded: string) returns (b64: string)
    ensures b64 == Standard(encoded)
  {
    b64 := ReplaceAll(encoded, '-', '+');
    b64 := ReplaceAll(b64, '_', '/');
    ghost var plain := b64;
    while |b64| % 4 != 0
      invariant |plain| <= |b64| && Pad(b64) == Pad(plain)
      decreases (4 - |b64| % 4) % 4
    {
      PadOnce(b64);
      b64 := b64 + "=";
    }
  }

  lemma PadOnce(s: string)
    requires |s| % 4 != 0
    ensures Pad(s + "=") == Pad(s)
  {
  }
}
