/** Session tokens: three base64url parts joined by dots, signed, expiring and revocable. */
module SessionToken {
  import opened Base64Url
  import opened Options

  const SESSION_LIFETIME_SEC := 3600

  datatype Role = Guest | User | Admin | Owner

  function RoleToString(r: Role): string {
    match r
    case Owner => "OWNER"
    case Admin => "ADMIN"
    case User => "USER"
    case Guest => "GUEST"
  }

  function StringToRole(s: string): Role {
    if s == "OWNER" then Owner else if s == "ADMIN" then Admin else if s == "USER" then User else Guest
  }

  lemma RoleRoundTrip(r: Role)
    ensures StringToRole(RoleToString(r)) == r
  {
  }

  datatype Payload = Payload(sub: string, iat: int, exp: int, jti: string, role: string)

  /** The fields a JSON text has, each if it is there and of the right type. */
  datatype Document = Document(
    sub: Option<string>, role: Option<string>, iat: Option<int>, exp: Option<int>, jti: Option<string>)

  function Full(p: Payload): Document {
    Document(Some(p.sub), Some(p.role), Some(p.iat), Some(p.exp), Some(p.jti))
  }

  predicate Complete(doc: Document) {
    doc.sub.Some? && doc.role.Some? && doc.iat.Some? && doc.exp.Some? && doc.jti.Some?
  }

  /** What the libraries do: sign with the secret key, write and read JSON, and decode base64. */
  datatype Library = Library(
    header: seq<Octet>,
    mac: string -> seq<Octet>,
    dump: Payload -> seq<Octet>,
    parse: seq<Octet> -> Option<Document>,
    decode: string -> Option<seq<Octet>>)

  /** Reading undoes writing, and signatures and documents are not empty. */
  ghost predicate Lawful(lib: Library) {
    && lib.header != []
    && (forall s :: lib.mac(s) != [])
    && (forall p :: lib.dump(p) != [] && lib.parse(lib.dump(p)) == Some(Full(p)))
    && (forall data: seq<Octet> | data != [] :: lib.decode(Encode(data)) == Some(data))
  }

  datatype Claims = Claims(sub: string, role: Role, iat: int, exp: int, jti: string, valid: bool, expired: bool)

  const NO_CLAIMS := Claims("", Guest, 0, 0, "", false, false)

  // ----- The three parts -----

  /** find('.', from), with the length for npos. */
  function FindDot(s: string, from: nat): (i: nat)
    requires from <= |s|
    ensures from <= i <= |s| && '.' !in s[from..i] && (i < |s| ==> s[i] == '.')
    decreases |s| - from
  {
    if from == |s| || s[from] == '.' then from
    else
      var i := FindDot(s, from + 1);
      assert s[from..i] == [s[from]] + s[from + 1..i];
      i
  }

  datatype Parts = Parts(header: string, payload: string, signature: string)

  /** At the first two dots. */
  function Split(token: string): Option<Parts> {
    var dot1 := FindDot(token, 0);
    if dot1 == |token| then None
    else
      var dot2 := FindDot(token, dot1 + 1);
      if dot2 == |token| then None
      else Some(Parts(token[..dot1], token[dot1 + 1..dot2], token[dot2 + 1..]))
  }

  function SigningInput(p: Parts): string {
    p.header + "." + p.payload
  }

  function Join(p: Parts): string {
    SigningInput(p) + "." + p.signature
  }

  lemma DotAt(s: string, from: nat, i: nat)
    requires from <= i < |s| && '.' !in s[from..i] && s[i] == '.'
    ensures FindDot(s, from) == i
  {
  }

  /** Splitting finds the parts again, as the first two have no dot in them. */
  lemma SplitJoin(p: Parts)
    requires '.' !in p.header && '.' !in p.payload
    ensures Split(Join(p)) == Some(p)
  {
    var token, d1 := Join(p), |p.header|;
    var d2 := d1 + 1 + |p.payload|;
    assert token[0..d1] == p.header && token[d1] == '.';
    DotAt(token, 0, d1);
    assert token[d1 + 1..d2] == p.payload && token[d2] == '.';
    DotAt(token, d1 + 1, d2);
    assert token[..d1] == p.header && token[d2 + 1..] == p.signature;
  }

  // ----- Tokens -----

  function Generate(lib: Library, nick: string, role: Role, now: int, jti: string): string {
    var payload := Payload(nick, now, now + SESSION_LIFETIME_SEC, jti, RoleToString(role));
    var p := Parts(UrlEncode(lib.header), UrlEncode(lib.dump(payload)), "");
    Join(p.(signature := UrlEncode(lib.mac(SigningInput(p)))))
  }

  function UrlDecode(lib: Library, s: string): Option<seq<Octet>> {
    lib.decode(Standard(s))
  }

  function ReadPayload(lib: Library, s: string): Option<Document> {
    var bytes := UrlDecode(lib, s);
    if bytes.None? then None else lib.parse(bytes.value)
  }

  /** The claims are filled in one after another up to the first field that is missing. */
  function Claimed(doc: Document): Claims {
    if doc.sub.None? then NO_CLAIMS
    else if doc.role.None? then NO_CLAIMS.(sub := doc.sub.value)
    else
      var some := NO_CLAIMS.(sub := doc.sub.value, role := StringToRole(doc.role.value));
      if doc.iat.None? then some
      else if doc.exp.None? then some.(iat := doc.iat.value)
      else if doc.jti.None? then some.(iat := doc.iat.value, exp := doc.exp.value)
      else some.(iat := doc.iat.value, exp := doc.exp.value, jti := doc.jti.value)
  }

  function Judge(blacklist: set<string>, doc: Document, now: int): Claims {
    var claims := Claimed(doc);
    if !Complete(doc) then claims
    else if now > claims.exp then claims.(expired := true)
    else if claims.jti in blacklist then claims
    else claims.(valid := true)
  }

  function Validate(lib: Library, blacklist: set<string>, token: string, now: int): Claims {
    var parts := Split(token);
    if parts.None? then NO_CLAIMS
    else
      var signature := UrlDecode(lib, parts.value.signature);
      if signature != Some(lib.mac(SigningInput(parts.value))) then NO_CLAIMS
      else
        var payload := ReadPayload(lib, parts.value.payload);
        if payload.None? then NO_CLAIMS else Judge(blacklist, payload.value, now)
  }

  /** The id is all that is looked at: neither the signature nor the other fields. */
  function Revoke(lib: Library, blacklist: set<string>, token: string): set<string> {
    var parts := Split(token);
    if parts.None? then blacklist
    else
      var payload := ReadPayload(lib, parts.value.payload);
      if payload.None? || payload.value.jti.None? then blacklist else blacklist + {payload.value.jti.value}
  }

  function RevokeAll(lib: Library, blacklist: set<string>, tokens: seq<string>): set<string>
    decreases |tokens|
  {
    if tokens == [] then blacklist else RevokeAll(lib, Revoke(lib, blacklist, tokens[0]), tokens[1..])
  }

  lemma UrlDecodes(lib: Library, data: seq<Octet>)
    requires Lawful(lib) && data != []
    ensures UrlDecode(lib, UrlEncode(data)) == Some(data) && '.' !in UrlEncode(data)
  {
    StandardUndoes(data);
    UrlRoundTrip(data);
  }

  /** A text made of parts that decode properly. */
  ghost predicate Proper(lib: Library, p: Parts, payload: Payload) {
    && '.' !in p.header && '.' !in p.payload
    && UrlDecode(lib, p.signature) == Some(lib.mac(SigningInput(p)))
    && ReadPayload(lib, p.payload) == Some(Full(payload))
  }

  lemma ProperIsRead(lib: Library, p: Parts, payload: Payload, blacklist: set<string>, now: int)
    requires Proper(lib, p, payload)
    ensures Validate(lib, blacklist, Join(p), now)
         == Claims(payload.sub, StringToRole(payload.role), payload.iat, payload.exp, payload.jti,
                   now <= payload.exp && payload.jti !in blacklist, now > payload.exp)
    ensures Revoke(lib, blacklist, Join(p)) == blacklist + {payload.jti}
  {
    SplitJoin(p);
  }

  lemma GeneratedIsProper(lib: Library, nick: string, role: Role, made: int, jti: string) returns (p: Parts)
    requires Lawful(lib)
    ensures Generate(lib, nick, role, made, jti) == Join(p)
    ensures Proper(lib, p, Payload(nick, made, made + SESSION_LIFETIME_SEC, jti, RoleToString(role)))
  {
    var payload := Payload(nick, made, made + SESSION_LIFETIME_SEC, jti, RoleToString(role));
    p := Parts(UrlEncode(lib.header), UrlEncode(lib.dump(payload)), "");
    var mac := lib.mac(SigningInput(p));
    p := p.(signature := UrlEncode(mac));
    UrlDecodes(lib, lib.header);
    UrlDecodes(lib, lib.dump(payload));
    UrlDecodes(lib, mac);
  }

  /** A token carries the nickname and the role it was made for until it expires or its id is revoked, exactly. */
  lemma GeneratedIsValid(lib: Library, nick: string, role: Role, made: int, jti: string, blacklist: set<string>, now: int)
    requires Lawful(lib)
    ensures Validate(lib, blacklist, Generate(lib, nick, role, made, jti), now)
         == Claims(nick, role, made, made + SESSION_LIFETIME_SEC, jti,
                   now <= made + SESSION_LIFETIME_SEC && jti !in blacklist, now > made + SESSION_LIFETIME_SEC)
  {
    var p := GeneratedIsProper(lib, nick, role, made, jti);
    ProperIsRead(lib, p, Payload(nick, made, made + SESSION_LIFETIME_SEC, jti, RoleToString(role)), blacklist, now);
    RoleRoundTrip(role);
  }

  lemma {:induction false} RevokedStays(lib: Library, blacklist: set<string>, tokens: seq<string>, jti: string)
    requires jti in blacklist
    ensures jti in RevokeAll(lib, blacklist, tokens)
    decreases |tokens|
  {
    if tokens != [] {
      RevokedStays(lib, Revoke(lib, blacklist, tokens[0]), tokens[1..], jti);
    }
  }

  /** No text whatever is valid after it was revoked, whatever else is revoked before or after. */
  lemma NeverValidAgain(lib: Library, blacklist: set<string>, earlier: seq<string>, token: string, later: seq<string>, now: int)
    ensures !Validate(lib, RevokeAll(lib, blacklist, earlier + [token] + later), token, now).valid
  {
    RevokeConcat(lib, blacklist, earlier + [token], later);
    RevokeConcat(lib, blacklist, earlier, [token]);
    var before := RevokeAll(lib, blacklist, earlier);
    assert RevokeAll(lib, before, [token]) == Revoke(lib, before, token);
    var parts := Split(token);
    if parts.Some? {
      var doc := ReadPayload(lib, parts.value.payload);
      if doc.Some? && doc.value.jti.Some? {
        RevokedStays(lib, Revoke(lib, before, token), later, doc.value.jti.value);
      }
    }
  }

  lemma {:induction false} RevokeConcat(lib: Library, blacklist: set<string>, a: seq<string>, b: seq<string>)
    ensures RevokeAll(lib, blacklist, a + b) == RevokeAll(lib, RevokeAll(lib, blacklist, a), b)
    decreases |a|
  {
    if a == [] {
      assert a + b == b;
    } else {
      assert (a + b)[1..] == a[1..] + b;
      RevokeConcat(lib, Revoke(lib, blacklist, a[0]), a[1..], b);
    }
  }

  /** Whether a text is valid depends on the blacklist through its own id alone. */
  lemma OwnIdDecides(lib: Library, blacklist: set<string>, token: string, jti: string, now: int)
    requires Validate(lib, blacklist, token, now).jti != jti
    ensures Validate(lib, blacklist + {jti}, token, now) == Validate(lib, blacklist, token, now)
  {
  }

  /** Revoking one session's token leaves tokens with other ids as they are. */
  lemma OthersKept(lib: Library, blacklist: set<string>, nick: string, role: Role, made: int, jti: string, other: string, now: int)
    requires Lawful(lib)
    requires Validate(lib, blacklist, other, now).jti != jti
    ensures Revoke(lib, blacklist, Generate(lib, nick, role, made, jti)) == blacklist + {jti}
    ensures Validate(lib, Revoke(lib, blacklist, Generate(lib, nick, role, made, jti)), other, now)
         == Validate(lib, blacklist, other, now)
  {
    GeneratedIsRevoked(lib, blacklist, nick, role, made, jti);
    OwnIdDecides(lib, blacklist, other, jti, now);
  }

  lemma GeneratedIsRevoked(lib: Library, blacklist: set<string>, nick: string, role: Role, made: int, jti: string)
    requires Lawful(lib)
    ensures Revoke(lib, blacklist, Generate(lib, nick, role, made, jti)) == blacklist + {jti}
  {
    var p := GeneratedIsProper(lib, nick, role, made, jti);
    ProperIsRead(lib, p, Payload(nick, made, made + SESSION_LIFETIME_SEC, jti, RoleToString(role)), blacklist, made);
  }

  /** The reference decoder obeys the law the library is held to. */
  lemma ReferenceDecoderLawful(lib: Library)
    requires Lawful(lib)
    ensures Lawful(lib.(decode := Decode))
  {
    forall data: seq<Octet> | data != []
      ensures Decode(Encode(data)) == Some(data)
    {
      DecodeEncode(data);
    }
  }

  // ----- The object -----

  class TokenManager {
    const lib: Library
    var blacklist: set<string>

    constructor (lib: Library)
      ensures this.lib == lib && blacklist == {}
    {
      this.lib := lib;
      blacklist := {};
    }

    method GenerateToken(nick: string, role: Role, now: int, jti: string) returns (token: string)
      ensures token == Generate(lib, nick, role, now, jti)
    {
      var header := Base64UrlEncode(lib.header);
      var payload := Base64UrlEncode(lib.dump(Payload(nick, now, now + SESSION_LIFETIME_SEC, jti, RoleToString(role))));
      var signingInput := header + "." + payload;
      var signature := Base64UrlEncode(lib.mac(signingInput));
      token := signingInput + "." + signature;
    }

    /** Fills in the claims; a missing field ends it. */
    method ReadClaims(doc: Document) returns (result: Claims, complete: bool)
      ensures result == Claimed(doc) && (complete <==> Complete(doc))
    {
      result, complete := NO_CLAIMS, false;
      if doc.sub.None? {
        return;
      }
      result := result.(sub := doc.sub.value);
      if doc.role.None? {
        return;
      }
      result := result.(role := StringToRole(doc.role.value));
      if doc.iat.None? {
        return;
      }
      result := result.(iat := doc.iat.value);
      if doc.exp.None? {
        return;
      }
      result := result.(exp := doc.exp.value);
      if doc.jti.None? {
        return;
      }
      result, complete := result.(jti := doc.jti.value), true;
    }

    method ValidateToken(token: string, now: int) returns (result: Claims)
      ensures result == Validate(lib, blacklist, token, now)
    {
      result := NO_CLAIMS;
      var dot1 := FindDot(token, 0);
      if dot1 == |token| {
        return;
      }
      var dot2 := FindDot(token, dot1 + 1);
      if dot2 == |token| {
        return;
      }
      var payload := token[dot1 + 1..dot2];
      var signingInput := token[..dot1] + "." + payload;
      var b64 := Base64UrlRestore(token[dot2 + 1..]);
      if lib.decode(b64).None? || lib.decode(b64).value != lib.mac(signingInput) {
        return;
      }
      b64 := Base64UrlRestore(payload);
      if lib.decode(b64).None? || lib.parse(lib.decode(b64).value).None? {
        return;
      }
      var complete;
      result, complete := ReadClaims(lib.parse(lib.decode(b64).value).value);
      if !complete {
        return;
      }
      if now > result.exp {
        result := result.(expired := true);
        return;
      }
      if result.jti in blacklist {
        return;
      }
      result := result.(valid := true);
    }

    method RevokeToken(token: string)
      modifies this
      ensures blacklist == Revoke(lib, old(blacklist), token)
    {
      var dot1 := FindDot(token, 0);
      if dot1 == |token| {
        return;
      }
      var dot2 := FindDot(token, dot1 + 1);
      if dot2 == |token| {
        return;
      }
      var b64 := Base64UrlRestore(token[dot1 + 1..dot2]);
      if lib.decode(b64).None? || lib.parse(lib.decode(b64).value).None? {
        return;
      }
      var jti := lib.parse(lib.decode(b64).value).value.jti;
      if jti.Some? {
        blacklist := blacklist + {jti.value};
      }
    }
  }
}
