/**
 * The signed-token library the session codec calls: a compact JSON Web Signature
 * (RFC 7515, used as a JSON Web Token per RFC 7519) made of a protected header,
 * a claims payload and a signature, each a '.'-separated segment. Only what the
 * library checks is modelled: the segment structure, the algorithm allow-list,
 * the signature over the first two segments, and the expiration claim "exp" in
 * whole seconds. The MAC itself (HMAC-SHA-256, "HS256" in section 3.2 of RFC 7518)
 * is a parameter.
 */
module Jws {
  import opened Wrappers
  import opened TextCodec
  import opened AuthTypes

  const HS256: string := "HS256"

  /** `mac(key, signingInput)`: the keyed hash that signs and verifies tokens. */
  type Mac = (string, string) -> string

  datatype Header = Header(alg: string)

  /** The claims this application signs: its session fields plus "exp" in seconds. */
  datatype Claims = Claims(user: User, createdAt: int, expiresAt: int, exp: int)

  function HeaderSegment(h: Header): string {
    Escape(h.alg)
  }

  function ClaimFields(c: Claims): seq<string> {
    [c.user.id, c.user.username, RoleText(c.user.role),
     IntText(c.createdAt), IntText(c.expiresAt), IntText(c.exp)]
  }

  function ClaimsSegment(c: Claims): string {
    Join(EscapeAll(ClaimFields(c)), ',')
  }

  /** The bytes the signature covers: header segment '.' payload segment. */
  function SigningInput(h: Header, c: Claims): string {
    HeaderSegment(h) + "." + ClaimsSegment(c)
  }

  function Compact(h: Header, c: Claims, signature: string): string {
    Join([HeaderSegment(h), ClaimsSegment(c), Escape(signature)], '.')
  }

  /** `new SignJWT(claims).setProtectedHeader(h).sign(key)`. */
  function Sign(mac: Mac, key: string, h: Header, c: Claims): string {
    Compact(h, c, mac(key, SigningInput(h, c)))
  }

  /** Reads the claims back from a payload segment. */
  function DecodeClaims(segment: string): Option<Claims> {
    var parts := Split(segment, ',');
    if |parts| != 6 then None
    else match UnescapeAll(parts)
      case None => None
      case Some(f) =>
        if |f| != 6 then None
        else
          var role, createdAt, expiresAt, exp := ParseRole(f[2]), ParseInt(f[3]), ParseInt(f[4]), ParseInt(f[5]);
          if role.None? || createdAt.None? || expiresAt.None? || exp.None? then None
          else Some(Claims(User(f[0], f[1], role.value), createdAt.value, expiresAt.value, exp.value))
  }

  /** `jwtVerify(token, key, {algorithms})`, with the current time `now` in milliseconds. */
  function JwtVerify(mac: Mac, key: string, algorithms: seq<string>, token: string, now: int): (r: Option<Claims>)
    ensures r.Some? ==> now / 1000 < r.value.exp
    ensures r.Some? ==>
      var parts := Split(token, '.');
      && |parts| == 3
      && Unescape(parts[0]).Some? && Unescape(parts[0]).value in algorithms
      && Unescape(parts[2]) == Some(mac(key, parts[0] + "." + parts[1]))
      && DecodeClaims(parts[1]) == Some(r.value)
  {
    var parts := Split(token, '.');
    if |parts| != 3 then None
    else
      var alg, signature := Unescape(parts[0]), Unescape(parts[2]);
      if alg.None? || alg.value !in algorithms then None
      else if signature != Some(mac(key, parts[0] + "." + parts[1])) then None
      else match DecodeClaims(parts[1])
        case None => None
        case Some(c) => if c.exp <= now / 1000 then None else Some(c)
  }

  // ---------------------------------------------------------------------------
  // Properties

  lemma DecodeClaimsSegment(c: Claims)
    ensures DecodeClaims(ClaimsSegment(c)) == Some(c)
  {
    var fields := ClaimFields(c);
    var escaped := EscapeAll(fields);
    SplitJoin(escaped, ',');
    UnescapeAllEscapeAll(fields);
    ParseIntText(c.createdAt);
    ParseIntText(c.expiresAt);
    ParseIntText(c.exp);
    var parts := Split(ClaimsSegment(c), ',');
    assert parts == escaped && |parts| == 6;
    assert UnescapeAll(parts) == Some(fields);
    assert c.user.role == Admin && fields[2] == "admin";
    assert ParseRole(fields[2]) == Some(c.user.role);
    assert User(fields[0], fields[1], c.user.role) == c.user;
  }

  /** A compact token splits back into exactly its three segments. */
  lemma CompactSegments(h: Header, c: Claims, signature: string)
    ensures Split(Compact(h, c, signature), '.') == [HeaderSegment(h), ClaimsSegment(c), Escape(signature)]
  {
    var escaped := EscapeAll(ClaimFields(c));
    JoinAvoids(escaped, ',', '.');
    SplitJoin([HeaderSegment(h), ClaimsSegment(c), Escape(signature)], '.');
  }

  /**
   * An accepted token is literally its header and payload segments followed by a
   * segment that holds the key's MAC of those two: nothing else in the text is ignored.
   */
  lemma AcceptedTokenShape(mac: Mac, key: string, algorithms: seq<string>, token: string, now: int)
    requires JwtVerify(mac, key, algorithms, token, now).Some?
    ensures var parts := Split(token, '.');
      && |parts| == 3
      && token == parts[0] + "." + parts[1] + "." + parts[2]
      && Unescape(parts[2]) == Some(mac(key, parts[0] + "." + parts[1]))
  {
    var parts := Split(token, '.');
    JoinSplit(token, '.');
    assert parts[1..][1..] == [parts[2]];
    assert Join(parts[1..][1..], '.') == parts[2];
    assert Join(parts[1..], '.') == parts[1] + ['.'] + parts[2];
    assert Join(parts, '.') == parts[0] + ['.'] + (parts[1] + ['.'] + parts[2]);
  }

  /** A token signed with the verifier's key and algorithm is accepted exactly until its "exp" second. */
  lemma VerifySigned(mac: Mac, key: string, c: Claims, now: int)
    ensures JwtVerify(mac, key, [HS256], Sign(mac, key, Header(HS256), c), now)
         == if now / 1000 < c.exp then Some(c) else None
  {
    var h := Header(HS256);
    CompactSegments(h, c, mac(key, SigningInput(h, c)));
    UnescapeEscape(HS256);
    UnescapeEscape(mac(key, SigningInput(h, c)));
    DecodeClaimsSegment(c);
  }

  /** A token whose header names another algorithm is refused, whatever its signature. */
  lemma ForeignAlgorithmRefused(mac: Mac, key: string, alg: string, c: Claims, signature: string, now: int)
    requires alg != HS256
    ensures JwtVerify(mac, key, [HS256], Compact(Header(alg), c, signature), now) == None
  {
    CompactSegments(Header(alg), c, signature);
    UnescapeEscape(alg);
  }

  /**
   * A token signed under one key is accepted under another only if the MAC of its
   * signing input is the same under both keys.
   */
  lemma KeyBinding(mac: Mac, signer: string, verifier: string, c: Claims, now: int)
    requires mac(verifier, SigningInput(Header(HS256), c)) != mac(signer, SigningInput(Header(HS256), c))
    ensures JwtVerify(mac, verifier, [HS256], Sign(mac, signer, Header(HS256), c), now) == None
  {
    var h := Header(HS256);
    CompactSegments(h, c, mac(signer, SigningInput(h, c)));
    UnescapeEscape(mac(signer, SigningInput(h, c)));
  }
}
