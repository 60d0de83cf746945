/**
 * Stateless sessions: a session is stamped with its creation instant and a deadline
 * one day later, signed into an HS256 token, and read back from a token only when the
 * signature, the algorithm and both expiry checks pass. The clock is the parameter
 * `now` (milliseconds since the epoch); the secret is the configured SESSION_SECRET.
 */
module SessionCodec {
  import opened Wrappers
  import opened AuthTypes
  import opened Jws
  import opened NextServer
  import TextCodec

  /** 24 hours in milliseconds. */
  const SESSION_DURATION: int := 24 * 60 * 60 * 1000

  const SESSION_COOKIE_NAME: string := "session"

  /** A new session for `user`, created at `now`. */
  function CreateSession(user: User, now: int): Session {
    Session(user, now, now + SESSION_DURATION)
  }

  /** A session is expired strictly after its deadline. */
  predicate IsSessionExpired(s: Session, now: int) {
    now > s.expiresAt
  }

  /** The signed claims: the session fields, and "exp" as the deadline floored to whole seconds. */
  function SessionClaims(s: Session): Claims {
    Claims(s.user, s.createdAt, s.expiresAt, s.expiresAt / 1000)
  }

  /** The token for `s`, signed with `secret`. */
  function EncryptSession(mac: Mac, secret: string, s: Session): string {
    Sign(mac, secret, Header(HS256), SessionClaims(s))
  }

  /**
   * The session a token carries, or `None` for every failure: malformed text, a
   * foreign algorithm, a wrong signature, an "exp" second already reached, or a
   * session deadline already passed.
   */
  function DecryptSession(mac: Mac, secret: string, token: string, now: int): (r: Option<Session>)
    ensures r.Some? ==> !IsSessionExpired(r.value, now)
    ensures r.Some? ==> token != ""
    ensures r.Some? ==>
      var parts := TextCodec.Split(token, '.');
      && |parts| == 3
      && TextCodec.Unescape(parts[0]) == Some(HS256)
      && TextCodec.Unescape(parts[2]) == Some(mac(secret, parts[0] + "." + parts[1]))
      && DecodeClaims(parts[1]).Some?
      && var c := DecodeClaims(parts[1]).value;
         r.value == Session(c.user, c.createdAt, c.expiresAt) && now / 1000 < c.exp
  {
    match JwtVerify(mac, secret, [HS256], token, now)
    case None => None
    case Some(c) =>
      var s := Session(c.user, c.createdAt, c.expiresAt);
      if IsSessionExpired(s, now) then None else Some(s)
  }

  /** The attributes of the session cookie; `nodeEnv` is NODE_ENV. */
  function SessionCookieOptions(nodeEnv: Option<string>): (o: CookieOptions)
    ensures o.maxAge * 1000 == SESSION_DURATION
    ensures o.secure <==> nodeEnv == Some("production")
    ensures o.httpOnly && o.sameSite == Lax && o.path == "/"
  {
    CookieOptions(
      httpOnly := true,
      secure := nodeEnv == Some("production"),
      sameSite := Lax,
      maxAge := SESSION_DURATION / 1000,
      path := "/")
  }

  // ---------------------------------------------------------------------------
  // Properties

  /** A new session keeps its user, lasts exactly one day and is live at its creation instant. */
  lemma CreatedSessionLifetime(user: User, now: int)
    ensures CreateSession(user, now).user == user
    ensures CreateSession(user, now).createdAt == now
    ensures CreateSession(user, now).expiresAt - CreateSession(user, now).createdAt == SESSION_DURATION == 86_400_000
    ensures !IsSessionExpired(CreateSession(user, now), now)
  {
  }

  /** Expiry is strict: a session is still live at its deadline and expired one millisecond later. */
  lemma ExpiryBoundary(s: Session)
    ensures !IsSessionExpired(s, s.expiresAt)
    ensures IsSessionExpired(s, s.expiresAt + 1)
    ensures forall now :: IsSessionExpired(s, now) <==> now > s.expiresAt
  {
  }

  /** The token names HS256 in its header and carries the session with "exp" taken from the deadline. */
  lemma EncryptedContents(mac: Mac, secret: string, s: Session)
    ensures var parts := TextCodec.Split(EncryptSession(mac, secret, s), '.');
      && |parts| == 3
      && TextCodec.Unescape(parts[0]) == Some(HS256)
      && DecodeClaims(parts[1]) == Some(Claims(s.user, s.createdAt, s.expiresAt, s.expiresAt / 1000))
  {
    var c := SessionClaims(s);
    CompactSegments(Header(HS256), c, mac(secret, SigningInput(Header(HS256), c)));
    TextCodec.UnescapeEscape(HS256);
    DecodeClaimsSegment(c);
  }

  /** Before the whole second that holds the deadline, a slower clock only helps. */
  lemma SecondsBeforeDeadline(now: int, deadline: int)
    requires now / 1000 < deadline / 1000
    ensures now < deadline
  {
  }

  /**
   * For claims whose "exp" is the deadline in whole seconds, as this code signs them,
   * the library's check already implies the millisecond check: the second check in
   * `DecryptSession` is defence in depth and never the one that refuses.
   */
  lemma ExpCheckSubsumesExpiry(c: Claims, now: int)
    requires c.exp == c.expiresAt / 1000
    requires now / 1000 < c.exp
    ensures !IsSessionExpired(Session(c.user, c.createdAt, c.expiresAt), now)
  {
  }

  /**
   * Round trip: with the same secret, the token gives back exactly the session that
   * was signed, as long as the clock is before the second that holds the deadline,
   * and nothing afterwards.
   */
  lemma RoundTrip(mac: Mac, secret: string, s: Session, now: int)
    ensures DecryptSession(mac, secret, EncryptSession(mac, secret, s), now)
         == if now / 1000 < s.expiresAt / 1000 then Some(s) else None
  {
    VerifySigned(mac, secret, SessionClaims(s), now);
    if now / 1000 < s.expiresAt / 1000 {
      SecondsBeforeDeadline(now, s.expiresAt);
    }
  }

  /**
   * At its own deadline a token is already refused by the whole-second "exp" check,
   * although the millisecond check alone would still call the session live.
   */
  lemma RefusedAtDeadline(mac: Mac, secret: string, s: Session)
    ensures !IsSessionExpired(s, s.expiresAt)
    ensures DecryptSession(mac, secret, EncryptSession(mac, secret, s), s.expiresAt) == None
  {
    RoundTrip(mac, secret, s, s.expiresAt);
  }

  /** A token made from a fresh session is accepted for the whole day of seconds that follows. */
  lemma FreshTokenAccepted(mac: Mac, secret: string, user: User, createdAt: int, now: int)
    requires now / 1000 < createdAt / 1000 + SESSION_DURATION / 1000
    ensures DecryptSession(mac, secret, EncryptSession(mac, secret, CreateSession(user, createdAt)), now)
         == Some(CreateSession(user, createdAt))
  {
    var s := CreateSession(user, createdAt);
    assert s.expiresAt / 1000 == createdAt / 1000 + 86_400;
    RoundTrip(mac, secret, s, now);
  }

  /** Once the deadline has passed, the token of a session is refused. */
  lemma ExpiredTokenRefused(mac: Mac, secret: string, s: Session, now: int)
    requires IsSessionExpired(s, now)
    ensures DecryptSession(mac, secret, EncryptSession(mac, secret, s), now) == None
  {
    RoundTrip(mac, secret, s, now);
  }

  /** A token signed with another secret is refused whenever the MAC tells the two secrets apart. */
  lemma WrongSecretRefused(mac: Mac, signer: string, verifier: string, s: Session, now: int)
    requires mac(verifier, SigningInput(Header(HS256), SessionClaims(s)))
          != mac(signer, SigningInput(Header(HS256), SessionClaims(s)))
    ensures DecryptSession(mac, verifier, EncryptSession(mac, signer, s), now) == None
  {
    KeyBinding(mac, signer, verifier, SessionClaims(s), now);
  }

  /** A token whose header names an algorithm other than HS256 is refused, whatever it signs. */
  lemma ForeignAlgorithmTokenRefused(mac: Mac, secret: string, alg: string, c: Claims, signature: string, now: int)
    requires alg != HS256
    ensures DecryptSession(mac, secret, Compact(Header(alg), c, signature), now) == None
  {
    ForeignAlgorithmRefused(mac, secret, alg, c, signature, now);
  }

  /** Text that is not three '.'-separated segments is refused. */
  lemma MalformedTokenRefused(mac: Mac, secret: string, token: string, now: int)
    requires |TextCodec.Split(token, '.')| != 3
    ensures DecryptSession(mac, secret, token, now) == None
  {
  }
}
