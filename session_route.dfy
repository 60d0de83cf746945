/**
 * GET /api/auth/session: reads the `session` cookie and answers with one of three
 * outcomes: no session, an invalid or expired session, or the decoded session
 * exactly as it was signed. The handler only reads the cookie store.
 */
module SessionRoute {
  import opened Wrappers
  import opened AuthTypes
  import opened NextServer
  import opened SessionCodec
  import Jws
  import TextCodec

  const NO_SESSION_MESSAGE: string := "세션이 존재하지 않습니다"
  const INVALID_SESSION_MESSAGE: string := "세션이 유효하지 않거나 만료되었습니다"

  const NO_SESSION_REPLY: Reply<SessionResponse> :=
    Reply(STATUS_UNAUTHORIZED, SessionResponse(false, None, Some(NO_SESSION_MESSAGE)))
  const INVALID_SESSION_REPLY: Reply<SessionResponse> :=
    Reply(STATUS_UNAUTHORIZED, SessionResponse(false, None, Some(INVALID_SESSION_MESSAGE)))

  /** The reply for the cookie value `token` (`None` when there is no cookie) at clock `now`. */
  function SessionReply(mac: Jws.Mac, secret: string, token: Option<string>, now: int): (r: Reply<SessionResponse>)
    ensures token.None? || token.value == "" ==> r == NO_SESSION_REPLY
    ensures token.Some? && token.value != "" && DecryptSession(mac, secret, token.value, now).None? ==>
      r == INVALID_SESSION_REPLY
    ensures r.body.success <==> token.Some? && DecryptSession(mac, secret, token.value, now).Some?
    ensures r.body.success ==>
      r == Reply(STATUS_OK, SessionResponse(true, DecryptSession(mac, secret, token.value, now), None))
  {
    if token.None? || token.value == "" then NO_SESSION_REPLY
    else match DecryptSession(mac, secret, token.value, now)
      case None => INVALID_SESSION_REPLY
      case Some(session) => Reply(STATUS_OK, SessionResponse(true, Some(session), None))
  }

  /** The handler over a cookie store; it depends on nothing but the store, the secret and the clock. */
  function Get(store: CookieStore, secret: string, mac: Jws.Mac, now: int): (r: Reply<SessionResponse>)
    reads store
    ensures SESSION_COOKIE_NAME !in store.values ==> r == NO_SESSION_REPLY
    ensures (SESSION_COOKIE_NAME in store.values && store.values[SESSION_COOKIE_NAME] == "") ==> r == NO_SESSION_REPLY
    ensures (SESSION_COOKIE_NAME in store.values && store.values[SESSION_COOKIE_NAME] != ""
             && DecryptSession(mac, secret, store.values[SESSION_COOKIE_NAME], now).None?) ==> r == INVALID_SESSION_REPLY
    ensures r.body.success <==>
      SESSION_COOKIE_NAME in store.values && DecryptSession(mac, secret, store.values[SESSION_COOKIE_NAME], now).Some?
    ensures r.body.success ==>
      r == Reply(STATUS_OK, SessionResponse(true, DecryptSession(mac, secret, store.values[SESSION_COOKIE_NAME], now), None))
  {
    SessionReply(mac, secret, store.Get(SESSION_COOKIE_NAME), now)
  }

  // ---------------------------------------------------------------------------
  // Properties

  /**
   * The token of a session is answered with that very session, unextended, for every
   * clock before the second of its deadline, and with the invalid-session reply after.
   */
  lemma CheckSignedToken(mac: Jws.Mac, secret: string, s: Session, now: int)
    ensures SessionReply(mac, secret, Some(EncryptSession(mac, secret, s)), now)
         == if now / 1000 < s.expiresAt / 1000
            then Reply(STATUS_OK, SessionResponse(true, Some(s), None))
            else INVALID_SESSION_REPLY
  {
    RoundTrip(mac, secret, s, now);
    var token := EncryptSession(mac, secret, s);
    EncryptedContents(mac, secret, s);
    assert token != "" by {
      assert TextCodec.Split("", '.') == [[]];
    }
  }

  /**
   * A live token signed with another secret gets the same reply as an expired token
   * signed with the right one: the caller cannot tell the two causes apart.
   */
  lemma WrongSecretLooksExpired(mac: Jws.Mac, signer: string, verifier: string, s: Session, e: Session, now: int)
    requires mac(verifier, Jws.SigningInput(Jws.Header(Jws.HS256), SessionClaims(s)))
          != mac(signer, Jws.SigningInput(Jws.Header(Jws.HS256), SessionClaims(s)))
    requires IsSessionExpired(e, now)
    ensures SessionReply(mac, verifier, Some(EncryptSession(mac, signer, s)), now)
         == SessionReply(mac, verifier, Some(EncryptSession(mac, verifier, e)), now)
         == INVALID_SESSION_REPLY
  {
    WrongSecretRefused(mac, signer, verifier, s, now);
    CheckSignedToken(mac, verifier, e, now);
    ExpiredTokenRefused(mac, verifier, e, now);
    EncryptedContents(mac, signer, s);
    assert EncryptSession(mac, signer, s) != "" by {
      assert TextCodec.Split("", '.') == [[]];
    }
  }
}
