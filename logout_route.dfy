/**
 * POST /api/auth/logout: deletes the `session` cookie and reports success. Nothing
 * is revoked on the server: a token issued before stays valid until it expires.
 */
module LogoutRoute {
  import opened Wrappers
  import opened NextServer
  import opened SessionCodec

  const LOGOUT_SUCCESS_MESSAGE: string := "로그아웃 성공"

  datatype LogoutResponse = LogoutResponse(success: bool, message: Option<string>, error: Option<string>)

  /** The handler: removes the `session` entry, and only that one, whether or not it was there. */
  method Post(store: CookieStore) returns (reply: Reply<LogoutResponse>)
    requires store.Valid()
    modifies store
    ensures store.Valid()
    ensures SESSION_COOKIE_NAME !in store.values
    ensures store.values == old(store.values) - {SESSION_COOKIE_NAME}
    ensures store.attributes == old(store.attributes) - {SESSION_COOKIE_NAME}
    ensures reply == Reply(STATUS_OK, LogoutResponse(true, Some(LOGOUT_SUCCESS_MESSAGE), None))
  {
    store.Delete(SESSION_COOKIE_NAME);
    reply := Reply(STATUS_OK, LogoutResponse(true, Some(LOGOUT_SUCCESS_MESSAGE), None));
  }
}
