/**
 * POST /api/auth/login: compares the submitted credentials with the configured
 * administrator by exact string equality, then creates a session, signs it and
 * stores the token in the `session` cookie.
 */
module LoginRoute {
  import opened Wrappers
  import opened AuthTypes
  import opened NextServer
  import opened SessionCodec
  import opened EnvSchema
  import Jws
  import Validations

  const INVALID_CREDENTIALS_MESSAGE: string := "사용자명 또는 비밀번호가 올바르지 않습니다"
  const LOGIN_SUCCESS_MESSAGE: string := "로그인 성공"

  /**
   * The fields of the JSON body; `None` is a member that is absent or not a string,
   * which can never equal a configured value.
   */
  datatype LoginCredentials = LoginCredentials(username: Option<string>, password: Option<string>)

  /** The administrator that a successful login authenticates. */
  function AdminUser(env: Env): User {
    User("admin", env.adminUsername, Admin)
  }

  /**
   * The reply to a login request at clock `now`; `body` is `None` when the request
   * body is not valid JSON or is JSON `null`, which makes the handler throw. Any other
   * JSON value that is not an object has no string members: it is
   * `Some(LoginCredentials(None, None))`.
   */
  function LoginReply(env: Env, now: int, body: Option<LoginCredentials>): (r: Reply<LoginResponse>)
    ensures r.body.success <==>
      body == Some(LoginCredentials(Some(env.adminUsername), Some(env.adminPassword)))
    ensures r.body.success ==> r == Reply(STATUS_OK, LoginResponse(
      true, Some(AdminUser(env)), Some(CreateSession(AdminUser(env), now)), None, Some(LOGIN_SUCCESS_MESSAGE)))
    ensures body.Some? && !r.body.success ==>
      r == Reply(STATUS_UNAUTHORIZED, LoginResponse(false, None, None, Some(INVALID_CREDENTIALS_MESSAGE), None))
    ensures body.None? ==>
      r == Reply(STATUS_SERVER_ERROR, LoginResponse(false, None, None, Some(SERVER_ERROR_MESSAGE), None))
  {
    match body
    case None =>
      Reply(STATUS_SERVER_ERROR, LoginResponse(false, None, None, Some(SERVER_ERROR_MESSAGE), None))
    case Some(credentials) =>
      if credentials.username != Some(env.adminUsername) || credentials.password != Some(env.adminPassword) then
        Reply(STATUS_UNAUTHORIZED, LoginResponse(false, None, None, Some(INVALID_CREDENTIALS_MESSAGE), None))
      else
        var user := AdminUser(env);
        Reply(STATUS_OK, LoginResponse(true, Some(user), Some(CreateSession(user, now)), None, Some(LOGIN_SUCCESS_MESSAGE)))
  }

  /**
   * The handler: replies as `LoginReply` says and, on success only, sets the
   * `session` cookie to the token of the very session in the reply.
   */
  method Post(store: CookieStore, env: Env, nodeEnv: Option<string>, mac: Jws.Mac, now: int,
              body: Option<LoginCredentials>)
    returns (reply: Reply<LoginResponse>)
    requires store.Valid()
    modifies store
    ensures store.Valid()
    ensures reply == LoginReply(env, now, body)
    ensures reply.body.success ==>
      && store.values == old(store.values)[SESSION_COOKIE_NAME :=
           EncryptSession(mac, env.sessionSecret, reply.body.session.value)]
      && store.attributes == old(store.attributes)[SESSION_COOKIE_NAME := SessionCookieOptions(nodeEnv)]
    ensures !reply.body.success ==> store.values == old(store.values) && store.attributes == old(store.attributes)
  {
    if body.None? {
      return Reply(STATUS_SERVER_ERROR, LoginResponse(false, None, None, Some(SERVER_ERROR_MESSAGE), None));
    }
    var credentials := body.value;
    if credentials.username != Some(env.adminUsername) || credentials.password != Some(env.adminPassword) {
      return Reply(STATUS_UNAUTHORIZED, LoginResponse(false, None, None, Some(INVALID_CREDENTIALS_MESSAGE), None));
    }
    var user := AdminUser(env);
    var session := CreateSession(user, now);
    var token := EncryptSession(mac, env.sessionSecret, session);
    store.Set(SESSION_COOKIE_NAME, token, SessionCookieOptions(nodeEnv));
    reply := Reply(STATUS_OK, LoginResponse(true, Some(user), Some(session), None, Some(LOGIN_SUCCESS_MESSAGE)));
  }

  // ---------------------------------------------------------------------------
  // Properties

  /**
   * The cookie a successful login sets decodes, with the configured secret, to the
   * session in the reply for every clock before the second of its deadline.
   */
  lemma LoginCookieDecodes(env: Env, mac: Jws.Mac, now: int, later: int)
    requires later / 1000 < now / 1000 + SESSION_DURATION / 1000
    ensures var session := CreateSession(AdminUser(env), now);
      && LoginReply(env, now, Some(LoginCredentials(Some(env.adminUsername), Some(env.adminPassword)))).body.session
         == Some(session)
      && DecryptSession(mac, env.sessionSecret, EncryptSession(mac, env.sessionSecret, session), later) == Some(session)
  {
    FreshTokenAccepted(mac, env.sessionSecret, AdminUser(env), now, later);
  }

  /** With a loaded configuration, credentials the handler accepts also pass the login form. */
  lemma AcceptedCredentialsPassForm(p: ProcessEnv, now: int, username: Option<string>, password: Option<string>)
    requires LoadEnv(p).Success?
    requires LoginReply(LoadEnv(p).value, now, Some(LoginCredentials(username, password))).body.success
    ensures Validations.ParseLoginForm(username, password).Success?
  {
  }
}
