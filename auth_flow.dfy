/**
 * The life of one administrator session across the three routes, on one client's
 * cookie store: log in, check, check again, log out, check, and replay the token
 * captured before logging out.
 */
module AuthFlow {
  import opened Wrappers
  import opened AuthTypes
  import opened NextServer
  import opened SessionCodec
  import opened EnvSchema
  import Jws
  import LoginRoute
  import SessionRoute
  import LogoutRoute

  method LoginCheckLogout(incoming: map<string, string>, env: Env, nodeEnv: Option<string>, mac: Jws.Mac,
                          now: int, later: int)
    returns (login: Reply<LoginResponse>, check: Reply<SessionResponse>, recheck: Reply<SessionResponse>,
             logout: Reply<LogoutRoute.LogoutResponse>, afterLogout: Reply<SessionResponse>,
             replay: Reply<SessionResponse>, remaining: map<string, string>)
    requires later / 1000 < now / 1000 + SESSION_DURATION / 1000
    ensures login.body.success
    ensures login.body.session == Some(CreateSession(LoginRoute.AdminUser(env), now))
    ensures check == Reply(STATUS_OK, SessionResponse(true, login.body.session, None))
    ensures recheck == check
    ensures logout.body.success
    ensures afterLogout == SessionRoute.NO_SESSION_REPLY
    ensures replay == check
    ensures remaining == incoming - {SESSION_COOKIE_NAME}
  {
    var store := new CookieStore(incoming);
    var credentials := LoginRoute.LoginCredentials(Some(env.adminUsername), Some(env.adminPassword));
    login := LoginRoute.Post(store, env, nodeEnv, mac, now, Some(credentials));
    var token := store.values[SESSION_COOKIE_NAME];
    LoginRoute.LoginCookieDecodes(env, mac, now, later);
    check := SessionRoute.Get(store, env.sessionSecret, mac, later);
    recheck := SessionRoute.Get(store, env.sessionSecret, mac, later);
    logout := LogoutRoute.Post(store);
    afterLogout := SessionRoute.Get(store, env.sessionSecret, mac, later);
    replay := SessionRoute.SessionReply(mac, env.sessionSecret, Some(token), later);
    remaining := store.values;
  }
}
