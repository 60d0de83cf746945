/** The authentication records shared by the routes and the session codec. */
module AuthTypes {
  import opened Wrappers

  /** The closed set of roles; the administrator is the only one. */
  datatype Role = Admin

  function RoleText(role: Role): string {
    match role
    case Admin => "admin"
  }

  /** Reads a role back from its text; only "admin" names a role. */
  function ParseRole(s: string): (r: Option<Role>)
    ensures r.Some? <==> s == "admin"
    ensures r.Some? ==> RoleText(r.value) == s
  {
    if s == "admin" then Some(Admin) else None
  }

  /** The administrator identity (`id`, `username`, `role`). */
  datatype User = User(id: string, username: string, role: Role)

  /** An authenticated period; instants are milliseconds since the epoch. */
  datatype Session = Session(user: User, createdAt: int, expiresAt: int)

  /**
   * The JSON body of the login response: `user` and `session` on success,
   * `error` on failure, `message` on success only.
   */
  datatype LoginResponse = LoginResponse(
    success: bool,
    user: Option<User>,
    session: Option<Session>,
    error: Option<string>,
    message: Option<string>)

  /** The JSON body of the session-check response. */
  datatype SessionResponse = SessionResponse(success: bool, session: Option<Session>, error: Option<string>)
}
