/**
 * The parts of the web framework the routes touch: a JSON reply with its HTTP status,
 * cookie attributes, and the request's cookie store, whose entries the routes read,
 * set and delete in place.
 */
module NextServer {
  import opened Wrappers

  const STATUS_OK: int := 200
  const STATUS_UNAUTHORIZED: int := 401
  const STATUS_SERVER_ERROR: int := 500

  /** The generic message every route answers with when something throws. */
  const SERVER_ERROR_MESSAGE: string := "서버 오류가 발생했습니다"

  /** A JSON response body together with its HTTP status. */
  datatype Reply<T> = Reply(status: int, body: T)

  datatype SameSite = Lax | Strict | NoRestriction

  /** The attributes a cookie is set with. `maxAge` is in seconds. */
  datatype CookieOptions = CookieOptions(
    httpOnly: bool,
    secure: bool,
    sameSite: SameSite,
    maxAge: int,
    path: string)

  /**
   * The cookie store of one client: the value of every cookie by name, and the
   * attributes of the cookies that a route has set.
   */
  class CookieStore {
    var values: map<string, string>
    var attributes: map<string, CookieOptions>

    /** Attributes belong to a cookie: every cookie the store holds attributes for also has a value. */
    ghost predicate Valid()
      reads this
    {
      attributes.Keys <= values.Keys
    }

    /** The store as a request presents it: values only. */
    constructor (incoming: map<string, string>)
      ensures Valid()
      ensures values == incoming && attributes == map[]
    {
      values := incoming;
      attributes := map[];
    }

    /** `cookieStore.get(name)?.value`. */
    function Get(name: string): (v: Option<string>)
      reads this
      ensures v.Some? <==> name in values
      ensures v.Some? ==> v.value == values[name]
    {
      if name in values then Some(values[name]) else None
    }

    /** `cookieStore.set(name, value, options)`: adds or replaces one entry. */
    method Set(name: string, value: string, options: CookieOptions)
      requires Valid()
      modifies this
      ensures Valid()
      ensures values == old(values)[name := value]
      ensures attributes == old(attributes)[name := options]
    {
      values := values[name := value];
      attributes := attributes[name := options];
    }

    /** `cookieStore.delete(name)`: removes one entry, present or not. */
    method Delete(name: string)
      requires Valid()
      modifies this
      ensures Valid()
      ensures values == old(values) - {name}
      ensures attributes == old(attributes) - {name}
    {
      values := values - {name};
      attributes := attributes - {name};
    }
  }
}
