# Administrator session authentication, modelled in Dafny

This project models the authentication core of a small invoice-viewing web application
with a single administrator and stateless sessions:

- a **session codec**: a session records who logged in, when (`createdAt`) and until when
  (`expiresAt`, one day later, in milliseconds). It is signed into an HS256 JSON Web Token
  and read back only when the token is well formed, names HS256, carries a correct
  signature, and has expired neither by its `exp` claim nor by its own deadline;
- three **route handlers** over the client's cookie store: login (credential check, session
  creation, `session` cookie set), session check (no cookie / invalid / valid), and logout
  (cookie deleted);
- the **configuration schema** read at start-up (minimum lengths, 32-character lower-case
  hexadecimal IDs, the base-URL fallback chain) and the **form schemas** (login form,
  invoice search).

Modules follow the source files: `SessionCodec` (lib/session.ts), `LoginRoute`,
`SessionRoute` and `LogoutRoute` (app/api/auth/…/route.ts), `EnvSchema` (lib/env.ts),
`Validations` (lib/validations.ts) and `AuthTypes` (types/auth.ts). Around them:

- `Jws` models what the token library's `SignJWT` and `jwtVerify` check;
- `TextCodec` is a reversible text encoding that stands in for base64url and JSON;
- `Zod` models the string checks the schemas use;
- `NextServer` holds the reply type and the `CookieStore` class;
- `AuthFlow` runs one login, check, logout and replay on a single cookie store.

The clock is the parameter `now` (milliseconds since the epoch), and HMAC-SHA-256 is the
parameter `mac: (key, signingInput) -> signature`. A cookie value is a plain string, so the
session check is modelled over arbitrary text, malformed and attacker-supplied included.

## Expiry, exactly

`encryptSession` sets the `exp` claim from `new Date(expires_at)`. The library stores this
as whole seconds, `floor(expires_at / 1000)`. `jwtVerify` then refuses a token once
`exp <= floor(now / 1000)`. Afterwards `decryptSession` also refuses when
`now > expires_at`. Combined (`SessionCodec.RoundTrip`), a token gives back its session
exactly when `now / 1000 < expiresAt / 1000`:

- the token is already refused at the instant `expiresAt` itself (`RefusedAtDeadline`),
  although `isSessionExpired` alone still calls the session live then;
- the millisecond check never refuses a token this code signed (`ExpCheckSubsumesExpiry`).
  It is defence in depth.

Dafny's `/` on `int` is Euclidean. For the positive divisor 1000 it equals JavaScript's
`Math.floor(x / 1000)`, negative `x` included.

## Model

| member | source | states |
|---|---|---|
| `SessionCodec.CreatedSessionLifetime` | lib/session.ts:8-27 | a new session keeps the user, starts at `now`, lasts exactly 86,400,000 ms, and is not expired at its creation instant |
| `SessionCodec.ExpiryBoundary` | lib/session.ts:76-78 | a session is expired iff `now > expiresAt`: still live at `expiresAt`, expired one millisecond later |
| `SessionCodec.EncryptedContents` | lib/session.ts:33-40 | the token has three segments, its header names HS256, and its payload decodes to the user, both instants, and `exp = expiresAt / 1000` |
| `SessionCodec.DecryptSession` | lib/session.ts:48-71 | for any text: a decoded session is never expired at the current clock; an accepted token has three segments, names HS256, carries this secret's MAC of its own header and payload, and its session is exactly the payload's user and instants; the empty string never decodes |
| `SessionCodec.RoundTrip` | lib/session.ts:32-71 | with the same secret, decoding the token of `s` gives `Some(s)` exactly when `now / 1000 < expiresAt / 1000`, and `None` otherwise |
| `SessionCodec.RefusedAtDeadline` | lib/session.ts:39-65 | at `now == expiresAt` the session is not expired, yet its token is refused by the whole-second `exp` check |
| `SessionCodec.ExpCheckSubsumesExpiry` | lib/session.ts:62-65 | for claims signed by this code, passing the `exp` check implies the session is not expired |
| `SessionCodec.FreshTokenAccepted` | lib/session.ts:20-43 | the token of a freshly created session decodes to that session for any clock before the 86,400th second after creation |
| `SessionCodec.ExpiredTokenRefused` | lib/session.ts:62-65 | once a session is expired, its token decodes to `None` |
| `SessionCodec.WrongSecretRefused` | lib/session.ts:51-54 | a token signed with another secret decodes to `None` whenever the MAC tells the two secrets apart |
| `SessionCodec.ForeignAlgorithmTokenRefused` | lib/session.ts:52-54 | a token whose header names an algorithm other than HS256 decodes to `None`, whatever its signature |
| `SessionCodec.MalformedTokenRefused` | lib/session.ts:51-70 | text that is not three `.`-separated segments decodes to `None` rather than failing |
| `SessionCodec.SessionCookieOptions` | lib/session.ts:83-91 | cookie lifetime in seconds times 1000 is the session duration; `secure` iff NODE_ENV is "production"; httpOnly, sameSite lax, path "/" |
| `Jws.JwtVerify` | lib/session.ts:52-54 | for any text: an accepted token has three segments, a header algorithm on the allow-list, a signature equal to the key's MAC of its header and payload segments, and claims decoded from its payload whose `exp` is later than the current whole second |
| `Jws.AcceptedTokenShape` | lib/session.ts:52-54 | an accepted token is exactly its header, payload and signature segments joined by `.`, the last holding the key's MAC of the first two |
| `Jws.VerifySigned` | lib/session.ts:33-54 | a token signed with the verifier's key and HS256 is accepted, with its claims unchanged, exactly while `now / 1000 < exp` |
| `Jws.ForeignAlgorithmRefused` | lib/session.ts:52-54 | the algorithm allow-list `["HS256"]` refuses any other header algorithm |
| `Jws.KeyBinding` | lib/session.ts:13-15 | a token signed under one key is refused under another unless their MACs of its signing input coincide |
| `AuthTypes.ParseRole` | types/auth.ts:9-13 | "admin" is the one role, and its text reads back to it |
| `NextServer.CookieStore.Set` | app/api/auth/login/route.ts:46-47 | setting a cookie replaces that one entry and its attributes and nothing else |
| `NextServer.CookieStore.Delete` | app/api/auth/logout/route.ts:11-12 | deleting a cookie removes that one entry, present or not, and nothing else |
| `Zod.CheckIssues` | lib/validations.ts:12-19 | a string reports no issue iff it passes every check; each issue names its field |
| `Zod.StringField` | lib/env.ts:8-39 | a required string field parses iff present and passing all checks, to its own value; otherwise at least one issue |
| `EnvSchema.ResolveBaseUrl` | lib/env.ts:50-53 | the base URL is NEXT_PUBLIC_BASE_URL if non-empty, else `https://` + VERCEL_URL if that is non-empty, else `http://localhost:3000`; never empty |
| `EnvSchema.ParseEnv` | lib/env.ts:7-40 | the configuration parses iff NOTION_API_KEY is non-empty, both database IDs are 32 lower-case hex characters, ADMIN_USERNAME has ≥ 3, ADMIN_PASSWORD ≥ 8 and SESSION_SECRET ≥ 32 characters; the parsed values are the inputs; any failure yields issues |
| `EnvSchema.LoadedBaseUrl` | lib/env.ts:22-53 | a loaded configuration's base URL is the resolved fallback, so the empty default is never used |
| `EnvSchema.UpperCaseIdRefused` | lib/env.ts:12-21 | a database ID containing an upper-case hex letter is rejected |
| `Validations.ParseLoginForm` | lib/validations.ts:11-20 | the login form parses iff username has ≥ 3 and password ≥ 8 characters; otherwise the username's issues come before the password's |
| `Validations.EmptyUsernameMessages` | lib/validations.ts:12-15 | an empty username reports "사용자명을 입력해주세요" first, then the 3-character rule |
| `Validations.ShortUsernameMessages` | lib/validations.ts:12-15 | a username of 1–2 characters fails the 3-character rule only |
| `Validations.EmptyPasswordMessages` | lib/validations.ts:16-19 | an empty password reports "비밀번호를 입력해주세요" first, then the 8-character rule |
| `Validations.ShortPasswordMessages` | lib/validations.ts:16-19 | a password of 1–7 characters fails the 8-character rule only |
| `Validations.AdminCredentialsPassLoginForm` | lib/validations.ts:11-20 | the administrator credentials of any loaded configuration pass the login form |
| `Validations.ParseInvoiceSearch` | lib/validations.ts:4-6 | the search form parses iff `query` is absent or a string, keeping it as given |
| `LoginRoute.LoginReply` | app/api/auth/login/route.ts:16-65 | success iff username and password equal the configured ones exactly; then status 200 with user `{id "admin", username, role admin}` and `createSession(user)`; any mismatch gives the same 401 reply; an unreadable body gives 500 |
| `LoginRoute.Post` | app/api/auth/login/route.ts:16-57 | replies as `LoginReply`; on success only, the `session` cookie holds the token of the very session in the reply, with the session cookie attributes; a rejected login leaves the store unchanged |
| `LoginRoute.LoginCookieDecodes` | app/api/auth/login/route.ts:40-53 | the cookie set by a successful login decodes to the session in the reply, for any clock before the second of its deadline |
| `LoginRoute.AcceptedCredentialsPassForm` | app/api/auth/login/route.ts:21-24 | with a loaded configuration, credentials the handler accepts also pass the login form |
| `SessionRoute.SessionReply` | app/api/auth/session/route.ts:10-40 | no cookie or an empty one gives the no-session 401; a cookie that does not decode gives the invalid-session 401; success iff it decodes, with exactly the decoded session |
| `SessionRoute.Get` | app/api/auth/session/route.ts:10-40 | over the cookie store: no `session` cookie or an empty one gives the no-session 401; a non-empty cookie that does not decode gives the invalid-session 401; success iff the cookie decodes, with status 200, exactly the decoded session and no error |
| `SessionRoute.CheckSignedToken` | app/api/auth/session/route.ts:24-40 | the token of a session is answered with that very session, unextended, before the second of its deadline, and with the invalid-session reply afterwards |
| `SessionRoute.WrongSecretLooksExpired` | app/api/auth/session/route.ts:24-32 | a live token signed with another secret gets the same reply as an expired token signed with the right one |
| `LogoutRoute.Post` | app/api/auth/logout/route.ts:9-17 | afterwards there is no `session` cookie, every other cookie is unchanged, and the reply is success with "로그아웃 성공", whether or not a session existed |
| `AuthFlow.LoginCheckLogout` | app/api/auth/session/route.ts:13-38 | after a login, a check, and a repeated check, both give the login's session; after logout the check reports no session; the token taken before logout is still accepted; only the `session` cookie is gone at the end |

The session check itself (`SessionRoute.Get`) is a function that `reads` the cookie store,
so it cannot change the store. Two calls with the same store and clock give the same reply.

## Left out

- HMAC-SHA-256 is the parameter `mac`. Unforgeability and tamper detection are properties
  of the cryptography, not of this code. `WrongSecretRefused` therefore assumes the MAC
  separates the two keys.
- The UTF-8 encoding of the secret is left out; the key is the secret text itself.
- The base64url and JSON layers of the token are replaced by `TextCodec`, which has the
  same '.'-separated shape but is not the wire format. The JOSE header carries only `alg`.
- RoundTrip: states acceptance up to the last whole second before `expiresAt`, not up to
  `expiresAt` itself, because the library's `exp` check in whole seconds refuses a token
  from the start of the second that holds its deadline (see "Expiry, exactly").
- The library reads the clock itself, a moment after `decryptSession` is called. Both
  reads are the single parameter `now`.
- The payload is read as typed data: the role must read "admin" and the instants must be
  integers. The source casts the payload unchecked, but only this code holds the key
  that signs payloads.
- JavaScript numbers are IEEE doubles; instants are unbounded integers here. They are
  exact up to 2^53 ms.
- `async`/`await`, the `cookies()` accessor and `console.error` are framework I/O and are
  left out.
- The 500 replies of the session and logout routes come only from those framework calls
  failing, so they are left out. In the login route, the 500 reply is modelled for a
  request body that is not valid JSON or is JSON `null`. Any other JSON value without
  string `username`/`password` members is a credential mismatch (401). A failure inside
  signing or inside `cookies()` is not modelled.
- The cookie store stands for the client's cookies across requests. Deleting a cookie
  (a Set-Cookie header that expires it) is modelled as removing the entry. The
  attributes of cookies that arrive with a request are not tracked.
- NODE_ENV is the parameter `nodeEnv`, read where the cookie attributes are built.
- Zod measures length in UTF-16 code units, and Dafny in characters. A character outside
  the Basic Multilingual Plane counts twice in the source and once here.
- The text of Zod's missing-value and wrong-type issues is not modelled; such an issue is
  `InvalidType(field)`. `.describe` metadata is left out.
- Only the authentication routes, the session codec and the two schema files are
  modelled. The invoice pages and their database client, the React error and layout
  pages, the framework configuration and the browser tests are not part of this model.
