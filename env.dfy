/**
 * The configuration read once at start-up: every variable is checked by its rule,
 * and the base URL is resolved through a fallback chain before it is checked.
 * A configuration that fails any rule stops the process.
 */
module EnvSchema {
  import opened Wrappers
  import opened Zod

  /** The process environment; `None` is an unset variable. */
  datatype ProcessEnv = ProcessEnv(
    notionApiKey: Option<string>,
    notionDatabaseId: Option<string>,
    notionItemsDatabaseId: Option<string>,
    nextPublicBaseUrl: Option<string>,
    vercelUrl: Option<string>,
    adminUsername: Option<string>,
    adminPassword: Option<string>,
    sessionSecret: Option<string>)

  /** The object handed to the schema. */
  datatype EnvInput = EnvInput(
    notionApiKey: Option<string>,
    notionDatabaseId: Option<string>,
    notionItemsDatabaseId: Option<string>,
    nextPublicBaseUrl: Option<string>,
    adminUsername: Option<string>,
    adminPassword: Option<string>,
    sessionSecret: Option<string>)

  /** The validated configuration. */
  datatype Env = Env(
    notionApiKey: string,
    notionDatabaseId: string,
    notionItemsDatabaseId: string,
    nextPublicBaseUrl: string,
    adminUsername: string,
    adminPassword: string,
    sessionSecret: string)

  const LOCAL_BASE_URL: string := "http://localhost:3000"

  const NOTION_API_KEY_CHECKS: seq<StringCheck> := [MinLength(1, "NOTION_API_KEY is required")]
  const NOTION_DATABASE_ID_CHECKS: seq<StringCheck> :=
    [MinLength(1, "NOTION_DATABASE_ID is required"),
     LowerHexId("NOTION_DATABASE_ID must be a valid 32-char hex ID")]
  const NOTION_ITEMS_DATABASE_ID_CHECKS: seq<StringCheck> :=
    [MinLength(1, "NOTION_ITEMS_DATABASE_ID is required"),
     LowerHexId("NOTION_ITEMS_DATABASE_ID must be a valid 32-char hex ID")]
  const ADMIN_USERNAME_CHECKS: seq<StringCheck> := [MinLength(3, "ADMIN_USERNAME must be at least 3 characters")]
  const ADMIN_PASSWORD_CHECKS: seq<StringCheck> := [MinLength(8, "ADMIN_PASSWORD must be at least 8 characters")]
  const SESSION_SECRET_CHECKS: seq<StringCheck> :=
    [MinLength(32, "SESSION_SECRET must be at least 32 characters for security")]

  /** JavaScript truthiness of an environment variable: set and non-empty. */
  predicate Truthy(v: Option<string>) {
    v.Some? && v.value != ""
  }

  /** NEXT_PUBLIC_BASE_URL, else https:// VERCEL_URL, else the local development URL. */
  function ResolveBaseUrl(p: ProcessEnv): (url: string)
    ensures url != ""
    ensures Truthy(p.nextPublicBaseUrl) ==> url == p.nextPublicBaseUrl.value
    ensures !Truthy(p.nextPublicBaseUrl) && Truthy(p.vercelUrl) ==> url == "https://" + p.vercelUrl.value
    ensures !Truthy(p.nextPublicBaseUrl) && !Truthy(p.vercelUrl) ==> url == LOCAL_BASE_URL
  {
    var vercel := if Truthy(p.vercelUrl) then "https://" + p.vercelUrl.value else "";
    if Truthy(p.nextPublicBaseUrl) then p.nextPublicBaseUrl.value
    else if vercel != "" then vercel
    else LOCAL_BASE_URL
  }

  function InputOf(p: ProcessEnv): EnvInput {
    EnvInput(p.notionApiKey, p.notionDatabaseId, p.notionItemsDatabaseId, Some(ResolveBaseUrl(p)),
             p.adminUsername, p.adminPassword, p.sessionSecret)
  }

  /** Every rule of the schema, field by field. */
  predicate Acceptable(i: EnvInput) {
    && i.notionApiKey.Some? && |i.notionApiKey.value| >= 1
    && i.notionDatabaseId.Some? && IsLowerHexId(i.notionDatabaseId.value)
    && i.notionItemsDatabaseId.Some? && IsLowerHexId(i.notionItemsDatabaseId.value)
    && i.adminUsername.Some? && |i.adminUsername.value| >= 3
    && i.adminPassword.Some? && |i.adminPassword.value| >= 8
    && i.sessionSecret.Some? && |i.sessionSecret.value| >= 32
  }

  /** `envSchema.parse(input)`: the configuration, or every issue of every field in schema order. */
  function ParseEnv(i: EnvInput): (r: Result<Env, seq<Issue>>)
    ensures r.Success? <==> Acceptable(i)
    ensures r.Failure? ==> |r.error| >= 1
    ensures r.Success? ==> r.value == Env(
      i.notionApiKey.value, i.notionDatabaseId.value, i.notionItemsDatabaseId.value,
      if i.nextPublicBaseUrl.Some? then i.nextPublicBaseUrl.value else "",
      i.adminUsername.value, i.adminPassword.value, i.sessionSecret.value)
  {
    var apiKey := StringField("NOTION_API_KEY", i.notionApiKey, NOTION_API_KEY_CHECKS);
    var databaseId := StringField("NOTION_DATABASE_ID", i.notionDatabaseId, NOTION_DATABASE_ID_CHECKS);
    var itemsDatabaseId :=
      StringField("NOTION_ITEMS_DATABASE_ID", i.notionItemsDatabaseId, NOTION_ITEMS_DATABASE_ID_CHECKS);
    var baseUrl := if i.nextPublicBaseUrl.Some? then i.nextPublicBaseUrl.value else "";
    var username := StringField("ADMIN_USERNAME", i.adminUsername, ADMIN_USERNAME_CHECKS);
    var password := StringField("ADMIN_PASSWORD", i.adminPassword, ADMIN_PASSWORD_CHECKS);
    var secret := StringField("SESSION_SECRET", i.sessionSecret, SESSION_SECRET_CHECKS);
    if apiKey.Success? && databaseId.Success? && itemsDatabaseId.Success?
       && username.Success? && password.Success? && secret.Success?
    then
      Success(Env(apiKey.value, databaseId.value, itemsDatabaseId.value, baseUrl,
                  username.value, password.value, secret.value))
    else
      Failure(FieldIssues("NOTION_API_KEY", i.notionApiKey, NOTION_API_KEY_CHECKS)
            + FieldIssues("NOTION_DATABASE_ID", i.notionDatabaseId, NOTION_DATABASE_ID_CHECKS)
            + FieldIssues("NOTION_ITEMS_DATABASE_ID", i.notionItemsDatabaseId, NOTION_ITEMS_DATABASE_ID_CHECKS)
            + FieldIssues("ADMIN_USERNAME", i.adminUsername, ADMIN_USERNAME_CHECKS)
            + FieldIssues("ADMIN_PASSWORD", i.adminPassword, ADMIN_PASSWORD_CHECKS)
            + FieldIssues("SESSION_SECRET", i.sessionSecret, SESSION_SECRET_CHECKS))
  }

  /** The configuration the process starts with. */
  function LoadEnv(p: ProcessEnv): Result<Env, seq<Issue>> {
    ParseEnv(InputOf(p))
  }

  // ---------------------------------------------------------------------------
  // Properties

  /** A loaded configuration always has a non-empty base URL: the schema's empty default is never used. */
  lemma LoadedBaseUrl(p: ProcessEnv)
    requires LoadEnv(p).Success?
    ensures LoadEnv(p).value.nextPublicBaseUrl == ResolveBaseUrl(p)
    ensures LoadEnv(p).value.nextPublicBaseUrl != ""
  {
  }

  /** Upper-case hexadecimal is not a valid database ID. */
  lemma UpperCaseIdRefused(s: string, k: nat)
    requires k < |s| && 'A' <= s[k] <= 'F'
    ensures !IsLowerHexId(s)
  {
  }
}
