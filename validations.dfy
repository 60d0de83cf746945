/** The form schemas: the login form and the invoice search box. */
module Validations {
  import opened Wrappers
  import opened Zod
  import EnvSchema

  const USERNAME_REQUIRED: string := "사용자명을 입력해주세요"
  const USERNAME_TOO_SHORT: string := "사용자명은 최소 3자 이상이어야 합니다"
  const PASSWORD_REQUIRED: string := "비밀번호를 입력해주세요"
  const PASSWORD_TOO_SHORT: string := "비밀번호는 최소 8자 이상이어야 합니다"

  const USERNAME_CHECKS: seq<StringCheck> := [MinLength(1, USERNAME_REQUIRED), MinLength(3, USERNAME_TOO_SHORT)]
  const PASSWORD_CHECKS: seq<StringCheck> := [MinLength(1, PASSWORD_REQUIRED), MinLength(8, PASSWORD_TOO_SHORT)]

  datatype LoginFormData = LoginFormData(username: string, password: string)

  /** `loginSchema.safeParse`: the form data, or the username's issues followed by the password's. */
  function ParseLoginForm(username: Option<string>, password: Option<string>): (r: Result<LoginFormData, seq<Issue>>)
    ensures r.Success? <==> username.Some? && |username.value| >= 3 && password.Some? && |password.value| >= 8
    ensures r.Success? ==> r.value == LoginFormData(username.value, password.value)
    ensures r.Failure? ==> r.error == UsernameIssues(username) + PasswordIssues(password) && |r.error| >= 1
  {
    assert USERNAME_CHECKS[1].min == 3 && PASSWORD_CHECKS[1].min == 8;
    var u := StringField("username", username, USERNAME_CHECKS);
    var p := StringField("password", password, PASSWORD_CHECKS);
    if u.Success? && p.Success? then Success(LoginFormData(u.value, p.value))
    else Failure(UsernameIssues(username) + PasswordIssues(password))
  }

  function UsernameIssues(username: Option<string>): seq<Issue> {
    FieldIssues("username", username, USERNAME_CHECKS)
  }

  function PasswordIssues(password: Option<string>): seq<Issue> {
    FieldIssues("password", password, PASSWORD_CHECKS)
  }

  /** The value of the search form: a query, or none. */
  datatype InvoiceSearchFormData = InvoiceSearchFormData(query: Option<string>)

  /** The `query` member of the submitted object, as JavaScript would see it. */
  datatype QueryValue = Absent | Text(text: string) | NotText

  /** `invoiceSearchSchema.safeParse`: an optional string query. */
  function ParseInvoiceSearch(query: QueryValue): (r: Result<InvoiceSearchFormData, seq<Issue>>)
    ensures r.Success? <==> !query.NotText?
    ensures query.Text? ==> r == Success(InvoiceSearchFormData(Some(query.text)))
    ensures query.Absent? ==> r == Success(InvoiceSearchFormData(None))
    ensures r.Failure? ==> r.error == [InvalidType("query")]
  {
    match query
    case Absent => Success(InvoiceSearchFormData(None))
    case Text(t) => Success(InvoiceSearchFormData(Some(t)))
    case NotText => Failure([InvalidType("query")])
  }

  // ---------------------------------------------------------------------------
  // Properties

  /** An empty username reports "please enter a username" first, then the length rule. */
  lemma EmptyUsernameMessages()
    ensures UsernameIssues(Some("")) == [Failed("username", USERNAME_REQUIRED), Failed("username", USERNAME_TOO_SHORT)]
  {
    TwoChecks("username", "", USERNAME_CHECKS);
  }

  /** A username of one or two characters fails the length rule only. */
  lemma ShortUsernameMessages(username: string)
    requires 1 <= |username| <= 2
    ensures UsernameIssues(Some(username)) == [Failed("username", USERNAME_TOO_SHORT)]
  {
    TwoChecks("username", username, USERNAME_CHECKS);
  }

  /** An empty password reports "please enter a password" first, then the length rule. */
  lemma EmptyPasswordMessages()
    ensures PasswordIssues(Some("")) == [Failed("password", PASSWORD_REQUIRED), Failed("password", PASSWORD_TOO_SHORT)]
  {
    TwoChecks("password", "", PASSWORD_CHECKS);
  }

  /** A password of one to seven characters fails the length rule only. */
  lemma ShortPasswordMessages(password: string)
    requires 1 <= |password| <= 7
    ensures PasswordIssues(Some(password)) == [Failed("password", PASSWORD_TOO_SHORT)]
  {
    TwoChecks("password", password, PASSWORD_CHECKS);
  }

  /** The configured administrator credentials always pass the login form: the bounds 3 and 8 coincide. */
  lemma AdminCredentialsPassLoginForm(p: EnvSchema.ProcessEnv)
    requires EnvSchema.LoadEnv(p).Success?
    ensures ParseLoginForm(Some(EnvSchema.LoadEnv(p).value.adminUsername),
                           Some(EnvSchema.LoadEnv(p).value.adminPassword)).Success?
  {
  }
}
