/** The mentor sign-in page: a login tab and a sign-up tab. */
module AuthPage {
  import opened JsValues
  import opened JsStrings
  import opened Fetch
  import opened FormSubmit

  datatype LoginData = LoginData(email: string, password: string)

  datatype SignupData = SignupData(
    name: string, email: string, password: string, confirmPassword: string,
    department: string, contact: string)

  datatype AuthState = AuthState(login: LoginData, signup: SignupData)

  const BlankSignup := SignupData("", "", "", "", "", "")

  const InitialAuth := AuthState(LoginData("", ""), BlankSignup)

  const MismatchMessage := "Passwords do not match"
  const ShortPasswordMessage := "Password must be at least 6 characters long"
  const SignupSuccessText := "Account created successfully! Please sign in."
  const SignupFallbackText := "Signup failed"
  const LoginSuccessText := "Login successful!"
  const LoginFallbackText := "Login failed"

  /** The shortest password the page sends, in UTF-16 code units. */
  const MinPasswordLength := 6

  /** The two checks made before any request, in order. */
  function CheckSignup(s: SignupData): (e: Option<string>)
    ensures s.password != s.confirmPassword ==> e == Some(MismatchMessage)
    ensures s.password == s.confirmPassword && Utf16Length(s.password) < MinPasswordLength ==>
      e == Some(ShortPasswordMessage)
    ensures e.None? <==> s.password == s.confirmPassword && Utf16Length(s.password) >= MinPasswordLength
  {
    if s.password != s.confirmPassword then Some(MismatchMessage)
    else if Utf16Length(s.password) < MinPasswordLength then Some(ShortPasswordMessage)
    else None
  }

  /** The sign-up request body: the confirmation is not sent. */
  function SignupBody(s: SignupData): (body: Json)
    ensures body.JObj? && body.fields.Keys == {"email", "password", "name", "department", "contact"}
    ensures body.fields["email"] == JStr(s.email) && body.fields["password"] == JStr(s.password)
    ensures body.fields["name"] == JStr(s.name) && body.fields["department"] == JStr(s.department)
    ensures body.fields["contact"] == JStr(s.contact)
  {
    JObj(map["email" := JStr(s.email), "password" := JStr(s.password), "name" := JStr(s.name),
             "department" := JStr(s.department), "contact" := JStr(s.contact)])
  }

  /** The page after a successful sign-up: the sign-up tab is cleared and the
      login tab is primed with the new account's e-mail address. */
  function AfterSignup(st: AuthState): AuthState {
    AuthState(LoginData(st.signup.email, ""), BlankSignup)
  }

  /** `handleSignup`. */
  function HandleSignup(st: AuthState, outcome: FetchOutcome): (r: Submission<AuthState>)
    ensures r.request.Some? <==> CheckSignup(st.signup).None?
    ensures r.request.Some? ==> r.request.value == SignupBody(st.signup)
    ensures r.completed <==> r.request.Some? && outcome.Answered? && outcome.ok
    ensures r.completed ==>
      r.toast == Success(SignupSuccessText) && r.state == AuthState(LoginData(st.signup.email, ""), BlankSignup)
    ensures !r.completed ==> r.state == st && r.toast.Failure?
    ensures st.signup.password != st.signup.confirmPassword ==> r.toast == Failure(MismatchMessage)
    ensures r.request.Some? && outcome.Answered? && !outcome.ok ==>
      r.toast == Failure(ErrorText(outcome.data, SignupFallbackText))
  {
    SubmitForm(st, AfterSignup(st), CheckSignup(st.signup), SignupBody(st.signup), outcome,
               SignupSuccessText, SignupFallbackText)
  }

  /** A password of three characters outside the Basic Multilingual Plane
      is accepted: each counts as two UTF-16 code units, and the length check
      counts code units, not characters. */
  lemma ShortPasswordOfAstralCharsAccepted(s: SignupData)
    requires s.password == s.confirmPassword && |s.password| == 3
    requires forall i :: 0 <= i < |s.password| ==> s.password[i] as int >= 0x1_0000
    ensures CheckSignup(s).None?
  {
    var p := s.password;
    assert p == [p[0]] + ([p[1]] + [p[2]]);
    assert p[1..] == [p[1]] + [p[2]];
    assert p[1..][1..] == [p[2]];
    assert p[1..][1..][1..] == [];
    assert Utf16Length(p[1..][1..]) == 2;
    assert Utf16Length(p[1..]) == 4;
    assert Utf16Length(p) == 6;
  }

  /** The login request body. */
  function LoginBody(l: LoginData): (body: Json)
    ensures body.JObj? && body.fields.Keys == {"email", "password"}
    ensures body.fields["email"] == JStr(l.email) && body.fields["password"] == JStr(l.password)
  {
    JObj(map["email" := JStr(l.email), "password" := JStr(l.password)])
  }

  /** What `handleLogin` does: the toast, and the `user` and `access_token`
      handed to `onLogin` when it is called (`None` is `undefined`). */
  datatype LoginResult = LoginResult(toast: Toast, onLogin: Option<(Option<Json>, Option<Json>)>)

  /** A property of the reply body: `undefined` unless the body is an object
      that has it. */
  function Property(data: Json, key: string): (v: Option<Json>)
    ensures v.Some? <==> data.JObj? && key in data.fields
    ensures v.Some? ==> v.value == data.fields[key]
  {
    if data.JObj? then Get(data.fields, key) else None
  }

  /** `handleLogin`. The login request is always sent. */
  function HandleLogin(l: LoginData, outcome: FetchOutcome): (r: LoginResult)
    ensures r.onLogin.Some? <==> outcome.Answered? && outcome.ok && !outcome.data.JNull?
    ensures r.onLogin.Some? ==>
      r.toast == Success(LoginSuccessText)
      && r.onLogin.value == (Property(outcome.data, "user"), Property(outcome.data, "access_token"))
    ensures outcome.Failed? ==> r.toast == Failure(outcome.message)
    ensures outcome.Answered? && !outcome.ok ==> r.toast == Failure(ErrorText(outcome.data, LoginFallbackText))
    ensures outcome.Answered? && outcome.ok && outcome.data.JNull? ==> r.toast == Failure(TypeErrorMessage)
  {
    match outcome
    case Failed(message) => LoginResult(Failure(message), None)
    case Answered(ok, data) =>
      if !ok then LoginResult(Failure(ErrorText(data, LoginFallbackText)), None)
      else if data.JNull? then LoginResult(Failure(TypeErrorMessage), None)
      else LoginResult(Success(LoginSuccessText),
                       Some((Property(data, "user"), Property(data, "access_token"))))
  }

  /** Signing up and then logging in with the primed login tab sends the new
      account's e-mail address and whatever password is typed. */
  lemma SignupPrimesLogin(st: AuthState, outcome: FetchOutcome, password: string)
    requires HandleSignup(st, outcome).completed
    ensures var l := HandleSignup(st, outcome).state.login.(password := password);
      LoginBody(l).fields["email"] == SignupBody(st.signup).fields["email"]
  {
  }
}
