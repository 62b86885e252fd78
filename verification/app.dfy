/** The top-level page: which screen is shown, the signed-in mentor, and the
    session kept in `localStorage` across reloads. */
module App {
  import opened JsValues
  import opened Fetch
  import AuthPage

  datatype Screen = Landing | Mentee | MentorAuth | MentorDashboard

  /** A JavaScript value held in a variable; `None` is `undefined`. */
  type Value = Option<Json>

  /** `currentState`, `user`, `accessToken`, and the page's `localStorage`. */
  datatype AppState = AppState(screen: Screen, user: Value, accessToken: Value, storage: map<string, string>)

  const UserKey := "mentor-user"
  const TokenKey := "mentor-token"

  /** The state before the session is restored: the landing screen, a `null`
      user and an empty token, over whatever storage the browser holds. */
  function Initial(storage: map<string, string>): (st: AppState)
    ensures st.screen == Landing && st.storage == storage
    ensures st.user == Some(JNull) && st.accessToken == Some(JStr(""))
  {
    AppState(Landing, Some(JNull), Some(JStr("")), storage)
  }

  /** `localStorage.setItem` stores `String(value)`. */
  function StoredText(v: Value): string {
    if v.None? then "undefined" else ToJsString(v.value)
  }

  /** `localStorage.setItem(key, v)` succeeds: `String(v)` does not throw. */
  predicate Storable(v: Value) {
    v.None? || Convertible(v.value)
  }

  /** `JSON.stringify(v)`, then stored: `JSON.stringify(undefined)` is
      `undefined`. The serialiser is a parameter. */
  function StoredJson(v: Value, stringify: Json -> string): string {
    if v.None? then "undefined" else stringify(v.value)
  }

  /** `localStorage.getItem(key)` is truthy. */
  predicate Saved(storage: map<string, string>, key: string) {
    key in storage && storage[key] != ""
  }

  /** Both keys are kept or both are dropped; every other key is untouched. */
  ghost predicate OthersKept(before: map<string, string>, after: map<string, string>) {
    forall k :: k != UserKey && k != TokenKey ==>
      (k in after <==> k in before) && (k in after ==> after[k] == before[k])
  }

  /** The effect run once on load. `parse` is `JSON.parse`, with `None` for a
      text it rejects: then both keys are removed and nothing else changes. */
  function Restore(st: AppState, parse: string -> Option<Json>): (r: AppState)
    ensures OthersKept(st.storage, r.storage)
    ensures !(Saved(st.storage, UserKey) && Saved(st.storage, TokenKey)) ==> r == st
    ensures Saved(st.storage, UserKey) && Saved(st.storage, TokenKey) ==>
      var parsed := parse(st.storage[UserKey]);
      && (parsed.Some? ==> r == AppState(MentorDashboard, parsed, Some(JStr(st.storage[TokenKey])), st.storage))
      && (parsed.None? ==> r == st.(storage := st.storage - {UserKey, TokenKey}))
  {
    if Saved(st.storage, UserKey) && Saved(st.storage, TokenKey) then
      match parse(st.storage[UserKey])
      case Some(u) => AppState(MentorDashboard, Some(u), Some(JStr(st.storage[TokenKey])), st.storage)
      case None => st.(storage := st.storage - {UserKey, TokenKey})
    else st
  }

  function HandleMenteeSelect(st: AppState): AppState
  {
    st.(screen := Mentee)
  }

  function HandleMentorSelect(st: AppState): AppState
  {
    st.(screen := MentorAuth)
  }

  /** Going back leaves the session as it is. */
  function HandleBackToHome(st: AppState): AppState
  {
    st.(screen := Landing)
  }

  /** The landing page's two buttons and every page's back button only move
      between screens: the session, in memory and in storage, is kept, so
      going back home does not log the mentor out. */
  lemma NavigationKeepsSession(st: AppState)
    ensures var screens := [HandleMenteeSelect(st), HandleMentorSelect(st), HandleBackToHome(st)];
      forall i :: 0 <= i < 3 ==>
        screens[i].user == st.user && screens[i].accessToken == st.accessToken && screens[i].storage == st.storage
    ensures HandleMenteeSelect(st).screen == Mentee
    ensures HandleMentorSelect(st).screen == MentorAuth
    ensures HandleBackToHome(st).screen == Landing
  {
  }

  /** `handleMentorLogin`: the session is shown and saved. The three state
      updates are queued before the writes; a token that is not `Storable`
      makes the second `setItem` throw, so only the user key is saved. */
  function HandleMentorLogin(st: AppState, user: Value, token: Value, stringify: Json -> string): (r: AppState)
    ensures r.screen == MentorDashboard && r.user == user && r.accessToken == token
    ensures OthersKept(st.storage, r.storage)
    ensures UserKey in r.storage && r.storage[UserKey] == StoredJson(user, stringify)
    ensures Storable(token) ==> TokenKey in r.storage && r.storage[TokenKey] == StoredText(token)
    ensures !Storable(token) ==>
      && (TokenKey in r.storage <==> TokenKey in st.storage)
      && (TokenKey in st.storage ==> r.storage[TokenKey] == st.storage[TokenKey])
  {
    var saved := st.storage[UserKey := StoredJson(user, stringify)];
    AppState(MentorDashboard, user, token,
             if Storable(token) then saved[TokenKey := StoredText(token)] else saved)
  }

  /** `handleLogout`: the session is forgotten, in memory and in storage. */
  function HandleLogout(st: AppState): (r: AppState)
    ensures r.screen == Landing && r.user == Some(JNull) && r.accessToken == Some(JStr(""))
    ensures UserKey !in r.storage && TokenKey !in r.storage
    ensures OthersKept(st.storage, r.storage)
  {
    AppState(Landing, Some(JNull), Some(JStr("")), st.storage - {UserKey, TokenKey})
  }

  /** The dashboard is rendered only on its screen, with a truthy user and a
      truthy token; otherwise that screen is blank. */
  predicate DashboardShown(st: AppState) {
    && st.screen == MentorDashboard
    && st.user.Some? && Truthy(st.user.value)
    && st.accessToken.Some? && Truthy(st.accessToken.value)
  }

  /** A session saved by a login survives a reload: with a serialiser that
      `JSON.parse` inverts, the restored page shows the same user and token. */
  lemma LoginSurvivesReload(st: AppState, user: Json, token: string,
                            stringify: Json -> string, parse: string -> Option<Json>)
    requires parse(stringify(user)) == Some(user) && stringify(user) != ""
    requires token != ""
    ensures var saved := HandleMentorLogin(st, Some(user), Some(JStr(token)), stringify).storage;
      var r := Restore(Initial(saved), parse);
      && r.screen == MentorDashboard && r.user == Some(user) && r.accessToken == Some(JStr(token))
      && (Truthy(user) ==> DashboardShown(r))
  {
    var saved := HandleMentorLogin(st, Some(user), Some(JStr(token)), stringify).storage;
    assert saved[TokenKey] == token;
  }

  /** After a logout a reload stays on the landing screen. */
  lemma LogoutSurvivesReload(st: AppState, parse: string -> Option<Json>)
    ensures var saved := HandleLogout(st).storage;
      Restore(Initial(saved), parse) == Initial(saved)
  {
  }

  /** Restoring twice is restoring once. */
  lemma RestoreIdempotent(st: AppState, parse: string -> Option<Json>)
    ensures Restore(Restore(st, parse), parse) == Restore(st, parse)
  {
  }

  /** A login reply without `user` opens the dashboard screen with nothing
      on it, and since `JSON.parse` rejects the stored text `undefined`, the
      next reload drops the session. */
  lemma LoginWithoutUser(st: AppState, token: string, stringify: Json -> string, parse: string -> Option<Json>)
    requires parse("undefined").None?
    requires token != ""
    ensures var r := HandleMentorLogin(st, None, Some(JStr(token)), stringify);
      && r.screen == MentorDashboard && !DashboardShown(r)
      && Restore(Initial(r.storage), parse) == Initial(r.storage - {UserKey, TokenKey})
  {
  }

  /** A successful login reply carrying an object `user` and a non-empty
      string `access_token` shows the dashboard. */
  lemma LoginReplyShowsDashboard(st: AppState, l: AuthPage.LoginData, fields: map<string, Json>,
                                 stringify: Json -> string)
    requires "user" in fields && fields["user"].JObj?
    requires "access_token" in fields && fields["access_token"].JStr? && fields["access_token"].s != ""
    ensures var res := AuthPage.HandleLogin(l, Answered(true, JObj(fields)));
      && res.onLogin.Some?
      && DashboardShown(HandleMentorLogin(st, res.onLogin.value.0, res.onLogin.value.1, stringify))
  {
  }
}
