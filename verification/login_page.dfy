/**
  The login page's `handleLogin`: a credential check over the predefined and
  dynamic users, followed by `login(id)` in the authentication context and
  navigation to the user's dashboard.
 */
module LoginPage {
  import opened Base
  import opened Records
  import opened StorageService
  import opened AuthContext
  import opened Routing
  import SeedData

  /** The four messages the page can show. */
  datatype LoginError =
    | MissingCredentials   // "Please enter both email and password."
    | UserNotFound         // "User not found. Please check your email."
    | IncorrectPassword    // "Incorrect password. Please try again."
    | LoginFailed          // "Login failed after validation. ..."

  /** An error is shown, or the page navigates, or the handler throws because
      the e-mail lookup reached a user, before any match, whose e-mail is not a
      string. A throw stops the handler; the page stays as it was. */
  datatype LoginResult = Rejected(error: LoginError) | Navigated(to: Route) | Threw

  datatype LoginStep = LoginStep(result: LoginResult, auth: AuthState, store: Store)

  /** The list the page loads on mount: predefined users, then dynamic users. */
  function LoginableUsers(store: Store): (r: Step<seq<Rec>>)
    ensures r.value == SeedData.PredefinedUsers() + GetAllDynamicUsers(store, []).value
    ensures r.store == GetAllDynamicUsers(store, []).store
  {
    var dyn := GetAllDynamicUsers(store, []);
    Step(SeedData.PredefinedUsers() + dyn.value, dyn.store)
  }

  /** `user.email.toLowerCase()`, defined only when the e-mail is a string. */
  function EmailKey(u: Rec): Option<string>
  {
    LowerField(Get(u, Email))
  }

  /** The user's e-mail equals `email` once both are lowered. */
  predicate EmailMatches(u: Rec, email: string)
  {
    EmailKey(u) == Some(Lower(email))
  }

  datatype EmailLookup = Match(index: nat) | NoMatch | Throws

  /** `users.find(u => u.email.toLowerCase() === email.toLowerCase())`. The
      first match wins; a user reached before any match whose e-mail is not a
      string makes the call throw. */
  function FindByEmail(users: seq<Rec>, email: string): (r: EmailLookup)
    ensures r.Match? ==> r.index < |users| && EmailMatches(users[r.index], email)
    ensures r.Match? ==> forall j :: 0 <= j < r.index ==> EmailKey(users[j]).Some? && !EmailMatches(users[j], email)
    ensures r.NoMatch? <==> forall j :: 0 <= j < |users| ==> EmailKey(users[j]).Some? && !EmailMatches(users[j], email)
    ensures r.Throws? ==> exists j :: 0 <= j < |users| && EmailKey(users[j]).None? &&
                           forall k :: 0 <= k < j ==> EmailKey(users[k]).Some? && !EmailMatches(users[k], email)
  {
    if |users| == 0 then NoMatch
    else if EmailKey(users[0]).None? then Throws
    else if EmailMatches(users[0], email) then Match(0)
    else match FindByEmail(users[1..], email)
      case Match(i) => Match(i + 1)
      case NoMatch => NoMatch
      case Throws =>
        assert exists j :: (1 <= j < |users| && EmailKey(users[j]).None? &&
          forall k :: 1 <= k < j ==> EmailKey(users[k]).Some? && !EmailMatches(users[k], email));
        Throws
  }

  /** A user appended after a list where the e-mail finds nobody is the one
      the e-mail finds in the longer list. */
  lemma {:induction false} FindByEmailAppend(users: seq<Rec>, u: Rec, email: string)
    requires FindByEmail(users, email).NoMatch? && EmailMatches(u, email)
    ensures FindByEmail(users + [u], email) == Match(|users|)
    decreases |users|
  {
    if |users| > 0 {
      assert (users + [u])[1..] == users[1..] + [u];
      FindByEmailAppend(users[1..], u, email);
    }
  }

  /** `handleLogin`. Empty fields are rejected before anything else; an e-mail
      no user has is "User not found"; a found user whose password differs
      (exactly, case included) is "Incorrect password"; otherwise `login` is
      called with the found user's id and, when it returns a user, the page
      navigates to that user's dashboard. Only the `login` call can change
      the context or the store. */
  function HandleLogin(email: string, password: string, loginable: seq<Rec>,
                       auth: AuthState, store: Store): (r: LoginStep)
    ensures email == "" || password == "" ==> r == LoginStep(Rejected(MissingCredentials), auth, store)
    ensures r.result == Rejected(UserNotFound) <==>
      email != "" && password != "" && FindByEmail(loginable, email).NoMatch?
    ensures r.result == Rejected(IncorrectPassword) <==>
      email != "" && password != "" && FindByEmail(loginable, email).Match? &&
      Get(loginable[FindByEmail(loginable, email).index], Password) != Some(Str(password))
    ensures r.result == Threw <==>
      email != "" && password != "" && FindByEmail(loginable, email).Throws?
    ensures !r.result.Navigated? && r.result != Rejected(LoginFailed) ==> r.auth == auth && r.store == store
    ensures var found := FindByEmail(loginable, email);
      email != "" && password != "" && found.Match? &&
      Get(loginable[found.index], Password) == Some(Str(password)) ==>
        var step := Login(auth, store, IdOf(loginable[found.index]));
        && r.auth == step.auth && r.store == step.store
        && (r.result.Navigated? <==> step.user.Some?)
        && (step.user.Some? ==> r.result == Navigated(Dashboard(step.user.value)))
        && (step.user.None? ==> r.result == Rejected(LoginFailed))
    ensures r.result.Navigated? ==>
      var found := FindByEmail(loginable, email);
      && found.Match?
      && Get(loginable[found.index], Password) == Some(Str(password))
      && r.auth.currentUser.Some?
      && IdOf(r.auth.currentUser.value) == IdOf(loginable[found.index])
      && GetMockUser(r.store) == r.auth.currentUser
      && r.result.to == Dashboard(r.auth.currentUser.value)
  {
    if email == "" || password == "" then LoginStep(Rejected(MissingCredentials), auth, store)
    else match FindByEmail(loginable, email)
      case Throws => LoginStep(Threw, auth, store)
      case NoMatch => LoginStep(Rejected(UserNotFound), auth, store)
      case Match(i) =>
        var found := loginable[i];
        if Get(found, Password) != Some(Str(password)) then LoginStep(Rejected(IncorrectPassword), auth, store)
        else
          var step := Login(auth, store, IdOf(found));
          match step.user
          case Some(u) => LoginStep(Navigated(Dashboard(u)), step.auth, step.store)
          case None => LoginStep(Rejected(LoginFailed), step.auth, step.store)
  }

  /** `LoginFailed` leaves the session as it was: no navigation, and neither the
      in-memory user nor the session slot changes. */
  lemma LoginFailedKeepsSession(email: string, password: string, loginable: seq<Rec>,
                                auth: AuthState, store: Store)
    ensures var r := HandleLogin(email, password, loginable, auth, store);
      r.result == Rejected(LoginFailed) ==>
        r.auth.currentUser == auth.currentUser && Read(r.store, CurrentUserKey) == Read(store, CurrentUserKey)
  {
  }

  /** When the page and the context see the same list of users with unique ids,
      correct credentials sign in exactly the user the e-mail matched, store
      it in the session slot, and land on that user's dashboard. */
  lemma CorrectCredentialsSignIn(email: string, password: string, auth: AuthState, store: Store)
    requires email != "" && password != ""
    requires |auth.combinedUsers| > 0 && UniqueIds(auth.combinedUsers)
    requires var found := FindByEmail(auth.combinedUsers, email);
      found.Match? && Get(auth.combinedUsers[found.index], Password) == Some(Str(password))
    ensures var users := auth.combinedUsers;
      var u := users[FindByEmail(users, email).index];
      var r := HandleLogin(email, password, users, auth, store);
      && r.result == Navigated(Dashboard(u))
      && r.auth.currentUser == Some(u)
      && GetMockUser(r.store) == Some(u)
  {
    var users := auth.combinedUsers;
    var i := FindByEmail(users, email).index;
    var step := Login(auth, store, IdOf(users[i]));
    var k :| 0 <= k < |users| && users[k] == step.user.value &&
             forall j :: 0 <= j < k ==> IdOf(users[j]) != IdOf(users[i]);
    assert k == i;
  }

  /** Correct credentials for the user at index `i` of the page's list, when
      no earlier user in the context's list `login` searches has the same id
      and that user is at index `k` there, sign that user in and land on
      its dashboard. */
  lemma SignsInFirstIdHolder(email: string, password: string, loginable: seq<Rec>,
                             auth: AuthState, store: Store, k: nat)
    requires email != "" && password != ""
    requires var found := FindByEmail(loginable, email);
      found.Match? && Get(loginable[found.index], Password) == Some(Str(password))
    requires |auth.combinedUsers| > 0
    requires var users := auth.combinedUsers;
      var u := loginable[FindByEmail(loginable, email).index];
      k < |users| && users[k] == u && forall j :: 0 <= j < k ==> IdOf(users[j]) != IdOf(u)
    ensures var u := loginable[FindByEmail(loginable, email).index];
      var r := HandleLogin(email, password, loginable, auth, store);
      && r.result == Navigated(Dashboard(u))
      && r.auth.currentUser == Some(u)
      && GetMockUser(r.store) == Some(u)
  {
    var users := auth.combinedUsers;
    var u := loginable[FindByEmail(loginable, email).index];
    var step := Login(auth, store, IdOf(u));
    assert step.user.Some?;
    var k' :| 0 <= k' < |users| && users[k'] == step.user.value &&
              forall j :: 0 <= j < k' ==> IdOf(users[j]) != IdOf(u);
    assert k' == k;
  }

  /** Correct credentials for a user whose id is missing from the context's
      non-empty cached list end in "Login failed after validation": `login`
      does not reload a non-empty list, and the session stays as it was. */
  lemma StaleContextRefuses(email: string, password: string, loginable: seq<Rec>,
                            auth: AuthState, store: Store)
    requires email != "" && password != ""
    requires var found := FindByEmail(loginable, email);
      found.Match? && Get(loginable[found.index], Password) == Some(Str(password))
    requires |auth.combinedUsers| > 0
    requires var u := loginable[FindByEmail(loginable, email).index];
      forall i :: 0 <= i < |auth.combinedUsers| ==> IdOf(auth.combinedUsers[i]) != IdOf(u)
    ensures HandleLogin(email, password, loginable, auth, store) == LoginStep(Rejected(LoginFailed), auth, store)
  {
    var u := loginable[FindByEmail(loginable, email).index];
    var step := Login(auth, store, IdOf(u));
    assert step.user.None?;
  }

  /** A freshly mounted provider holds the same list the login page loads,
      and loading it again reads the same store. */
  lemma ReloadSeesStoredUsers(store: Store)
    ensures var m := Mount(store);
      && m.value.combinedUsers == LoginableUsers(store).value
      && LoginableUsers(m.store) == Step(LoginableUsers(store).value, m.store)
  {
    GetAllStable(store, DynamicUsersKey, []);
  }

  /** The e-mail comparison ignores case: any spelling of a user's address in
      upper or lower case finds the same user. */
  lemma {:induction false} EmailCaseInsensitive(users: seq<Rec>, email1: string, email2: string)
    requires Lower(email1) == Lower(email2)
    ensures FindByEmail(users, email1) == FindByEmail(users, email2)
    decreases |users|
  {
    if |users| > 0 {
      EmailCaseInsensitive(users[1..], email1, email2);
    }
  }
}
