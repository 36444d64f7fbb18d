/**
  End-to-end runs over the seed data: what an administrator and an employee
  see on a fresh browser, and what the login page does with right and wrong
  credentials.
 */
module Scenarios {
  import opened Base
  import opened Records
  import opened StorageService
  import opened AuthContext
  import opened LoginPage
  import opened Routing
  import SeedData

  /** On a fresh store the login page's list is exactly the predefined users. */
  lemma FreshLoginList(store: Store)
    requires !Read(store, DynamicUsersKey).Arr?
    ensures LoginableUsers(store).value == SeedData.PredefinedUsers()
    ensures Mount(store).value.combinedUsers == SeedData.PredefinedUsers()
  {
    assert GetAllDynamicUsers(store, []).value == [];
  }

  /** The lookup finds the first user when that user has the typed address. */
  lemma FoundFirst(users: seq<Rec>, typed: string)
    requires |users| >= 1 && EmailMatches(users[0], typed)
    ensures FindByEmail(users, typed) == Match(0)
  {
  }

  /** The lookup finds the second user when the first has another string
      address and the second has the typed one. */
  lemma FoundSecond(users: seq<Rec>, typed: string)
    requires |users| >= 2 && EmailKey(users[0]).Some? && !EmailMatches(users[0], typed)
    requires EmailMatches(users[1], typed)
    ensures FindByEmail(users, typed) == Match(1)
  {
    assert users[1..][0] == users[1];
  }

  /** With the found user's password, `handleLogin` navigates to that user's
      landing route with the state `login` leaves. */
  lemma SignsInAt(typed: string, password: string, users: seq<Rec>, auth: AuthState, store: Store, i: nat)
    requires typed != "" && password != ""
    requires FindByEmail(users, typed) == Match(i)
    requires Get(users[i], Password) == Some(Str(password))
    requires Login(auth, store, IdOf(users[i])).user == Some(users[i])
    ensures var step := Login(auth, store, IdOf(users[i]));
      HandleLogin(typed, password, users, auth, store) ==
        LoginStep(Navigated(Dashboard(users[i])), step.auth, step.store)
  {
  }

  /** The administrator's address, typed in any letter case, finds the
      administrator. */
  lemma AdminFoundInAnyCase(typed: string)
    requires Lower(typed) == "admin@example.com"
    ensures FindByEmail(SeedData.PredefinedUsers(), typed) == Match(0)
  {
    var users := SeedData.PredefinedUsers();
    SeedData.UserEmailColumn();
    assert Get(users[0], Email) == SeedData.Column(users, Email)[0];
    assert Lower("admin@example.com") == "admin@example.com";
    FoundFirst(users, typed);
  }

  /** `login` with the administrator's id on a freshly mounted context signs
      the administrator in. */
  lemma AdminLoginById(store: Store)
    requires !Read(store, DynamicUsersKey).Arr?
    ensures var auth := Mount(store);
      var admin := SeedData.PredefinedUsers()[0];
      var step := Login(auth.value, auth.store, IdOf(admin));
      step.user == Some(admin) && step.auth.currentUser == Some(admin) && GetMockUser(step.store) == Some(admin)
  {
    FreshLoginList(store);
    var auth := Mount(store);
    var admin := SeedData.PredefinedUsers()[0];
    var step := Login(auth.value, auth.store, IdOf(admin));
    var k :| 0 <= k < |auth.value.combinedUsers| && auth.value.combinedUsers[k] == step.user.value &&
             forall j :: 0 <= j < k ==> IdOf(auth.value.combinedUsers[j]) != IdOf(admin);
    assert k == 0;
  }

  /** On a fresh browser the administrator signs in with the address typed
      in any letter case, is stored in the session slot, lands on the admin
      dashboard, and the route table renders it. */
  lemma AdminSignsIn(store: Store, typed: string)
    requires !Read(store, DynamicUsersKey).Arr?
    requires Lower(typed) == "admin@example.com"
    ensures var auth := Mount(store);
      var r := HandleLogin(typed, "adminpassword", LoginableUsers(store).value, auth.value, auth.store);
      && r.result == Navigated(AdminDashboardRoute)
      && r.auth.currentUser == Some(SeedData.PredefinedUsers()[0])
      && GetMockUser(r.store) == Some(SeedData.PredefinedUsers()[0])
      && Resolve(r.result.to, r.auth.currentUser) == Render(ShowAdminDashboard)
  {
    var auth := Mount(store);
    var users := SeedData.PredefinedUsers();
    var admin := users[0];
    FreshLoginList(store);
    AdminFoundInAnyCase(typed);
    SeedData.UserPasswordColumn();
    SeedData.UserRoleColumn();
    assert Get(admin, Password) == SeedData.Column(users, Password)[0];
    assert HasRole(admin, "admin") by {
      assert Get(admin, Role) == SeedData.Column(users, Role)[0];
    }
    AdminLoginById(store);
    SignsInAt(typed, "adminpassword", users, auth.value, auth.store, 0);
    GuardedRoutesByRole(AdminDashboardRoute, admin);
  }

  /** Priya's address, in any letter case, finds the second predefined user. */
  lemma PriyaFound(typed: string)
    requires Lower(typed) == "priya.sharma@example.com"
    ensures FindByEmail(SeedData.PredefinedUsers(), typed) == Match(1)
  {
    var users := SeedData.PredefinedUsers();
    SeedData.UserEmailColumn();
    assert Get(users[0], Email) == SeedData.Column(users, Email)[0];
    assert Get(users[1], Email) == SeedData.Column(users, Email)[1];
    assert Lower("admin@example.com") == "admin@example.com";
    assert Lower("priya.sharma@example.com") == "priya.sharma@example.com";
    FoundSecond(users, typed);
  }

  /** A found user whose password differs is refused as an incorrect
      password, with nothing changed. */
  lemma RefusedAt(typed: string, password: string, users: seq<Rec>, auth: AuthState, store: Store, i: nat)
    requires typed != "" && password != ""
    requires FindByEmail(users, typed) == Match(i)
    requires Get(users[i], Password) != Some(Str(password))
    ensures HandleLogin(typed, password, users, auth, store) == LoginStep(Rejected(IncorrectPassword), auth, store)
  {
  }

  /** Priya's address with any password but hers, even the same one in
      another letter case, is refused as an incorrect password, and nothing
      changes. */
  lemma WrongPasswordRefused(auth: AuthState, store: Store, typed: string, password: string)
    requires Lower(typed) == "priya.sharma@example.com"
    requires password != "" && password != "passwordPriya"
    ensures var r := HandleLogin(typed, password, SeedData.PredefinedUsers(), auth, store);
      r == LoginStep(Rejected(IncorrectPassword), auth, store)
  {
    var users := SeedData.PredefinedUsers();
    PriyaFound(typed);
    SeedData.UserPasswordColumn();
    assert Get(users[1], Password) == SeedData.Column(users, Password)[1];
    RefusedAt(typed, password, users, auth, store, 1);
  }

  /** Over users whose e-mails are all strings, an address that matches none
      of them is "User not found", and nothing changes. */
  lemma NotFoundAmong(typed: string, password: string, users: seq<Rec>, auth: AuthState, store: Store)
    requires typed != "" && password != ""
    requires forall j :: 0 <= j < |users| ==> EmailKey(users[j]).Some? && !EmailMatches(users[j], typed)
    ensures HandleLogin(typed, password, users, auth, store) == LoginStep(Rejected(UserNotFound), auth, store)
  {
  }

  /** Any address that, once lowered, is none of the predefined users'
      addresses is "User not found" against the predefined users, whatever
      its letter case, and nothing changes. */
  lemma UnknownAddressRefused(auth: AuthState, store: Store, typed: string, password: string)
    requires typed != "" && password != ""
    requires forall i :: 0 <= i < |SeedData.PredefinedUsers()| ==>
      !EmailMatches(SeedData.PredefinedUsers()[i], typed)
    ensures HandleLogin(typed, password, SeedData.PredefinedUsers(), auth, store) ==
      LoginStep(Rejected(UserNotFound), auth, store)
  {
    var users := SeedData.PredefinedUsers();
    SeedData.UserEmailColumn();
    forall j | 0 <= j < |users|
      ensures EmailKey(users[j]).Some?
    {
      assert Get(users[j], Email) == SeedData.Column(users, Email)[j];
    }
    NotFoundAmong(typed, password, users, auth, store);
  }

  /** An employee who asks for the admin dashboard is sent to its task list,
      which then renders. */
  lemma EmployeeKeptOffAdminPages(r: Route)
    requires IsAdminRoute(r)
    ensures var priya := SeedData.PredefinedUsers()[1];
      && Resolve(r, Some(priya)) == Redirect(EmployeeTasksRoute)
      && Settle(r, Some(priya), 1) == Some(ShowMyTasks)
  {
    var priya := SeedData.PredefinedUsers()[1];
    CrossRoleRedirects(r, priya);
    GuardedRoutesByRole(EmployeeTasksRoute, priya);
  }
}
