/**
  The authentication context (`AuthProvider`): the in-memory current user,
  initialised from the session slot, and the cached list of login users
  (the predefined ones followed by the dynamic ones). `login` takes a user id,
  not credentials; the credential check lives in the login page.
 */
module AuthContext {
  import opened Base
  import opened Records
  import opened StorageService
  import SeedData

  datatype AuthState = AuthState(currentUser: Option<Rec>, combinedUsers: seq<Rec>)

  /** The outcome of `login`/`logout`: the returned user, the new context
      state, and the store after the writes. */
  datatype AuthStep = AuthStep(user: Option<Rec>, auth: AuthState, store: Store)

  /** The context state and the store agree on who is signed in. */
  predicate InSync(auth: AuthState, store: Store)
  {
    auth.currentUser == GetMockUser(store)
  }

  /** The state on first render: `useState(getMockUser())` and an empty list. */
  function InitialState(store: Store): (a: AuthState)
    ensures a.currentUser == GetMockUser(store)
    ensures InSync(a, store)
    ensures a.combinedUsers == []
  {
    AuthState(GetMockUser(store), [])
  }

  /** `loadAndCombineUsers`: the predefined users followed by the dynamic ones,
      which are read without seed data. */
  function LoadAndCombineUsers(auth: AuthState, store: Store): (r: Step<AuthState>)
    ensures var dyn := GetAllDynamicUsers(store, []);
      r.value.combinedUsers == SeedData.PredefinedUsers() + dyn.value && r.store == dyn.store
    ensures r.value.currentUser == auth.currentUser
    ensures |r.value.combinedUsers| > 0
    ensures OnlyTouches(store, r.store, DynamicUsersKey)
  {
    var dyn := GetAllDynamicUsers(store, []);
    Step(auth.(combinedUsers := SeedData.PredefinedUsers() + dyn.value), dyn.store)
  }

  /** The provider after its mount effect has run. */
  function Mount(store: Store): (r: Step<AuthState>)
    ensures InSync(r.value, r.store)
    ensures r.value.currentUser == GetMockUser(store)
    ensures |r.value.combinedUsers| > 0
  {
    LoadAndCombineUsers(InitialState(store), store)
  }

  /** The list `login` searches: the cached one, or a fresh load when the
      cache is still empty. */
  function LoginList(auth: AuthState, store: Store): (r: Step<AuthState>)
    ensures r.value.currentUser == auth.currentUser
    ensures |auth.combinedUsers| > 0 ==> r == Step(auth, store)
    ensures OnlyTouches(store, r.store, DynamicUsersKey)
  {
    if |auth.combinedUsers| > 0 then Step(auth, store) else LoadAndCombineUsers(auth, store)
  }

  /** The search inside `login(id)` over an already loaded list: the first
      user with the id is stored in the session slot and becomes the current
      user; with none, nothing changes. */
  function SignInFrom(auth: AuthState, store: Store, id: Option<Value>): (r: AuthStep)
    ensures var list := auth.combinedUsers;
      r.user.Some? ==> exists i :: 0 <= i < |list| && list[i] == r.user.value &&
                         forall j :: 0 <= j < i ==> IdOf(list[j]) != id
    ensures var list := auth.combinedUsers;
      r.user.None? <==> forall i :: 0 <= i < |list| ==> IdOf(list[i]) != id
    ensures r.user.Some? ==> IdOf(r.user.value) == id
    ensures r.user.Some? ==> r.auth == auth.(currentUser := r.user) && r.store == SetMockUser(store, r.user.value)
    ensures r.user.None? ==> r.auth == auth && r.store == store
  {
    match Find(auth.combinedUsers, (u: Rec) => IdOf(u) == id)
    case Some(u) => AuthStep(Some(u), auth.(currentUser := Some(u)), SetMockUser(store, u))
    case None => AuthStep(None, auth, store)
  }

  /** `login(id)`: when some user in the list has the id, the first such user
      is stored in the session slot, becomes the current user and is
      returned. Otherwise it returns nothing and leaves the current user and
      the session slot as they were. */
  function Login(auth: AuthState, store: Store, id: Option<Value>): (r: AuthStep)
    ensures var list := LoginList(auth, store).value.combinedUsers;
      r.user.Some? ==> exists i :: 0 <= i < |list| && list[i] == r.user.value &&
                         forall j :: 0 <= j < i ==> IdOf(list[j]) != id
    ensures var list := LoginList(auth, store).value.combinedUsers;
      r.user.None? <==> forall i :: 0 <= i < |list| ==> IdOf(list[i]) != id
    ensures r.user.Some? ==> IdOf(r.user.value) == id
    ensures r.user.Some? ==> r.auth.currentUser == r.user && GetMockUser(r.store) == r.user
    ensures r.user.None? ==> r.auth.currentUser == auth.currentUser
    ensures r.user.None? ==> Read(r.store, CurrentUserKey) == Read(store, CurrentUserKey)
    ensures |auth.combinedUsers| > 0 ==> r.auth.combinedUsers == auth.combinedUsers
    ensures forall k :: k != CurrentUserKey && k != DynamicUsersKey ==> Read(r.store, k) == Read(store, k)
  {
    var loaded := LoginList(auth, store);
    SignInFrom(loaded.value, loaded.store, id)
  }

  /** `logout`: clears both the session slot and the in-memory user. */
  function Logout(auth: AuthState, store: Store): (r: AuthStep)
    ensures r.user.None? && r.auth.currentUser.None?
    ensures GetMockUser(r.store) == None && Read(r.store, CurrentUserKey) == Missing
    ensures r.auth.combinedUsers == auth.combinedUsers
    ensures OnlyTouches(store, r.store, CurrentUserKey)
  {
    AuthStep(None, auth.(currentUser := None), ClearMockUser(store))
  }

  /** Logging out twice is logging out once. */
  lemma LogoutIdempotent(auth: AuthState, store: Store)
    ensures var once := Logout(auth, store);
      Logout(once.auth, once.store) == once
  {
  }

  /** `login` and `logout` keep the in-memory user and the session slot in
      agreement: a successful login and a logout re-establish it, and a
      failed login preserves it. */
  lemma SessionStaysInSync(auth: AuthState, store: Store, id: Option<Value>)
    ensures var r := Logout(auth, store); InSync(r.auth, r.store)
    ensures var r := Login(auth, store, id); r.user.Some? ==> InSync(r.auth, r.store)
    ensures InSync(auth, store) ==> var r := Login(auth, store, id); InSync(r.auth, r.store)
  {
    var r := Login(auth, store, id);
    if r.user.None? {
      assert Read(r.store, CurrentUserKey) == Read(store, CurrentUserKey);
    }
  }

  /** A predefined user always wins over a dynamic user with the same id,
      since the predefined users come first in the list `login` searches:
      both before the mount effect (empty cache, loaded on demand) and after
      it (the cache starts with the predefined users). */
  lemma PredefinedUsersShadow(auth: AuthState, store: Store, id: Option<Value>, i: nat)
    requires var pre := SeedData.PredefinedUsers();
      auth.combinedUsers == [] ||
      (|pre| <= |auth.combinedUsers| && auth.combinedUsers[..|pre|] == pre)
    requires i < |SeedData.PredefinedUsers()| && IdOf(SeedData.PredefinedUsers()[i]) == id
    ensures var r := Login(auth, store, id);
      r.user.Some? && r.user.value in SeedData.PredefinedUsers()
  {
    var pre := SeedData.PredefinedUsers();
    var list := LoginList(auth, store).value.combinedUsers;
    if auth.combinedUsers == [] {
      assert list == pre + GetAllDynamicUsers(store, []).value;
    }
    PrefixShadows(auth, store, pre, id, i);
  }

  /** When the list `login` searches starts with `pre`, an id held by
      `pre[i]` signs in a user of `pre`. */
  lemma PrefixShadows(auth: AuthState, store: Store, pre: seq<Rec>, id: Option<Value>, i: nat)
    requires var list := LoginList(auth, store).value.combinedUsers;
      |pre| <= |list| && list[..|pre|] == pre
    requires i < |pre| && IdOf(pre[i]) == id
    ensures var r := Login(auth, store, id);
      r.user.Some? && r.user.value in pre
  {
    var list := LoginList(auth, store).value.combinedUsers;
    ShadowedBy(pre, list, id, i);
    var r := Login(auth, store, id);
    var k :| 0 <= k < |list| && list[k] == r.user.value && forall j :: 0 <= j < k ==> IdOf(list[j]) != id;
    assert k <= i;
    assert list[k] == pre[k];
  }

  /** The mounted provider's cache starts with the predefined users, so
      `PredefinedUsersShadow` applies to it. */
  lemma MountedCacheStartsWithPredefined(store: Store)
    ensures var pre := SeedData.PredefinedUsers();
      var list := Mount(store).value.combinedUsers;
      |pre| <= |list| && list[..|pre|] == pre
  {
    var pre := SeedData.PredefinedUsers();
    var dyn := GetAllDynamicUsers(store, []).value;
    assert (pre + dyn)[..|pre|] == pre;
  }

  /** A list that starts with `pre` has the id of `pre[i]` at position `i`. */
  lemma ShadowedBy(pre: seq<Rec>, list: seq<Rec>, id: Option<Value>, i: nat)
    requires |pre| <= |list| && list[..|pre|] == pre
    requires i < |pre| && IdOf(pre[i]) == id
    ensures list[i] == pre[i] && IdOf(list[i]) == id
    ensures forall k :: 0 <= k <= i ==> list[k] == pre[k]
  {
    forall k | 0 <= k <= i
      ensures list[k] == pre[k]
    {
      assert list[..|pre|][k] == list[k];
    }
  }
}
