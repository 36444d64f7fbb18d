/**
  The form that creates an employee: required-field and e-mail checks, the
  employee record, and the login user created alongside it so that the new
  employee can sign in.
 */
module AddEmployeePage {
  import opened Base
  import opened Records
  import opened StorageService
  import opened LoginPage
  import opened AuthContext
  import opened Routing
  import SeedData

  // ---------------------------------------------------------------------------
  // The e-mail check: /\S+@\S+\.\S+/.test(email)
  // ---------------------------------------------------------------------------

  /** `\s` of JavaScript regular expressions: the ASCII blanks, the no-break
      space, and the Unicode space separators and line terminators it lists. */
  predicate IsSpace(c: char)
  {
    c == ' ' || '\t' <= c <= '\r' || c == '\U{00A0}' || c == '\U{1680}' ||
    '\U{2000}' <= c <= '\U{200A}' || c == '\U{2028}' || c == '\U{2029}' ||
    c == '\U{202F}' || c == '\U{205F}' || c == '\U{3000}' || c == '\U{FEFF}'
  }

  /** `s[i..j]` has no whitespace character. */
  ghost predicate NoSpace(s: string, i: int, j: int)
    requires 0 <= i <= j <= |s|
  {
    forall k :: i <= k < j ==> !IsSpace(s[k])
  }

  /** `s[i..e]` is one or more non-blanks, `@`, one or more non-blanks, `.`,
      one or more non-blanks, with the `@` at `a` and the `.` at `d`. */
  ghost predicate PatternAt(s: string, i: int, a: int, d: int, e: int)
  {
    0 <= i < a && a + 1 < d && d + 1 < e <= |s| &&
    NoSpace(s, i, a) && s[a] == '@' && NoSpace(s, a + 1, d) && s[d] == '.' && NoSpace(s, d + 1, e)
  }

  /** The pattern, unanchored: it matches some stretch of the text. */
  ghost predicate MatchesEmailPattern(s: string)
  {
    exists i, a, d, e :: PatternAt(s, i, a, d, e)
  }

  /** A match reduced to its core: the `@` at `a` with a non-blank before it,
      the `.` at `d` with a non-blank after it, and only non-blanks between. */
  ghost predicate ShapeAt(s: string, a: int, d: int)
  {
    0 < a && a + 1 < d && d + 1 < |s| && !IsSpace(s[a - 1]) && s[a] == '@' &&
    NoSpace(s, a + 1, d) && s[d] == '.' && !IsSpace(s[d + 1])
  }

  /** The pattern matches exactly when some core shape is present: the outer
      runs of non-blanks can always be shortened to one character. */
  lemma PatternIffShape(s: string)
    ensures MatchesEmailPattern(s) <==> exists a, d :: ShapeAt(s, a, d)
  {
    if MatchesEmailPattern(s) {
      var i, a, d, e :| PatternAt(s, i, a, d, e);
      assert ShapeAt(s, a, d);
    }
    if exists a, d :: ShapeAt(s, a, d) {
      var a, d :| ShapeAt(s, a, d);
      assert PatternAt(s, a - 1, a, d, d + 2);
    }
  }

  /** From `j` on, a run of non-blanks reaches a `.` past `start` that a
      non-blank follows. */
  function DotAhead(s: string, start: nat, j: nat): (r: bool)
    requires start <= j <= |s|
    ensures r <==> exists d :: j <= d && start < d && d + 1 < |s| &&
                     NoSpace(s, j, d) && s[d] == '.' && !IsSpace(s[d + 1])
    decreases |s| - j
  {
    if j == |s| then false
    else if IsSpace(s[j]) then
      assert forall d :: j <= d <= |s| && NoSpace(s, j, d) && d < |s| && s[d] == '.' ==> d == j;
      false
    else if start < j && s[j] == '.' && j + 1 < |s| && !IsSpace(s[j + 1]) then
      assert NoSpace(s, j, j);
      true
    else
      var r := DotAhead(s, start, j + 1);
      assert forall d :: j < d <= |s| ==> (NoSpace(s, j, d) <==> NoSpace(s, j + 1, d));
      r
  }

  /** An `@` with a non-blank before it and a dot run after it is a core shape. */
  lemma DotGivesShape(s: string, a: nat)
    requires 0 < a < |s| && s[a] == '@' && !IsSpace(s[a - 1]) && DotAhead(s, a + 1, a + 1)
    ensures exists d :: ShapeAt(s, a, d)
  {
    var d :| a + 1 <= d && a + 1 < d && d + 1 < |s| && NoSpace(s, a + 1, d) && s[d] == '.' && !IsSpace(s[d + 1]);
    assert ShapeAt(s, a, d);
  }

  /** Some `@` at or after `a` starts a core shape. */
  function ShapeFrom(s: string, a: nat): (r: bool)
    requires a <= |s|
    ensures r <==> exists a', d :: a <= a' && ShapeAt(s, a', d)
    decreases |s| - a
  {
    if a == |s| then false
    else if 0 < a && s[a] == '@' && !IsSpace(s[a - 1]) && DotAhead(s, a + 1, a + 1) then
      DotGivesShape(s, a);
      true
    else
      var r := ShapeFrom(s, a + 1);
      assert forall d :: !ShapeAt(s, a, d);
      r
  }

  /** `/\S+@\S+\.\S+/.test(email)`. */
  function EmailLooksValid(email: string): (ok: bool)
    ensures ok <==> MatchesEmailPattern(email)
  {
    PatternIffShape(email);
    ShapeFrom(email, 0)
  }

  /** Addresses the check accepts: an ordinary one, and one embedded in
      other text, since the pattern is not anchored. */
  lemma EmailAccepted()
    ensures EmailLooksValid("priya.sharma@example.com")
    ensures EmailLooksValid("see a@b.c too")
  {
    assert ShapeAt("priya.sharma@example.com", 12, 20);
    assert ShapeAt("see a@b.c too", 5, 7);
  }

  /** Addresses the check refuses: no dot after the `@`, a blank right before
      the `@`, and nothing before the `@`. */
  lemma EmailRefused()
    ensures !EmailLooksValid("a@b")
    ensures !EmailLooksValid("a @b.c")
    ensures !EmailLooksValid("@b.c")
  {
  }

  // ---------------------------------------------------------------------------
  // The form
  // ---------------------------------------------------------------------------

  /** The password every login user created here gets. */
  const DefaultPassword: string := "password123"

  /** The empty form the page starts from and returns to after a success. */
  function BlankEmployeeDraft(): (d: Rec)
    ensures d.Keys == {Name, Position, Department, Email, Phone, StartDate}
    ensures forall f :: f in d.Keys ==> Get(d, f) == Some(Str(""))
  {
    map[Name := Str(""), Position := Str(""), Department := Str(""), Email := Str(""),
        Phone := Str(""), StartDate := Str("")]
  }

  /** Name, position, department and e-mail are all filled in. */
  predicate HasRequiredFields(draft: Rec)
  {
    Truthy(Get(draft, Name)) && Truthy(Get(draft, Position)) &&
    Truthy(Get(draft, Department)) && Truthy(Get(draft, Email))
  }

  /** The login user created for a new employee: id `user_` followed by the
      employee's id, the employee's e-mail and name, the default password,
      role employee, and a link back through `employeeId`. */
  function LinkedUser(employee: Rec, employeeId: string): (u: Rec)
    ensures u.Keys <= {Id, Email, Password, Role, Name, EmployeeId}
    ensures IdOf(u) == Some(Str("user_" + employeeId))
    ensures Get(u, Email) == Get(employee, Email) && Get(u, Name) == Get(employee, Name)
    ensures Get(u, Password) == Some(Str(DefaultPassword))
    ensures HasRole(u, "employee") && Get(u, EmployeeId) == Some(Str(employeeId))
  {
    var u := map[Id := Str("user_" + employeeId), Password := Str(DefaultPassword),
                 Role := Str("employee"), EmployeeId := Str(employeeId)];
    SetField(SetField(u, Email, Get(employee, Email)), Name, Get(employee, Name))
  }

  datatype EmployeeFormError =
    | MissingRequired   // "Name, Position, Department, and Email are required."
    | InvalidEmail      // "Please enter a valid email address."
    | AddFailed         // "Failed to add employee. Please try again."

  datatype EmployeeOutcome = Refused(error: EmployeeFormError) | Created(employee: Rec, user: Rec)

  /** The form after a submit: the draft it now shows and what happened. */
  datatype EmployeeForm = EmployeeForm(draft: Rec, outcome: EmployeeOutcome)

  /** The success path of `handleSubmit`: the employee is added, a login
      user linked to it is appended to the dynamic users, and the form is
      cleared. */
  function CreateEmployee(draft: Rec, store: Store, stamp: string): (r: Step<EmployeeForm>)
    ensures r.value.outcome.Created?
    ensures var e := r.value.outcome.employee;
      && IdOf(e) == Some(Str("emp_" + stamp))
      && (forall f :: f != Id ==> Get(e, f) == Get(draft, f))
      && r.value.outcome.user == LinkedUser(e, "emp_" + stamp)
      && Read(r.store, EmployeesKey) == Arr(GetAllEmployees(store, []).value + [e])
      && Read(r.store, DynamicUsersKey) == Arr(GetAllDynamicUsers(store, []).value + [r.value.outcome.user])
    ensures r.value.draft == BlankEmployeeDraft()
    ensures Read(r.store, TasksKey) == Read(store, TasksKey)
    ensures Read(r.store, CurrentUserKey) == Read(store, CurrentUserKey)
  {
    var added := AddEmployee(store, draft, stamp);
    var id := "emp_" + stamp;
    var user := LinkedUser(added.value, id);
    assert Read(added.store, DynamicUsersKey) == Read(store, DynamicUsersKey);
    GetAllLocal(added.store, store, DynamicUsersKey, []);
    var saved := AddDynamicUser(added.store, user);
    assert Read(saved.store, EmployeesKey) == Read(added.store, EmployeesKey);
    assert Read(saved.store, TasksKey) == Read(added.store, TasksKey) == Read(store, TasksKey);
    assert Read(saved.store, CurrentUserKey) == Read(added.store, CurrentUserKey) == Read(store, CurrentUserKey);
    Step(EmployeeForm(BlankEmployeeDraft(), Created(added.value, user)), saved.store)
  }

  /** `handleSubmit`: missing required fields, then a malformed e-mail, are
      refused with nothing written; otherwise the employee and its login user
      are created. The id `addEmployee` returns is never empty, so the
      "failed to add" message cannot appear. */
  function SubmitEmployee(draft: Rec, store: Store, stamp: string): (r: Step<EmployeeForm>)
    ensures !HasRequiredFields(draft) ==> r == Step(EmployeeForm(draft, Refused(MissingRequired)), store)
    ensures HasRequiredFields(draft) && !MatchesEmailPattern(Get(draft, Email).value.s) ==>
      r == Step(EmployeeForm(draft, Refused(InvalidEmail)), store)
    ensures HasRequiredFields(draft) && MatchesEmailPattern(Get(draft, Email).value.s) ==>
      r == CreateEmployee(draft, store, stamp)
    ensures r.value.outcome != Refused(AddFailed)
    ensures Read(r.store, TasksKey) == Read(store, TasksKey)
    ensures Read(r.store, CurrentUserKey) == Read(store, CurrentUserKey)
  {
    if !HasRequiredFields(draft) then Step(EmployeeForm(draft, Refused(MissingRequired)), store)
    else if !EmailLooksValid(Get(draft, Email).value.s) then Step(EmployeeForm(draft, Refused(InvalidEmail)), store)
    else if Truthy(IdOf(AddEmployee(store, draft, stamp).value)) then CreateEmployee(draft, store, stamp)
    else Step(EmployeeForm(draft, Refused(AddFailed)), AddEmployee(store, draft, stamp).store)
  }

  /** After a creation the login page's list is the old one followed by the
      new login user. */
  lemma CreatedUserIsLoginable(draft: Rec, store: Store, stamp: string)
    ensures var r := CreateEmployee(draft, store, stamp);
      LoginableUsers(r.store).value == LoginableUsers(store).value + [r.value.outcome.user]
  {
    var r := CreateEmployee(draft, store, stamp);
    var dyn := GetAllDynamicUsers(store, []).value;
    assert Read(r.store, DynamicUsersKey) == Arr(dyn + [r.value.outcome.user]);
    assert GetAllDynamicUsers(r.store, []).value == dyn + [r.value.outcome.user];
    AppendAssoc(SeedData.PredefinedUsers(), dyn, [r.value.outcome.user]);
  }

  /** A new employee whose e-mail no existing login user has is found by the
      login page's own lookup, under any letter case, and its stored password
      is the default one. The page reloads its list on mount, so the new user
      is in it; whether `login` then succeeds depends on the context's cached
      list (the two lemmas below). */
  lemma NewEmployeeFoundByLoginPage(draft: Rec, store: Store, stamp: string, typed: string)
    requires HasRequiredFields(draft) && MatchesEmailPattern(Get(draft, Email).value.s)
    requires Lower(typed) == Lower(Get(draft, Email).value.s)
    requires FindByEmail(LoginableUsers(store).value, typed).NoMatch?
    ensures var r := SubmitEmployee(draft, store, stamp);
      var users := LoginableUsers(r.store).value;
      && FindByEmail(users, typed) == Match(|LoginableUsers(store).value|)
      && users[|LoginableUsers(store).value|] == r.value.outcome.user
      && Get(r.value.outcome.user, Password) == Some(Str(DefaultPassword))
  {
    var r := CreateEmployee(draft, store, stamp);
    var before := LoginableUsers(store).value;
    var user := r.value.outcome.user;
    CreatedUserIsLoginable(draft, store, stamp);
    assert Get(user, Email) == Get(draft, Email);
    assert EmailMatches(user, typed);
    FindByEmailAppend(before, user, typed);
  }

  /** The login user of the employee made under `stamp` has the id
      `user_emp_` followed by the stamp. */
  lemma LinkedUserId(stamp: string)
    ensures "user_" + ("emp_" + stamp) == "user_emp_" + stamp
  {
    AppendAssoc("user_", "emp_", stamp);
  }

  /** The login step for a user appended after a list where its e-mail
      finds nobody, with its own password, against a non-empty cached list
      without its id: "Login failed after validation". */
  lemma AppendedUserRefusedByStaleContext(before: seq<Rec>, user: Rec, typed: string, password: string,
                                          auth: AuthState, store: Store)
    requires typed != "" && password != ""
    requires FindByEmail(before, typed).NoMatch? && EmailMatches(user, typed)
    requires Get(user, Password) == Some(Str(password))
    requires |auth.combinedUsers| > 0
    requires forall i :: 0 <= i < |auth.combinedUsers| ==> IdOf(auth.combinedUsers[i]) != IdOf(user)
    ensures HandleLogin(typed, password, before + [user], auth, store) == LoginStep(Rejected(LoginFailed), auth, store)
  {
    FindByEmailAppend(before, user, typed);
    assert (before + [user])[|before|] == user;
    StaleContextRefuses(typed, password, before + [user], auth, store);
  }

  /** The same user, when the context's list is the extended list and no
      earlier user has its id: it signs in and lands on its dashboard. */
  lemma AppendedUserSignsIn(before: seq<Rec>, user: Rec, typed: string, password: string,
                            auth: AuthState, store: Store)
    requires typed != "" && password != ""
    requires FindByEmail(before, typed).NoMatch? && EmailMatches(user, typed)
    requires Get(user, Password) == Some(Str(password))
    requires auth.combinedUsers == before + [user]
    requires forall i :: 0 <= i < |before| ==> IdOf(before[i]) != IdOf(user)
    ensures var r := HandleLogin(typed, password, before + [user], auth, store);
      && r.result == Navigated(Dashboard(user))
      && r.auth.currentUser == Some(user)
      && GetMockUser(r.store) == Some(user)
  {
    FindByEmailAppend(before, user, typed);
    assert (before + [user])[|before|] == user;
    SignsInFirstIdHolder(typed, password, before + [user], auth, store, |before|);
  }

  /** The authentication context loads its user list once and reloads it only
      while it is empty, and nothing calls `refreshAuthUserList`. So while the
      provider that was mounted before the employee was created keeps a
      non-empty list without the new user's id, the new employee's correct
      credentials end in "Login failed after validation", with the session
      unchanged. */
  lemma NewEmployeeRefusedByStaleContext(draft: Rec, store: Store, stamp: string, typed: string,
                                         auth: AuthState)
    requires HasRequiredFields(draft) && MatchesEmailPattern(Get(draft, Email).value.s)
    requires Lower(typed) == Lower(Get(draft, Email).value.s)
    requires FindByEmail(LoginableUsers(store).value, typed).NoMatch?
    requires |auth.combinedUsers| > 0
    requires forall i :: 0 <= i < |auth.combinedUsers| ==>
               IdOf(auth.combinedUsers[i]) != Some(Str("user_emp_" + stamp))
    ensures var r := SubmitEmployee(draft, store, stamp);
      HandleLogin(typed, DefaultPassword, LoginableUsers(r.store).value, auth, r.store)
        == LoginStep(Rejected(LoginFailed), auth, r.store)
  {
    var r := SubmitEmployee(draft, store, stamp);
    assert r == CreateEmployee(draft, store, stamp);
    var before := LoginableUsers(store).value;
    var user := r.value.outcome.user;
    assert LoginableUsers(r.store).value == before + [user] by {
      CreatedUserIsLoginable(draft, store, stamp);
    }
    assert HandleLogin(typed, DefaultPassword, before + [user], auth, r.store)
        == LoginStep(Rejected(LoginFailed), auth, r.store) by {
      LinkedUserId(stamp);
      assert EmailMatches(user, typed);
      AppendedUserRefusedByStaleContext(before, user, typed, DefaultPassword, auth, r.store);
    }
  }

  /** Once the context loads its list again (a page reload mounts a new
      provider), the new employee's correct credentials sign in and land on
      the employee dashboard, provided no earlier login user has the id
      `user_` followed by the new employee's id. */
  lemma NewEmployeeSignsInAfterReload(draft: Rec, store: Store, stamp: string, typed: string)
    requires HasRequiredFields(draft) && MatchesEmailPattern(Get(draft, Email).value.s)
    requires Lower(typed) == Lower(Get(draft, Email).value.s)
    requires FindByEmail(LoginableUsers(store).value, typed).NoMatch?
    requires var before := LoginableUsers(store).value;
      forall i :: 0 <= i < |before| ==> IdOf(before[i]) != Some(Str("user_emp_" + stamp))
    ensures var r := SubmitEmployee(draft, store, stamp);
      var m := Mount(r.store);
      var login := HandleLogin(typed, DefaultPassword, LoginableUsers(m.store).value, m.value, m.store);
      && login.result == Navigated(EmployeeDashboardRoute)
      && login.auth.currentUser == Some(r.value.outcome.user)
      && GetMockUser(login.store) == Some(r.value.outcome.user)
  {
    var r := SubmitEmployee(draft, store, stamp);
    assert r == CreateEmployee(draft, store, stamp);
    var before := LoginableUsers(store).value;
    var user := r.value.outcome.user;
    var m := Mount(r.store);
    assert LoginableUsers(m.store).value == before + [user] && m.value.combinedUsers == before + [user] by {
      CreatedUserIsLoginable(draft, store, stamp);
      ReloadSeesStoredUsers(r.store);
    }
    var login := HandleLogin(typed, DefaultPassword, before + [user], m.value, m.store);
    assert login.result == Navigated(Dashboard(user)) && login.auth.currentUser == Some(user)
        && GetMockUser(login.store) == Some(user) by {
      LinkedUserId(stamp);
      assert EmailMatches(user, typed);
      AppendedUserSignsIn(before, user, typed, DefaultPassword, m.value, m.store);
    }
    assert Dashboard(user) == EmployeeDashboardRoute by {
      assert HasRole(user, "employee");
    }
  }
}
