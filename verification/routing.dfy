/**
  Route authorisation: the `ProtectedRoute` guard and the application's live
  route table. For a requested route and the current user (if any) the table
  decides either to render a page or to redirect to another route; following
  redirects is a separate, bounded walk.
 */
module Routing {
  import opened Base
  import opened Records

  /** The routes of the table. URL matching itself is not modelled: a
      request is already one of these, `Unmatched` standing for any path the
      table does not list. */
  datatype Route =
    | LoginRoute                       // /login
    | RootRoute                        // /
    | AdminDashboardRoute              // /admin/dashboard
    | AdminEmployeesRoute              // /admin/employees
    | AdminEmployeesAddRoute           // /admin/employees/add
    | AdminEmployeesEditRoute(employeeId: string)  // /admin/employees/edit/:employeeId
    | AdminTasksRoute                  // /admin/tasks
    | AdminTasksAddRoute               // /admin/tasks/add
    | AdminTasksEditRoute(taskId: string)          // /admin/tasks/edit/:taskId
    | EmployeeDashboardRoute           // /employee/dashboard
    | EmployeeTasksRoute               // /employee/tasks
    | Unmatched(path: string)          // *

  /** What a route puts on screen. `EditEmployeeUndefined` stands for the
      element `<EditEmployeePage />`: the module it is imported from is all
      comments and exports nothing, so the imported name is `undefined` and
      React cannot render the element. */
  datatype Page =
    | ShowLogin | ShowHome | ShowAdminDashboard | ShowEmployeeList | ShowAddEmployee
    | EditEmployeeUndefined(employeeId: string) | ShowTaskList | ShowAddTask | ShowEditTask(taskId: string)
    | ShowEmployeeDashboard | ShowMyTasks

  /** The page's element has a component behind it. */
  predicate HasComponent(p: Page)
  {
    !p.EditEmployeeUndefined?
  }

  datatype Outcome = Render(page: Page) | Redirect(to: Route)

  predicate IsAdminRoute(r: Route)
  {
    r.AdminDashboardRoute? || r.AdminEmployeesRoute? || r.AdminEmployeesAddRoute? ||
    r.AdminEmployeesEditRoute? || r.AdminTasksRoute? || r.AdminTasksAddRoute? || r.AdminTasksEditRoute?
  }

  predicate IsEmployeeRoute(r: Route)
  {
    r.EmployeeDashboardRoute? || r.EmployeeTasksRoute?
  }

  /** `allowedRoles.includes(currentUser.role)`: the role must be one of the
      listed strings; a missing or `null` role is in no list. */
  predicate RoleIn(u: Rec, roles: seq<string>)
  {
    exists i :: 0 <= i < |roles| && HasRole(u, roles[i])
  }

  /** Where a signed-in user whose role is not allowed is sent. */
  function RoleFallback(u: Rec): Route
  {
    if HasRole(u, "admin") then AdminEmployeesRoute
    else if HasRole(u, "employee") then EmployeeTasksRoute
    else RootRoute
  }

  /** `ProtectedRoute`: no user goes to the login page whatever the allowed
      roles; a user with no role restriction, or whose role is listed, gets
      the children; anyone else is redirected by role: admin to the employee
      list, employee to the task list, any other role to `/`. A present but
      empty list of roles still restricts, since an array is truthy. */
  function ProtectedRoute(user: Option<Rec>, allowedRoles: Option<seq<string>>, children: Outcome): (r: Outcome)
    ensures user.None? ==> r == Redirect(LoginRoute)
    ensures user.Some? && (allowedRoles.None? || RoleIn(user.value, allowedRoles.value)) ==> r == children
    ensures user.Some? && allowedRoles.Some? && !RoleIn(user.value, allowedRoles.value) ==>
      r.Redirect? && r.to != LoginRoute
    ensures user.Some? && allowedRoles.Some? && !RoleIn(user.value, allowedRoles.value) ==>
      && (HasRole(user.value, "admin") ==> r == Redirect(AdminEmployeesRoute))
      && (HasRole(user.value, "employee") ==> r == Redirect(EmployeeTasksRoute))
      && (!HasRole(user.value, "admin") && !HasRole(user.value, "employee") ==> r == Redirect(RootRoute))
  {
    match user
    case None => Redirect(LoginRoute)
    case Some(u) =>
      if allowedRoles.Some? && !RoleIn(u, allowedRoles.value) then Redirect(RoleFallback(u))
      else children
  }

  /** Exactly one outcome per call: the children are produced exactly when a
      user is signed in and either no roles are required or the user's role
      is listed; otherwise the result is a redirect that is not a page. */
  lemma ProtectedRouteDecision(user: Option<Rec>, allowedRoles: Option<seq<string>>, page: Page)
    ensures ProtectedRoute(user, allowedRoles, Render(page)) == Render(page) <==>
      user.Some? && (allowedRoles.None? || RoleIn(user.value, allowedRoles.value))
    ensures ProtectedRoute(user, allowedRoles, Render(page)).Redirect? <==>
      !(user.Some? && (allowedRoles.None? || RoleIn(user.value, allowedRoles.value)))
  {
  }

  /** An empty list of allowed roles turns every signed-in user away. */
  lemma EmptyRolesDenyAll(u: Rec, children: Outcome)
    ensures ProtectedRoute(Some(u), Some([]), children) == Redirect(RoleFallback(u))
  {
  }

  /** The roles each route requires, as the route table declares them. */
  function AllowedRoles(r: Route): (roles: Option<seq<string>>)
    ensures IsAdminRoute(r) ==> roles == Some(["admin"])
    ensures IsEmployeeRoute(r) ==> roles == Some(["employee"])
    ensures !IsAdminRoute(r) && !IsEmployeeRoute(r) ==> roles.None?
  {
    if IsAdminRoute(r) then Some(["admin"])
    else if IsEmployeeRoute(r) then Some(["employee"])
    else None
  }

  /** The page a guarded route shows once the guard lets the user through. */
  function GuardedPage(r: Route): Page
    requires IsAdminRoute(r) || IsEmployeeRoute(r)
  {
    match r
    case AdminDashboardRoute => ShowAdminDashboard
    case AdminEmployeesRoute => ShowEmployeeList
    case AdminEmployeesAddRoute => ShowAddEmployee
    case AdminEmployeesEditRoute(id) => EditEmployeeUndefined(id)
    case AdminTasksRoute => ShowTaskList
    case AdminTasksAddRoute => ShowAddTask
    case AdminTasksEditRoute(id) => ShowEditTask(id)
    case EmployeeDashboardRoute => ShowEmployeeDashboard
    case EmployeeTasksRoute => ShowMyTasks
  }

  /** A signed-in user's dashboard: the admin one for role admin, the employee
      one for anything else. */
  function Dashboard(u: Rec): Route
  {
    if HasRole(u, "admin") then AdminDashboardRoute else EmployeeDashboardRoute
  }

  /** The route table. */
  function Resolve(r: Route, user: Option<Rec>): (o: Outcome)
    // /login shows the login page only to a visitor; others go to their dashboard
    ensures r == LoginRoute ==>
      o == (if user.None? then Render(ShowLogin) else Redirect(Dashboard(user.value)))
    // / never shows the home page
    ensures r == RootRoute ==> o.Redirect?
    ensures r == RootRoute && user.Some? ==>
      o == Redirect(if HasRole(user.value, "admin") then AdminDashboardRoute else EmployeeTasksRoute)
    // guarded routes go through ProtectedRoute with their roles
    ensures IsAdminRoute(r) || IsEmployeeRoute(r) ==>
      o == ProtectedRoute(user, AllowedRoles(r), Render(GuardedPage(r)))
    // anything else goes to the dashboard or to the login page
    ensures r.Unmatched? ==> o == Redirect(if user.None? then LoginRoute else Dashboard(user.value))
    ensures user.None? && r != LoginRoute ==> o == Redirect(LoginRoute)
  {
    match r
    case LoginRoute =>
      if user.None? then Render(ShowLogin) else Redirect(Dashboard(user.value))
    case RootRoute =>
      ProtectedRoute(user, None,
        if user.Some? then
          Redirect(if HasRole(user.value, "admin") then AdminDashboardRoute else EmployeeTasksRoute)
        else Render(ShowHome))
    case Unmatched(_) =>
      if user.Some? then Redirect(Dashboard(user.value)) else Redirect(LoginRoute)
    case _ =>
      ProtectedRoute(user, AllowedRoles(r), Render(GuardedPage(r)))
  }

  /** The home page is unreachable: no route renders it for anyone. */
  lemma HomePageNeverRendered(r: Route, user: Option<Rec>)
    ensures Resolve(r, user) != Render(ShowHome)
  {
  }

  /** An employee asking for any admin route lands on its task list, and an
      admin asking for any employee route lands on the employee list. */
  lemma CrossRoleRedirects(r: Route, u: Rec)
    ensures HasRole(u, "employee") && IsAdminRoute(r) ==> Resolve(r, Some(u)) == Redirect(EmployeeTasksRoute)
    ensures HasRole(u, "admin") && IsEmployeeRoute(r) ==> Resolve(r, Some(u)) == Redirect(AdminEmployeesRoute)
  {
    if HasRole(u, "employee") && IsAdminRoute(r) {
      assert !RoleIn(u, ["admin"]);
    }
    if HasRole(u, "admin") && IsEmployeeRoute(r) {
      assert !RoleIn(u, ["employee"]);
    }
  }

  /** A user reaches a page on a guarded route exactly when the route belongs
      to the user's role. */
  lemma GuardedRoutesByRole(r: Route, u: Rec)
    requires IsAdminRoute(r) || IsEmployeeRoute(r)
    ensures Resolve(r, Some(u)).Render? <==>
      (IsAdminRoute(r) && HasRole(u, "admin")) || (IsEmployeeRoute(r) && HasRole(u, "employee"))
  {
    if IsAdminRoute(r) {
      assert RoleIn(u, ["admin"]) <==> HasRole(u, "admin") by {
        if HasRole(u, "admin") { assert HasRole(u, ["admin"][0]); }
      }
    } else {
      assert RoleIn(u, ["employee"]) <==> HasRole(u, "employee") by {
        if HasRole(u, "employee") { assert HasRole(u, ["employee"][0]); }
      }
    }
  }

  // ---------------------------------------------------------------------------
  // Following redirects
  // ---------------------------------------------------------------------------

  /** Follows at most `fuel` redirects from `r`; the page finally rendered, or
      nothing if none is reached within that many redirects. */
  function Settle(r: Route, user: Option<Rec>, fuel: nat): Option<Page>
    decreases fuel
  {
    match Resolve(r, user)
    case Render(p) => Some(p)
    case Redirect(next) => if fuel == 0 then None else Settle(next, user, fuel - 1)
  }

  /** A visitor who is not signed in ends on the login page from any route,
      after at most one redirect. */
  lemma VisitorsEndOnLogin(r: Route)
    ensures Settle(r, None, 1) == Some(ShowLogin)
  {
  }

  /** A signed-in admin or employee ends on a page from any route after at most
      two redirects, and never on the login page. (For an admin on the
      edit-employee route that page is the undefined element; see
      `EditEmployeeRouteBreaks`.) */
  lemma KnownRolesSettle(r: Route, u: Rec)
    requires HasRole(u, "admin") || HasRole(u, "employee")
    ensures Settle(r, Some(u), 2).Some?
    ensures Settle(r, Some(u), 2) != Some(ShowLogin)
  {
    if IsAdminRoute(r) || IsEmployeeRoute(r) {
      GuardedRoutesByRole(r, u);
      if !Resolve(r, Some(u)).Render? {
        var next := Resolve(r, Some(u)).to;
        GuardedRoutesByRole(next, u);
      }
    } else {
      var next := Resolve(r, Some(u));
      if next.Redirect? && (IsAdminRoute(next.to) || IsEmployeeRoute(next.to)) {
        GuardedRoutesByRole(next.to, u);
      }
    }
  }

  /** A signed-in user whose role is neither admin nor employee bounces
      between `/` and `/employee/tasks` for ever and is never shown a page,
      however many redirects are followed. */
  lemma {:induction false} UnknownRoleNeverSettles(r: Route, u: Rec, fuel: nat)
    requires !HasRole(u, "admin") && !HasRole(u, "employee")
    ensures Settle(r, Some(u), fuel).None?
    decreases fuel
  {
    var o := Resolve(r, Some(u));
    if IsAdminRoute(r) || IsEmployeeRoute(r) {
      assert !RoleIn(u, AllowedRoles(r).value);
      assert o == Redirect(RootRoute);
    }
    if fuel > 0 {
      UnknownRoleNeverSettles(o.to, u, fuel - 1);
    }
  }

  /** No redirect ever leads to the edit-employee route: every redirect
      target is a fixed route. */
  lemma NoRedirectToEditEmployee(r: Route, user: Option<Rec>)
    ensures Resolve(r, user).Redirect? ==> !Resolve(r, user).to.AdminEmployeesEditRoute?
  {
  }

  /** The only way to end on an element without a component is for an admin
      to open the edit-employee route itself, and then it happens at once,
      whatever number of redirects is allowed. */
  lemma {:induction false} EditEmployeeRouteBreaks(r: Route, user: Option<Rec>, fuel: nat)
    ensures var s := Settle(r, user, fuel);
      (s.Some? && !HasComponent(s.value)) <==>
      (r.AdminEmployeesEditRoute? && user.Some? && HasRole(user.value, "admin"))
    decreases fuel
  {
    var o := Resolve(r, user);
    if r.AdminEmployeesEditRoute? && user.Some? {
      GuardedRoutesByRole(r, user.value);
    }
    if o.Redirect? && fuel > 0 {
      NoRedirectToEditEmployee(r, user);
      EditEmployeeRouteBreaks(o.to, user, fuel - 1);
    }
  }
}
