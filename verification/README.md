# EMS front end in Dafny

A model of the logic of the EMS single-page application: an employee and
task manager whose whole back end is the browser's `localStorage`. The model
covers the record store (`storageService.js`), route authorisation
(`ProtectedRoute` and the live route table in `App.jsx`), the authentication
context, the login page's credential check, the seed data, and the pure rules
inside the pages: dashboard status counts, search filters, the assignee-name
fallback, badge classes, the employee's status change, and the validation of
the task and employee forms, including the login user created for a new
employee.

How the program's world is represented:

- A record (task, employee, login user) is a JavaScript object: a finite map
  from property name to value (`Records.Rec`). A missing property is
  `undefined`, and object spread is map union with the right side winning.
  `a.f === b.f` compares two optional values, so two missing properties are
  equal, as they are in JavaScript.
- `localStorage` is a map from the four keys to what the text stored under
  each one parses to (`StorageService.Stored`). Every operation returns its
  result together with the store after its writes (`StorageService.Step`).
- A page's mount effect and event handlers are functions from the store and
  the page state to the new page state and store. What the page shows is a
  returned value: an error, a navigation target, or a view.
- A route is a datatype value. `Routing.Resolve` decides, for a route and the
  signed-in user (if any), whether a page is rendered or where the browser is
  redirected. `Routing.Settle` follows redirects a bounded number of times.
  From it follows a fact about the code as written: a signed-in user whose
  role is neither `admin` nor `employee` bounces between `/` and
  `/employee/tasks` without end (`Routing.UnknownRoleNeverSettles`).

Facts about the code that shape the model:

- Login failures are reported as two separate errors, "User not found" and
  "Incorrect password".
- The credential check happens in the login page; the authentication
  context's `login` takes a user id. A failed `login(id)` leaves the current
  session in place.
- The stored session is the login-user record itself; no employee property
  is copied into it.
- The administrator can add and delete employees, and a linked login user is
  created for each added one.
- A role is any string, and the guards behave as described above for roles
  other than `admin` and `employee`.

## Model

| member | source | states |
|---|---|---|
| StorageService.GetFromStorage | src/services/storageService.js:121-129 | a missing key and unparseable text both read as `null`; arrays and objects read back as stored; never fails |
| StorageService.SaveList | src/services/storageService.js:131-133 | after saving, the key holds exactly the list and no other key changes |
| StorageService.GetMockUser | src/services/storageService.js:136-138 | a user is returned exactly when the session slot holds an object, and it is that object |
| StorageService.SetMockUser | src/services/storageService.js:140-142 | reading the session slot after writing a user gives that user back; only the session slot changes |
| StorageService.ClearMockUser | src/services/storageService.js:144-146 | after clearing, the slot is absent and reads as no user; only the session slot changes |
| StorageService.SessionRoundTrip | src/services/storageService.js:136-146 | set-then-get returns the user, set-clear-get returns nothing, and clearing is idempotent |
| StorageService.GetAll | src/services/storageService.js:222-232 | a stored non-empty array is returned with no write; anything else yields the non-empty seed or `[]`, written back; a stored `[]` with no seed stays `[]` with no write; afterwards the key holds the returned list |
| StorageService.GetAllLocal | src/services/storageService.js:149-160 | what a list read returns depends only on the value under its own key |
| StorageService.GetAllStable | src/services/storageService.js:172-182 | reading a list again right after reading it returns the same list and writes nothing, with or without seed |
| StorageService.FindById | src/services/storageService.js:184-187 | returns the first record with the id, or nothing exactly when no record has it |
| StorageService.GetEmployeeById | src/services/storageService.js:184-187 | the employee found is the first one in the unseeded employee list with the id; nothing exactly when no employee has it |
| StorageService.AddDynamicUser | src/services/storageService.js:162-169 | the dynamic-user list becomes the old list followed by the user; no other key changes |
| StorageService.AddEmployee | src/services/storageService.js:189-196 | the new list is the old list followed by the new employee, which has every property of the data except a fresh `emp_` id |
| StorageService.MergeMatching | src/services/storageService.js:200-202 | length and order kept; each record with the argument's id becomes the merge with the argument winning; others untouched; an unknown id changes nothing |
| StorageService.UpdateEmployee | src/services/storageService.js:198-205 | the employee list becomes the merged list and the argument itself is returned; no other key changes |
| StorageService.WithoutId | src/services/storageService.js:259 | keeps exactly the records with another id (for an `undefined` id, exactly the records that have one), every copy of each, as a subsequence; a list without the id is unchanged |
| StorageService.DeleteEmployee | src/services/storageService.js:207-218 | removes every employee whose id is the given one and every dynamic user whose employeeId is; with an `undefined` id these are the employees without an id and the users without an employeeId; tasks and the session are untouched; returns the id |
| StorageService.DeleteEmployeeCascades | src/services/storageService.js:207-218 | afterwards no employee has the id and no dynamic user links to it, while every other employee and user survives in order |
| StorageService.GetTaskById | src/services/storageService.js:234-237 | reads tasks without seed; the task found is the first one in that list with the id; nothing exactly when no task has it |
| StorageService.AddTask | src/services/storageService.js:239-246 | the new list is the old list followed by the new task, which has every property of the data except a fresh `task_` id that overrides any given id |
| StorageService.UpdateTask | src/services/storageService.js:248-255 | the task list becomes the merged list, an unknown id leaves it unchanged, and the argument is returned; no other key changes |
| StorageService.UpdateTaskIdempotent | src/services/storageService.js:248-255 | updating twice with the same record leaves the store as updating once |
| StorageService.DeleteTask | src/services/storageService.js:257-262 | the task list keeps exactly the tasks with another id, every copy of each, in order; an absent id changes nothing; the id is returned |
| StorageService.DeleteUndefinedTaskId | src/services/storageService.js:257-262 | `deleteTask(undefined)` keeps exactly the tasks that have an id |
| StorageService.DeleteTaskIdempotent | src/services/storageService.js:257-262 | deleting the same id twice leaves the store as deleting it once |
| StorageService.AddThenGetTask | src/services/storageService.js:234-246 | a task added under an unused id is found again by that id, equal to the data with the id |
| Records.Merge | src/services/storageService.js:251 | `{ ...t, ...u }` has the keys of both and takes each property from `u` when present there, else from `t` |
| Records.MergeIdempotent | src/services/storageService.js:251 | merging the same update twice is merging it once |
| Records.SetField | src/pages/EditTaskPage.jsx:56 | the named property takes the given value (absent for `undefined`) and every other property is unchanged |
| Records.Assign | src/pages/AddTaskPage.jsx:30-36 | `handleChange` sets exactly the named field to the typed text and leaves every other field as it was |
| Records.LowerField | src/pages/AdminDashboardPage.jsx:36 | `status?.toLowerCase()` is defined exactly for string values and is their lowered text |
| Records.LowerOrEmpty | src/pages/TaskListPage.jsx:35 | a missing or `null` field reads as the empty string, a string field as its lowered text |
| Base.FilterCount | src/pages/TaskListPage.jsx:34-38 | `filter` keeps every copy of an element the predicate accepts and none of one it rejects |
| Base.IncludesIff | src/pages/TaskListPage.jsx:35-37 | `hay.includes(needle)` holds exactly when the needle is a prefix of some suffix of the haystack |
| Routing.ProtectedRoute | src/components/auth/ProtectedRoute.jsx:6-31 | no user goes to `/login` whatever the roles; no restriction or a listed role gets the children; otherwise admin goes to `/admin/employees`, employee to `/employee/tasks`, any other role to `/` |
| Routing.ProtectedRouteDecision | src/components/auth/ProtectedRoute.jsx:10-30 | the children are produced exactly when a user exists and the roles are absent or include the user's role; otherwise the result is a redirect |
| Routing.EmptyRolesDenyAll | src/components/auth/ProtectedRoute.jsx:16 | an empty list of allowed roles turns every signed-in user away |
| Routing.AllowedRoles | src/App.jsx:297-315 | every `/admin/*` route requires `admin`, both `/employee/*` routes require `employee`, other routes require no role |
| Routing.Resolve | src/App.jsx:268-324 | `/login` renders only for visitors and otherwise goes to the role's dashboard; `/` always redirects; guarded routes go through `ProtectedRoute`, the edit-employee one onto an element with no component; unmatched paths go to the dashboard or `/login` |
| Routing.EditEmployeeRouteBreaks | src/App.jsx:300 | following redirects ends on the componentless edit-employee element exactly when an admin opens that route itself |
| Routing.HomePageNeverRendered | src/App.jsx:287-292 | no route renders the home page for anyone |
| Routing.CrossRoleRedirects | src/App.jsx:297-315 | an employee on any admin route is sent to `/employee/tasks`; an admin on any employee route to `/admin/employees` |
| Routing.GuardedRoutesByRole | src/App.jsx:297-315 | a guarded route renders its page exactly when the route belongs to the user's role |
| Routing.VisitorsEndOnLogin | src/App.jsx:268-324 | a visitor lands on the login page from any route after at most one redirect |
| Routing.KnownRolesSettle | src/App.jsx:268-324 | an admin or employee reaches a page from any route within two redirects, never the login page (for an admin on the edit-employee route, the element with no component) |
| Routing.UnknownRoleNeverSettles | src/components/auth/ProtectedRoute.jsx:20-26 | a user with any other role is never shown a page, however many redirects are followed |
| AuthContext.InitialState | src/contexts/AuthContext.jsx:110-111 | the initial current user is the stored session value and the cached list is empty |
| AuthContext.LoadAndCombineUsers | src/contexts/AuthContext.jsx:114-119 | the cached list is the predefined users followed by the unseeded dynamic users; only the dynamic-user key may be written |
| AuthContext.Mount | src/contexts/AuthContext.jsx:121-127 | after mounting, the in-memory user agrees with the session slot and the list is non-empty |
| AuthContext.Login | src/contexts/AuthContext.jsx:129-144 | with a matching id the first such user is stored, made current and returned; with none, nothing is returned and the current user and session slot are unchanged; an empty cache is reloaded first |
| AuthContext.Logout | src/contexts/AuthContext.jsx:146-149 | clears both the stored and the in-memory user, touching nothing else |
| AuthContext.LogoutIdempotent | src/contexts/AuthContext.jsx:146-149 | logging out twice is logging out once |
| AuthContext.SessionStaysInSync | src/contexts/AuthContext.jsx:129-149 | logout and a successful login leave the in-memory user equal to the session slot, and a failed login keeps an existing agreement |
| AuthContext.PredefinedUsersShadow | src/contexts/AuthContext.jsx:114-134 | both before the mount effect (empty cache) and once the cache starts with the predefined users, an id carried by a predefined user signs in a predefined user, never a dynamic one |
| AuthContext.MountedCacheStartsWithPredefined | src/contexts/AuthContext.jsx:114-127 | the mounted provider's cache starts with the predefined users |
| LoginPage.LoginableUsers | src/pages/LoginPage.jsx:130-134 | the login page's list is the predefined users followed by the unseeded dynamic users |
| LoginPage.FindByEmail | src/pages/LoginPage.jsx:146 | the first user whose lowered e-mail equals the lowered input is found; no match exactly when every user has a non-matching string e-mail; a user before any match without a string e-mail makes the lookup throw |
| LoginPage.FindByEmailAppend | src/pages/LoginPage.jsx:133-146 | a user appended after a list without a match is the one the e-mail finds |
| LoginPage.EmailCaseInsensitive | src/pages/LoginPage.jsx:146 | two inputs equal up to letter case find the same user |
| LoginPage.HandleLogin | src/pages/LoginPage.jsx:136-175 | empty fields are refused first; the handler throws, changing nothing, exactly when the lookup reaches a user without a string e-mail before a match; "User not found" exactly when no e-mail matches; "Incorrect password" exactly when the found user's password differs; with correct credentials the context and store are those `login(found id)` leaves, and the page navigates to the returned user's dashboard exactly when `login` returns a user, else shows "Login failed after validation"; nothing else changes the session |
| LoginPage.LoginFailedKeepsSession | src/pages/LoginPage.jsx:170-173 | when `login` returns nothing, neither the current user nor the session slot changes |
| LoginPage.CorrectCredentialsSignIn | src/pages/LoginPage.jsx:154-169 | when the page's list is the context's cached list and its ids are unique, correct credentials sign in exactly the matched user, store it, and land on its dashboard |
| LoginPage.SignsInFirstIdHolder | src/pages/LoginPage.jsx:154-169 | correct credentials sign in the matched user whenever it is the first holder of its id in the context's list |
| LoginPage.StaleContextRefuses | src/contexts/AuthContext.jsx:129-144 | correct credentials for a user missing from the context's non-empty cached list end in "Login failed after validation" with the session unchanged |
| LoginPage.ReloadSeesStoredUsers | src/contexts/AuthContext.jsx:114-127 | a freshly mounted provider caches the same list the login page loads |
| SeedData.InitialEmployees | src/data/seedData.js:109-155 | five seed employees |
| SeedData.InitialTasks | src/data/seedData.js:159-196 | four seed tasks |
| SeedData.PredefinedUsers | src/data/seedData.js:200-249 | six predefined login users |
| SeedData.EmployeeIdsDistinct | src/data/seedData.js:109-155 | seed employee ids are pairwise distinct |
| SeedData.TaskIdsDistinct | src/data/seedData.js:159-196 | seed task ids are pairwise distinct |
| SeedData.UserIdsDistinct | src/data/seedData.js:200-249 | predefined user ids are pairwise distinct |
| SeedData.UserEmailsDistinct | src/data/seedData.js:200-249 | predefined user e-mails are pairwise distinct |
| SeedData.SeedTasksReferenceEmployees | src/data/seedData.js:159-196 | every seed task is assigned to a seed employee |
| SeedData.SeedTaskValuesOffered | src/data/seedData.js:166-194 | seed statuses are among To Do, In Progress, Review, Completed and priorities among Low, Medium, High |
| SeedData.PredefinedUsersLinked | src/data/seedData.js:200-249 | the admin has role admin and a `null` employeeId; there is one more user than seed employees, and the user at position i ≥ 1 has role employee and the id, e-mail and name of the seed employee at position i − 1 |
| Dashboards.CountStatus | src/pages/AdminDashboardPage.jsx:36-39 | a bucket count never exceeds the number of tasks; it is zero exactly when no task's lowered status is the label, and the number of tasks exactly when every task's is |
| Dashboards.CountStatusRecurrence | src/pages/AdminDashboardPage.jsx:36-39 | a bucket count adds one for each task whose lowered status is the label and nothing for any other |
| Dashboards.BucketsBounded | src/pages/AdminDashboardPage.jsx:36-39 | the four buckets together count at most all the tasks |
| Dashboards.UnknownStatusUncounted | src/pages/AdminDashboardPage.jsx:36-39 | a task with a missing, `null` or unknown status is in no bucket |
| Dashboards.AdminDashboard | src/pages/AdminDashboardPage.jsx:31-50 | totals are the lengths of the seeded lists, each bucket counts the tasks whose lowered status is its label, and the buckets sum to at most the total; both totals are positive |
| Dashboards.AdminDashboardOnEmptyStore | src/pages/AdminDashboardPage.jsx:33-34 | with no lists stored the dashboard reports the seed: 5 employees, 4 tasks, 2 to do, 2 in progress |
| Dashboards.SeedBuckets | src/data/seedData.js:159-196 | the seed tasks fall two in "to do", two in "in progress", none in the other buckets |
| Dashboards.EmployeeDashboard | src/pages/EmployeeDashboardPage.jsx:32-51 | only an employee with a truthy employeeId gets counts, over exactly the tasks assigned to it, at most all tasks, buckets summing to at most its total; anyone else keeps zeros and the store is untouched |
| TaskListPage.EmployeeNameById | src/pages/TaskListPage.jsx:22-25 | the name of the first employee with the id, or "Unassigned" when none has it |
| TaskListPage.FilterTasks | src/pages/TaskListPage.jsx:34-38 | keeps exactly the tasks whose lowered title, description or assignee name contains the lowered term, every copy of each, in order |
| TaskListPage.EmptySearchKeepsAllTasks | src/pages/TaskListPage.jsx:34-38 | the empty term keeps every task |
| TaskListPage.DanglingAssigneeMatchesUnassigned | src/pages/TaskListPage.jsx:22-38 | a task assigned to no existing employee matches the search "unassigned" in any case |
| TaskListPage.StatusBadge | src/pages/TaskListPage.jsx:41-54 | the default class is given exactly for a missing, `null` or unknown status |
| TaskListPage.PriorityBadge | src/pages/TaskListPage.jsx:55-66 | the default class is given exactly for a missing, `null` or unknown priority |
| TaskListPage.StatusBadgeMatchesBuckets | src/pages/TaskListPage.jsx:41-54 | a task gets a non-default status badge exactly when a dashboard counts it, and the badge follows the bucket |
| TaskListPage.TaskListMount | src/pages/TaskListPage.jsx:13-20 | tasks then employees are read with the seed data; both lists are non-empty and stored |
| TaskListPage.HandleDelete | src/pages/TaskListPage.jsx:27-32 | on confirmation the task is deleted and the re-read list holds no task with the id (an id-less task passes `undefined`, and the list then holds no id-less task); otherwise nothing changes |
| EmployeeListPage.FilterEmployees | src/pages/EmployeeListPage.jsx:23-27 | keeps exactly the employees whose lowered name, department or position contains the lowered term, every copy of each, in order |
| EmployeeListPage.EmptySearchKeepsAllEmployees | src/pages/EmployeeListPage.jsx:23-27 | the empty term keeps every employee |
| EmployeeListPage.EmailAndPhoneNotSearched | src/pages/EmployeeListPage.jsx:23-27 | changing an employee's e-mail or phone never changes whether it matches |
| EmployeeListPage.EmployeeListMount | src/pages/EmployeeListPage.jsx:11-14 | the list read with the seed data: a stored non-empty list as it is, otherwise the seed; it is stored afterwards |
| EmployeeListPage.HandleDelete | src/pages/EmployeeListPage.jsx:16-21 | on confirmation the employee is deleted with its linked users and the re-read list holds no employee with the id (an id-less employee passes `undefined`, and the list then holds no id-less employee); otherwise nothing changes |
| MyTasksPage.AssignedTasks | src/pages/MyTasksPage.jsx:18 | exactly the tasks assigned to the employee id, every copy of each, in order |
| MyTasksPage.MyTasksMount | src/pages/MyTasksPage.jsx:12-23 | a linked employee gets the tasks assigned to its employeeId from the seeded list; anyone else keeps the list shown before; the last read writes nothing |
| MyTasksPage.MyTasksMountSeeds | src/pages/MyTasksPage.jsx:14-15 | afterwards both the employee and the task list are stored and no other key changed |
| MyTasksPage.HandleStatusChange | src/pages/MyTasksPage.jsx:25-37 | an id no shown task has is a no-op; otherwise the first such task with only its status replaced is written through `updateTask` and replaces every shown task with the id |
| MyTasksPage.StatusChangeOnlyStatus | src/pages/MyTasksPage.jsx:25-37 | with unique ids only that task's status changes locally, order and length are kept, and every stored task with the id gets the new status |
| MyTasksPage.RoutedVisitorsHaveAccess | src/pages/MyTasksPage.jsx:60-68 | whoever the route table lets onto the page passes its own access check |
| AddTaskPage.InitialDraft | src/pages/AddTaskPage.jsx:9-16 | status "To Do", priority "Medium", the four other fields empty, nothing else |
| AddTaskPage.AddTaskMount | src/pages/AddTaskPage.jsx:20-28 | the employees are read with the seed data, and the draft's assignee becomes the first employee's id, other fields as initially |
| AddTaskPage.SubmitAdd | src/pages/AddTaskPage.jsx:38-48 | an empty title or assignee is refused with no write; otherwise the draft is added as a task keeping all its fields but the id |
| AddTaskPage.MountedDraftNeedsTitle | src/pages/AddTaskPage.jsx:20-43 | on a fresh store the mounted form is refused until a title is typed, after which it is accepted |
| EditTaskPage.EditMount | src/pages/EditTaskPage.jsx:24-39 | no task id keeps the page loading; otherwise "not found" exactly when no unseeded task has the id, else the form holds the first task in that list with the id |
| EditTaskPage.SubmitEdit | src/pages/EditTaskPage.jsx:49-59 | an empty title or assignee is refused with no write; otherwise the draft is merged into the tasks with its id forced to the route's id |
| EditTaskPage.MergeOwnTask | src/services/storageService.js:250-252 | merging a task into a list with unique ids that already holds it leaves the list unchanged |
| EditTaskPage.SaveUneditedTask | src/pages/EditTaskPage.jsx:49-59 | saving a valid task read from a list with unique ids writes the same list back |
| EditTaskPage.UneditedSaveChangesNothing | src/pages/EditTaskPage.jsx:24-59 | with unique task ids, loading a valid task and saving it unedited leaves the task list as it was |
| AddEmployeePage.PatternIffShape | src/pages/AddEmployeePage.jsx:129 | the pattern `\S+@\S+\.\S+` matches somewhere exactly when a non-blank, `@`, non-blanks, `.` and a non-blank occur in a row |
| AddEmployeePage.DotAhead | src/pages/AddEmployeePage.jsx:129 | the scan after `@` succeeds exactly when a run of non-blanks reaches a `.` followed by a non-blank |
| AddEmployeePage.ShapeFrom | src/pages/AddEmployeePage.jsx:129 | the scan succeeds exactly when some `@` at or after the position starts a match |
| AddEmployeePage.EmailLooksValid | src/pages/AddEmployeePage.jsx:129-132 | the e-mail test succeeds exactly when the unanchored pattern matches |
| AddEmployeePage.EmailAccepted | src/pages/AddEmployeePage.jsx:129-132 | an ordinary address and an address embedded in other text both pass |
| AddEmployeePage.EmailRefused | src/pages/AddEmployeePage.jsx:129-132 | a missing dot after `@`, a blank before `@`, and nothing before `@` all fail |
| AddEmployeePage.BlankEmployeeDraft | src/pages/AddEmployeePage.jsx:99-106 | the six form fields, all empty |
| AddEmployeePage.LinkedUser | src/pages/AddEmployeePage.jsx:139-146 | id `user_` plus the employee id, the employee's e-mail and name, password "password123", role employee, employeeId the employee id |
| AddEmployeePage.CreateEmployee | src/pages/AddEmployeePage.jsx:134-153 | the employee list gains the new employee, the dynamic users gain its linked user, and the form is cleared |
| AddEmployeePage.SubmitEmployee | src/pages/AddEmployeePage.jsx:119-162 | missing required fields, then a malformed e-mail, are refused with no write; otherwise the employee and its user are created; "failed to add" never happens |
| AddEmployeePage.CreatedUserIsLoginable | src/pages/AddEmployeePage.jsx:147 | afterwards the login page's list is the old one followed by the new user |
| AddEmployeePage.NewEmployeeFoundByLoginPage | src/pages/AddEmployeePage.jsx:137-147 | a new employee with an e-mail nobody has is found by the login page's own lookup under any letter case, with the default password |
| AddEmployeePage.NewEmployeeRefusedByStaleContext | src/contexts/AuthContext.jsx:121-144 | while the provider keeps a non-empty list loaded before the employee was added, the new employee's correct credentials end in "Login failed after validation" and the session is unchanged |
| AddEmployeePage.NewEmployeeSignsInAfterReload | src/contexts/AuthContext.jsx:114-144 | after the provider is mounted again, the new employee's correct credentials sign it in and land on the employee dashboard, if no earlier user shares its id |
| Scenarios.FreshLoginList | src/contexts/AuthContext.jsx:114-118 | on a fresh store the login list is exactly the predefined users |
| Scenarios.AdminSignsIn | src/pages/LoginPage.jsx:136-169 | on a fresh store the admin address in any case with "adminpassword" signs the admin in, stores it, and the admin dashboard renders |
| Scenarios.WrongPasswordRefused | src/pages/LoginPage.jsx:154-157 | Priya's address with any other password, even hers in another case, is "Incorrect password" and nothing changes |
| Scenarios.UnknownAddressRefused | src/pages/LoginPage.jsx:146-151 | any address that, lowered, equals no predefined user's lowered address is "User not found" against the predefined users, and nothing changes |
| Scenarios.EmployeeKeptOffAdminPages | src/App.jsx:297-315 | a seed employee on an admin route is redirected to its task list, which then renders |

## Left out

- `localStorage` and JSON text are not modelled. The store holds what the text parses to. Empty text and text that does not parse are one case (`Malformed`).
- Only strings and `null` are modelled as property values. Numbers and booleans are not, and neither are arrays holding non-objects.
- StorageService.GetMockUser: a session slot holding a JSON array or scalar reads as no user. The source would hand that value to the context as the current user.
- Fresh ids built from the clock and `Math.random` are a `stamp` parameter. Their uniqueness is not claimed, because the code does not guarantee it.
- `toLowerCase` is modelled as ASCII lowering. Unicode case mapping is not modelled.
- URL matching by the router is not modelled. A request is already a `Routing.Route`, and the `from` location passed to `/login` is not kept.
- React rendering, hook timing and the loading flags are not modelled. Each effect or handler is one function call.
- `window.confirm` is the `confirmed` parameter. `alert`, console output, the success-message text and the navigation after a task form is saved are not modelled.
- `refreshAuthUserList` (src/contexts/AuthContext.jsx:153-155) is not modelled separately: it only re-runs `loadAndCombineUsers`, which is modelled, and no component calls it. The consequence is modelled: an employee added after the provider mounted cannot sign in until the page is reloaded (`AddEmployeePage.NewEmployeeRefusedByStaleContext`, `AddEmployeePage.NewEmployeeSignsInAfterReload`).
- AddEmployeePage.SubmitEmployee: models the submit handler alone. In the browser the form's `required` and `type="email"` inputs (src/pages/AddEmployeePage.jsx:179-191) stop an empty required field or a malformed address before the handler runs, and the submit button stays disabled after a success (line 208), so one visit adds at most one employee. This browser validation is not modelled, so `MissingRequired` and addresses the handler's pattern accepts but the browser refuses (such as those holding blanks) are reachable only in the model.
- Several tabs writing the store at once are not modelled.
- The login page's list is read once on mount (`LoginPage.LoginableUsers`), and `LoginPage.HandleLogin` takes that list as a parameter. It is not refreshed between mount and submit.
- The employee edit page (`src/pages/EditEmployeePage.jsx`) is entirely commented out and exports nothing, yet `src/App.jsx` imports it by default and routes `/admin/employees/edit/:employeeId` to it. The model renders that route onto `Routing.EditEmployeeUndefined`, an element with no component.
- Routing.Resolve: does not model whether the bundler rejects the missing default export at build time, which would stop every route from loading; it models only the route that renders the missing component. The home page is static markup. The navigation bar and logout button in `src/App.jsx` are markup around `logout`, which is modelled.
- The commented-out earlier iterations at the top of several source files are not modelled.
- The task list on the employee's page keeps its previous contents when the user stops being a linked employee (`MyTasksPage.MyTasksMount`). That is what the code does. The unused `allEmployees` state is not modelled.
- The employee's page and the task list page each define identical badge-class helpers. The model defines them once (`TaskListPage.StatusBadge`, `TaskListPage.PriorityBadge`).
- Routing.Settle follows a bounded number of redirects. An unbounded walk is not modelled; instead, the never-settling case is stated for every bound.
