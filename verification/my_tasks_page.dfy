/**
  The employee's own task page: the tasks assigned to the signed-in employee,
  and changing the status of one of them.
 */
module MyTasksPage {
  import opened Base
  import opened Records
  import opened StorageService
  import opened Dashboards
  import opened Routing
  import SeedData

  /** `allSystemTasks.filter(task => task.assignedTo === employeeId)`:
      exactly the tasks assigned to the id, in their original order. */
  function AssignedTasks(all: seq<Rec>, employeeId: Option<Value>): (r: seq<Rec>)
    ensures forall i :: 0 <= i < |r| ==> r[i] in all && Get(r[i], AssignedTo) == employeeId
    ensures forall i :: 0 <= i < |all| && Get(all[i], AssignedTo) == employeeId ==> all[i] in r
    ensures IsSubsequence(r, all)
    ensures forall t :: multiset(r)[t] == if Get(t, AssignedTo) == employeeId then multiset(all)[t] else 0
  {
    FilterIsSubsequence(all, IsAssignedTo(employeeId));
    FilterCount(all, IsAssignedTo(employeeId));
    Filter(all, IsAssignedTo(employeeId))
  }

  /** The mount effect. Employees and tasks are read with the seed data; for a
      signed-in employee with a truthy `employeeId` the page keeps the tasks
      assigned to that id; for anyone else the list it had is left as it was.
      The final unseeded read of the employee list writes nothing. */
  function MyTasksMount(user: Option<Rec>, store: Store, shown: seq<Rec>): (r: Step<seq<Rec>>)
    ensures var emps := GetAllEmployees(store, SeedData.InitialEmployees());
      var all := GetAllTasks(emps.store, SeedData.InitialTasks());
      && r.store == all.store
      && (IsLinkedEmployee(user) ==> r.value == AssignedTasks(all.value, Get(user.value, EmployeeId)))
    ensures !IsLinkedEmployee(user) ==> r.value == shown
  {
    var emps := GetAllEmployees(store, SeedData.InitialEmployees());
    var all := GetAllTasks(emps.store, SeedData.InitialTasks());
    var mine := if IsLinkedEmployee(user) then AssignedTasks(all.value, Get(user.value, EmployeeId)) else shown;
    assert Read(all.store, EmployeesKey) == Arr(emps.value);
    var reread := GetAllEmployees(all.store, []);
    Step(mine, reread.store)
  }

  /** After mounting, the employee list and the task list are both stored as
      arrays, and no other key has changed. */
  lemma MyTasksMountSeeds(user: Option<Rec>, store: Store, shown: seq<Rec>)
    ensures var r := MyTasksMount(user, store, shown);
      && Read(r.store, EmployeesKey).Arr? && Read(r.store, TasksKey).Arr?
      && forall k :: k != EmployeesKey && k != TasksKey ==> Read(r.store, k) == Read(store, k)
  {
    var emps := GetAllEmployees(store, SeedData.InitialEmployees());
    var all := GetAllTasks(emps.store, SeedData.InitialTasks());
    assert Read(all.store, EmployeesKey) == Arr(emps.value);
  }

  /** The outcome of a status change whose first shown match is at `i`: the
      copy of that task with only its status replaced is written through
      `updateTask`, and every shown task with the id becomes the copy. */
  ghost predicate ChangedAt(shown: seq<Rec>, store: Store, taskId: Option<Value>, newStatus: string,
                            i: int, r: Step<seq<Rec>>)
  {
    && 0 <= i < |shown| && IdOf(shown[i]) == taskId
    && (forall j :: 0 <= j < i ==> IdOf(shown[j]) != taskId)
    && var copy := shown[i][Status := Str(newStatus)];
    && r.store == UpdateTask(store, copy).store
    && |r.value| == |shown|
    && (forall j :: 0 <= j < |shown| ==> r.value[j] == if IdOf(shown[j]) == taskId then copy else shown[j])
  }

  /** `handleStatusChange(taskId, newStatus)`. When a shown task has the id, a
      copy of the first such task with only its status replaced is written
      through `updateTask`, and every shown task with that id is replaced by
      the copy; otherwise nothing happens. */
  function HandleStatusChange(shown: seq<Rec>, store: Store, taskId: Option<Value>, newStatus: string)
    : (r: Step<seq<Rec>>)
    ensures (forall i :: 0 <= i < |shown| ==> IdOf(shown[i]) != taskId) ==> r == Step(shown, store)
    ensures (exists i :: 0 <= i < |shown| && IdOf(shown[i]) == taskId) ==>
      exists i :: ChangedAt(shown, store, taskId, newStatus, i, r)
    ensures OnlyTouches(store, r.store, TasksKey)
  {
    match FirstIndex(shown, (t: Rec) => IdOf(t) == taskId)
    case None => Step(shown, store)
    case Some(i) =>
      var copy := shown[i][Status := Str(newStatus)];
      var written := UpdateTask(store, copy);
      var r := Step(MapSeq(shown, (x: Rec) => if IdOf(x) == taskId then copy else x), written.store);
      assert ChangedAt(shown, store, taskId, newStatus, i, r);
      r
  }

  /** With unique ids among the shown tasks, a status change on a shown task
      changes only that task's status, locally and in the store: each stored
      task with the id now has the new status and keeps every other property
      it had unless the shown copy overrides it. */
  lemma StatusChangeOnlyStatus(shown: seq<Rec>, store: Store, i: nat, newStatus: string)
    requires i < |shown| && UniqueIds(shown)
    ensures var r := HandleStatusChange(shown, store, IdOf(shown[i]), newStatus);
      && |r.value| == |shown|
      && Get(r.value[i], Status) == Some(Str(newStatus))
      && (forall f :: f != Status ==> Get(r.value[i], f) == Get(shown[i], f))
      && (forall j :: 0 <= j < |shown| && j != i ==> r.value[j] == shown[j])
      && Read(r.store, TasksKey).Arr?
      && var stored := Read(r.store, TasksKey).items;
         forall j :: 0 <= j < |stored| && IdOf(stored[j]) == IdOf(shown[i]) ==>
           Get(stored[j], Status) == Some(Str(newStatus))
  {
    var id := IdOf(shown[i]);
    var r := HandleStatusChange(shown, store, id, newStatus);
    var k :| ChangedAt(shown, store, id, newStatus, k, r);
    assert k == i;
    var copy := shown[i][Status := Str(newStatus)];
    assert IdOf(copy) == id;
  }

  /** The page's fallback: nobody but a signed-in employee gets the list. */
  predicate AccessDenied(user: Option<Rec>)
  {
    user.None? || !HasRole(user.value, "employee")
  }

  /** The fallback is never shown through the route table: whoever the table
      lets onto the page is an employee. */
  lemma RoutedVisitorsHaveAccess(r: Route, user: Option<Rec>)
    ensures Resolve(r, user) == Render(ShowMyTasks) ==> !AccessDenied(user)
  {
    if Resolve(r, user) == Render(ShowMyTasks) && user.Some? {
      GuardedRoutesByRole(r, user.value);
    }
  }
}
