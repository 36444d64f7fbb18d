/**
  The two dashboards: the administrator's counts over all employees and
  tasks, and an employee's counts over the tasks assigned to them. A task
  falls into a status bucket when its status, lowered, is the bucket's label;
  a task with a missing, `null` or unknown status falls into none.
 */
module Dashboards {
  import opened Base
  import opened Records
  import opened StorageService
  import SeedData

  /** `task.status?.toLowerCase() === label`. */
  function HasStatus(bucket: string): Rec -> bool
  {
    (t: Rec) => LowerField(Get(t, Status)) == Some(bucket)
  }

  /** `tasks.filter(task => task.status?.toLowerCase() === bucket).length`. */
  function CountStatus(tasks: seq<Rec>, bucket: string): (n: nat)
    ensures n <= |tasks|
    ensures n == 0 <==> forall i :: 0 <= i < |tasks| ==> LowerField(Get(tasks[i], Status)) != Some(bucket)
    ensures n == |tasks| <==> forall i :: 0 <= i < |tasks| ==> LowerField(Get(tasks[i], Status)) == Some(bucket)
  {
    FilterExtremes(tasks, HasStatus(bucket));
    |Filter(tasks, HasStatus(bucket))|
  }

  /** The count, one task at a time: the empty list counts nothing, and a
      list counts its first task when that task's lowered status is the
      label, plus the count of the rest. */
  lemma CountStatusRecurrence(tasks: seq<Rec>, bucket: string)
    ensures |tasks| == 0 ==> CountStatus(tasks, bucket) == 0
    ensures |tasks| > 0 ==>
      CountStatus(tasks, bucket) ==
      (if LowerField(Get(tasks[0], Status)) == Some(bucket) then 1 else 0) + CountStatus(tasks[1..], bucket)
  {
    if |tasks| > 0 {
      FilterCons(tasks, HasStatus(bucket));
    }
  }

  /** The four buckets together never count more tasks than there are, since a
      task has one status and the labels differ. */
  lemma {:induction false} BucketsBounded(tasks: seq<Rec>)
    ensures CountStatus(tasks, "to do") + CountStatus(tasks, "in progress") +
            CountStatus(tasks, "completed") + CountStatus(tasks, "review") <= |tasks|
  {
    if |tasks| > 0 {
      BucketsBounded(tasks[1..]);
      FilterCons(tasks, HasStatus("to do"));
      FilterCons(tasks, HasStatus("in progress"));
      FilterCons(tasks, HasStatus("completed"));
      FilterCons(tasks, HasStatus("review"));
    }
  }

  /** A task whose status is missing, `null`, or none of the four labels in any
      case is counted in no bucket. */
  lemma UnknownStatusUncounted(t: Rec)
    requires LowerField(Get(t, Status)) !in {Some("to do"), Some("in progress"), Some("completed"), Some("review")}
    ensures CountStatus([t], "to do") == 0 && CountStatus([t], "in progress") == 0
    ensures CountStatus([t], "completed") == 0 && CountStatus([t], "review") == 0
  {
  }

  datatype AdminStats = AdminStats(totalEmployees: nat, totalTasks: nat,
                                   tasksToDo: nat, tasksInProgress: nat,
                                   tasksCompleted: nat, tasksInReview: nat)

  /** The administrator dashboard's mount effect: both lists are read with the
      seed data, so an absent or empty store is seeded and reported with the
      seed counts. The first postcondition only records which list each
      figure is taken from; what a bucket counts is stated by `CountStatus`'s
      contract and by `CountStatusRecurrence`. The bound on the buckets' sum
      and the positive totals add to it. */
  function AdminDashboard(store: Store): (r: Step<AdminStats>)
    ensures var emps := GetAllEmployees(store, SeedData.InitialEmployees());
      var tasks := GetAllTasks(emps.store, SeedData.InitialTasks());
      && r.store == tasks.store
      && r.value.totalEmployees == |emps.value|
      && r.value.totalTasks == |tasks.value|
      && r.value.tasksToDo == CountStatus(tasks.value, "to do")
      && r.value.tasksInProgress == CountStatus(tasks.value, "in progress")
      && r.value.tasksCompleted == CountStatus(tasks.value, "completed")
      && r.value.tasksInReview == CountStatus(tasks.value, "review")
    ensures r.value.tasksToDo + r.value.tasksInProgress + r.value.tasksCompleted + r.value.tasksInReview
            <= r.value.totalTasks
    ensures r.value.totalEmployees > 0 && r.value.totalTasks > 0
  {
    var emps := GetAllEmployees(store, SeedData.InitialEmployees());
    var tasks := GetAllTasks(emps.store, SeedData.InitialTasks());
    BucketsBounded(tasks.value);
    Step(AdminStats(|emps.value|, |tasks.value|,
                    CountStatus(tasks.value, "to do"), CountStatus(tasks.value, "in progress"),
                    CountStatus(tasks.value, "completed"), CountStatus(tasks.value, "review")),
         tasks.store)
  }

  /** A bucket count over four tasks, one task at a time. */
  lemma CountOfFour(t: seq<Rec>, bucket: string)
    requires |t| == 4
    ensures CountStatus(t, bucket) ==
      (if HasStatus(bucket)(t[0]) then 1 else 0) + (if HasStatus(bucket)(t[1]) then 1 else 0) +
      (if HasStatus(bucket)(t[2]) then 1 else 0) + (if HasStatus(bucket)(t[3]) then 1 else 0)
  {
    var p := HasStatus(bucket);
    FilterCons(t, p);
    FilterCons(t[1..], p);
    FilterCons(t[2..], p);
    FilterCons(t[3..], p);
    assert t[1..][1..] == t[2..] && t[2..][1..] == t[3..] && t[3..][1..] == [];
  }

  /** The seed tasks' statuses, lowered. */
  lemma SeedStatuses()
    ensures var t := SeedData.InitialTasks();
      && LowerField(Get(t[0], Status)) == Some("in progress")
      && LowerField(Get(t[1], Status)) == Some("to do")
      && LowerField(Get(t[2], Status)) == Some("to do")
      && LowerField(Get(t[3], Status)) == Some("in progress")
  {
    assert Lower("To Do") == "to do";
    assert Lower("In Progress") == "in progress";
  }

  /** One bucket over the seed tasks: two each for "to do" and "in progress",
      none for any other label. */
  lemma SeedBucket(bucket: string)
    ensures CountStatus(SeedData.InitialTasks(), bucket) ==
      if bucket == "to do" || bucket == "in progress" then 2 else 0
  {
    SeedStatuses();
    CountOfFour(SeedData.InitialTasks(), bucket);
  }

  /** The seed tasks fill the buckets two to do, two in progress. */
  lemma SeedBuckets()
    ensures var t := SeedData.InitialTasks();
      && CountStatus(t, "to do") == 2 && CountStatus(t, "in progress") == 2
      && CountStatus(t, "completed") == 0 && CountStatus(t, "review") == 0
  {
    SeedBucket("to do");
    SeedBucket("in progress");
    SeedBucket("completed");
    SeedBucket("review");
  }

  /** On a store holding no employee or task list the dashboard reports the
      seed data: five employees and four tasks, two to do and two in progress. */
  lemma AdminDashboardOnEmptyStore(store: Store)
    requires !Read(store, EmployeesKey).Arr? && !Read(store, TasksKey).Arr?
    ensures AdminDashboard(store).value == AdminStats(5, 4, 2, 2, 0, 0)
  {
    var emps := GetAllEmployees(store, SeedData.InitialEmployees());
    assert emps.value == SeedData.InitialEmployees();
    assert Read(emps.store, TasksKey) == Read(store, TasksKey);
    var tasks := GetAllTasks(emps.store, SeedData.InitialTasks());
    assert tasks.value == SeedData.InitialTasks();
    SeedBuckets();
  }

  datatype EmployeeStats = EmployeeStats(totalAssignedTasks: nat, tasksToDo: nat,
                                         tasksInProgress: nat, tasksCompleted: nat,
                                         tasksInReview: nat)

  /** The user is signed in with role employee and a truthy employeeId. */
  predicate IsLinkedEmployee(user: Option<Rec>)
  {
    user.Some? && HasRole(user.value, "employee") && Truthy(Get(user.value, EmployeeId))
  }

  /** `task.assignedTo === employeeId`. */
  function IsAssignedTo(employeeId: Option<Value>): Rec -> bool
  {
    (t: Rec) => Get(t, AssignedTo) == employeeId
  }

  /** The employee dashboard's mount effect. Only a linked employee gets
      counts, over exactly the tasks assigned to their employeeId (the task
      list being read with the seed data); anyone else keeps all zeros and the
      store is not touched. */
  function EmployeeDashboard(user: Option<Rec>, store: Store): (r: Step<EmployeeStats>)
    ensures !IsLinkedEmployee(user) ==> r == Step(EmployeeStats(0, 0, 0, 0, 0), store)
    ensures IsLinkedEmployee(user) ==>
      var all := GetAllTasks(store, SeedData.InitialTasks());
      var mine := Filter(all.value, IsAssignedTo(Get(user.value, EmployeeId)));
      && r.store == all.store
      && r.value.totalAssignedTasks == |mine| <= |all.value|
      && r.value.tasksToDo == CountStatus(mine, "to do")
      && r.value.tasksInProgress == CountStatus(mine, "in progress")
      && r.value.tasksCompleted == CountStatus(mine, "completed")
      && r.value.tasksInReview == CountStatus(mine, "review")
    ensures r.value.tasksToDo + r.value.tasksInProgress + r.value.tasksCompleted + r.value.tasksInReview
            <= r.value.totalAssignedTasks
  {
    if IsLinkedEmployee(user) then
      var all := GetAllTasks(store, SeedData.InitialTasks());
      var mine := Filter(all.value, IsAssignedTo(Get(user.value, EmployeeId)));
      BucketsBounded(mine);
      Step(EmployeeStats(|mine|, CountStatus(mine, "to do"), CountStatus(mine, "in progress"),
                         CountStatus(mine, "completed"), CountStatus(mine, "review")),
           all.store)
    else Step(EmployeeStats(0, 0, 0, 0, 0), store)
  }
}
