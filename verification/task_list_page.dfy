/**
  The administrator's task list: the assignee-name lookup, the search filter
  over title, description and assignee name, the status and priority badge
  classes, and deleting a task from the list. The badge functions are also
  used, unchanged, by the employee's task page.
 */
module TaskListPage {
  import opened Base
  import opened Records
  import opened StorageService
  import Dashboards
  import SeedData

  /** `getEmployeeNameById`: the name of the first employee with the id, which
      may itself be missing, or "Unassigned" when no employee has it. */
  function EmployeeNameById(employees: seq<Rec>, employeeId: Option<Value>): (name: Option<Value>)
    ensures (forall i :: 0 <= i < |employees| ==> IdOf(employees[i]) != employeeId) ==>
      name == Some(Str("Unassigned"))
    ensures (exists i :: 0 <= i < |employees| && IdOf(employees[i]) == employeeId) ==>
      exists i :: 0 <= i < |employees| && IdOf(employees[i]) == employeeId && name == Get(employees[i], Name) &&
        forall j :: 0 <= j < i ==> IdOf(employees[j]) != employeeId
  {
    match Find(employees, (e: Rec) => IdOf(e) == employeeId)
    case Some(e) => Get(e, Name)
    case None => Some(Str("Unassigned"))
  }

  /** The search predicate: the lowered term occurs in the lowered title,
      description or assignee name, a missing or `null` one reading as the
      empty string. */
  predicate TaskMatches(employees: seq<Rec>, term: string, t: Rec)
  {
    var q := Lower(term);
    Includes(LowerOrEmpty(Get(t, Title)), q) ||
    Includes(LowerOrEmpty(Get(t, Description)), q) ||
    Includes(LowerOrEmpty(EmployeeNameById(employees, Get(t, AssignedTo))), q)
  }

  /** `filteredTasks`: exactly the matching tasks, in their original order. */
  function FilterTasks(tasks: seq<Rec>, employees: seq<Rec>, term: string): (r: seq<Rec>)
    ensures forall i :: 0 <= i < |r| ==> r[i] in tasks && TaskMatches(employees, term, r[i])
    ensures forall i :: 0 <= i < |tasks| && TaskMatches(employees, term, tasks[i]) ==> tasks[i] in r
    ensures IsSubsequence(r, tasks)
    ensures forall t :: multiset(r)[t] == if TaskMatches(employees, term, t) then multiset(tasks)[t] else 0
  {
    var p := (t: Rec) => TaskMatches(employees, term, t);
    FilterIsSubsequence(tasks, p);
    FilterCount(tasks, p);
    Filter(tasks, p)
  }

  /** The empty search term keeps every task. */
  lemma EmptySearchKeepsAllTasks(tasks: seq<Rec>, employees: seq<Rec>)
    ensures FilterTasks(tasks, employees, "") == tasks
  {
    var p := (t: Rec) => TaskMatches(employees, "", t);
    forall i | 0 <= i < |tasks|
      ensures p(tasks[i])
    {
      IncludesEmpty(LowerOrEmpty(Get(tasks[i], Title)));
    }
    FilterKeepsAll(tasks, p);
  }

  /** A task whose assignee is no employee is listed under the search
      "unassigned", in any letter case. */
  lemma DanglingAssigneeMatchesUnassigned(employees: seq<Rec>, t: Rec, term: string)
    requires forall i :: 0 <= i < |employees| ==> IdOf(employees[i]) != Get(t, AssignedTo)
    requires Lower(term) == "unassigned"
    ensures TaskMatches(employees, term, t)
    ensures t in FilterTasks([t], employees, term)
  {
    assert Lower("Unassigned") == "unassigned";
    assert Includes("unassigned", "unassigned");
    assert TaskMatches(employees, term, [t][0]);
  }

  /** The class for a status badge; the page shows the default class for a
      missing, `null` or unknown status. */
  function StatusBadge(status: Option<Value>): (cls: string)
    ensures cls == DefaultBadge <==>
      LowerField(status) !in {Some("to do"), Some("in progress"), Some("completed"), Some("review")}
  {
    match LowerField(status)
    case Some("to do") => "bg-gray-200 text-gray-700"
    case Some("in progress") => "bg-yellow-200 text-yellow-700"
    case Some("completed") => "bg-green-200 text-green-700"
    case Some("review") => "bg-blue-200 text-blue-700"
    case _ => DefaultBadge
  }

  const DefaultBadge: string := "bg-gray-100 text-gray-500"

  /** The class for a priority badge, the default one for a missing, `null`
      or unknown priority. */
  function PriorityBadge(priority: Option<Value>): (cls: string)
    ensures cls == DefaultBadge <==> LowerField(priority) !in {Some("low"), Some("medium"), Some("high")}
  {
    match LowerField(priority)
    case Some("low") => "bg-green-100 text-green-700"
    case Some("medium") => "bg-yellow-100 text-yellow-700"
    case Some("high") => "bg-red-100 text-red-700"
    case _ => DefaultBadge
  }

  /** The status badge and the dashboards agree: a task shows a non-default
      status badge exactly when a dashboard counts it in some bucket, and the
      badge is determined by that bucket. */
  lemma StatusBadgeMatchesBuckets(t: Rec)
    ensures StatusBadge(Get(t, Status)) != DefaultBadge <==>
      Dashboards.HasStatus("to do")(t) || Dashboards.HasStatus("in progress")(t) ||
      Dashboards.HasStatus("completed")(t) || Dashboards.HasStatus("review")(t)
    ensures Dashboards.HasStatus("to do")(t) ==> StatusBadge(Get(t, Status)) == "bg-gray-200 text-gray-700"
    ensures Dashboards.HasStatus("in progress")(t) ==> StatusBadge(Get(t, Status)) == "bg-yellow-200 text-yellow-700"
    ensures Dashboards.HasStatus("completed")(t) ==> StatusBadge(Get(t, Status)) == "bg-green-200 text-green-700"
    ensures Dashboards.HasStatus("review")(t) ==> StatusBadge(Get(t, Status)) == "bg-blue-200 text-blue-700"
  {
  }

  /** The page state the list works on. */
  datatype TaskList = TaskList(tasks: seq<Rec>, employees: seq<Rec>)

  /** The mount effect: tasks, then employees, both read with the seed data. */
  function TaskListMount(store: Store): (r: Step<TaskList>)
    ensures var ts := GetAllTasks(store, SeedData.InitialTasks());
      var es := GetAllEmployees(ts.store, SeedData.InitialEmployees());
      r.value == TaskList(ts.value, es.value) && r.store == es.store
    ensures |r.value.tasks| > 0 && |r.value.employees| > 0
    ensures Read(r.store, TasksKey) == Arr(r.value.tasks) && Read(r.store, EmployeesKey) == Arr(r.value.employees)
  {
    var ts := GetAllTasks(store, SeedData.InitialTasks());
    var es := GetAllEmployees(ts.store, SeedData.InitialEmployees());
    Step(TaskList(ts.value, es.value), es.store)
  }

  /** `handleDelete`: when the user confirms, the task is deleted and the list
      is re-read from the store without seed data; otherwise nothing happens. */
  function HandleDelete(list: TaskList, store: Store, id: Option<Value>, confirmed: bool): (r: Step<TaskList>)
    ensures !confirmed ==> r == Step(list, store)
    ensures confirmed ==> var after := DeleteTask(store, id).store;
      && r.store == after
      && r.value == list.(tasks := Read(after, TasksKey).items)
      && forall i :: 0 <= i < |r.value.tasks| ==> IdOf(r.value.tasks[i]) != id
  {
    if confirmed then
      var deleted := DeleteTask(store, id);
      var reread := GetAllTasks(deleted.store, []);
      Step(list.(tasks := reread.value), reread.store)
    else Step(list, store)
  }
}
