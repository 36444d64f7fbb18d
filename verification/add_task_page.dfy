/**
  The form that creates a task: its defaults, the default assignee, and the
  submit validation.
 */
module AddTaskPage {
  import opened Base
  import opened Records
  import opened StorageService
  import SeedData

  /** The draft the form starts from. */
  function InitialDraft(): (d: Rec)
    ensures d.Keys == {Title, Description, AssignedTo, DueDate, Status, Priority}
    ensures Get(d, Status) == Some(Str("To Do")) && Get(d, Priority) == Some(Str("Medium"))
    ensures forall f :: f in {Title, Description, AssignedTo, DueDate} ==> Get(d, f) == Some(Str(""))
  {
    map[Title := Str(""), Description := Str(""), AssignedTo := Str(""), DueDate := Str(""),
        Status := Str("To Do"), Priority := Str("Medium")]
  }

  /** What the form holds after mounting: the assignee list and the draft. */
  datatype TaskForm = TaskForm(employees: seq<Rec>, draft: Rec)

  /** The mount effect: the employee list is read with the seed data and,
      when it is not empty and the draft has no assignee yet, the draft's
      assignee becomes the first employee's id. */
  function AddTaskMount(store: Store): (r: Step<TaskForm>)
    ensures r.value.employees == GetAllEmployees(store, SeedData.InitialEmployees()).value
    ensures r.store == GetAllEmployees(store, SeedData.InitialEmployees()).store
    ensures |r.value.employees| > 0
    ensures Get(r.value.draft, AssignedTo) == IdOf(r.value.employees[0])
    ensures forall f :: f != AssignedTo ==> Get(r.value.draft, f) == Get(InitialDraft(), f)
  {
    var emps := GetAllEmployees(store, SeedData.InitialEmployees());
    var draft := InitialDraft();
    if |emps.value| > 0 && !Truthy(Get(draft, AssignedTo)) then
      Step(TaskForm(emps.value, SetField(draft, AssignedTo, IdOf(emps.value[0]))), emps.store)
    else Step(TaskForm(emps.value, draft), emps.store)
  }

  /** The result of submitting a task form. */
  datatype Submitted = MissingTitleOrAssignee | Saved(task: Rec)

  /** Both task forms require a truthy title and a truthy assignee. */
  predicate ValidTaskDraft(draft: Rec)
  {
    Truthy(Get(draft, Title)) && Truthy(Get(draft, AssignedTo))
  }

  /** `handleSubmit`: a draft without a title or an assignee is refused and
      nothing is written; otherwise the draft itself is added as a new task,
      which keeps every property of the draft but its id. */
  function SubmitAdd(draft: Rec, store: Store, stamp: string): (r: Step<Submitted>)
    ensures !ValidTaskDraft(draft) ==> r == Step(MissingTitleOrAssignee, store)
    ensures ValidTaskDraft(draft) ==>
      && r.value.Saved?
      && IdOf(r.value.task) == Some(Str("task_" + stamp))
      && (forall f :: f != Id ==> Get(r.value.task, f) == Get(draft, f))
      && Read(r.store, TasksKey) == Arr(GetAllTasks(store, []).value + [r.value.task])
    ensures OnlyTouches(store, r.store, TasksKey)
  {
    if !ValidTaskDraft(draft) then Step(MissingTitleOrAssignee, store)
    else
      var added := AddTask(store, draft, stamp);
      Step(Saved(added.value), added.store)
  }

  /** A draft with an assignee but an empty title is refused until a title is
      typed, after which it is accepted. */
  lemma TitleDecides(draft: Rec, title: string)
    requires Truthy(Get(draft, AssignedTo)) && Get(draft, Title) == Some(Str(""))
    ensures !ValidTaskDraft(draft)
    ensures |title| > 0 ==> ValidTaskDraft(Assign(draft, Title, title))
  {
  }

  /** The form as mounted can be submitted straight away only once a title is
      typed: the default assignee of the seed employee list is truthy, while
      the title starts empty. */
  lemma MountedDraftNeedsTitle(store: Store, title: string)
    requires !Read(store, EmployeesKey).Arr?
    ensures !ValidTaskDraft(AddTaskMount(store).value.draft)
    ensures |title| > 0 ==> ValidTaskDraft(Assign(AddTaskMount(store).value.draft, Title, title))
  {
    var form := AddTaskMount(store).value;
    assert form.employees == SeedData.InitialEmployees();
    SeedData.EmployeeIdColumn();
    assert Get(form.draft, AssignedTo) == IdOf(form.employees[0]) == SeedData.Ids(form.employees)[0];
    TitleDecides(form.draft, title);
  }
}
