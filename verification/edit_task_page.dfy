/**
  The form that edits an existing task: loading the task named by the route,
  detecting a missing one, and writing the edited draft back under the
  route's id.
 */
module EditTaskPage {
  import opened Base
  import opened Records
  import opened StorageService
  import opened AddTaskPage
  import SeedData

  /** What the page shows: still loading (no task id in the route), the
      not-found notice, or the form over a draft. */
  datatype EditView = Loading | NotFound | Editing(draft: Rec)

  /** The mount effect for the route's `taskId`. The employee list is read
      with the seed data; then, when the id is not empty, the task is looked
      up with `getTaskById`, which reads the task list without seed data. */
  function EditMount(store: Store, taskId: string): (r: Step<EditView>)
    ensures var s1 := GetAllEmployees(store, SeedData.InitialEmployees()).store;
      && (taskId == "" ==> r == Step(Loading, s1))
      && (taskId != "" ==>
            && r.store == GetAllTasks(s1, []).store
            && (r.value.NotFound? <==> forall t :: t in GetAllTasks(s1, []).value ==> IdOf(t) != Some(Str(taskId)))
            && (r.value.Editing? ==>
                  r.value.draft in GetAllTasks(s1, []).value && IdOf(r.value.draft) == Some(Str(taskId))))
    ensures var s1 := GetAllEmployees(store, SeedData.InitialEmployees()).store;
      var tasks := GetAllTasks(s1, []).value;
      r.value.Editing? ==> exists i :: 0 <= i < |tasks| && tasks[i] == r.value.draft &&
                             forall j :: 0 <= j < i ==> IdOf(tasks[j]) != Some(Str(taskId))
    ensures taskId != "" ==> !r.value.Loading?
  {
    var emps := GetAllEmployees(store, SeedData.InitialEmployees());
    if taskId == "" then Step(Loading, emps.store)
    else
      var found := GetTaskById(emps.store, Str(taskId));
      match found.value
      case Some(t) => Step(Editing(t), found.store)
      case None => Step(NotFound, found.store)
  }

  /** `handleSubmit`: a draft without a title or an assignee is refused and
      nothing is written; otherwise the draft is written through
      `updateTask` with its id forced to the route's id, whatever id the
      draft carried. */
  function SubmitEdit(draft: Rec, taskId: string, store: Store): (r: Step<Submitted>)
    ensures !ValidTaskDraft(draft) ==> r == Step(MissingTitleOrAssignee, store)
    ensures ValidTaskDraft(draft) ==>
      && r.value.Saved?
      && IdOf(r.value.task) == Some(Str(taskId))
      && (forall f :: f != Id ==> Get(r.value.task, f) == Get(draft, f))
      && Read(r.store, TasksKey) == Arr(MergeMatching(GetAllTasks(store, []).value, r.value.task))
    ensures OnlyTouches(store, r.store, TasksKey)
  {
    if !ValidTaskDraft(draft) then Step(MissingTitleOrAssignee, store)
    else
      var written := UpdateTask(store, SetField(draft, Id, Some(Str(taskId))));
      Step(Saved(written.value), written.store)
  }

  /** Merging a task into a list with unique ids that already holds it
      changes nothing. */
  lemma MergeOwnTask(tasks: seq<Rec>, t: Rec)
    requires UniqueIds(tasks) && t in tasks
    ensures MergeMatching(tasks, t) == tasks
  {
    var k :| 0 <= k < |tasks| && tasks[k] == t;
    forall j | 0 <= j < |tasks| && IdOf(tasks[j]) == IdOf(t)
      ensures Merge(tasks[j], t) == tasks[j]
    {
      assert j == k;
    }
  }

  /** Saving, unedited, a valid task read from a list with unique ids writes
      the list back as it was. */
  lemma SaveUneditedTask(s: Store, t: Rec, taskId: string)
    requires UniqueIds(GetAllTasks(s, []).value)
    requires t in GetAllTasks(s, []).value && IdOf(t) == Some(Str(taskId)) && ValidTaskDraft(t)
    ensures var s2 := GetAllTasks(s, []).store;
      Read(SubmitEdit(t, taskId, s2).store, TasksKey) == Read(s2, TasksKey)
  {
    var tasks := GetAllTasks(s, []);
    assert SetField(t, Id, Some(Str(taskId))) == t;
    assert GetAllTasks(tasks.store, []).value == tasks.value;
    MergeOwnTask(tasks.value, t);
  }

  /** Loading a task and saving it without edits leaves the task list as it
      was, provided the ids in it are unique and the task is valid. */
  lemma UneditedSaveChangesNothing(store: Store, taskId: string)
    requires taskId != ""
    requires var s1 := GetAllEmployees(store, SeedData.InitialEmployees()).store;
      UniqueIds(GetAllTasks(s1, []).value)
    ensures var m := EditMount(store, taskId);
      m.value.Editing? && ValidTaskDraft(m.value.draft) ==>
        Read(SubmitEdit(m.value.draft, taskId, m.store).store, TasksKey) == Read(m.store, TasksKey)
  {
    var m := EditMount(store, taskId);
    if m.value.Editing? && ValidTaskDraft(m.value.draft) {
      var s1 := GetAllEmployees(store, SeedData.InitialEmployees()).store;
      SaveUneditedTask(s1, m.value.draft, taskId);
    }
  }
}
