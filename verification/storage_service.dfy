/**
  The record store: browser `localStorage` holding the employee list, the
  task list, the list of login users created at runtime ("dynamic users") and
  the current-session slot, each as JSON text under its own key.

  The store is a map from key to what the text under that key parses to.
  Every operation takes the store and returns its result together with the
  store after its writes, in a `Step`.
 */
module StorageService {
  import opened Base
  import opened Records

  /** The four keys the application uses. */
  datatype Key = EmployeesKey | TasksKey | CurrentUserKey | DynamicUsersKey

  /** What is stored under a key: nothing; text that is empty or is not JSON;
      a JSON scalar; a JSON array of objects; a JSON object. */
  datatype Stored = Missing | Malformed | Scalar | Arr(items: seq<Rec>) | Obj(fields: Rec)

  type Store = map<Key, Stored>

  /** What `getFromStorage` hands back: `null`, a scalar, an array, an object. */
  datatype JsValue = JNull | JScalar | JArray(items: seq<Rec>) | JObject(fields: Rec)

  /** A result together with the store after the operation's writes. */
  datatype Step<+T> = Step(value: T, store: Store)

  function Read(store: Store, k: Key): Stored
  {
    if k in store then store[k] else Missing
  }

  /** No key other than `k` changed between `s` and `s'`. */
  ghost predicate OnlyTouches(s: Store, s': Store, k: Key)
  {
    forall k' :: k' != k ==> Read(s', k') == Read(s, k')
  }

  /** `getFromStorage`: a missing key and unparseable text both read as `null`;
      it never fails. */
  function GetFromStorage(store: Store, k: Key): (v: JsValue)
    ensures Read(store, k).Missing? || Read(store, k).Malformed? ==> v == JNull
    ensures v.JArray? <==> Read(store, k).Arr?
    ensures v.JArray? ==> v.items == Read(store, k).items
    ensures v.JObject? <==> Read(store, k).Obj?
    ensures v.JObject? ==> v.fields == Read(store, k).fields
  {
    match Read(store, k)
    case Missing => JNull
    case Malformed => JNull
    case Scalar => JScalar
    case Arr(items) => JArray(items)
    case Obj(fields) => JObject(fields)
  }

  /** `saveToStorage(k, items)` for a list. */
  function SaveList(store: Store, k: Key, items: seq<Rec>): (s: Store)
    ensures Read(s, k) == Arr(items)
    ensures OnlyTouches(store, s, k)
  {
    store[k := Arr(items)]
  }

  // ---------------------------------------------------------------------------
  // The session slot
  // ---------------------------------------------------------------------------

  /** `getMockUser`: the stored user object, or nothing. */
  function GetMockUser(store: Store): (u: Option<Rec>)
    ensures u.Some? <==> Read(store, CurrentUserKey).Obj?
    ensures u.Some? ==> u.value == Read(store, CurrentUserKey).fields
  {
    match GetFromStorage(store, CurrentUserKey)
    case JObject(fields) => Some(fields)
    case _ => None
  }

  function SetMockUser(store: Store, user: Rec): (s: Store)
    ensures GetMockUser(s) == Some(user)
    ensures OnlyTouches(store, s, CurrentUserKey)
  {
    store[CurrentUserKey := Obj(user)]
  }

  function ClearMockUser(store: Store): (s: Store)
    ensures GetMockUser(s) == None
    ensures Read(s, CurrentUserKey) == Missing
    ensures OnlyTouches(store, s, CurrentUserKey)
  {
    store - {CurrentUserKey}
  }

  /** Writing then reading the session slot gives back what was written, and
      clearing is idempotent. */
  lemma SessionRoundTrip(store: Store, user: Rec)
    ensures GetMockUser(SetMockUser(store, user)) == Some(user)
    ensures GetMockUser(ClearMockUser(SetMockUser(store, user))) == None
    ensures ClearMockUser(ClearMockUser(store)) == ClearMockUser(store)
  {
  }

  // ---------------------------------------------------------------------------
  // Reading a list with seeding (getAllDynamicUsers, getAllEmployees, getAllTasks)
  // ---------------------------------------------------------------------------

  /** The shared body of the three `getAll…(initialData = [])` functions.
      A value that is not an array is replaced by `seed` (which is `[]` when
      no seed is given) and written back; an empty array is replaced by a
      non-empty `seed` and written back; a non-empty array is returned as it
      is, with no write. Afterwards the key always holds the returned list. */
  function GetAll(store: Store, k: Key, seed: seq<Rec>): (r: Step<seq<Rec>>)
    ensures Read(r.store, k) == Arr(r.value)
    ensures OnlyTouches(store, r.store, k)
    ensures Read(store, k).Arr? && |Read(store, k).items| > 0 ==> r == Step(Read(store, k).items, store)
    ensures !(Read(store, k).Arr? && |Read(store, k).items| > 0) ==> r.value == seed
    ensures Read(store, k) == Arr([]) && |seed| == 0 ==> r.store == store
    ensures |seed| > 0 ==> |r.value| > 0
  {
    match GetFromStorage(store, k)
    case JArray(items) =>
      if |items| == 0 && |seed| > 0 then Step(seed, SaveList(store, k, seed))
      else Step(items, store)
    case _ =>
      var items := if |seed| > 0 then seed else [];
      Step(items, SaveList(store, k, items))
  }

  /** What `getAll…` returns depends only on what is stored under its own key. */
  lemma GetAllLocal(s1: Store, s2: Store, k: Key, seed: seq<Rec>)
    requires Read(s1, k) == Read(s2, k)
    ensures GetAll(s1, k, seed).value == GetAll(s2, k, seed).value
  {
  }

  /** Reading again right after a read returns the same list and writes
      nothing. */
  lemma GetAllStable(store: Store, k: Key, seed: seq<Rec>)
    ensures var r := GetAll(store, k, seed);
      GetAll(r.store, k, seed) == r && GetAll(r.store, k, []) == r
  {
  }

  function GetAllDynamicUsers(store: Store, seed: seq<Rec>): Step<seq<Rec>>
  {
    GetAll(store, DynamicUsersKey, seed)
  }

  function GetAllEmployees(store: Store, seed: seq<Rec>): Step<seq<Rec>>
  {
    GetAll(store, EmployeesKey, seed)
  }

  function GetAllTasks(store: Store, seed: seq<Rec>): Step<seq<Rec>>
  {
    GetAll(store, TasksKey, seed)
  }

  // ---------------------------------------------------------------------------
  // Generic list operations behind the employee and task functions
  // ---------------------------------------------------------------------------

  /** `list.find(x => x.id === id) || null`. */
  function FindById(list: seq<Rec>, id: Value): (r: Option<Rec>)
    ensures r.Some? ==> r.value in list && IdOf(r.value) == Some(id)
    ensures r.None? <==> forall i :: 0 <= i < |list| ==> IdOf(list[i]) != Some(id)
    ensures r.Some? ==> exists i :: 0 <= i < |list| && list[i] == r.value &&
                          forall j :: 0 <= j < i ==> IdOf(list[j]) != Some(id)
  {
    Find(list, (x: Rec) => IdOf(x) == Some(id))
  }

  /** `{ ...data, id: prefix + stamp }`: every property of `data` but the id,
      which is the freshly generated one. */
  function WithFreshId(data: Rec, prefix: string, stamp: string): (r: Rec)
    ensures IdOf(r) == Some(Str(prefix + stamp))
    ensures forall f :: f != Id ==> Get(r, f) == Get(data, f)
  {
    data[Id := Str(prefix + stamp)]
  }

  /** Appends `data` with a generated id to the list under `k`. */
  function AddRecord(store: Store, k: Key, prefix: string, data: Rec, stamp: string): (r: Step<Rec>)
    ensures IdOf(r.value) == Some(Str(prefix + stamp))
    ensures forall f :: f != Id ==> Get(r.value, f) == Get(data, f)
    ensures Read(r.store, k) == Arr(GetAll(store, k, []).value + [r.value])
    ensures OnlyTouches(store, r.store, k)
  {
    var list := GetAll(store, k, []);
    var added := WithFreshId(data, prefix, stamp);
    Step(added, SaveList(list.store, k, list.value + [added]))
  }

  /** `list.map(x => x.id === updated.id ? { ...x, ...updated } : x)`. */
  function MergeMatching(list: seq<Rec>, updated: Rec): (r: seq<Rec>)
    ensures |r| == |list|
    ensures forall i :: 0 <= i < |list| && IdOf(list[i]) == IdOf(updated) ==>
      r[i] == Merge(list[i], updated)
    ensures forall i :: 0 <= i < |list| && IdOf(list[i]) != IdOf(updated) ==> r[i] == list[i]
    ensures forall i :: 0 <= i < |list| ==> IdOf(r[i]) == IdOf(list[i])
    ensures (forall i :: 0 <= i < |list| ==> IdOf(list[i]) != IdOf(updated)) ==> r == list
  {
    MapSeq(list, (x: Rec) => if IdOf(x) == IdOf(updated) then Merge(x, updated) else x)
  }

  /** Replaces each record of the list under `k` that has `updated`'s id by
      the merge of the two, `updated`'s properties winning; the argument itself
      is returned, not the merged record. */
  function UpdateRecord(store: Store, k: Key, updated: Rec): (r: Step<Rec>)
    ensures r.value == updated
    ensures Read(r.store, k) == Arr(MergeMatching(GetAll(store, k, []).value, updated))
    ensures OnlyTouches(store, r.store, k)
  {
    var list := GetAll(store, k, []);
    Step(updated, SaveList(list.store, k, MergeMatching(list.value, updated)))
  }

  /** `list.filter(x => x.id !== id)`. The id may be `undefined` (`None`), as
      when a list page deletes a stored record that has no id; then exactly
      the records that have an id are kept. */
  function WithoutId(list: seq<Rec>, id: Option<Value>): (r: seq<Rec>)
    ensures forall i :: 0 <= i < |r| ==> r[i] in list && IdOf(r[i]) != id
    ensures forall i :: 0 <= i < |list| && IdOf(list[i]) != id ==> list[i] in r
    ensures IsSubsequence(r, list)
    ensures forall x :: multiset(r)[x] == if IdOf(x) != id then multiset(list)[x] else 0
    ensures (forall i :: 0 <= i < |list| ==> IdOf(list[i]) != id) ==> r == list
  {
    var p := (x: Rec) => IdOf(x) != id;
    FilterIsSubsequence(list, p);
    FilterCount(list, p);
    FilterKeepsAll(list, p);
    Filter(list, p)
  }

  // ---------------------------------------------------------------------------
  // Dynamic users
  // ---------------------------------------------------------------------------

  /** `addDynamicUser`: appends a copy of the user to the dynamic-user list. */
  function AddDynamicUser(store: Store, user: Rec): (r: Step<Rec>)
    ensures r.value == user
    ensures Read(r.store, DynamicUsersKey) == Arr(GetAllDynamicUsers(store, []).value + [user])
    ensures OnlyTouches(store, r.store, DynamicUsersKey)
  {
    var users := GetAllDynamicUsers(store, []);
    Step(user, SaveList(users.store, DynamicUsersKey, users.value + [user]))
  }

  // ---------------------------------------------------------------------------
  // Employees
  // ---------------------------------------------------------------------------

  /** `getEmployeeById`; reading the list may write `[]` over a non-array value. */
  function GetEmployeeById(store: Store, id: Value): (r: Step<Option<Rec>>)
    ensures r.value.Some? ==> r.value.value in GetAllEmployees(store, []).value && IdOf(r.value.value) == Some(id)
    ensures r.value.None? <==> forall e :: e in GetAllEmployees(store, []).value ==> IdOf(e) != Some(id)
    ensures var emps := GetAllEmployees(store, []).value;
      r.value.Some? ==> exists i :: 0 <= i < |emps| && emps[i] == r.value.value &&
                          forall j :: 0 <= j < i ==> IdOf(emps[j]) != Some(id)
    ensures r.store == GetAllEmployees(store, []).store
  {
    var emps := GetAllEmployees(store, []);
    Step(FindById(emps.value, id), emps.store)
  }

  /** `addEmployee`: the new list is the old list followed by the new employee,
      which has every property of `data` except its id, a fresh `emp_` id. */
  function AddEmployee(store: Store, data: Rec, stamp: string): (r: Step<Rec>)
    ensures IdOf(r.value) == Some(Str("emp_" + stamp))
    ensures forall f :: f != Id ==> Get(r.value, f) == Get(data, f)
    ensures Read(r.store, EmployeesKey) == Arr(GetAllEmployees(store, []).value + [r.value])
    ensures OnlyTouches(store, r.store, EmployeesKey)
  {
    AddRecord(store, EmployeesKey, "emp_", data, stamp)
  }

  function UpdateEmployee(store: Store, updated: Rec): (r: Step<Rec>)
    ensures r.value == updated
    ensures Read(r.store, EmployeesKey) == Arr(MergeMatching(GetAllEmployees(store, []).value, updated))
    ensures OnlyTouches(store, r.store, EmployeesKey)
  {
    UpdateRecord(store, EmployeesKey, updated)
  }

  /** `deleteEmployee`: removes the employee and every dynamic user linked to it
      through `employeeId`; tasks and the session are left alone. With an
      `undefined` id it removes every employee without an id and every
      dynamic user without an `employeeId`. */
  function DeleteEmployee(store: Store, id: Option<Value>): (r: Step<Option<Value>>)
    ensures r.value == id
    ensures Read(r.store, EmployeesKey) == Arr(WithoutId(GetAllEmployees(store, []).value, id))
    ensures var users := GetAllDynamicUsers(store, []).value;
      Read(r.store, DynamicUsersKey) == Arr(Filter(users, (u: Rec) => Get(u, EmployeeId) != id))
    ensures Read(r.store, TasksKey) == Read(store, TasksKey)
    ensures Read(r.store, CurrentUserKey) == Read(store, CurrentUserKey)
  {
    var emps := GetAllEmployees(store, []);
    var s1 := SaveList(emps.store, EmployeesKey, WithoutId(emps.value, id));
    var users := GetAllDynamicUsers(s1, []);
    GetAllLocal(s1, store, DynamicUsersKey, []);
    var s2 := SaveList(users.store, DynamicUsersKey, Filter(users.value, (u: Rec) => Get(u, EmployeeId) != id));
    Step(id, s2)
  }

  /** After `deleteEmployee(id)` no employee has that id and no dynamic user
      is linked to it; every other employee and user survives, in order. */
  lemma DeleteEmployeeCascades(store: Store, id: Option<Value>)
    ensures var s := DeleteEmployee(store, id).store;
      var emps := Read(s, EmployeesKey).items;
      var users := Read(s, DynamicUsersKey).items;
      var emps0 := GetAllEmployees(store, []).value;
      var users0 := GetAllDynamicUsers(store, []).value;
      && (forall e :: e in emps ==> IdOf(e) != id)
      && (forall u :: u in users ==> Get(u, EmployeeId) != id)
      && (forall e :: e in emps0 && IdOf(e) != id ==> e in emps)
      && (forall u :: u in users0 && Get(u, EmployeeId) != id ==> u in users)
      && IsSubsequence(emps, emps0) && IsSubsequence(users, users0)
  {
    var s := DeleteEmployee(store, id).store;
    var emps0 := GetAllEmployees(store, []).value;
    var users0 := GetAllDynamicUsers(store, []).value;
    var linkedElsewhere := (u: Rec) => Get(u, EmployeeId) != id;
    assert Read(s, EmployeesKey).items == WithoutId(emps0, id);
    assert Read(s, DynamicUsersKey).items == Filter(users0, linkedElsewhere);
    FilterIsSubsequence(users0, linkedElsewhere);
  }

  // ---------------------------------------------------------------------------
  // Tasks
  // ---------------------------------------------------------------------------

  /** `getTaskById`; note that it reads the list without seed data. */
  function GetTaskById(store: Store, id: Value): (r: Step<Option<Rec>>)
    ensures r.value.Some? ==> r.value.value in GetAllTasks(store, []).value && IdOf(r.value.value) == Some(id)
    ensures r.value.None? <==> forall t :: t in GetAllTasks(store, []).value ==> IdOf(t) != Some(id)
    ensures var tasks := GetAllTasks(store, []).value;
      r.value.Some? ==> exists i :: 0 <= i < |tasks| && tasks[i] == r.value.value &&
                          forall j :: 0 <= j < i ==> IdOf(tasks[j]) != Some(id)
    ensures r.store == GetAllTasks(store, []).store
  {
    var tasks := GetAllTasks(store, []);
    Step(FindById(tasks.value, id), tasks.store)
  }

  /** `addTask`: the new list is the old list followed by the new task, which
      has every property of `data` except its id, a fresh `task_` id that
      overrides any id `data` carried. */
  function AddTask(store: Store, data: Rec, stamp: string): (r: Step<Rec>)
    ensures IdOf(r.value) == Some(Str("task_" + stamp))
    ensures forall f :: f != Id ==> Get(r.value, f) == Get(data, f)
    ensures Read(r.store, TasksKey) == Arr(GetAllTasks(store, []).value + [r.value])
    ensures OnlyTouches(store, r.store, TasksKey)
  {
    AddRecord(store, TasksKey, "task_", data, stamp)
  }

  /** `updateTask`: length and order are kept, each task with the argument's id
      becomes the merge with the argument's properties winning, the others are
      untouched, and an unknown id changes nothing. It never reports "not
      found" and returns its argument. */
  function UpdateTask(store: Store, updated: Rec): (r: Step<Rec>)
    ensures r.value == updated
    ensures var before := GetAllTasks(store, []).value;
      && Read(r.store, TasksKey) == Arr(MergeMatching(before, updated))
      && ((forall t :: t in before ==> IdOf(t) != IdOf(updated)) ==> Read(r.store, TasksKey) == Arr(before))
    ensures OnlyTouches(store, r.store, TasksKey)
  {
    UpdateRecord(store, TasksKey, updated)
  }

  /** `deleteTask`: the list keeps exactly the tasks with another id, in order.
      It returns the id whether or not anything was removed. With an
      `undefined` id the tasks without an id are the ones removed. */
  function DeleteTask(store: Store, id: Option<Value>): (r: Step<Option<Value>>)
    ensures r.value == id
    ensures var before := GetAllTasks(store, []).value;
      && Read(r.store, TasksKey).Arr?
      && var after := Read(r.store, TasksKey).items;
      && (forall t :: t in after <==> t in before && IdOf(t) != id)
      && IsSubsequence(after, before)
      && (forall t :: multiset(after)[t] == if IdOf(t) != id then multiset(before)[t] else 0)
      && ((forall t :: t in before ==> IdOf(t) != id) ==> after == before)
    ensures OnlyTouches(store, r.store, TasksKey)
  {
    var tasks := GetAllTasks(store, []);
    Step(id, SaveList(tasks.store, TasksKey, WithoutId(tasks.value, id)))
  }

  /** Deleting the same task twice leaves the store as deleting it once. */
  lemma {:induction false} DeleteTaskIdempotent(store: Store, id: Option<Value>)
    ensures DeleteTask(DeleteTask(store, id).store, id).store == DeleteTask(store, id).store
  {
    var once := DeleteTask(store, id).store;
    var kept := WithoutId(GetAllTasks(store, []).value, id);
    assert TasksKey in once && once[TasksKey] == Arr(kept) by {
      assert Read(once, TasksKey) == Arr(kept);
    }
    assert GetAllTasks(once, []) == Step(kept, once);
    WithoutIdIdempotent(GetAllTasks(store, []).value, id);
    assert once[TasksKey := Arr(kept)] == once;
  }

  /** `deleteTask(undefined)`, which a list page issues for a stored task
      without an id, removes every task without an id and keeps the others. */
  lemma DeleteUndefinedTaskId(store: Store)
    ensures var before := GetAllTasks(store, []).value;
      var after := Read(DeleteTask(store, None).store, TasksKey).items;
      forall t :: t in after <==> t in before && IdOf(t).Some?
  {
  }

  /** Filtering out an id a second time removes nothing more. */
  lemma WithoutIdIdempotent(list: seq<Rec>, id: Option<Value>)
    ensures WithoutId(WithoutId(list, id), id) == WithoutId(list, id)
  {
    var kept := WithoutId(list, id);
    assert forall i :: 0 <= i < |kept| ==> IdOf(kept[i]) != id;
  }

  /** Updating twice with the same record is updating once. */
  lemma UpdateTaskIdempotent(store: Store, updated: Rec)
    ensures UpdateTask(UpdateTask(store, updated).store, updated).store == UpdateTask(store, updated).store
  {
    var before := GetAllTasks(store, []).value;
    var once := MergeMatching(before, updated);
    forall i | 0 <= i < |once| && IdOf(once[i]) == IdOf(updated)
      ensures Merge(once[i], updated) == once[i]
    {
      MergeIdempotent(before[i], updated);
    }
    assert MergeMatching(once, updated) == once;
  }

  /** A task added under an id no existing task has is found again by that id,
      equal to the data plus the generated id. */
  lemma AddThenGetTask(store: Store, data: Rec, stamp: string)
    requires forall t :: t in GetAllTasks(store, []).value ==> IdOf(t) != Some(Str("task_" + stamp))
    ensures var added := AddTask(store, data, stamp);
      GetTaskById(added.store, Str("task_" + stamp)).value == Some(WithFreshId(data, "task_", stamp))
  {
    var added := AddTask(store, data, stamp);
    var before := GetAllTasks(store, []).value;
    var after := before + [added.value];
    assert added.value == WithFreshId(data, "task_", stamp);
    assert GetAllTasks(added.store, []).value == after;
    var found := FindById(after, Str("task_" + stamp));
    assert IdOf(after[|before|]) == Some(Str("task_" + stamp));
  }
}
