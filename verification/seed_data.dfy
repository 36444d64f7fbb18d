/**
  The built-in data: the fixed list of five employees, the four tasks used to
  seed an empty task list, and the six login users (one administrator and one
  user per employee). The rest of the application relies on the references
  between these lists; the contracts below state them.
 */
module SeedData {
  import opened Base
  import opened Records

  function EmployeeRec(id: string, name: string, position: string, department: string,
                       email: string, phone: string, startDate: string): Rec
  {
    map[Id := Str(id), Name := Str(name), Position := Str(position), Department := Str(department),
        Email := Str(email), Phone := Str(phone), StartDate := Str(startDate)]
  }

  function TaskRec(id: string, title: string, description: string, assignedTo: string,
                   dueDate: string, status: string, priority: string): Rec
  {
    map[Id := Str(id), Title := Str(title), Description := Str(description),
        AssignedTo := Str(assignedTo), DueDate := Str(dueDate), Status := Str(status),
        Priority := Str(priority)]
  }

  function UserRec(id: string, email: string, password: string, role: string, name: string,
                   employeeId: Value): Rec
  {
    map[Id := Str(id), Email := Str(email), Password := Str(password), Role := Str(role),
        Name := Str(name), EmployeeId := employeeId]
  }

  /** The values of property `f` across a list of records, in order. */
  function Column(rs: seq<Rec>, f: Field): (r: seq<Option<Value>>)
    ensures |r| == |rs|
    ensures forall i :: 0 <= i < |rs| ==> r[i] == Get(rs[i], f)
  {
    MapSeq(rs, (x: Rec) => Get(x, f))
  }

  function Ids(rs: seq<Rec>): seq<Option<Value>>
  {
    Column(rs, Id)
  }

  /** No two entries of `xs` are equal. */
  predicate Distinct<T(==)>(xs: seq<T>)
  {
    forall i, j :: 0 <= i < j < |xs| ==> xs[i] != xs[j]
  }

  /** The task statuses and priorities the forms offer. */
  predicate IsTaskStatus(v: Option<Value>)
  {
    v in {Some(Str("To Do")), Some(Str("In Progress")), Some(Str("Review")), Some(Str("Completed"))}
  }

  predicate IsTaskPriority(v: Option<Value>)
  {
    v in {Some(Str("Low")), Some(Str("Medium")), Some(Str("High"))}
  }

  /** `initialEmployees`: the fixed directory of five employees. */
  function InitialEmployees(): (r: seq<Rec>)
    ensures |r| == 5
  {
    [ EmployeeRec("emp_101", "Priya Sharma", "Senior Software Engineer", "Technology",
                  "priya.sharma@example.com", "987-654-3210", "2022-08-15"),
      EmployeeRec("emp_102", "Amit Kumar", "Project Manager", "Management",
                  "amit.kumar@example.com", "876-543-2109", "2021-05-20"),
      EmployeeRec("emp_103", "Sneha Reddy", "UI/UX Designer", "Design",
                  "sneha.reddy@example.com", "765-432-1098", "2023-01-30"),
      EmployeeRec("emp_104", "Vikram Singh", "QA Engineer", "Quality Assurance",
                  "vikram.singh@example.com", "654-321-0987", "2022-11-01"),
      EmployeeRec("emp_105", "Anjali Gupta", "HR Manager", "Human Resources",
                  "anjali.gupta@example.com", "543-210-9876", "2020-02-18") ]
  }

  /** Some employee of `emps` carries the id `id`. */
  predicate NamesEmployee(emps: seq<Rec>, id: Option<Value>)
  {
    exists j :: 0 <= j < |emps| && IdOf(emps[j]) == id
  }

  /** The titles and descriptions of the seed tasks. */
  const TitleQ3Presentation: string := "Finalize Q3 Project Presentation"
  const DescQ3Presentation: string := "Compile all team slides for the quarterly review."
  const TitleProfileMockups: string := "Update User Profile Mockups"
  const DescProfileMockups: string := "Incorporate new branding guidelines into the profile page design."
  const TitleRegression: string := "Regression Testing for v2.5 Release"
  const DescRegression: string := "Complete the full regression testing suite for the upcoming release."
  const TitleAuthReview: string := "Code Review for New Auth Module"
  const DescAuthReview: string := "Perform a detailed code review on the new authentication module PR."

  /** `initialTasks`: the four tasks an empty task list is seeded with. */
  function InitialTasks(): (r: seq<Rec>)
    ensures |r| == 4
  {
    [ TaskRec("task_ls_1", TitleQ3Presentation, DescQ3Presentation,
              "emp_102", "2025-07-25", "In Progress", "High"),
      TaskRec("task_ls_2", TitleProfileMockups, DescProfileMockups,
              "emp_103", "2025-07-30", "To Do", "Medium"),
      TaskRec("task_ls_3", TitleRegression, DescRegression,
              "emp_104", "2025-08-01", "To Do", "High"),
      TaskRec("task_ls_4", TitleAuthReview, DescAuthReview,
              "emp_101", "2025-07-22", "In Progress", "Medium") ]
  }

  /** `predefinedUsers`: the administrator first, then one login user per
      seed employee. */
  function PredefinedUsers(): (r: seq<Rec>)
    ensures |r| == 6
  {
    [ UserRec("user_admin_main", "admin@example.com", "adminpassword", "admin", "Admin User", Null),
      UserRec("user_priya_login", "priya.sharma@example.com", "passwordPriya", "employee",
              "Priya Sharma", Str("emp_101")),
      UserRec("user_amit_login", "amit.kumar@example.com", "passwordAmit", "employee",
              "Amit Kumar", Str("emp_102")),
      UserRec("user_sneha_login", "sneha.reddy@example.com", "passwordSneha", "employee",
              "Sneha Reddy", Str("emp_103")),
      UserRec("user_vikram_login", "vikram.singh@example.com", "passwordVikram", "employee",
              "Vikram Singh", Str("emp_104")),
      UserRec("user_anjali_login", "anjali.gupta@example.com", "passwordAnjali", "employee",
              "Anjali Gupta", Str("emp_105")) ]
  }

  /** A property holding the text `s`. */
  function Text(s: string): Option<Value>
  {
    Some(Str(s))
  }

  // ---------------------------------------------------------------------------
  // The columns the rest of the application relies on, one list and one
  // property at a time
  // ---------------------------------------------------------------------------

  lemma EmployeeIdColumn()
    ensures Ids(InitialEmployees()) ==
      [Text("emp_101"), Text("emp_102"), Text("emp_103"), Text("emp_104"), Text("emp_105")]
  {
  }

  lemma EmployeeEmailColumn()
    ensures Column(InitialEmployees(), Email) ==
      [Text("priya.sharma@example.com"), Text("amit.kumar@example.com"), Text("sneha.reddy@example.com"),
       Text("vikram.singh@example.com"), Text("anjali.gupta@example.com")]
  {
  }

  lemma EmployeeNameColumn()
    ensures Column(InitialEmployees(), Name) ==
      [Text("Priya Sharma"), Text("Amit Kumar"), Text("Sneha Reddy"), Text("Vikram Singh"), Text("Anjali Gupta")]
  {
  }

  lemma TaskIdColumn()
    ensures Ids(InitialTasks()) == [Text("task_ls_1"), Text("task_ls_2"), Text("task_ls_3"), Text("task_ls_4")]
  {
  }

  lemma TaskAssigneeColumn()
    ensures Column(InitialTasks(), AssignedTo) == [Text("emp_102"), Text("emp_103"), Text("emp_104"), Text("emp_101")]
  {
  }

  lemma TaskStatusColumn()
    ensures Column(InitialTasks(), Status) ==
      [Text("In Progress"), Text("To Do"), Text("To Do"), Text("In Progress")]
  {
  }

  lemma TaskPriorityColumn()
    ensures Column(InitialTasks(), Priority) == [Text("High"), Text("Medium"), Text("High"), Text("Medium")]
  {
  }

  lemma UserIdColumn()
    ensures Ids(PredefinedUsers()) ==
      [Text("user_admin_main"), Text("user_priya_login"), Text("user_amit_login"),
       Text("user_sneha_login"), Text("user_vikram_login"), Text("user_anjali_login")]
  {
  }

  lemma UserEmailColumn()
    ensures Column(PredefinedUsers(), Email) ==
      [Text("admin@example.com"), Text("priya.sharma@example.com"), Text("amit.kumar@example.com"),
       Text("sneha.reddy@example.com"), Text("vikram.singh@example.com"), Text("anjali.gupta@example.com")]
  {
  }

  lemma UserPasswordColumn()
    ensures Column(PredefinedUsers(), Password) ==
      [Text("adminpassword"), Text("passwordPriya"), Text("passwordAmit"), Text("passwordSneha"),
       Text("passwordVikram"), Text("passwordAnjali")]
  {
  }

  lemma UserNameColumn()
    ensures Column(PredefinedUsers(), Name) ==
      [Text("Admin User"), Text("Priya Sharma"), Text("Amit Kumar"), Text("Sneha Reddy"),
       Text("Vikram Singh"), Text("Anjali Gupta")]
  {
  }

  lemma UserRoleColumn()
    ensures Column(PredefinedUsers(), Role) ==
      [Text("admin"), Text("employee"), Text("employee"), Text("employee"), Text("employee"), Text("employee")]
  {
  }

  lemma UserEmployeeIdColumn()
    ensures Column(PredefinedUsers(), EmployeeId) ==
      [Some(Null), Text("emp_101"), Text("emp_102"), Text("emp_103"), Text("emp_104"), Text("emp_105")]
  {
  }

  // ---------------------------------------------------------------------------
  // The claims about the seed data
  // ---------------------------------------------------------------------------

  /** Employee ids are pairwise distinct. */
  lemma EmployeeIdsDistinct()
    ensures Distinct(Ids(InitialEmployees()))
  {
    EmployeeIdColumn();
  }

  /** Seed task ids are pairwise distinct. */
  lemma TaskIdsDistinct()
    ensures Distinct(Ids(InitialTasks()))
  {
    TaskIdColumn();
  }

  /** Login user ids are pairwise distinct. */
  lemma UserIdsDistinct()
    ensures Distinct(Ids(PredefinedUsers()))
  {
    UserIdColumn();
  }

  /** Login users' e-mail addresses are pairwise distinct. */
  lemma UserEmailsDistinct()
    ensures Distinct(Column(PredefinedUsers(), Email))
  {
    UserEmailColumn();
  }

  /** A task whose assignee appears in the employees' id column names an
      employee. */
  lemma NamesEmployeeFromColumn(emps: seq<Rec>, t: Rec)
    requires Get(t, AssignedTo) in Ids(emps)
    ensures NamesEmployee(emps, Get(t, AssignedTo))
  {
    var j :| 0 <= j < |Ids(emps)| && Ids(emps)[j] == Get(t, AssignedTo);
    assert IdOf(emps[j]) == Get(t, AssignedTo);
  }

  /** Every seed task is assigned to one of the seed employees. */
  lemma SeedTasksReferenceEmployees()
    ensures forall i :: 0 <= i < |InitialTasks()| ==>
      NamesEmployee(InitialEmployees(), Get(InitialTasks()[i], AssignedTo))
  {
    var emps, tasks := InitialEmployees(), InitialTasks();
    EmployeeIdColumn();
    TaskAssigneeColumn();
    forall i | 0 <= i < |tasks|
      ensures NamesEmployee(emps, Get(tasks[i], AssignedTo))
    {
      assert Get(tasks[i], AssignedTo) == Column(tasks, AssignedTo)[i];
      NamesEmployeeFromColumn(emps, tasks[i]);
    }
  }

  /** Every seed task carries a status and a priority the task forms offer. */
  lemma SeedTaskValuesOffered()
    ensures forall i :: 0 <= i < |InitialTasks()| ==>
      IsTaskStatus(Get(InitialTasks()[i], Status)) && IsTaskPriority(Get(InitialTasks()[i], Priority))
  {
    var tasks := InitialTasks();
    TaskStatusColumn();
    TaskPriorityColumn();
    forall i | 0 <= i < |tasks|
      ensures IsTaskStatus(Get(tasks[i], Status)) && IsTaskPriority(Get(tasks[i], Priority))
    {
      assert Get(tasks[i], Status) == Column(tasks, Status)[i];
      assert Get(tasks[i], Priority) == Column(tasks, Priority)[i];
    }
  }

  /** The seed employee `e` is the profile of login user `u`: its id is the
      user's employeeId and it has the user's e-mail address and name. */
  predicate ProfileOf(e: Rec, u: Rec)
  {
    IdOf(e) == Get(u, EmployeeId) && Get(e, Email) == Get(u, Email) && Get(e, Name) == Get(u, Name)
  }

  /** When the employee columns are the user columns without their first
      entry and every user after the first has role employee, each of those
      users has the employee just before it as its profile. */
  lemma LinkedFromColumns(emps: seq<Rec>, users: seq<Rec>)
    requires |users| == |emps| + 1
    requires Ids(emps) == Column(users, EmployeeId)[1..]
    requires Column(emps, Email) == Column(users, Email)[1..]
    requires Column(emps, Name) == Column(users, Name)[1..]
    requires forall i :: 1 <= i < |users| ==> Column(users, Role)[i] == Text("employee")
    ensures forall i :: 1 <= i < |users| ==> HasRole(users[i], "employee") && ProfileOf(emps[i - 1], users[i])
  {
    forall i | 1 <= i < |users|
      ensures HasRole(users[i], "employee") && ProfileOf(emps[i - 1], users[i])
    {
      assert Column(users, Role)[i] == Get(users[i], Role);
      assert Ids(emps)[i - 1] == Column(users, EmployeeId)[i];
      assert Column(emps, Email)[i - 1] == Column(users, Email)[i];
      assert Column(emps, Name)[i - 1] == Column(users, Name)[i];
      assert ProfileOf(emps[i - 1], users[i]);
    }
  }

  /** The first predefined user is the administrator, with a `null`
      employeeId; every other one has role employee and is linked to the seed
      employee with the same e-mail address and name. */
  lemma PredefinedUsersLinked()
    ensures HasRole(PredefinedUsers()[0], "admin") && Get(PredefinedUsers()[0], EmployeeId) == Some(Null)
    ensures |PredefinedUsers()| == |InitialEmployees()| + 1
    ensures forall i :: 1 <= i < |PredefinedUsers()| ==>
      HasRole(PredefinedUsers()[i], "employee") && ProfileOf(InitialEmployees()[i - 1], PredefinedUsers()[i])
  {
    var emps, users := InitialEmployees(), PredefinedUsers();
    UserRoleColumn();
    UserEmployeeIdColumn();
    assert Get(users[0], Role) == Column(users, Role)[0];
    assert Get(users[0], EmployeeId) == Column(users, EmployeeId)[0];
    EmployeeIdColumn();
    EmployeeEmailColumn();
    EmployeeNameColumn();
    UserEmailColumn();
    UserNameColumn();
    LinkedFromColumns(emps, users);
  }
}
