/**
  The administrator's employee list: the search filter over name, department
  and position, and deleting an employee from the list.
 */
module EmployeeListPage {
  import opened Base
  import opened Records
  import opened StorageService
  import SeedData

  /** The search predicate: the lowered term occurs in the lowered name,
      department or position, a missing or `null` one reading as the empty
      string. E-mail and phone are not searched. */
  predicate EmployeeMatches(term: string, e: Rec)
  {
    var q := Lower(term);
    Includes(LowerOrEmpty(Get(e, Name)), q) ||
    Includes(LowerOrEmpty(Get(e, Department)), q) ||
    Includes(LowerOrEmpty(Get(e, Position)), q)
  }

  /** `filteredEmployees`: exactly the matching employees, in their original
      order. */
  function FilterEmployees(employees: seq<Rec>, term: string): (r: seq<Rec>)
    ensures forall i :: 0 <= i < |r| ==> r[i] in employees && EmployeeMatches(term, r[i])
    ensures forall i :: 0 <= i < |employees| && EmployeeMatches(term, employees[i]) ==> employees[i] in r
    ensures IsSubsequence(r, employees)
    ensures forall e :: multiset(r)[e] == if EmployeeMatches(term, e) then multiset(employees)[e] else 0
  {
    var p := (e: Rec) => EmployeeMatches(term, e);
    FilterIsSubsequence(employees, p);
    FilterCount(employees, p);
    Filter(employees, p)
  }

  /** The empty search term keeps every employee. */
  lemma EmptySearchKeepsAllEmployees(employees: seq<Rec>)
    ensures FilterEmployees(employees, "") == employees
  {
    var p := (e: Rec) => EmployeeMatches("", e);
    forall i | 0 <= i < |employees|
      ensures p(employees[i])
    {
      IncludesEmpty(LowerOrEmpty(Get(employees[i], Name)));
    }
    FilterKeepsAll(employees, p);
  }

  /** Changing an employee's e-mail or phone never changes whether it is
      listed: those two properties are not searched. */
  lemma EmailAndPhoneNotSearched(e: Rec, term: string, email: Option<Value>, phone: Option<Value>)
    ensures EmployeeMatches(term, SetField(SetField(e, Email, email), Phone, phone)) <==> EmployeeMatches(term, e)
  {
    var e' := SetField(SetField(e, Email, email), Phone, phone);
    assert Get(e', Name) == Get(e, Name) && Get(e', Department) == Get(e, Department) &&
           Get(e', Position) == Get(e, Position);
  }

  /** The mount effect: the employee list read with the seed data. */
  function EmployeeListMount(store: Store): (r: Step<seq<Rec>>)
    ensures |r.value| > 0
    ensures Read(r.store, EmployeesKey) == Arr(r.value)
    ensures OnlyTouches(store, r.store, EmployeesKey)
    ensures Read(store, EmployeesKey).Arr? && |Read(store, EmployeesKey).items| > 0 ==>
      r == Step(Read(store, EmployeesKey).items, store)
    ensures !(Read(store, EmployeesKey).Arr? && |Read(store, EmployeesKey).items| > 0) ==>
      r.value == SeedData.InitialEmployees()
  {
    GetAllEmployees(store, SeedData.InitialEmployees())
  }

  /** `handleDelete`: when the user confirms, the employee (and the dynamic
      users linked to it) is deleted and the list is re-read without seed
      data; otherwise nothing happens. */
  function HandleDelete(employees: seq<Rec>, store: Store, id: Option<Value>, confirmed: bool): (r: Step<seq<Rec>>)
    ensures !confirmed ==> r == Step(employees, store)
    ensures confirmed ==> var after := DeleteEmployee(store, id).store;
      && r.store == after
      && r.value == WithoutId(GetAllEmployees(store, []).value, id)
      && forall i :: 0 <= i < |r.value| ==> IdOf(r.value[i]) != id
  {
    if confirmed then
      var deleted := DeleteEmployee(store, id);
      var reread := GetAllEmployees(deleted.store, []);
      Step(reread.value, reread.store)
    else Step(employees, store)
  }
}
