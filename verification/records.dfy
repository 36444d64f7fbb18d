/**
  The application's records are plain JavaScript objects serialised as JSON.
  A record is a finite map from property names to values; a property absent
  from the map reads as `undefined`. Object spread (`{ ...a, ...b }`) is map
  union with the right operand winning, and `a.f === b.f` compares the two
  optional values, so two missing properties compare equal, as in JavaScript.
 */
module Records {
  import opened Base

  /** Every property name the application reads or writes on a task, an
      employee or a login user. */
  datatype Field =
    | Id | Title | Description | AssignedTo | DueDate | Status | Priority
    | Name | Position | Department | Email | Phone | StartDate
    | Password | Role | EmployeeId

  /** The JSON values stored in a property: text or `null`. */
  datatype Value = Str(s: string) | Null

  type Rec = map<Field, Value>

  /** `r.f`: the property's value, or `None` for `undefined`. */
  function Get(r: Rec, f: Field): Option<Value>
  {
    if f in r then Some(r[f]) else None
  }

  function IdOf(r: Rec): Option<Value>
  {
    Get(r, Id)
  }

  /** JavaScript truthiness of a property holding text or `null`: only a
      non-empty string is truthy. */
  predicate Truthy(v: Option<Value>)
  {
    v.Some? && v.value.Str? && |v.value.s| > 0
  }

  /** `r.f?.toLowerCase()`: the lowered text, or `undefined` when the
      property is `null` or missing. */
  function LowerField(v: Option<Value>): (r: Option<string>)
    ensures r.Some? <==> v.Some? && v.value.Str?
    ensures r.Some? ==> r.value == Lower(v.value.s)
  {
    match v
    case Some(Str(s)) => Some(Lower(s))
    case _ => None
  }

  /** `(r.f?.toLowerCase() || '')`: a missing or `null` property reads as the
      empty string. */
  function LowerOrEmpty(v: Option<Value>): (r: string)
    ensures v.Some? && v.value.Str? ==> r == Lower(v.value.s)
    ensures !(v.Some? && v.value.Str?) ==> r == ""
  {
    match LowerField(v)
    case Some(s) => s
    case None => ""
  }

  /** `{ ...base, ...over }`: every property of `over` wins, every other
      property of `base` is kept. */
  function Merge(base: Rec, over: Rec): (r: Rec)
    ensures r.Keys == base.Keys + over.Keys
    ensures forall f :: Get(r, f) == (if f in over then Get(over, f) else Get(base, f))
  {
    base + over
  }

  /** Merging the same properties a second time changes nothing. */
  lemma MergeIdempotent(base: Rec, over: Rec)
    ensures Merge(Merge(base, over), over) == Merge(base, over)
  {
  }

  /** `{ ...r, [f]: v }` where `v` may be `undefined`; JSON drops a property
      whose value is `undefined`, so that case removes it. */
  function SetField(r: Rec, f: Field, v: Option<Value>): (r': Rec)
    ensures Get(r', f) == v
    ensures forall g :: g != f ==> Get(r', g) == Get(r, g)
  {
    match v
    case Some(x) => r[f := x]
    case None => r - {f}
  }

  /** A form's `handleChange`: `setState(prev => ({ ...prev, [name]: value }))`.
      Only the named field changes, and it now holds the typed text. */
  function Assign(draft: Rec, name: Field, text: string): (r: Rec)
    ensures Get(r, name) == Some(Str(text))
    ensures forall g :: g != name ==> Get(r, g) == Get(draft, g)
    ensures r.Keys == draft.Keys + {name}
  {
    SetField(draft, name, Some(Str(text)))
  }

  /** No two records of the list share an id. */
  predicate UniqueIds(rs: seq<Rec>)
  {
    forall i, j :: 0 <= i < |rs| && 0 <= j < |rs| && IdOf(rs[i]) == IdOf(rs[j]) ==> i == j
  }

  /** `u.role === role`. */
  predicate HasRole(u: Rec, role: string)
  {
    Get(u, Role) == Some(Str(role))
  }
}
