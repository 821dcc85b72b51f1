/** The employee routes that do not change the tables, and the pieces of
    `create_employee` that are plain computation: how a validated payload is
    normalised before storage, which rows it collides with under the unique
    columns, and which message the 409 carries. */
module Roster {
  import opened Wrappers
  import opened Text
  import opened Seqs
  import opened Sorting
  import opened Models
  import opened Schemas
  import opened Http

  function FullNameOf(e: Employee): string { e.fullName }

  /** `list_employees`: every employee, ordered by full name. */
  function ListEmployees(roster: seq<Employee>): (r: seq<Employee>)
    ensures multiset(r) == multiset(roster)
    ensures SortedBy(r, FullNameOf)
  {
    assert SortedBy(SortByKey(roster, FullNameOf), FullNameOf) by {
      SortByKeySorted(roster, FullNameOf);
    }
    SortByKey(roster, FullNameOf)
  }

  /** The first employee whose primary key is `id`. */
  function Find(roster: seq<Employee>, id: int): (r: Option<Employee>)
    ensures r.Some? <==> id in Ids(roster)
    ensures r.Some? ==> r.value in roster && r.value.id == id
    ensures r.Some? ==> exists k :: 0 <= k < |roster| && roster[k] == r.value && forall j :: 0 <= j < k ==> roster[j].id != id
  {
    if roster == [] then None
    else if roster[0].id == id then Some(roster[0])
    else
      assert Ids(roster) == {roster[0].id} + Ids(roster[1..]) by {
        assert roster == [roster[0]] + roster[1..];
      }
      Find(roster[1..], id)
  }

  /** FastAPI's check of a returned row against `EmployeeResponse`, which
      inherits every `Field` bound of `EmployeeBase`: the row must pass the
      request validation again. `EmailStr` is taken to accept the address it
      normalised itself, so only the length bound applies to the email. */
  predicate Servable(e: Employee) {
    ValidateEmployee(BaseOf(e), Some(e.email)).Accepted?
  }

  /** No stored row would fail the response check. */
  predicate AllServable(roster: seq<Employee>) {
    forall e :: e in roster ==> Servable(e)
  }

  /** `list_employees` as the client receives it: the ordered roster, unless
      one row fails `list[EmployeeResponse]`, which makes the whole reply an
      internal error. */
  function ListRoute(roster: seq<Employee>): (r: Response<seq<Employee>>)
    ensures r.Ok? <==> AllServable(roster)
    ensures r.Ok? ==> r.status == 200 && multiset(r.value) == multiset(roster) && SortedBy(r.value, FullNameOf)
    ensures r.Err? ==> r == Err(500, InternalError) && exists e :: e in roster && !Servable(e)
  {
    if AllServable(roster) then Ok(200, ListEmployees(roster)) else Err(500, InternalError)
  }

  /** `get_employee`: 404 for an unknown id, otherwise the employee, or an
      internal error when that row fails `EmployeeResponse`. */
  function GetEmployee(roster: seq<Employee>, id: int): (r: Response<Employee>)
    ensures r == Err(404, Message(EmployeeNotFound)) <==> id !in Ids(roster)
    ensures r.Ok? ==> r.status == 200 && r.value in roster && r.value.id == id && Servable(r.value)
    ensures r.Err? && id in Ids(roster) ==>
      r == Err(500, InternalError) && exists e :: e in roster && e.id == id && !Servable(e)
  {
    match Find(roster, id)
    case None => Err(404, Message(EmployeeNotFound))
    case Some(e) => if Servable(e) then Ok(200, e) else Err(500, InternalError)
  }

  /** With distinct primary keys the employee found is the only one with that
      id: it is returned when it passes the response check and is an internal
      error otherwise. */
  lemma GetEmployeeUnique(roster: seq<Employee>, id: int, e: Employee)
    requires DistinctBy(roster, IdOf)
    requires e in roster && e.id == id
    ensures GetEmployee(roster, id) == if Servable(e) then Ok(200, e) else Err(500, InternalError)
  {
    var f := Find(roster, id).value;
    var i :| 0 <= i < |roster| && roster[i] == e;
    var j :| 0 <= j < |roster| && roster[j] == f;
    assert IdOf(roster[i]) == IdOf(roster[j]);
    assert i == j;
  }

  /** What `create_employee` stores: each field stripped, the email also lower-cased. */
  function Normalize(v: EmployeeBase): EmployeeBase {
    EmployeeBase(Strip(Python, v.employeeId), Strip(Python, v.fullName),
                 Lower(Strip(Python, v.email)), Strip(Python, v.department))
  }

  /** The row inserted for a normalised payload under primary key `id`. */
  function StoredEmployee(n: EmployeeBase, id: int): (e: Employee)
    ensures e.id == id
    ensures e.employeeId == n.employeeId && e.fullName == n.fullName
    ensures e.email == n.email && e.department == n.department
  {
    Employee(id, n.employeeId, n.fullName, n.email, n.department)
  }

  /** The create fields of a row, as `EmployeeResponse` returns them beside `id`. */
  function BaseOf(e: Employee): EmployeeBase {
    EmployeeBase(e.employeeId, e.fullName, e.email, e.department)
  }

  /** What `create_employee` stores for a payload `v`: every field is its
      Python strip, so no field is padded, and the email is also lower-cased,
      so it carries no upper-case ASCII letter. */
  lemma StoredRowIsNormalized(v: EmployeeBase, id: int)
    ensures var e := StoredEmployee(Normalize(v), id);
      && e.id == id
      && Strip(Python, e.employeeId) == e.employeeId && e.employeeId == Strip(Python, v.employeeId)
      && Strip(Python, e.fullName) == e.fullName && e.fullName == Strip(Python, v.fullName)
      && Strip(Python, e.department) == e.department && e.department == Strip(Python, v.department)
      && Strip(Python, e.email) == e.email && Lower(e.email) == e.email
      && e.email == Lower(Strip(Python, v.email))
  {
    NormalizeIdempotent(v);
    LowerIdempotent(Strip(Python, v.email));
  }

  /** A validated payload's row passes the response check exactly when none
      of the code, the name and the department strips to "": the bounds were
      met by the raw strings, and stripping only shortens them. */
  lemma StoredServableIff(raw: EmployeeBase, emailStr: Option<string>, id: int)
    requires ValidateEmployee(raw, emailStr).Accepted?
    ensures var v := ValidateEmployee(raw, emailStr).value;
      Servable(StoredEmployee(Normalize(v), id)) <==>
        Strip(Python, v.employeeId) != "" && Strip(Python, v.fullName) != "" && Strip(Python, v.department) != ""
  {
    ValidatedFitsColumns(raw, emailStr);
  }

  /** The 201 body of `create_employee`, without its `id`, is the normalised
      payload; posted again it normalises to itself and meets the row just
      inserted under the unique columns, so a repeat of the request is a 409. */
  lemma RepostOfResponseClashes(roster: seq<Employee>, v: EmployeeBase, id: int)
    ensures var e := StoredEmployee(Normalize(v), id);
      && BaseOf(e) == Normalize(v)
      && Normalize(BaseOf(e)) == BaseOf(e)
      && Clashes(roster + [e], Normalize(BaseOf(e)))
  {
    NormalizeIdempotent(v);
    var e := StoredEmployee(Normalize(v), id);
    assert e in roster + [e];
  }

  predicate CodeTaken(roster: seq<Employee>, code: string) {
    exists e :: e in roster && e.employeeId == code
  }

  predicate EmailTaken(roster: seq<Employee>, email: string) {
    exists e :: e in roster && e.email == email
  }

  /** The insert violates a unique column. */
  predicate Clashes(roster: seq<Employee>, n: EmployeeBase) {
    CodeTaken(roster, n.employeeId) || EmailTaken(roster, n.email)
  }

  const DuplicateDetail := "An employee with this email or Employee ID already exists."
  const DuplicateRecordDetail := "Duplicate employee record."

  /** The 409 message, chosen from the database driver's error text. */
  function ConflictDetail(driverMessage: string): (d: string)
    ensures d == DuplicateDetail <==> Contains(Lower(driverMessage), "email") || Contains(Lower(driverMessage), "unique")
    ensures d == DuplicateDetail || d == DuplicateRecordDetail
  {
    var m := Lower(driverMessage);
    if Contains(m, "email") || Contains(m, "unique") then DuplicateDetail else DuplicateRecordDetail
  }

  /** Lower-casing never turns a non-space into a space or back. */
  lemma LowerKeepsSpaces(rt: Runtime, s: string)
    ensures forall i :: 0 <= i < |s| ==> (IsSpace(rt, Lower(s)[i]) <==> IsSpace(rt, s[i]))
  {
  }

  lemma {:induction false} TrimStartLower(rt: Runtime, s: string)
    ensures TrimStart(rt, Lower(s)) == Lower(TrimStart(rt, s))
    decreases |s|
  {
    LowerKeepsSpaces(rt, s);
    if s != [] {
      assert Lower(s)[1..] == Lower(s[1..]);
      TrimStartLower(rt, s[1..]);
    }
  }

  lemma {:induction false} TrimEndLower(rt: Runtime, s: string)
    ensures TrimEnd(rt, Lower(s)) == Lower(TrimEnd(rt, s))
    decreases |s|
  {
    LowerKeepsSpaces(rt, s);
    if s != [] {
      assert Lower(s)[..|s| - 1] == Lower(s[..|s| - 1]);
      TrimEndLower(rt, s[..|s| - 1]);
    }
  }

  /** Stripping and lower-casing commute. */
  lemma StripLowerCommute(rt: Runtime, s: string)
    ensures Strip(rt, Lower(s)) == Lower(Strip(rt, s))
  {
    TrimStartLower(rt, s);
    TrimEndLower(rt, TrimStart(rt, s));
  }

  /** Storing is idempotent: a stored row, sent again, normalises to itself. */
  lemma NormalizeIdempotent(v: EmployeeBase)
    ensures Normalize(Normalize(v)) == Normalize(v)
  {
    StripIdempotent(Python, v.employeeId);
    StripIdempotent(Python, v.fullName);
    StripIdempotent(Python, v.department);
    var s := Strip(Python, v.email);
    StripLowerCommute(Python, s);
    StripIdempotent(Python, v.email);
    LowerIdempotent(s);
  }

  /** Two emails that differ only in letter case collide: the stored email is
      lower-cased and the column is unique. */
  lemma CaseVariantsClash(roster: seq<Employee>, a: EmployeeBase, b: EmployeeBase)
    requires EmailTaken(roster, Normalize(a).email)
    requires Lower(a.email) == Lower(b.email)
    ensures Clashes(roster, Normalize(b))
  {
    StripLowerCommute(Python, a.email);
    StripLowerCommute(Python, b.email);
    LowerIdempotent(Strip(Python, a.email));
    LowerIdempotent(Strip(Python, b.email));
    assert Normalize(a).email == Normalize(b).email by {
      calc {
        Lower(Strip(Python, a.email));
        Strip(Python, Lower(a.email));
        Strip(Python, Lower(b.email));
        Lower(Strip(Python, b.email));
      }
    }
  }

  /** Two payloads whose `employee_id` is whitespace only both store "" and
      collide: only the first is created. */
  lemma BlankCodesClash(roster: seq<Employee>, a: EmployeeBase, b: EmployeeBase)
    requires CodeTaken(roster, Normalize(a).employeeId)
    requires AllSpace(Python, a.employeeId) && AllSpace(Python, b.employeeId)
    ensures Normalize(b).employeeId == ""
    ensures Clashes(roster, Normalize(b))
  {
  }

  /** A validated payload, once normalised, fits the columns whatever key it gets. */
  lemma StoredFits(raw: EmployeeBase, emailStr: Option<string>, id: int)
    requires ValidateEmployee(raw, emailStr).Accepted?
    ensures EmployeeFits(StoredEmployee(Normalize(ValidateEmployee(raw, emailStr).value), id))
  {
    ValidatedFitsColumns(raw, emailStr);
  }

  /** Inserting an employee with a fresh primary key and no clash on the
      unique columns keeps every integrity rule. */
  lemma InsertKeepsConsistent(roster: seq<Employee>, ledger: seq<AttendanceRow>, e: Employee)
    requires Consistent(roster, ledger)
    requires e.id !in Ids(roster) && EmployeeFits(e)
    requires !Clashes(roster, BaseOf(e))
    ensures Consistent(roster + [e], ledger)
  {
    DistinctByAppend(roster, e, IdOf);
    DistinctByAppend(roster, e, CodeOf);
    DistinctByAppend(roster, e, EmailOf);
    assert Ids(roster) <= Ids(roster + [e]);
  }
}
