/** The database as the route handlers see it: the `employees` and
    `attendance` tables held in memory, with a method per handler that writes.
    Each method's contract says which answer the handler gives (422 from
    request validation, 404, 409, or success) and what the tables are
    afterwards; a rolled-back transaction leaves them as they were. */
module Store {
  import opened Wrappers
  import opened Seqs
  import opened Models
  import opened Schemas
  import opened Roster
  import opened Http
  import opened Text
  import opened ApiClient

  class Database {
    var employees: seq<Employee>
    var attendance: seq<AttendanceRow>
    /** The primary keys the database hands out next. */
    var nextEmployeeKey: int
    var nextAttendanceKey: int

    /** The integrity rules of the schema, plus: keys handed out so far are
        below the counters, and every stored status passed the pattern. */
    ghost predicate Valid()
      reads this
    {
      && Consistent(employees, attendance)
      && (forall e :: e in employees ==> e.id < nextEmployeeKey)
      && (forall r :: r in attendance ==> r.id < nextAttendanceKey)
      && (forall r :: r in attendance ==> IsStatus(r.status))
    }

    /** Freshly created, empty tables. */
    constructor ()
      ensures Valid()
      ensures employees == [] && attendance == []
    {
      employees := [];
      attendance := [];
      nextEmployeeKey := 1;
      nextAttendanceKey := 1;
    }

    /** `create_employee`: validate, normalise, insert; a unique-column
        violation rolls back with 409. The insert is committed before FastAPI
        checks the returned row against `EmployeeResponse`, so a row with an
        empty field stays in the table while the reply is an internal error.
        `emailStr` is `EmailStr`'s verdict on the raw email and
        `driverMessage` the text of the driver's integrity error. */
    method CreateEmployee(raw: EmployeeBase, emailStr: Option<string>, driverMessage: string) returns (r: Response<Employee>)
      requires Valid()
      modifies this
      ensures Valid()
      ensures attendance == old(attendance)
      ensures ValidateEmployee(raw, emailStr).Unprocessable? ==>
        && r == Err(422, FieldErrors(ValidateEmployee(raw, emailStr).locs))
        && employees == old(employees)
      ensures ValidateEmployee(raw, emailStr).Accepted? ==>
        var n := Normalize(ValidateEmployee(raw, emailStr).value);
        if Clashes(old(employees), n) then
          && r == Err(409, Message(ConflictDetail(driverMessage)))
          && employees == old(employees)
        else
          var e := StoredEmployee(n, old(nextEmployeeKey));
          && e.id !in old(Ids(employees))
          && employees == old(employees) + [e]
          && r == if Servable(e) then Ok(201, e) else Err(500, InternalError)
    {
      match ValidateEmployee(raw, emailStr)
      case Unprocessable(locs) =>
        r := Err(422, FieldErrors(locs));
      case Accepted(v) =>
        var n := Normalize(v);
        if Clashes(employees, n) {
          r := Err(409, Message(ConflictDetail(driverMessage)));
        } else {
          Insert(raw, emailStr, n);
          var e := employees[|employees| - 1];
          r := if Servable(e) then Ok(201, e) else Err(500, InternalError);
        }
    }

    /** `create_employee` as it is evidently meant to behave: a payload whose
        normalised row would fail `EmployeeResponse` is refused with 422
        before anything is stored, so every stored row can be listed. */
    method CreateEmployeeChecked(raw: EmployeeBase, emailStr: Option<string>, driverMessage: string) returns (r: Response<Employee>)
      requires Valid() && AllServable(employees)
      modifies this
      ensures Valid() && AllServable(employees) && ListRoute(employees).Ok?
      ensures attendance == old(attendance)
      ensures ValidateEmployee(raw, emailStr).Unprocessable? ==>
        && r == Err(422, FieldErrors(ValidateEmployee(raw, emailStr).locs))
        && employees == old(employees)
      ensures ValidateEmployee(raw, emailStr).Accepted? ==>
        var n := Normalize(ValidateEmployee(raw, emailStr).value);
        var locs := EmployeeFailures(n, Some(n.email));
        if locs != [] then
          && r == Err(422, FieldErrors(locs))
          && employees == old(employees)
        else if Clashes(old(employees), n) then
          && r == Err(409, Message(ConflictDetail(driverMessage)))
          && employees == old(employees)
        else
          var e := StoredEmployee(n, old(nextEmployeeKey));
          && e.id !in old(Ids(employees))
          && employees == old(employees) + [e]
          && r == Ok(201, e)
    {
      match ValidateEmployee(raw, emailStr)
      case Unprocessable(locs) =>
        r := Err(422, FieldErrors(locs));
      case Accepted(v) =>
        var n := Normalize(v);
        var locs := EmployeeFailures(n, Some(n.email));
        if locs != [] {
          r := Err(422, FieldErrors(locs));
        } else if Clashes(employees, n) {
          r := Err(409, Message(ConflictDetail(driverMessage)));
        } else {
          Insert(raw, emailStr, n);
          var e := employees[|employees| - 1];
          assert BaseOf(e) == n;
          r := Ok(201, e);
        }
    }

    /** The committed insert of a normalised, non-clashing payload under the
        next primary key. */
    method Insert(raw: EmployeeBase, emailStr: Option<string>, n: EmployeeBase)
      requires Valid()
      requires ValidateEmployee(raw, emailStr).Accepted? && n == Normalize(ValidateEmployee(raw, emailStr).value)
      requires !Clashes(employees, n)
      modifies this
      ensures Valid()
      ensures attendance == old(attendance) && nextEmployeeKey == old(nextEmployeeKey) + 1
      ensures StoredEmployee(n, old(nextEmployeeKey)).id !in old(Ids(employees))
      ensures employees == old(employees) + [StoredEmployee(n, old(nextEmployeeKey))]
    {
      var e := StoredEmployee(n, nextEmployeeKey);
      StoredFits(raw, emailStr, nextEmployeeKey);
      InsertKeepsConsistent(employees, attendance, e);
      employees := employees + [e];
      nextEmployeeKey := nextEmployeeKey + 1;
    }

    /** `delete_employee`: 404 for an unknown id; otherwise the employee goes,
        and with it (the cascade) every attendance row that refers to it. */
    method DeleteEmployee(id: int) returns (r: Response<()>)
      requires Valid()
      modifies this
      ensures Valid()
      ensures id !in old(Ids(employees)) ==>
        && r == Err(404, Message(EmployeeNotFound))
        && employees == old(employees) && attendance == old(attendance)
      ensures old(AllServable(employees)) ==> AllServable(employees)
      ensures id in old(Ids(employees)) ==>
        && r == Ok(204, ())
        && employees == DropEmployee(old(employees), id)
        && attendance == DropRowsOf(old(attendance), id)
    {
      if id !in Ids(employees) {
        r := Err(404, Message(EmployeeNotFound));
      } else {
        CascadeKeepsConsistent(employees, attendance, id);
        employees := DropEmployee(employees, id);
        attendance := DropRowsOf(attendance, id);
        r := Ok(204, ());
      }
    }

    /** `mark_attendance`: request validation first, then 404 for an unknown
        employee, then the insert; a second row for the same (employee, date)
        violates `uq_employee_date`, rolls back with 409 and leaves the
        recorded status as it was. */
    method MarkAttendance(employeeId: int, raw: AttendanceBase) returns (r: Response<AttendanceRow>)
      requires Valid()
      modifies this
      ensures Valid()
      ensures employees == old(employees)
      ensures ValidateAttendance(raw).Unprocessable? ==>
        && r == Err(422, FieldErrors(ValidateAttendance(raw).locs))
        && attendance == old(attendance)
      ensures ValidateAttendance(raw).Accepted? && employeeId !in Ids(employees) ==>
        && r == Err(404, Message(EmployeeNotFound))
        && attendance == old(attendance)
      ensures ValidateAttendance(raw).Accepted? && employeeId in Ids(employees) ==>
        var a := ValidateAttendance(raw).value;
        if exists x :: x in old(attendance) && x.employeeId == employeeId && x.date == a.date then
          && r == Err(409, Message(DuplicateMarkDetail))
          && attendance == old(attendance)
        else
          && r.Ok? && r.status == 201
          && r.value.employeeId == employeeId && r.value.date == a.date && r.value.status == a.status
          && (forall x :: x in old(attendance) ==> x.id != r.value.id)
          && attendance == old(attendance) + [r.value]
    {
      match ValidateAttendance(raw)
      case Unprocessable(locs) =>
        r := Err(422, FieldErrors(locs));
      case Accepted(a) =>
        if employeeId !in Ids(employees) {
          r := Err(404, Message(EmployeeNotFound));
        } else if exists x :: x in attendance && x.employeeId == employeeId && x.date == a.date {
          r := Err(409, Message(DuplicateMarkDetail));
        } else {
          var row := AttendanceRow(nextAttendanceKey, employeeId, a.date, a.status);
          StatusFitsColumn(a.status);
          DistinctByAppend(attendance, row, RowIdOf);
          DistinctByAppend(attendance, row, SlotOf);
          attendance := attendance + [row];
          nextAttendanceKey := nextAttendanceKey + 1;
          r := Ok(201, row);
        }
    }
  }

  /** A row that fails `EmployeeResponse` and is the only one with its key
      makes the listing, and the reading of that key, an internal error. */
  lemma UnservableRowBreaksListing(roster: seq<Employee>, e: Employee)
    requires !Servable(e) && e.id !in Ids(roster)
    ensures ListRoute(roster + [e]) == Err(500, InternalError)
    ensures GetEmployee(roster + [e], e.id) == Err(500, InternalError)
  {
    var s := roster + [e];
    assert s[|roster|] == e;
    assert e.id in Ids(s);
    forall k | 0 <= k < |roster| ensures s[k].id != e.id {
      assert s[k] == roster[k] && roster[k] in roster;
    }
  }

  /** A payload whose employee code is whitespace only, and `EmailStr`'s verdict on its email. */
  const BlankCodePayload := EmployeeBase("   ", "Ann", "ann@example.com", "Ops")
  const BlankCodeEmail := Some("ann@example.com")

  /** Request validation accepts the blank code, which strips to "", while
      the name and the department stay non-empty. */
  lemma BlankCodeAccepted()
    ensures ValidateEmployee(BlankCodePayload, BlankCodeEmail).Accepted?
    ensures var v := ValidateEmployee(BlankCodePayload, BlankCodeEmail).value;
      && Strip(Python, v.employeeId) == ""
      && Strip(Python, v.fullName) != "" && Strip(Python, v.department) != ""
  {
    var v := ValidateEmployee(BlankCodePayload, BlankCodeEmail).value;
    assert AllSpace(Python, v.employeeId);
    assert !IsSpace(Python, v.fullName[0]);
    assert !IsSpace(Python, v.department[0]);
  }

  /** The blank code's row fails `EmployeeResponse`; checking the normalised
      payload names exactly that field. */
  lemma BlankCodeRow(id: int)
    ensures ValidateEmployee(BlankCodePayload, BlankCodeEmail).Accepted?
    ensures var n := Normalize(ValidateEmployee(BlankCodePayload, BlankCodeEmail).value);
      && !Servable(StoredEmployee(n, id))
      && EmployeeFailures(n, Some(n.email)) == ["employee_id"]
  {
    BlankCodeAccepted();
    StoredServableIff(BlankCodePayload, BlankCodeEmail, id);
    ValidatedFitsColumns(BlankCodePayload, BlankCodeEmail);
  }

  /** `create_employee` as written, on the blank code: the row is committed,
      after which listing the roster is an internal error, and so is reading
      that employee; the client reports both as "Invalid server response".
      `CreateEmployeeChecked` refuses the same payload with 422. */
  lemma BlankCodeBreaksListing(roster: seq<Employee>, id: int)
    requires id !in Ids(roster)
    ensures ValidateEmployee(BlankCodePayload, BlankCodeEmail).Accepted?
    ensures var e := StoredEmployee(Normalize(ValidateEmployee(BlankCodePayload, BlankCodeEmail).value), id);
      && ListRoute(roster + [e]) == Err(500, InternalError)
      && GetEmployee(roster + [e], id) == Err(500, InternalError)
    ensures HandleResponse(HttpResponse(500, InternalErrorText, InternalErrorText), ErrorBody(InternalError)).error.message
         == InvalidResponse
  {
    BlankCodeRow(id);
    var n := Normalize(ValidateEmployee(BlankCodePayload, BlankCodeEmail).value);
    UnservableRowBreaksListing(roster, StoredEmployee(n, id));
    InternalErrorShowsInvalidResponse(InternalErrorText);
  }

  const DuplicateMarkDetail := "Attendance for this date has already been recorded."
}
