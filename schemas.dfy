/** Request validation of the two payloads, as the pydantic models declare it:
    length bounds on the raw strings of `EmployeeBase`, `EmailStr` on the
    email, a date and the `^(Present|Absent)$` pattern on `AttendanceBase`. */
module Schemas {
  import opened Wrappers
  import opened Text
  import opened Models

  /** The four fields of an employee payload, as received. */
  datatype EmployeeBase = EmployeeBase(employeeId: string, fullName: string, email: string, department: string)

  /** An attendance payload: `date` is None when the value is not a date. */
  datatype AttendanceBase = AttendanceBase(date: Option<Date>, status: string)

  /** A validated attendance payload. */
  datatype AttendanceCreate = AttendanceCreate(date: Date, status: string)

  /** The outcome of request validation: the validated value, or the names of
      the fields that failed (FastAPI answers those with 422). */
  datatype Validation<+T> = Accepted(value: T) | Unprocessable(locs: seq<string>)

  const EmployeeIdMaxLength: nat := 50
  const FullNameMaxLength: nat := 200
  const DepartmentMaxLength: nat := 100
  /** The longest address `EmailStr` lets through. */
  const EmailMaxLength: nat := 254

  predicate LengthWithin(s: string, max: nat) {
    1 <= |s| <= max
  }

  /** `EmailStr` is library code; its verdict on the raw email is an input to
      the model: the normalised address, or None when it rejects the value.
      It never lets through an address longer than 254 characters. */
  predicate EmailAccepted(emailStr: Option<string>) {
    emailStr.Some? && |emailStr.value| <= EmailMaxLength
  }

  /** The fields of an employee payload that fail, in declaration order. */
  function EmployeeFailures(raw: EmployeeBase, emailStr: Option<string>): (locs: seq<string>)
    ensures "employee_id" in locs <==> !LengthWithin(raw.employeeId, EmployeeIdMaxLength)
    ensures "full_name" in locs <==> !LengthWithin(raw.fullName, FullNameMaxLength)
    ensures "email" in locs <==> !EmailAccepted(emailStr)
    ensures "department" in locs <==> !LengthWithin(raw.department, DepartmentMaxLength)
    ensures forall f :: f in locs ==> f in ["employee_id", "full_name", "email", "department"]
  {
    (if LengthWithin(raw.employeeId, EmployeeIdMaxLength) then [] else ["employee_id"])
    + (if LengthWithin(raw.fullName, FullNameMaxLength) then [] else ["full_name"])
    + (if EmailAccepted(emailStr) then [] else ["email"])
    + (if LengthWithin(raw.department, DepartmentMaxLength) then [] else ["department"])
  }

  /** `EmployeeCreate` validation. The bounds are checked on the raw strings;
      the email is replaced by `EmailStr`'s normalised value. */
  function ValidateEmployee(raw: EmployeeBase, emailStr: Option<string>): (r: Validation<EmployeeBase>)
    ensures r.Accepted? <==>
      && LengthWithin(raw.employeeId, EmployeeIdMaxLength)
      && LengthWithin(raw.fullName, FullNameMaxLength)
      && EmailAccepted(emailStr)
      && LengthWithin(raw.department, DepartmentMaxLength)
    ensures r.Accepted? ==> r.value == raw.(email := emailStr.value)
    ensures r.Unprocessable? ==> r.locs != [] && r.locs == EmployeeFailures(raw, emailStr)
  {
    var locs := EmployeeFailures(raw, emailStr);
    if locs == [] then Accepted(raw.(email := emailStr.value)) else Unprocessable(locs)
  }

  /** The status pattern `^(Present|Absent)$`: the whole string is one of the two words. */
  predicate IsStatus(s: string) {
    s == "Present" || s == "Absent"
  }

  /** `AttendanceCreate` validation. */
  function ValidateAttendance(raw: AttendanceBase): (r: Validation<AttendanceCreate>)
    ensures r.Accepted? <==> raw.date.Some? && IsStatus(raw.status)
    ensures r.Accepted? ==> r.value == AttendanceCreate(raw.date.value, raw.status)
    ensures r.Unprocessable? ==>
      && r.locs != []
      && ("date" in r.locs <==> raw.date.None?)
      && ("status" in r.locs <==> !IsStatus(raw.status))
  {
    var locs := (if raw.date.Some? then [] else ["date"]) + (if IsStatus(raw.status) then [] else ["status"]);
    if locs == [] then Accepted(AttendanceCreate(raw.date.value, raw.status)) else Unprocessable(locs)
  }

  /** The pattern is anchored and case-sensitive: other casings, padding and
      a trailing newline are all refused. */
  lemma StatusPatternIsExact()
    ensures !IsStatus("present") && !IsStatus("PRESENT") && !IsStatus(" Absent")
    ensures !IsStatus("Absent\n") && !IsStatus("PresentAbsent") && !IsStatus("")
  {
  }

  /** A validated employee fits the columns it is stored in, whatever stripping
      and lower-casing do afterwards, since neither makes a string longer. */
  lemma ValidatedFitsColumns(raw: EmployeeBase, emailStr: Option<string>)
    requires ValidateEmployee(raw, emailStr).Accepted?
    ensures var v := ValidateEmployee(raw, emailStr).value;
      && |Strip(Python, v.employeeId)| <= EmployeeIdWidth
      && |Strip(Python, v.fullName)| <= FullNameWidth
      && |Lower(Strip(Python, v.email))| <= EmailWidth
      && |Strip(Python, v.department)| <= DepartmentWidth
  {
  }

  /** A validated status fits the `status` column. */
  lemma StatusFitsColumn(s: string)
    requires IsStatus(s)
    ensures |s| <= StatusWidth
  {
  }

  /** Bounds apply to the untrimmed input: a whitespace-only field of
      acceptable length passes validation and strips to "". */
  lemma WhitespaceOnlyFieldPasses(raw: EmployeeBase, emailStr: Option<string>)
    requires LengthWithin(raw.fullName, FullNameMaxLength)
    requires EmailAccepted(emailStr)
    requires LengthWithin(raw.department, DepartmentMaxLength)
    requires 1 <= |raw.employeeId| <= EmployeeIdMaxLength && AllSpace(Python, raw.employeeId)
    ensures ValidateEmployee(raw, emailStr).Accepted?
    ensures Strip(Python, ValidateEmployee(raw, emailStr).value.employeeId) == ""
  {
  }
}
