/** The two tables of the backend, `employees` and `attendance`, and the
    integrity rules the database keeps on them: primary keys, the unique
    columns, the `uq_employee_date` constraint, the foreign key from an
    attendance row to its employee and the declared column widths. */
module Models {
  import opened Seqs

  /** A calendar date, as a day number; only equality and order matter. */
  type Date = int

  /** A row of `employees`. `id` is the primary key assigned by the database. */
  datatype Employee = Employee(id: int, employeeId: string, fullName: string, email: string, department: string)

  /** A row of `attendance`; `employeeId` refers to `Employee.id`. */
  datatype AttendanceRow = AttendanceRow(id: int, employeeId: int, date: Date, status: string)

  /** Declared widths of the string columns. */
  const EmployeeIdWidth: nat := 50
  const FullNameWidth: nat := 200
  const EmailWidth: nat := 255
  const DepartmentWidth: nat := 100
  const StatusWidth: nat := 20

  /** Keys of the unique indexes. */
  function IdOf(e: Employee): int { e.id }
  function CodeOf(e: Employee): string { e.employeeId }
  function EmailOf(e: Employee): string { e.email }
  function RowIdOf(r: AttendanceRow): int { r.id }
  function SlotOf(r: AttendanceRow): (int, Date) { (r.employeeId, r.date) }

  /** The primary keys present in the roster. */
  function Ids(roster: seq<Employee>): set<int> {
    set e | e in roster :: e.id
  }

  predicate EmployeeFits(e: Employee) {
    && |e.employeeId| <= EmployeeIdWidth
    && |e.fullName| <= FullNameWidth
    && |e.email| <= EmailWidth
    && |e.department| <= DepartmentWidth
  }

  predicate RowFits(r: AttendanceRow) {
    |r.status| <= StatusWidth
  }

  /** Every attendance row points at an employee that exists. */
  ghost predicate RowsReferenceRoster(roster: seq<Employee>, ledger: seq<AttendanceRow>) {
    forall r :: r in ledger ==> r.employeeId in Ids(roster)
  }

  /** Everything the schema guarantees about the two tables together. */
  ghost predicate Consistent(roster: seq<Employee>, ledger: seq<AttendanceRow>) {
    && DistinctBy(roster, IdOf)
    && DistinctBy(roster, CodeOf)
    && DistinctBy(roster, EmailOf)
    && DistinctBy(ledger, RowIdOf)
    && DistinctBy(ledger, SlotOf)
    && RowsReferenceRoster(roster, ledger)
    && (forall e :: e in roster ==> EmployeeFits(e))
    && (forall r :: r in ledger ==> RowFits(r))
  }

  function IsNotEmployee(id: int): Employee -> bool {
    (e: Employee) => e.id != id
  }

  function IsNotRowOf(id: int): AttendanceRow -> bool {
    (r: AttendanceRow) => r.employeeId != id
  }

  /** The roster without the employee(s) whose primary key is `id`, in order. */
  function DropEmployee(roster: seq<Employee>, id: int): (r: seq<Employee>)
    ensures forall e :: e in r <==> e in roster && e.id != id
    ensures forall e :: multiset(r)[e] == if e.id == id then 0 else multiset(roster)[e]
    ensures id !in Ids(roster) ==> r == roster
  {
    assert id !in Ids(roster) ==> Filter(roster, IsNotEmployee(id)) == roster by {
      if id !in Ids(roster) { FilterKeepsAll(roster, IsNotEmployee(id)); }
    }
    Filter(roster, IsNotEmployee(id))
  }

  /** The ledger without the rows of employee `id`, in order (the cascade). */
  function DropRowsOf(ledger: seq<AttendanceRow>, id: int): (r: seq<AttendanceRow>)
    ensures forall x :: x in r <==> x in ledger && x.employeeId != id
    ensures forall x :: multiset(r)[x] == if x.employeeId == id then 0 else multiset(ledger)[x]
  {
    Filter(ledger, IsNotRowOf(id))
  }

  /** Dropping keeps the relative order of what remains: it commutes with
      concatenation, so it acts on each part of a roster independently. */
  lemma DropEmployeeKeepsOrder(a: seq<Employee>, b: seq<Employee>, id: int)
    ensures DropEmployee(a + b, id) == DropEmployee(a, id) + DropEmployee(b, id)
  {
    FilterConcat(a, b, IsNotEmployee(id));
    if id !in Ids(a) { FilterKeepsAll(a, IsNotEmployee(id)); }
    if id !in Ids(b) { FilterKeepsAll(b, IsNotEmployee(id)); }
    if id !in Ids(a + b) { FilterKeepsAll(a + b, IsNotEmployee(id)); }
  }

  /** Deleting an employee together with its rows keeps every integrity rule:
      the cascade is what keeps the foreign key valid. */
  lemma CascadeKeepsConsistent(roster: seq<Employee>, ledger: seq<AttendanceRow>, id: int)
    requires Consistent(roster, ledger)
    ensures Consistent(DropEmployee(roster, id), DropRowsOf(ledger, id))
  {
    var roster' := DropEmployee(roster, id);
    var ledger' := DropRowsOf(ledger, id);
    if id !in Ids(roster) {
      assert roster' == roster;
    } else {
      FilterKeepsDistinct(roster, IsNotEmployee(id), IdOf);
    }
    FilterKeepsDistinct(roster, IsNotEmployee(id), CodeOf);
    FilterKeepsDistinct(roster, IsNotEmployee(id), EmailOf);
    FilterKeepsDistinct(ledger, IsNotRowOf(id), RowIdOf);
    FilterKeepsDistinct(ledger, IsNotRowOf(id), SlotOf);
    forall x | x in ledger' ensures x.employeeId in Ids(roster') {
      var e :| e in roster && e.id == x.employeeId;
      assert e in roster';
    }
  }

  /** Deleting only the employee, without its rows, breaks the foreign key
      as soon as the employee has a row. */
  lemma DeleteWithoutCascadeOrphans(roster: seq<Employee>, ledger: seq<AttendanceRow>, id: int)
    requires Consistent(roster, ledger)
    requires exists x :: x in ledger && x.employeeId == id
    ensures !RowsReferenceRoster(DropEmployee(roster, id), ledger)
  {
  }
}
