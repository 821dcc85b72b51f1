/** The attendance routes that only read: the daily summary
    (`get_attendance_summary`) and an employee's history
    (`get_employee_attendance`), and what the integrity rules imply for them. */
module Ledger {
  import opened Wrappers
  import opened Seqs
  import opened Sorting
  import opened Models
  import opened Http

  /** The summary body: `{"date", "present", "absent"}`. */
  datatype Summary = Summary(date: Date, present: nat, absent: nat)

  const Present := "Present"
  const Absent := "Absent"

  /** The rows a count query selects: that date and that status. */
  function MarkedAs(d: Date, status: string): AttendanceRow -> bool {
    (r: AttendanceRow) => r.date == d && r.status == status
  }

  /** The positions of the ledger holding a row for date `d` with `status`. */
  function RowsMarked(ledger: seq<AttendanceRow>, d: Date, status: string): set<int> {
    set i | 0 <= i < |ledger| && ledger[i].date == d && ledger[i].status == status
  }

  /** `get_attendance_summary`: the number of rows for the date with each
      status. Every row counts, whether or not its employee is on the roster. */
  function Summarize(ledger: seq<AttendanceRow>, d: Date): (s: Summary)
    ensures s.date == d
    ensures s.present == |RowsMarked(ledger, d, Present)|
    ensures s.absent == |RowsMarked(ledger, d, Absent)|
    ensures (forall r :: r in ledger ==> r.date != d) ==> s.present == 0 && s.absent == 0
  {
    assert Positions(ledger, MarkedAs(d, Present)) == RowsMarked(ledger, d, Present);
    assert Positions(ledger, MarkedAs(d, Absent)) == RowsMarked(ledger, d, Absent);
    FilterCountsPositions(ledger, MarkedAs(d, Present));
    FilterCountsPositions(ledger, MarkedAs(d, Absent));
    Summary(d, |Filter(ledger, MarkedAs(d, Present))|, |Filter(ledger, MarkedAs(d, Absent))|)
  }

  /** The employees that have a row for date `d`. */
  function MarkedOn(ledger: seq<AttendanceRow>, d: Date): set<int> {
    set r | r in ledger && r.date == d :: r.employeeId
  }

  /** The first row's employee has no other row for the same date. */
  lemma FirstRowOwnsItsSlot(ledger: seq<AttendanceRow>, d: Date)
    requires ledger != [] && DistinctBy(ledger, SlotOf) && ledger[0].date == d
    ensures MarkedOn(ledger, d) == {ledger[0].employeeId} + MarkedOn(ledger[1..], d)
    ensures ledger[0].employeeId !in MarkedOn(ledger[1..], d)
  {
    var rest := ledger[1..];
    assert ledger == [ledger[0]] + rest;
    forall r | r in rest && r.date == d ensures r.employeeId != ledger[0].employeeId {
      var j :| 0 <= j < |rest| && rest[j] == r;
      assert SlotOf(ledger[0]) != SlotOf(ledger[j + 1]);
    }
  }

  /** A first row for another date marks nobody on `d`. */
  lemma OtherDateLeavesMarked(ledger: seq<AttendanceRow>, d: Date)
    requires ledger != [] && ledger[0].date != d
    ensures MarkedOn(ledger, d) == MarkedOn(ledger[1..], d)
  {
    assert ledger == [ledger[0]] + ledger[1..];
  }

  /** With one row per (employee, date), the rows counted for a date belong to
      that many different employees. */
  lemma {:induction false} CountsBoundedByMarkedEmployees(ledger: seq<AttendanceRow>, d: Date)
    requires DistinctBy(ledger, SlotOf)
    ensures |Filter(ledger, MarkedAs(d, Present))| + |Filter(ledger, MarkedAs(d, Absent))| <= |MarkedOn(ledger, d)|
    decreases |ledger|
  {
    if ledger != [] {
      var x, rest := ledger[0], ledger[1..];
      var present, absent := MarkedAs(d, Present), MarkedAs(d, Absent);
      DistinctByTail(ledger, SlotOf);
      CountsBoundedByMarkedEmployees(rest, d);
      FilterFirst(ledger, present);
      FilterFirst(ledger, absent);
      if x.date == d {
        FirstRowOwnsItsSlot(ledger, d);
      } else {
        OtherDateLeavesMarked(ledger, d);
      }
    }
  }

  /** With the unique (employee, date) constraint and the foreign key, a day's
      summary never counts more marks than there are employees. */
  lemma SummaryWithinRoster(roster: seq<Employee>, ledger: seq<AttendanceRow>, d: Date)
    requires Consistent(roster, ledger)
    ensures Summarize(ledger, d).present + Summarize(ledger, d).absent <= |roster|
  {
    CountsBoundedByMarkedEmployees(ledger, d);
    assert MarkedOn(ledger, d) <= Ids(roster);
    SubsetCardinality(MarkedOn(ledger, d), Ids(roster));
    DistinctKeysCount(roster, IdOf);
    assert Ids(roster) == KeySet(roster, IdOf);
    assert Summarize(ledger, d).present == |Filter(ledger, MarkedAs(d, Present))|;
    assert Summarize(ledger, d).absent == |Filter(ledger, MarkedAs(d, Absent))|;
  }

  /** The bound rests on the foreign key: a row left behind by an employee
      that is gone is still counted. */
  lemma BoundNeedsForeignKey()
    ensures var roster: seq<Employee> := []; var ledger := [AttendanceRow(1, 7, 0, Present)];
      && !RowsReferenceRoster(roster, ledger)
      && Summarize(ledger, 0).present + Summarize(ledger, 0).absent > |roster|
  {
    var ledger := [AttendanceRow(1, 7, 0, Present)];
    assert 0 in RowsMarked(ledger, 0, Present);
  }

  /** Appending a row adds one to the count of its date and status and
      leaves every other count alone. */
  lemma MarkAddsToItsCount(ledger: seq<AttendanceRow>, row: AttendanceRow, d: Date)
    ensures Summarize(ledger + [row], d).present
         == Summarize(ledger, d).present + (if row.date == d && row.status == Present then 1 else 0)
    ensures Summarize(ledger + [row], d).absent
         == Summarize(ledger, d).absent + (if row.date == d && row.status == Absent then 1 else 0)
  {
    FilterConcat(ledger, [row], MarkedAs(d, Present));
    FilterConcat(ledger, [row], MarkedAs(d, Absent));
    assert [row][1..] == [];
  }

  function DateOf(r: AttendanceRow): int { r.date }

  /** The rows `get_employee_attendance` selects; a missing bound does not filter. */
  function InRange(id: int, from: Option<Date>, to: Option<Date>): AttendanceRow -> bool {
    (r: AttendanceRow) =>
      r.employeeId == id && (from.None? || from.value <= r.date) && (to.None? || r.date <= to.value)
  }

  /** `get_employee_attendance`: 404 for an unknown employee, otherwise the
      employee's rows within the optional bounds, latest date first. */
  function History(roster: seq<Employee>, ledger: seq<AttendanceRow>, id: int, from: Option<Date>, to: Option<Date>)
    : (r: Response<seq<AttendanceRow>>)
    ensures r.Err? <==> id !in Ids(roster)
    ensures r.Err? ==> r == Err(404, Message(EmployeeNotFound))
    ensures r.Ok? ==> r.status == 200
    ensures r.Ok? ==> forall x :: x in r.value <==>
      x in ledger && x.employeeId == id && (from.None? || from.value <= x.date) && (to.None? || x.date <= to.value)
    ensures r.Ok? ==> forall x :: multiset(r.value)[x] == if InRange(id, from, to)(x) then multiset(ledger)[x] else 0
    ensures r.Ok? ==> DescendingBy(r.value, DateOf)
  {
    if id !in Ids(roster) then Err(404, Message(EmployeeNotFound))
    else
      var rows := Filter(ledger, InRange(id, from, to));
      assert DescendingBy(SortByDateDesc(rows, DateOf), DateOf) by {
        SortByDateDescSorted(rows, DateOf);
      }
      assert forall x :: x in SortByDateDesc(rows, DateOf) <==> x in rows by {
        forall x ensures x in SortByDateDesc(rows, DateOf) <==> x in rows {
          assert x in SortByDateDesc(rows, DateOf) <==> x in multiset(SortByDateDesc(rows, DateOf));
        }
      }
      Ok(200, SortByDateDesc(rows, DateOf))
  }

  /** A `date`-typed query parameter as FastAPI receives it: left out of the
      URL, present but not a date (an empty value included), or a date. */
  datatype QueryDate = Omitted | Unparsed | Given(d: Date)

  /** The optional bound a query parameter gives the handler. */
  function Bound(q: QueryDate): Option<Date> {
    if q.Given? then Some(q.d) else None
  }

  /** `GET /attendance/summary?date=...`: the required `date` is validated
      before the handler runs, so a missing or unparseable value is a 422
      naming the `date` query parameter. */
  function SummaryRoute(ledger: seq<AttendanceRow>, date: QueryDate): (r: Response<Summary>)
    ensures r.Ok? <==> date.Given?
    ensures r.Ok? ==> && r.status == 200 && r.value.date == date.d
                      && r.value.present == |RowsMarked(ledger, date.d, Present)|
                      && r.value.absent == |RowsMarked(ledger, date.d, Absent)|
    ensures r.Err? ==> r == Err(422, QueryErrors(["date"]))
  {
    if date.Given? then Ok(200, Summarize(ledger, date.d)) else Err(422, QueryErrors(["date"]))
  }

  /** `GET /attendance/{id}?from=...&to=...`: a `from` or `to` that does not
      parse is a 422 naming it, before the handler can answer 404; an omitted
      bound does not filter. */
  function HistoryRoute(roster: seq<Employee>, ledger: seq<AttendanceRow>, id: int, from: QueryDate, to: QueryDate)
    : (r: Response<seq<AttendanceRow>>)
    ensures from.Unparsed? || to.Unparsed? ==>
      && r.Err? && r.status == 422 && r.detail.QueryErrors?
      && ("from" in r.detail.names <==> from.Unparsed?)
      && ("to" in r.detail.names <==> to.Unparsed?)
    ensures !from.Unparsed? && !to.Unparsed? ==> r == History(roster, ledger, id, Bound(from), Bound(to))
  {
    var names := (if from.Unparsed? then ["from"] else []) + (if to.Unparsed? then ["to"] else []);
    if names != [] then Err(422, QueryErrors(names))
    else History(roster, ledger, id, Bound(from), Bound(to))
  }

  /** One row per (employee, date) makes the history strictly descending:
      no date appears twice. */
  lemma HistoryStrictlyDescending(roster: seq<Employee>, ledger: seq<AttendanceRow>, id: int, from: Option<Date>, to: Option<Date>)
    requires Consistent(roster, ledger)
    requires id in Ids(roster)
    ensures StrictlyDescendingBy(History(roster, ledger, id, from, to).value, DateOf)
  {
    var rows := Filter(ledger, InRange(id, from, to));
    FilterKeepsDistinct(ledger, InRange(id, from, to), SlotOf);
    forall i, j | 0 <= i < j < |rows| ensures DateOf(rows[i]) != DateOf(rows[j]) {
      assert rows[i] in rows && rows[j] in rows;
      assert SlotOf(rows[i]) != SlotOf(rows[j]);
    }
    SortByDateDescSorted(rows, DateOf);
  }
}
