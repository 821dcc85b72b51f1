/** The Attendance page: the roster and the selected employee, that
    employee's history, the summary of the chart's date and the
    mark-attendance form. Each handler and effect receives the settled
    outcome of the request it makes; today's date is an input. */
module AttendancePage {
  import opened Wrappers
  import opened Models
  import opened Roster
  import opened AttendanceChart
  import Ledger
  import Http
  import ApiClient

  /** The mark-attendance form. */
  datatype MarkForm = MarkForm(date: string, status: string)

  const LoadFailed := "Failed to load employees"
  const MarkFailed := "Failed to mark attendance"
  const DefaultStatus := "Present"

  /** The fallback summary of a date whose summary could not be fetched. */
  function ZeroSummary(date: string): SummaryView {
    SummaryView(date, Some(0), Some(0))
  }

  /** Clearing the chart's date input requests `summary?date=` with an empty
      value: the server refuses it with 422, the client turns the list
      `detail` into "Request failed", and the page's zero fallback draws no
      chart. */
  lemma ClearedChartDateDrawsNothing(ledger: seq<AttendanceRow>, statusText: string, bodyText: string)
    requires bodyText != ""
    ensures Ledger.SummaryRoute(ledger, Ledger.Unparsed) == Http.Err(422, Http.QueryErrors(["date"]))
    ensures ApiClient.HandleResponse(ApiClient.HttpResponse(422, statusText, bodyText), Http.ErrorBody(Http.QueryErrors(["date"])))
              .error.message == ApiClient.RequestFailed
    ensures ChartData(Some(ZeroSummary(""))) == None
  {
    ApiClient.ValidationFailureShowsRequestFailed(statusText, bodyText, Http.QueryErrors(["date"]));
  }

  /** Every piece of state of the page, as one value. */
  datatype PageView = PageView(
    employees: seq<Employee>,
    selected: Option<Employee>,
    attendance: seq<AttendanceRow>,
    loading: bool,
    attendanceLoading: bool,
    error: Option<string>,
    modalOpen: bool,
    submitting: bool,
    formError: Option<string>,
    form: MarkForm,
    chartDate: string,
    summary: Option<SummaryView>,
    summaryLoading: bool)

  /** What the page renders in place of its content, if anything. */
  datatype Screen = Spinner | ErrorScreen(message: string) | NoEmployees | Content

  class Page {
    var employees: seq<Employee>
    var selected: Option<Employee>
    var attendance: seq<AttendanceRow>
    var loading: bool
    var attendanceLoading: bool
    var error: Option<string>
    var modalOpen: bool
    var submitting: bool
    var formError: Option<string>
    var form: MarkForm
    var chartDate: string
    var summary: Option<SummaryView>
    var summaryLoading: bool

    ghost function View(): PageView
      reads this
    {
      PageView(employees, selected, attendance, loading, attendanceLoading, error,
               modalOpen, submitting, formError, form, chartDate, summary, summaryLoading)
    }

    /** The state of the first render; the form and the chart start on today. */
    constructor (today: string)
      ensures View() == PageView([], None, [], true, false, None, false, false, None,
                                 MarkForm(today, DefaultStatus), today, None, false)
    {
      employees := [];
      selected := None;
      attendance := [];
      loading := true;
      attendanceLoading := false;
      error := None;
      modalOpen := false;
      submitting := false;
      formError := None;
      form := MarkForm(today, DefaultStatus);
      chartDate := today;
      summary := None;
      summaryLoading := false;
    }

    /** `fetchEmployees`, given how `getEmployees()` settled. The first
        employee is selected when the list is not empty and nobody is
        selected yet; an earlier selection is kept. */
    method FetchEmployees(outcome: Reply<seq<Employee>>)
      modifies this
      ensures outcome.Resolved? ==>
        View() == old(View()).(
          employees := outcome.value,
          selected := if |outcome.value| > 0 && old(selected).None? then Some(outcome.value[0]) else old(selected),
          loading := false, error := None)
      ensures outcome.Rejected? ==>
        View() == old(View()).(loading := false, error := Some(MessageOr(outcome.message, LoadFailed)))
    {
      loading := true;
      error := None;
      match outcome {
        case Resolved(data) =>
          employees := data;
          if |data| > 0 && selected.None? {
            selected := Some(data[0]);
          }
        case Rejected(message) =>
          error := Some(MessageOr(message, LoadFailed));
      }
      loading := false;
    }

    /** `fetchAttendance`, given how `getAttendance` settled: nothing without
        a selection; otherwise the history, or no rows when the request
        fails. Returns the employee whose history was requested. */
    method FetchAttendance(outcome: Reply<seq<AttendanceRow>>) returns (requested: Option<int>)
      modifies this
      ensures old(selected).None? ==> requested == None && View() == old(View())
      ensures old(selected).Some? ==>
        && requested == Some(old(selected).value.id)
        && View() == old(View()).(
             attendance := if outcome.Resolved? then outcome.value else [],
             attendanceLoading := false)
    {
      if selected.None? {
        return None;
      }
      requested := Some(selected.value.id);
      attendanceLoading := true;
      match outcome {
        case Resolved(data) => attendance := data;
        case Rejected(_) => attendance := [];
      }
      attendanceLoading := false;
    }

    /** The effect run when the selection changes: fetch that employee's
        history, or clear it when nobody is selected. */
    method SelectionEffect(outcome: Reply<seq<AttendanceRow>>) returns (requested: Option<int>)
      modifies this
      ensures requested == if old(selected).Some? then Some(old(selected).value.id) else None
      ensures View() == old(View()).(
        attendance := if old(selected).Some? && outcome.Resolved? then outcome.value else [],
        attendanceLoading := if old(selected).Some? then false else old(attendanceLoading))
    {
      if selected.Some? {
        requested := FetchAttendance(outcome);
      } else {
        attendance := [];
        requested := None;
      }
    }

    /** `fetchAttendanceSummary(date)`, given how `getAttendanceSummary`
        settled: the server's summary, or zero counts for that date. */
    method FetchAttendanceSummary(date: string, outcome: Reply<SummaryView>)
      modifies this
      ensures View() == old(View()).(
        summary := Some(if outcome.Resolved? then outcome.value else ZeroSummary(date)),
        summaryLoading := false)
    {
      summaryLoading := true;
      match outcome {
        case Resolved(data) => summary := Some(data);
        case Rejected(_) => summary := Some(ZeroSummary(date));
      }
      summaryLoading := false;
    }

    /** The effect run when the chart's date or the roster's size changes:
        fetch the summary of the chart's date, or none for an empty roster.
        Returns the date requested. */
    method SummaryEffect(outcome: Reply<SummaryView>) returns (requested: Option<string>)
      modifies this
      ensures |old(employees)| == 0 ==> requested == None && View() == old(View()).(summary := None)
      ensures |old(employees)| > 0 ==>
        && requested == Some(old(chartDate))
        && View() == old(View()).(
             summary := Some(if outcome.Resolved? then outcome.value else ZeroSummary(old(chartDate))),
             summaryLoading := false)
    {
      if |employees| > 0 {
        requested := Some(chartDate);
        FetchAttendanceSummary(chartDate, outcome);
      } else {
        summary := None;
        requested := None;
      }
    }

    /** The "Mark Attendance" button: the modal opens on a fresh form for
        today, marked Present, with no error. */
    method HandleMarkAttendance(today: string)
      modifies this
      ensures View() == old(View()).(modalOpen := true, form := MarkForm(today, DefaultStatus), formError := None)
      ensures ModalShown() <==> selected.Some?
    {
      modalOpen := true;
      form := MarkForm(today, DefaultStatus);
      formError := None;
    }

    /** `handleSubmit`: `marked` is how `markAttendance` settled, `history`
        and `refreshed` how the follow-up fetches of the history and of the
        chart's summary did. Without a selection nothing happens. Returns
        the employee and the form posted, if any. */
    method HandleSubmit(marked: Reply<AttendanceRow>, history: Reply<seq<AttendanceRow>>, refreshed: Reply<SummaryView>)
      returns (sent: Option<(int, MarkForm)>)
      modifies this
      ensures old(selected).None? ==> sent == None && View() == old(View())
      ensures old(selected).Some? ==> sent == Some((old(selected).value.id, old(form)))
      ensures old(selected).Some? && marked.Resolved? ==>
        View() == old(View()).(
          modalOpen := false,
          attendance := if history.Resolved? then history.value else [],
          attendanceLoading := false,
          summary := Some(if refreshed.Resolved? then refreshed.value else ZeroSummary(old(chartDate))),
          summaryLoading := false,
          formError := None,
          submitting := false)
      ensures old(selected).Some? && marked.Rejected? ==>
        View() == old(View()).(formError := Some(MessageOr(marked.message, MarkFailed)), submitting := false)
    {
      if selected.None? {
        return None;
      }
      sent := Some((selected.value.id, form));
      formError := None;
      submitting := true;
      match marked {
        case Resolved(_) =>
          modalOpen := false;
          var _ := FetchAttendance(history);
          FetchAttendanceSummary(chartDate, refreshed);
        case Rejected(message) =>
          formError := Some(MessageOr(message, MarkFailed));
      }
      submitting := false;
    }

    /** The employee selector: the first employee with that id, or nobody. */
    method SelectById(id: int)
      modifies this
      ensures View() == old(View()).(selected := Find(old(employees), id))
      ensures selected.Some? <==> id in Ids(employees)
      ensures selected.Some? ==> selected.value in employees && selected.value.id == id
    {
      selected := Find(employees, id);
    }

    /** The date input of the chart. */
    method ChangeChartDate(date: string)
      modifies this
      ensures View() == old(View()).(chartDate := date)
    {
      chartDate := date;
    }

    /** What the page shows: the spinner while loading, then the error, then
        the empty state for an empty roster, and otherwise its content. */
    function Shown(): (s: Screen)
      reads this
      ensures s == Spinner <==> loading
      ensures s.ErrorScreen? <==> !loading && error.Some?
      ensures s.ErrorScreen? ==> s.message == error.value
      ensures s == NoEmployees <==> !loading && error.None? && employees == []
    {
      if loading then Spinner
      else if error.Some? then ErrorScreen(error.value)
      else if employees == [] then NoEmployees
      else Content
    }

    /** The mark-attendance modal is on screen only with an employee selected. */
    predicate ModalShown()
      reads this
    {
      modalOpen && selected.Some?
    }

    /** The modal's close control and its Cancel button. */
    method CloseModal()
      modifies this
      ensures View() == old(View()).(modalOpen := false)
      ensures !ModalShown()
    {
      modalOpen := false;
    }
  }

  /** The page's first load: after the roster arrives, the first employee is
      selected, and the effects then fetch that employee's history and the
      summary of today. */
  method FirstLoad(today: string, roster: Reply<seq<Employee>>, history: Reply<seq<AttendanceRow>>, summary: Reply<SummaryView>)
    returns (page: Page, historyOf: Option<int>, summaryOf: Option<string>)
    ensures roster.Resolved? && roster.value != [] ==>
      && page.selected == Some(roster.value[0])
      && historyOf == Some(roster.value[0].id)
      && summaryOf == Some(today)
      && page.attendance == (if history.Resolved? then history.value else [])
      && page.summary == Some(if summary.Resolved? then summary.value else ZeroSummary(today))
    ensures roster.Resolved? && roster.value == [] ==>
      page.selected == None && historyOf == None && summaryOf == None && page.summary == None
      && page.Shown() == NoEmployees
    ensures roster.Rejected? ==>
      page.Shown() == ErrorScreen(MessageOr(roster.message, LoadFailed)) && historyOf == None
  {
    page := new Page(today);
    page.FetchEmployees(roster);
    historyOf := page.SelectionEffect(history);
    summaryOf := page.SummaryEffect(summary);
  }
}
