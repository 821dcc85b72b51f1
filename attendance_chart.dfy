/** The "Attendance" pie chart for one date: a present and an absent slice
    drawn from the summary, or a message when nothing was recorded. */
module AttendanceChart {
  import opened Wrappers
  import Models
  import Ledger

  /** The summary as the page holds it: the server's body, or the fallback
      the page builds when the request fails. A count the object lacks is
      `None`. */
  datatype SummaryView = SummaryView(date: string, present: Option<int>, absent: Option<int>)

  /** `summary?.present ?? 0`. */
  function PresentOf(summary: Option<SummaryView>): int {
    match summary {
      case None => 0
      case Some(s) => s.present.GetOr(0)
    }
  }

  /** `summary?.absent ?? 0`. */
  function AbsentOf(summary: Option<SummaryView>): int {
    match summary {
      case None => 0
      case Some(s) => s.absent.GetOr(0)
    }
  }

  const Labels: seq<string> := ["Present", "Absent"]
  const Colors: seq<string> := ["#16a34a", "#dc2626"]
  const NothingRecorded := "No attendance recorded for this date."

  datatype PieData = PieData(labels: seq<string>, data: seq<int>, colors: seq<string>)

  /** `chartData`: no chart when the two counts add up to zero, otherwise a
      present slice and an absent slice, in that order. */
  function ChartData(summary: Option<SummaryView>): (r: Option<PieData>)
    ensures r.None? <==> PresentOf(summary) + AbsentOf(summary) == 0
    ensures r.Some? ==> r.value.labels == Labels && r.value.colors == Colors
    ensures r.Some? ==> |r.value.data| == 2
    ensures r.Some? ==> r.value.data[0] == PresentOf(summary) && r.value.data[1] == AbsentOf(summary)
  {
    var present := PresentOf(summary);
    var absent := AbsentOf(summary);
    if present + absent == 0 then None
    else Some(PieData(Labels, [present, absent], Colors))
  }

  /** What the chart's card shows below its title. */
  datatype Body = Chart(pie: PieData) | Message(text: string)

  /** The component's body: the pie, or the "nothing recorded" message
      exactly when there is no pie. */
  function Render(summary: Option<SummaryView>): (b: Body)
    ensures b.Message? <==> ChartData(summary).None?
    ensures b.Message? ==> b.text == NothingRecorded
    ensures b.Chart? ==> Some(b.pie) == ChartData(summary)
  {
    match ChartData(summary) {
      case None => Message(NothingRecorded)
      case Some(pie) => Chart(pie)
    }
  }

  /** A missing summary, a missing count and a zero count all read as 0, so
      the fallback the page builds after a failed request shows the message. */
  lemma MissingCountsAreZero(date: string)
    ensures PresentOf(None) == 0 && AbsentOf(None) == 0
    ensures PresentOf(Some(SummaryView(date, None, None))) == 0
    ensures Render(None) == Message(NothingRecorded)
    ensures Render(Some(SummaryView(date, Some(0), Some(0)))) == Message(NothingRecorded)
    ensures Render(Some(SummaryView(date, None, None))) == Message(NothingRecorded)
  {
  }

  /** A missing count does not hide the other one. */
  lemma MissingAbsentKeepsPresent(date: string, present: int)
    requires present != 0
    ensures ChartData(Some(SummaryView(date, Some(present), None))) == Some(PieData(Labels, [present, 0], Colors))
  {
  }

  /** The page's copy of a summary the server sent: both counts present, the
      date as the page renders it. */
  function Received(s: Ledger.Summary, dateText: string): SummaryView {
    SummaryView(dateText, Some(s.present), Some(s.absent))
  }

  /** End to end: the chart of the server's summary for date `d` is absent
      exactly when no row of that date is marked Present or Absent, and
      otherwise its slices are the number of rows with each status. */
  lemma ChartOfServerSummary(ledger: seq<Models.AttendanceRow>, d: Models.Date, dateText: string)
    ensures var pie := ChartData(Some(Received(Ledger.Summarize(ledger, d), dateText)));
      && (pie.None? <==> Ledger.RowsMarked(ledger, d, Ledger.Present) == {} && Ledger.RowsMarked(ledger, d, Ledger.Absent) == {})
      && (pie.Some? ==> pie.value.data == [|Ledger.RowsMarked(ledger, d, Ledger.Present)|, |Ledger.RowsMarked(ledger, d, Ledger.Absent)|])
  {
    var s := Ledger.Summarize(ledger, d);
    var pie := ChartData(Some(Received(s, dateText)));
    if pie.Some? {
      assert pie.value.data == [s.present, s.absent];
    }
  }
}
