# HRMS-Lite in Dafny

HRMS-Lite keeps an employee roster and a per-employee, per-date attendance
ledger. A FastAPI backend stores both in two SQL tables. A React frontend
lists, adds and deletes employees, marks attendance and draws two pie charts:
employees by department, and present/absent for one date.

This project models that core and proves its properties:

- the two tables and their integrity rules (unique columns, the
  one-mark-per-day constraint, the foreign key with its cascade, the column
  widths): `models.dfy`;
- request validation of the two payloads: `schemas.dfy`;
- the employee routes: `roster.dfy` (pure parts) and `store.dfy`;
- the attendance routes: `ledger.dfy` (summary and history) and `store.dfy`
  (marking). `Store.Database` is a class holding the two tables, with one
  method per handler that writes; each method's contract says whether the
  request ends with 422, 404, 409 or a change to the tables;
- the start-up choice of the database URL: `database_config.dfy`;
- the browser's API client: `api_client.dfy`, over `json.dfy` and `http.dfy`;
- the Employees page (form checks, payload, fetch/submit/delete handlers) as a
  class: `employees_page.dfy`;
- the Attendance page (selection, history, summary, mark modal) as a class:
  `attendance_page.dfy`;
- the two charts: `department_chart.dfy` and `attendance_chart.dfy`.

Shared pieces: `wrappers.dfy` (Option and promise outcomes), `text.dfy` (Python
`strip`/`lower` and JavaScript `trim`/`toLowerCase`, with the two runtimes'
different whitespace classes, and the string order used for sorting),
`seqs.dfy` (order-preserving filter, distinct keys) and `sorting.dfy`
(insertion sorts by a string key ascending and by a date descending).

Requests are modelled by their settled outcomes, which are method inputs:
`Reply<T>` on the client, a driver message on the server. So is the answer
to a confirmation dialog, and so is today's date.

Where the code behaves differently from what the component names and the
rest of the code suggest, the model follows the code:

- A second mark for the same employee and date is refused with 409, and the
  recorded status stays. It is not replaced.
- The daily summary counts every row of that date, whether or not the row's
  employee is on the roster. `Ledger.SummaryWithinRoster` shows the bound
  present + absent ≤ |roster| holds only because of the foreign key and
  the cascade. `Ledger.BoundNeedsForeignKey` shows it fails without them.
- The history of an unknown employee is a 404, not an empty list.
- The roster is listed ordered by `full_name`, not in insertion order.
- Removing an employee on the Employees page does not touch the Attendance
  page's selection: the two pages keep separate state.
- No page discards a stale response. Every handler applies the outcome it is
  given.
- The regular-expression email check and the non-empty-after-trimming rule
  are frontend-only; the server checks the email with `EmailStr`. The server
  checks lengths on the raw strings and then strips, so a whitespace-only
  field is stored as "". The row is committed, and only then is the returned
  row checked against `EmployeeResponse`, whose `min_length=1` it fails: the
  reply is 500, and from then on listing the roster is 500 too (see
  "## Findings").
- A `date` query parameter that is missing or does not parse is a 422 naming
  that parameter, before the handler runs; clearing the chart's date input
  sends an empty `date` and so gets the zero fallback.

## Model

| member | source | states |
|---|---|---|
| Models.DropEmployee | src/pages/Employees.jsx:94 | keeps exactly the employees whose id differs, with their multiplicities. With an absent id the roster is unchanged |
| Models.DropRowsOf | backend/models.py:26 | keeps exactly the rows of the other employees: the cascade removes all and only that employee's rows |
| Models.DropEmployeeKeepsOrder | src/pages/Employees.jsx:94 | removal commutes with concatenation, so the remaining entries keep their order |
| Models.CascadeKeepsConsistent | backend/models.py:8-32 | deleting an employee together with its rows keeps all the rules: unique id, employee_id, email, row id and (employee, date); foreign key; column widths |
| Models.DeleteWithoutCascadeOrphans | backend/models.py:18 | deleting only the employee breaks the foreign key as soon as it has a row |
| Schemas.EmployeeFailures | backend/schemas.py:6-11 | a field is reported exactly when its raw length is outside [1,50], [1,200] or [1,100], or `EmailStr` refuses the email |
| Schemas.ValidateEmployee | backend/schemas.py:6-11 | accepted iff all four fields pass; an accepted value is the raw payload with the normalised email; a refusal lists the failing fields |
| Schemas.ValidateAttendance | backend/schemas.py:27-30 | accepted iff the date parses and the status is exactly "Present" or "Absent"; a refusal names exactly the failing fields |
| Schemas.StatusPatternIsExact | backend/schemas.py:30 | other casings, padding, a trailing newline, concatenations and the empty string are refused |
| Schemas.ValidatedFitsColumns | backend/schemas.py:8-11 | a validated payload, stripped and lower-cased, fits the 50/200/255/100 columns |
| Schemas.StatusFitsColumn | backend/models.py:28 | an accepted status fits the 20-character column |
| Schemas.WhitespaceOnlyFieldPasses | backend/schemas.py:8-10 | a whitespace-only `employee_id` of legal length passes validation and strips to "" |
| Roster.ListEmployees | routers/employees.py:42-45 | a permutation of the roster, ordered by `full_name` ascending |
| Roster.ListRoute | routers/employees.py:42-45 | 200 with the ordered permutation iff every row passes `list[EmployeeResponse]`; otherwise 500, and some row fails the check |
| Roster.Find | routers/employees.py:50 | finds something iff the id is on the roster; the result carries that id and is the first such entry |
| Roster.GetEmployee | routers/employees.py:48-57 | 404 "Employee not found." iff the id is unknown; 200 only with an employee of that id that passes `EmployeeResponse`; otherwise 500, because a row with that id fails the check |
| Roster.GetEmployeeUnique | routers/employees.py:50-57 | with distinct primary keys, the reply is that id's only employee when it passes the response check, and 500 when it does not |
| Roster.StoredServableIff | backend/schemas.py:19-21 | a validated payload's stored row passes `EmployeeResponse` iff none of code, name and department strips to "" |
| Roster.StoredRowIsNormalized | routers/employees.py:16-21 | the stored row is the Python strip of each field and has no padding; its email is the stripped email lower-cased and contains no upper-case ASCII letter |
| Roster.RepostOfResponseClashes | backend/schemas.py:19-21 | the 201 body without `id` is the normalised payload; normalising it again changes nothing, and posting it again clashes with the row just inserted |
| Roster.ConflictDetail | routers/employees.py:27-39 | "…already exists." iff the lower-cased driver message contains "email" or "unique"; otherwise "Duplicate employee record." |
| Roster.StripLowerCommute | routers/employees.py:19 | stripping and lower-casing commute |
| Roster.NormalizeIdempotent | routers/employees.py:16-21 | normalising a stored row again changes nothing |
| Roster.CaseVariantsClash | routers/employees.py:19 | two emails that differ only in letter case collide on the unique column |
| Roster.BlankCodesClash | routers/employees.py:17 | two whitespace-only `employee_id`s both store "" and collide |
| Roster.StoredFits | backend/models.py:13-16 | a validated, normalised payload fits every column width, whatever key it gets |
| Roster.InsertKeepsConsistent | routers/employees.py:22-26 | inserting an employee with a fresh key and no clash keeps every integrity rule |
| Ledger.Summarize | routers/attendance.py:15-29 | `present` and `absent` are the numbers of rows with that date and status; a date with no rows gives 0 and 0 |
| Ledger.CountsBoundedByMarkedEmployees | backend/models.py:32 | with one row per (employee, date), a date's Present and Absent rows together number at most the employees marked on that date |
| Ledger.SummaryWithinRoster | routers/attendance.py:21-29 | with the integrity rules, present + absent is at most the roster size |
| Ledger.BoundNeedsForeignKey | backend/models.py:26 | without the foreign key the bound fails: one orphan row, empty roster |
| Ledger.MarkAddsToItsCount | routers/attendance.py:45-54 | appending a row adds one to its own date and status count and changes no other count |
| Ledger.SummaryRoute | routers/attendance.py:15-19 | 200 with each status's row count for the date iff the `date` query is a date; otherwise 422 naming `date` |
| Ledger.HistoryRoute | routers/attendance.py:63-69 | a `from` or `to` that does not parse gives 422 naming exactly those, even for an unknown employee; otherwise the reply is `History` with each omitted bound unfiltered |
| Ledger.History | routers/attendance.py:63-82 | 404 iff the employee is unknown; otherwise exactly that employee's rows within the optional bounds, with their multiplicities, latest date first |
| Ledger.HistoryStrictlyDescending | routers/attendance.py:82 | with one row per (employee, date), the history's dates strictly descend |
| Sorting.SortByKey | routers/employees.py:45 | an ordered permutation; with distinct keys, strictly ordered |
| Sorting.SortByDateDesc | routers/attendance.py:82 | a permutation ordered by date descending; strictly descending with distinct dates |
| Text.Strip | routers/employees.py:17-20 | the result is the input minus maximal leading and trailing runs of the runtime's whitespace; empty iff the input is all whitespace |
| Text.StripIdempotent | routers/employees.py:17-20 | stripping twice is stripping once |
| Text.Lower | routers/employees.py:19 | the same length, with each character lower-cased in place |
| Store.Database.constructor | backend/models.py:8-32 | empty tables that satisfy every integrity rule |
| Store.Database.CreateEmployee | routers/employees.py:13-39 | 422 with the failing fields; else 409 with the driver-chosen detail and the roster unchanged when the normalised code or email is taken; else the normalised row under a fresh key is appended, and the reply is 201 with it when it passes `EmployeeResponse` and 500 when it does not; the rules are kept and the ledger is untouched |
| Store.Database.CreateEmployeeChecked | routers/employees.py:16-26 | as `CreateEmployee`, but a normalised payload failing the bounds is refused with 422 naming those fields before the insert; every stored row then passes the response check, and listing stays 200 |
| Store.UnservableRowBreaksListing | routers/employees.py:42-57 | one stored row failing `EmployeeResponse` makes the listing 500, and reading that row 500 |
| Store.BlankCodeAccepted | backend/schemas.py:8-10 | a whitespace-only code passes request validation and strips to "" |
| Store.BlankCodeRow | backend/schemas.py:19-21 | that code's stored row fails the response check, and checking the normalised payload names exactly `employee_id` |
| Store.BlankCodeBreaksListing | routers/employees.py:16-26 | after that row is committed, the listing and the read of that employee are 500, which the client reports as "Invalid server response" |
| Store.Database.DeleteEmployee | routers/employees.py:60-71 | 404 and nothing changes for an unknown id; else 204, the employee gone, its rows gone, everything else kept; a roster whose rows all pass the response check still does |
| Store.Database.MarkAttendance | routers/attendance.py:32-60 | 422 first, then 404 for an unknown employee, then 409 with the ledger unchanged for an existing (employee, date); else 201 and exactly one new row with that employee, date and status |
| DatabaseConfig.DatabaseUrl | database.py:6-12 | unset gives "sqlite:///./hrms.db"; "postgres://rest" gives "postgresql://rest"; any other value is kept |
| DatabaseConfig.ConnectArgsFor | database.py:14 | no arguments iff "postgresql" occurs in the URL, otherwise `check_same_thread: False` |
| DatabaseConfig.RewriteIdempotent | database.py:11-12 | the rewrite is idempotent |
| DatabaseConfig.RewrittenUrlIsPostgres | database.py:11-14 | a rewritten URL gets no SQLite arguments |
| DatabaseConfig.DefaultIsSqlite | database.py:6-14 | the default URL gets `check_same_thread: False` |
| Json.Member | src/api/client.js:12 | `v?.key` yields a value iff `v` is an object with that key, and the value is that member |
| Http.ErrorBody | routers/employees.py:51-56 | a JSON error body has `detail`: the message string for an `HTTPException`, a list for a validation failure of the body or the query; an internal error's plain-text body is not JSON |
| ApiClient.HandleResponse | src/api/client.js:3-19 | an unparseable non-empty body throws "Invalid server response" whatever the status; otherwise an empty body is null, ok returns the data unchanged, and non-ok throws with the status, the data and the message chosen from `detail` or `statusText` |
| ApiClient.ListBranchIsDead | src/api/client.js:12 | the `Array.isArray` alternative never decides the message |
| ApiClient.Delete | src/api/client.js:34-38 | 204 gives null without reading the body; any other status is `handleResponse` |
| ApiClient.ServerMessageReachesPage | src/api/client.js:12-13 | an `HTTPException` message reaches the caller as the error's message |
| ApiClient.ValidationFailureShowsRequestFailed | src/api/client.js:12-13 | a 422, of the body or of the query, always shows "Request failed", because its list `detail` is truthy and not a string |
| ApiClient.InternalErrorShowsInvalidResponse | src/api/client.js:4-10 | a 500 with the plain-text body throws "Invalid server response", with no status |
| ApiClient.EmptyStatusTextGivesEmptyMessage | src/api/client.js:12 | no `detail` and an empty status text give the empty message, so the page's fallback shows |
| EmployeesPage.MatchesAreInLanguage | src/pages/Employees.jsx:13 | every string the positional reading of `EMAIL_REGEX` accepts is three runs of `[^\s@]` joined by '@' and '.' |
| EmployeesPage.LanguageIsMatched | src/pages/Employees.jsx:13 | every such string is accepted |
| EmployeesPage.EmailRegexExact | src/pages/Employees.jsx:13 | the two directions together |
| EmployeesPage.PaddedEmailRejected | src/pages/Employees.jsx:63 | leading or trailing whitespace makes the untrimmed email fail |
| EmployeesPage.FormErrorCases | src/pages/Employees.jsx:51-70 | each message appears iff its check is the first to fail; the form passes iff every check passes |
| EmployeesPage.Payload | src/pages/Employees.jsx:73-78 | no field becomes longer; every field is its own trim; the email is its own lower-case |
| EmployeesPage.PayloadIsTrimmed | src/pages/Employees.jsx:73-78 | a valid form's payload has no empty field and no padding, and its email is lower-cased |
| EmployeesPage.FormAndServerDisagreeOnBlank | src/pages/Employees.jsx:51 | an id of U+001C passes the form's blank check but the server stores "" |
| EmployeesPage.Page.constructor | src/pages/Employees.jsx:16-28 | the first render's state |
| EmployeesPage.Page.FetchEmployees | src/pages/Employees.jsx:30-41 | success replaces the list and clears the error; failure keeps the list and sets the message or "Failed to load employees"; loading ends false |
| EmployeesPage.Page.OpenAddModal | src/pages/Employees.jsx:109 | opens the modal and clears the form error, nothing else |
| EmployeesPage.Page.OpenAddModalFromEmptyState | src/pages/Employees.jsx:124 | opens the modal and keeps any earlier form error; nothing else changes |
| EmployeesPage.Page.HandleSubmit | src/pages/Employees.jsx:47-87 | a failing check sets its message and sends nothing; otherwise the trimmed payload is sent. Success closes the modal, resets the form and reloads; failure keeps form and modal and sets the message or "Failed to add employee" |
| EmployeesPage.Page.CloseAndReload | src/pages/Employees.jsx:79-81 | modal closed, form reset to four empty strings, list reloaded |
| EmployeesPage.Page.HandleDelete | src/pages/Employees.jsx:89-100 | a cancelled dialog changes nothing. Success removes exactly the entries with that id, in order; failure keeps the list and alerts. `deleteId` ends null after either |
| DepartmentChart.CountOfPositive | src/components/DepartmentPieChart.jsx:16-19 | a label has a positive count iff some employee carries it |
| DepartmentChart.Tally | src/components/DepartmentPieChart.jsx:15-19 | each label's counter is the number of employees with that department, or with an empty one for 'Unassigned'; the keys list each label once; the counters add up to the roster size |
| DepartmentChart.SumOverPermutation | src/components/DepartmentPieChart.jsx:20-21 | sorting the labels does not change the total |
| DepartmentChart.SortedKeys | src/components/DepartmentPieChart.jsx:20 | the sorted labels are strictly ascending and are exactly the labels that occur |
| DepartmentChart.ChartData | src/components/DepartmentPieChart.jsx:14-31 | labels distinct and ascending, exactly the labels that occur; `data[i]` is the count of `labels[i]`; data sums to the roster size; slice i has colour `COLORS[i % 10]` |
| DepartmentChart.Render | src/components/DepartmentPieChart.jsx:50 | nothing iff the roster is empty; otherwise a non-empty pie that counts everyone |
| DepartmentChart.TallyAsWrittenOffPrototype | src/components/DepartmentPieChart.jsx:15-18 | when no label is an `Object.prototype` name, the plain object holds exactly the intended counts |
| DepartmentChart.ProtoDepartmentVanishes | src/components/DepartmentPieChart.jsx:15-18 | an employee of department `__proto__` gives no key at all, though it is one employee |
| DepartmentChart.ConstructorDepartmentNotANumber | src/components/DepartmentPieChart.jsx:18 | a department `constructor` gets a non-numeric value |
| AttendanceChart.ChartData | src/components/AttendancePieChart.jsx:9-23 | no chart iff present + absent is 0 (missing values read as 0); otherwise labels Present, Absent, data [present, absent], in that order, and the two colours |
| AttendanceChart.Render | src/components/AttendancePieChart.jsx:46-49 | the "No attendance recorded for this date." message iff there is no chart data |
| AttendanceChart.MissingCountsAreZero | src/components/AttendancePieChart.jsx:10-13 | a missing summary or missing counts read as 0 and show the message, as does the page's zero fallback |
| AttendanceChart.MissingAbsentKeepsPresent | src/components/AttendancePieChart.jsx:10-11 | a missing count does not hide the other |
| AttendanceChart.ChartOfServerSummary | src/components/AttendancePieChart.jsx:10-18 | for the server's summary of a date: no chart iff no row of that date is Present or Absent; otherwise the slices are those row counts |
| AttendancePage.Page.constructor | frontend/src/pages/Attendance.jsx:19-31 | the first render's state: form and chart on today, status Present |
| AttendancePage.Page.FetchEmployees | frontend/src/pages/Attendance.jsx:33-47 | success replaces the roster and selects `data[0]` only when the data is non-empty and nothing is selected; failure sets the message or "Failed to load employees"; nothing else changes |
| AttendancePage.Page.FetchAttendance | frontend/src/pages/Attendance.jsx:49-60 | no selection: nothing changes. Otherwise the selected employee's history is requested and stored, or [] on failure |
| AttendancePage.Page.SelectionEffect | frontend/src/pages/Attendance.jsx:66-69 | with a selection, the history is requested; with none, `attendance` becomes [] |
| AttendancePage.Page.FetchAttendanceSummary | frontend/src/pages/Attendance.jsx:71-81 | the server's summary, or `{date, 0, 0}` on failure |
| AttendancePage.Page.SummaryEffect | frontend/src/pages/Attendance.jsx:83-86 | an empty roster gives a null summary and no request; otherwise the summary of `chartDate` is fetched |
| AttendancePage.Page.HandleMarkAttendance | frontend/src/pages/Attendance.jsx:88-92 | opens the modal on today with status Present and clears the form error; the modal shows iff an employee is selected |
| AttendancePage.Page.CloseModal | frontend/src/pages/Attendance.jsx:215-216 | only `modalOpen` changes, to false, and the modal is off the screen |
| AttendancePage.ClearedChartDateDrawsNothing | frontend/src/pages/Attendance.jsx:139 | an empty chart date is a 422 from the summary route, shown as "Request failed", and the zero fallback draws no chart |
| AttendancePage.Page.HandleSubmit | frontend/src/pages/Attendance.jsx:94-112 | no selection: nothing changes, nothing is sent. Success closes the modal and re-fetches history and the summary of `chartDate`; failure keeps the modal and sets the message or "Failed to mark attendance" |
| AttendancePage.Page.SelectById | frontend/src/pages/Attendance.jsx:160-163 | selects the first employee with that id, or nobody |
| AttendancePage.Page.ChangeChartDate | frontend/src/pages/Attendance.jsx:139 | only `chartDate` changes |
| AttendancePage.Page.Shown | frontend/src/pages/Attendance.jsx:114-131 | spinner while loading, then the error, then the empty state for an empty roster |
| AttendancePage.FirstLoad | frontend/src/pages/Attendance.jsx:62-86 | the first load selects the first employee, then fetches that employee's history and today's summary; an empty roster gives no selection and no summary |

## Left out

- Network, `fetch`, `JSON.parse` and request timing. A request is its settled outcome, given as an input. The parse result is an opaque `Option<Json>`.
- Concurrency: async timing, React effect scheduling, out-of-order and stale responses. Each operation runs to completion before the next. In `handleSubmit` the two follow-up fetches are not awaited; the model applies them in source order before `submitting` is cleared.
- React re-rendering: effects are methods the caller runs after the state they depend on changes.
- Pydantic's `EmailStr` is library code. Its verdict and normalised value are an input, plus the 254-character bound it enforces.
- Pydantic's and FastAPI's human-readable error text (`msg`) is not modelled. A 422 carries the failing field names.
- The driver's integrity-error text is an input string. This is how the handler chooses its 409 message.
- Key assignment is a counter. The database's own sequence is not modelled.
- Which unique column a collision hits is decided by the model's `Clashes`, not by the database's error.
- The clock: "today" is an input. Locale date formatting (`formatDate`, the chart's date label) is not modelled; frontend dates are strings and backend dates are day numbers.
- Tooltip percentages use floating point (`toFixed`) and are left out.
- `confirm` is a boolean input. `alert` is the returned message.
- FastAPI routing, CORS, start-up, `get_db`, and the SQLAlchemy engine and session. The tables are sequences in a class.
- Presentation components and chart.js rendering.
- Roster.Servable: `EmailStr` is taken to accept, on the way out, the address it normalised on the way in, so only the email's length is re-checked.
- Path parameters are integers in the model; the 422 for a non-integer `employee_id` in the path is not modelled.
- The form inputs' `onChange` handlers (`src/pages/Employees.jsx:173-192`, `frontend/src/pages/Attendance.jsx:224-230`) are not modelled as operations. Each one replaces one field of `form`. The model writes `form` directly.
- `frontend/src/api/employees.js` and `frontend/src/api/attendance.js` are thin wrappers over the client and are not part of this model.
- Text.Lower: lower-cases ASCII letters only; Python's `lower` and JavaScript's `toLowerCase` map all of Unicode.
- Text.StrLt: compares whole characters. JavaScript's default `sort` compares UTF-16 code units, and SQL `ORDER BY` uses the database's collation. They agree on the Basic Multilingual Plane with a binary collation.
- Roster.ListEmployees: the order is stated for a binary collation of `full_name`; a locale collation may order differently.
- DepartmentChart.ChartData: see Text.StrLt for the order of labels outside the Basic Multilingual Plane.
- AttendanceChart.ChartData: counts are integers; a summary whose fields are strings or fractions (never sent by the server) is not modelled.
- Json.Member: numbers are integers; JSON floats are not modelled.

## Findings

| source | as written | input that shows it | evidently intended | confidence | as-written member | corrected member |
|---|---|---|---|---|---|---|
| routers/employees.py:16-26 | the fields are stripped after request validation and the row is committed before the reply is checked against `EmployeeResponse` (`Store.Database.CreateEmployee`) | `employee_id` "   " with the other fields valid: request validation passes, "" is stored, the reply is 500, and from then on `GET /employees/` is 500 and the row cannot be listed or deleted from the page | a field that is blank after stripping is refused with 422 before the insert | not executed; FastAPI checks a returned value against `response_model` after the handler returns, and `EmployeeResponse` keeps `min_length=1` | Store.BlankCodeBreaksListing | Store.Database.CreateEmployeeChecked |
| src/components/DepartmentPieChart.jsx:15-18 | the counters live in a plain `{}`, which inherits the members of `Object.prototype` (`DepartmentChart.TallyAsWritten`) | one employee with department `__proto__`: the assignment is ignored, the chart gets no label and counts 0 of 1 employee; department `constructor` gets the value `"function Object() { [native code] }1"` | one counter per department, as with `Object.create(null)` or a `Map` | not executed; the JavaScript semantics of property reads and `__proto__` assignment are standard | DepartmentChart.ProtoDepartmentVanishes | DepartmentChart.ChartData |
