/** The Employees page: the add-employee form's checks and payload, and the
    page state that its fetch, submit and delete handlers update. Each
    handler receives the settled outcome of the request it makes; the
    confirmation dialog's answer is an input. */
module EmployeesPage {
  import opened Wrappers
  import opened Text
  import opened Seqs
  import opened Models
  import opened Schemas
  import opened Roster

  /** A character `[^\s@]` admits. */
  predicate Plain(c: char) {
    !IsSpace(JavaScript, c) && c != '@'
  }

  predicate AllPlain(s: string) {
    forall k :: 0 <= k < |s| ==> Plain(s[k])
  }

  /** The first position of `c` in `s`, or `|s|` when there is none. */
  function IndexOf(s: string, c: char): (r: nat)
    ensures r <= |s|
  {
    if s == [] || s[0] == c then 0 else 1 + IndexOf(s[1..], c)
  }

  /** `IndexOf` finds the first occurrence: nothing before it is `c`. */
  lemma {:induction false} IndexOfFirst(s: string, c: char)
    ensures var r := IndexOf(s, c);
      && (forall k :: 0 <= k < r ==> s[k] != c)
      && (r < |s| ==> s[r] == c)
    decreases |s|
  {
    if s != [] && s[0] != c {
      IndexOfFirst(s[1..], c);
      var r := IndexOf(s[1..], c);
      forall k | 0 <= k < 1 + r ensures s[k] != c {
        if k > 0 { assert s[k] == s[1..][k - 1]; }
      }
    }
  }

  /** A '.' with at least one character on either side. */
  predicate HasInnerDot(d: string) {
    exists j :: 0 < j < |d| - 1 && d[j] == '.'
  }

  /** `EMAIL_REGEX.test(s)` for `/^[^\s@]+@[^\s@]+\.[^\s@]+$/`, position by
      position: no whitespace, a first '@' that is not at the start and is
      followed by no other '@', and a '.' inside the part after it. */
  predicate MatchesEmailRegex(s: string) {
    var i := IndexOf(s, '@');
    && (forall k :: 0 <= k < |s| ==> !IsSpace(JavaScript, s[k]))
    && 0 < i < |s|
    && IndexOf(s[i + 1..], '@') == |s| - i - 1
    && HasInnerDot(s[i + 1..])
  }

  /** The language of the regular expression: three non-empty runs of
      `[^\s@]`, joined by '@' and '.'. */
  ghost predicate EmailRegexLanguage(s: string) {
    exists a: string, b: string, c: string ::
      && a != [] && b != [] && c != []
      && AllPlain(a) && AllPlain(b) && AllPlain(c)
      && s == a + "@" + b + "." + c
  }

  /** A slice of plain characters is plain. */
  lemma AllPlainSlice(s: string, lo: nat, hi: nat)
    requires lo <= hi <= |s|
    requires forall k :: lo <= k < hi ==> Plain(s[k])
    ensures AllPlain(s[lo..hi])
  {
    forall k | 0 <= k < hi - lo ensures Plain(s[lo..hi][k]) {
      assert s[lo..hi][k] == s[lo + k];
    }
  }

  /** Every string the positional test accepts is in the language. */
  lemma MatchesAreInLanguage(s: string)
    requires MatchesEmailRegex(s)
    ensures EmailRegexLanguage(s)
  {
    var i := IndexOf(s, '@');
    var d := s[i + 1..];
    IndexOfFirst(s, '@');
    IndexOfFirst(d, '@');
    var j' :| 0 < j' < |d| - 1 && d[j'] == '.';
    var j := i + 1 + j';
    assert forall k :: 0 <= k < |s| && k != i ==> Plain(s[k]) by {
      forall k | 0 <= k < |s| && k != i ensures Plain(s[k]) {
        if k > i { assert s[k] == d[k - i - 1]; }
      }
    }
    AllPlainSlice(s, 0, i);
    AllPlainSlice(s, i + 1, j);
    AllPlainSlice(s, j + 1, |s|);
    SplitAround(s, i, j);
    Joined(s, s[..i], s[i + 1..j], s[j + 1..]);
  }

  /** A string is its pieces around an '@' and a later '.'. */
  lemma SplitAround(s: string, i: nat, j: nat)
    requires i < j < |s| && s[i] == '@' && s[j] == '.'
    ensures s == s[..i] + "@" + s[i + 1..j] + "." + s[j + 1..]
  {
    assert s == s[..i] + [s[i]] + s[i + 1..j] + [s[j]] + s[j + 1..];
  }

  /** Three plain runs joined by '@' and '.' are in the language. */
  lemma Joined(s: string, a: string, b: string, c: string)
    requires a != [] && b != [] && c != []
    requires AllPlain(a) && AllPlain(b) && AllPlain(c)
    requires s == a + "@" + b + "." + c
    ensures EmailRegexLanguage(s)
  {
  }

  /** Every string of the language passes the positional test. */
  lemma LanguageIsMatched(s: string)
    requires EmailRegexLanguage(s)
    ensures MatchesEmailRegex(s)
  {
    var a: string, b: string, c: string :|
      && a != [] && b != [] && c != []
      && AllPlain(a) && AllPlain(b) && AllPlain(c)
      && s == a + "@" + b + "." + c;
    var i, j := |a|, |a| + 1 + |b|;
    forall k | 0 <= k < |s| ensures !IsSpace(JavaScript, s[k]) && (k != i ==> s[k] != '@') {
      if k < i { assert s[k] == a[k]; }
      else if i < k < j { assert s[k] == b[k - i - 1]; }
      else if j < k { assert s[k] == c[k - j - 1]; }
    }
    assert s[i] == '@' && s[j] == '.';
    IndexOfFound(s, '@', i);
    var d := s[i + 1..];
    IndexOfAbsent(d, '@');
    assert d[j - i - 1] == '.';
  }

  /** The positional test accepts exactly the language of the expression. */
  lemma EmailRegexExact(s: string)
    ensures MatchesEmailRegex(s) <==> EmailRegexLanguage(s)
  {
    if MatchesEmailRegex(s) { MatchesAreInLanguage(s); }
    if EmailRegexLanguage(s) { LanguageIsMatched(s); }
  }

  lemma {:induction false} IndexOfAbsent(s: string, c: char)
    requires forall k :: 0 <= k < |s| ==> s[k] != c
    ensures IndexOf(s, c) == |s|
    decreases |s|
  {
    if s != [] {
      IndexOfAbsent(s[1..], c);
    }
  }

  lemma {:induction false} IndexOfFound(s: string, c: char, i: nat)
    requires i < |s| && s[i] == c
    requires forall k :: 0 <= k < i ==> s[k] != c
    ensures IndexOf(s, c) == i
    decreases i
  {
    if i > 0 {
      IndexOfFound(s[1..], c, i - 1);
    }
  }

  /** Leading or trailing whitespace makes the regular expression fail. */
  lemma PaddedEmailRejected(s: string)
    requires s != [] && (IsSpace(JavaScript, s[0]) || IsSpace(JavaScript, s[|s| - 1]))
    ensures !MatchesEmailRegex(s)
  {
  }

  const EmployeeIdRequired := "Employee ID is required"
  const FullNameRequired := "Full name is required"
  const EmailRequired := "Email is required"
  const EmailInvalid := "Please enter a valid email address"
  const DepartmentRequired := "Department is required"

  /** `!s.trim()`: trimming leaves nothing exactly when every character is
      whitespace (the contract of `Strip`). */
  predicate Blank(s: string) {
    AllSpace(JavaScript, s)
  }

  /** The checks of `handleSubmit`, in order; the first that fails gives the
      only message. The regular expression sees the untrimmed email. */
  function FormError(f: EmployeeBase): Option<string> {
    if Blank(f.employeeId) then Some(EmployeeIdRequired)
    else if Blank(f.fullName) then Some(FullNameRequired)
    else if Blank(f.email) then Some(EmailRequired)
    else if !MatchesEmailRegex(f.email) then Some(EmailInvalid)
    else if Blank(f.department) then Some(DepartmentRequired)
    else None
  }

  /** Each message is shown exactly when its field is the first to fail, and
      the form is sent exactly when every check passes. */
  lemma FormErrorCases(f: EmployeeBase)
    ensures var r := FormError(f);
      && (r == Some(EmployeeIdRequired) <==> Blank(f.employeeId))
      && (r == Some(FullNameRequired) <==> !Blank(f.employeeId) && Blank(f.fullName))
      && (r == Some(EmailRequired) <==> !Blank(f.employeeId) && !Blank(f.fullName) && Blank(f.email))
      && (r == Some(EmailInvalid) <==>
            !Blank(f.employeeId) && !Blank(f.fullName) && !Blank(f.email) && !MatchesEmailRegex(f.email))
      && (r == Some(DepartmentRequired) <==>
            !Blank(f.employeeId) && !Blank(f.fullName) && MatchesEmailRegex(f.email) && Blank(f.department))
      && (r.None? <==>
            !Blank(f.employeeId) && !Blank(f.fullName) && MatchesEmailRegex(f.email) && !Blank(f.department))
  {
    if MatchesEmailRegex(f.email) {
      assert !IsSpace(JavaScript, f.email[0]);
    }
  }

  /** The body posted to the server: every field trimmed, the email also lower-cased. */
  function Payload(f: EmployeeBase): (p: EmployeeBase)
    ensures |p.employeeId| <= |f.employeeId| && |p.fullName| <= |f.fullName|
    ensures |p.email| <= |f.email| && |p.department| <= |f.department|
    ensures Strip(JavaScript, p.employeeId) == p.employeeId && Strip(JavaScript, p.fullName) == p.fullName
    ensures Strip(JavaScript, p.email) == p.email && Strip(JavaScript, p.department) == p.department
    ensures Lower(p.email) == p.email
  {
    StripIdempotent(JavaScript, f.employeeId);
    StripIdempotent(JavaScript, f.fullName);
    StripIdempotent(JavaScript, f.department);
    StripLowerCommute(JavaScript, Strip(JavaScript, f.email));
    StripIdempotent(JavaScript, f.email);
    LowerIdempotent(Strip(JavaScript, f.email));
    EmployeeBase(Strip(JavaScript, f.employeeId), Strip(JavaScript, f.fullName),
                 Lower(Strip(JavaScript, f.email)), Strip(JavaScript, f.department))
  }

  /** A valid form's payload has no blank field and no padding, so a second
      trim changes nothing, and its email has no upper-case ASCII letter. */
  lemma PayloadIsTrimmed(f: EmployeeBase)
    requires FormError(f).None?
    ensures var p := Payload(f);
      && p.employeeId != "" && p.fullName != "" && p.email != "" && p.department != ""
      && Strip(JavaScript, p.employeeId) == p.employeeId
      && Strip(JavaScript, p.fullName) == p.fullName
      && Strip(JavaScript, p.email) == p.email
      && Strip(JavaScript, p.department) == p.department
      && Lower(p.email) == p.email
  {
    FormErrorCases(f);
  }

  /** The form's blank check uses JavaScript's whitespace, the server's strip
      uses Python's: an id made of U+001C passes the form and is stored as "". */
  lemma FormAndServerDisagreeOnBlank()
    ensures var f := EmployeeBase("\U{001c}", "Ann", "ann@example.com", "Ops");
      && !Blank(f.employeeId)
      && Normalize(Payload(f)).employeeId == ""
  {
    var s := "\U{001c}";
    assert !IsSpace(JavaScript, s[0]) && IsSpace(Python, s[0]);
    assert TrimStart(JavaScript, s) == s;
    assert TrimEnd(JavaScript, s) == s;
  }

  const EmptyForm := EmployeeBase("", "", "", "")
  const LoadFailed := "Failed to load employees"
  const AddFailed := "Failed to add employee"
  const DeleteFailed := "Failed to delete employee"

  class Page {
    var employees: seq<Employee>
    var loading: bool
    var error: Option<string>
    var modalOpen: bool
    var submitting: bool
    var formError: Option<string>
    var form: EmployeeBase
    var deleteId: Option<int>

    /** The state of the first render. */
    constructor ()
      ensures employees == [] && loading && error == None && !modalOpen && !submitting
      ensures formError == None && form == EmptyForm && deleteId == None
    {
      employees := [];
      loading := true;
      error := None;
      modalOpen := false;
      submitting := false;
      formError := None;
      form := EmptyForm;
      deleteId := None;
    }

    /** `fetchEmployees`, given how `getEmployees()` settled. */
    method FetchEmployees(outcome: Reply<seq<Employee>>)
      modifies this
      ensures !loading
      ensures outcome.Resolved? ==> employees == outcome.value && error == None
      ensures outcome.Rejected? ==> employees == old(employees) && error == Some(MessageOr(outcome.message, LoadFailed))
      ensures modalOpen == old(modalOpen) && submitting == old(submitting) && formError == old(formError)
      ensures form == old(form) && deleteId == old(deleteId)
    {
      loading := true;
      error := None;
      match outcome {
        case Resolved(data) => employees := data;
        case Rejected(message) => error := Some(MessageOr(message, LoadFailed));
      }
      loading := false;
    }

    /** The "Add Employee" button. */
    method OpenAddModal()
      modifies this
      ensures modalOpen && formError == None
      ensures employees == old(employees) && form == old(form) && deleteId == old(deleteId)
      ensures loading == old(loading) && error == old(error) && submitting == old(submitting)
    {
      modalOpen := true;
      formError := None;
    }

    /** The "Add Employee" button of the empty roster: it opens the modal but,
        unlike the header button, leaves any earlier form error showing. */
    method OpenAddModalFromEmptyState()
      modifies this
      ensures modalOpen && formError == old(formError)
      ensures employees == old(employees) && form == old(form) && deleteId == old(deleteId)
      ensures loading == old(loading) && error == old(error) && submitting == old(submitting)
    {
      modalOpen := true;
    }

    /** `handleSubmit`: `created` is how `createEmployee` settled and
        `reloaded` how the follow-up `fetchEmployees` did. Returns the body
        posted, if any. */
    method HandleSubmit(created: Reply<Employee>, reloaded: Reply<seq<Employee>>) returns (sent: Option<EmployeeBase>)
      modifies this
      ensures deleteId == old(deleteId)
      ensures FormError(old(form)).Some? ==>
        && sent == None && submitting == old(submitting)
        && formError == FormError(old(form))
        && form == old(form) && modalOpen == old(modalOpen)
        && employees == old(employees) && loading == old(loading) && error == old(error)
      ensures FormError(old(form)).None? ==>
        && sent == Some(Payload(old(form))) && !submitting
        && (created.Resolved? ==> Created(old(employees), reloaded) && formError == None)
        && (created.Rejected? ==> Kept(old(form), old(modalOpen), old(employees), old(loading), old(error), created.message))
    {
      formError := None;
      var f := form;
      var check := FormError(f);
      var body := Payload(f);
      if check.Some? {
        formError := check;
        sent := None;
        return;
      }
      sent := Some(body);
      submitting := true;
      match created {
        case Resolved(_) => CloseAndReload(reloaded);
        case Rejected(message) => formError := Some(MessageOr(message, AddFailed));
      }
      submitting := false;
    }

    /** The page after a successful create: modal closed, form reset, list reloaded. */
    ghost predicate Created(before: seq<Employee>, reloaded: Reply<seq<Employee>>)
      reads this
    {
      && !modalOpen && form == EmptyForm && !loading
      && (reloaded.Resolved? ==> employees == reloaded.value && error == None)
      && (reloaded.Rejected? ==> employees == before && error == Some(MessageOr(reloaded.message, LoadFailed)))
    }

    /** The page after a failed create: everything kept, the error shown in the form. */
    ghost predicate Kept(form0: EmployeeBase, modal0: bool, employees0: seq<Employee>, loading0: bool, error0: Option<string>, message: string)
      reads this
    {
      && formError == Some(MessageOr(message, AddFailed))
      && form == form0 && modalOpen == modal0
      && employees == employees0 && loading == loading0 && error == error0
    }

    /** What a successful create does: close the modal, reset the form, reload the list. */
    method CloseAndReload(reloaded: Reply<seq<Employee>>)
      modifies this
      ensures Created(old(employees), reloaded)
      ensures submitting == old(submitting) && formError == old(formError) && deleteId == old(deleteId)
    {
      modalOpen := false;
      form := EmptyForm;
      FetchEmployees(reloaded);
    }

    /** `handleDelete`: `confirmed` is the answer to the confirmation dialog
        and `deleted` how `deleteEmployee` settled. Returns the alert shown, if any. */
    method HandleDelete(id: int, confirmed: bool, deleted: Reply<()>) returns (alert: Option<string>)
      modifies this
      ensures !confirmed ==> alert == None && deleteId == old(deleteId) && employees == old(employees)
      ensures confirmed ==> deleteId == None
      ensures confirmed && deleted.Resolved? ==> alert == None && employees == DropEmployee(old(employees), id)
      ensures confirmed && deleted.Rejected? ==>
        alert == Some(MessageOr(deleted.message, DeleteFailed)) && employees == old(employees)
      ensures loading == old(loading) && error == old(error) && modalOpen == old(modalOpen)
      ensures submitting == old(submitting) && formError == old(formError) && form == old(form)
    {
      if !confirmed {
        return None;
      }
      deleteId := Some(id);
      match deleted
      case Resolved(_) =>
        employees := DropEmployee(employees, id);
        deleteId := None;
        alert := None;
      case Rejected(message) =>
        alert := Some(MessageOr(message, DeleteFailed));
        deleteId := None;
    }
  }
}
