/**
 * The edit form of src/components/users/EditUserModal.jsx: the form state
 * initialised from the edited user, field updates, the validation chain run
 * on submit (first failure wins), the update payload, and the PATCH request.
 * The request is a plain `fetch` with the stored token: a 401 here gets no
 * session handling.
 */
module EditUserModal {
  import opened Wrappers
  import opened Js
  import opened Http
  import opened Browser

  /** `formData`. `isAdmin` is None when the key is absent, as it is after
      the form has been reset. */
  datatype FormData = FormData(
    email: string,
    firstName: string,
    lastName: string,
    password: string,
    confirmPassword: string,
    isAdmin: Option<Value>)

  /** The initial state, `useState({... is_admin: false})`. */
  const EmptyForm := FormData("", "", "", "", "", Some(Bool(false)))
  /** The state after a reset: the five text fields only. */
  const ResetForm := FormData("", "", "", "", "", None)

  /** `v || ""` for a text field. */
  function TextOr(v: Value): (s: string)
    ensures v.Str? ==> s == v.s
    ensures !Truthy(v) ==> s == ""
  {
    if !Truthy(v) then "" else if v.Str? then v.s else ToJsString(v)
  }

  /** The form filled from the user: `user.x || ""`, `user.is_admin || false`,
      and both password fields empty. */
  function InitForm(user: Value): (f: FormData)
    ensures f.password == "" && f.confirmPassword == ""
    ensures Get(user, "email").Str? ==> f.email == Get(user, "email").s
    ensures Get(user, "first_name").Str? ==> f.firstName == Get(user, "first_name").s
    ensures Get(user, "last_name").Str? ==> f.lastName == Get(user, "last_name").s
    ensures f.isAdmin.Some?
    ensures Truthy(Get(user, "is_admin")) ==> f.isAdmin.value == Get(user, "is_admin")
    ensures !Truthy(Get(user, "is_admin")) ==> f.isAdmin.value == Bool(false)
  {
    FormData(
      TextOr(Get(user, "email")),
      TextOr(Get(user, "first_name")),
      TextOr(Get(user, "last_name")),
      "",
      "",
      Some(Or(Get(user, "is_admin"), Bool(false))))
  }

  /** The text inputs of the form, by their `name`. */
  datatype TextField = EmailField | FirstNameField | LastNameField | PasswordField | ConfirmPasswordField

  function FieldValue(f: FormData, field: TextField): string {
    match field
    case EmailField => f.email
    case FirstNameField => f.firstName
    case LastNameField => f.lastName
    case PasswordField => f.password
    case ConfirmPasswordField => f.confirmPassword
  }

  /** A change event: a text input's value, or the admin checkbox's `checked`. */
  datatype InputEvent = TextChange(field: TextField, value: string) | AdminCheckbox(checked: bool)

  /** `handleInputChange(e)`: only the named field changes. */
  function ApplyInput(f: FormData, e: InputEvent): (r: FormData)
    ensures e.TextChange? ==>
              && (forall t :: FieldValue(r, t) == if t == e.field then e.value else FieldValue(f, t))
              && r.isAdmin == f.isAdmin
    ensures e.AdminCheckbox? ==>
              && (forall t :: FieldValue(r, t) == FieldValue(f, t))
              && r.isAdmin == Some(Bool(e.checked))
  {
    match e
    case AdminCheckbox(checked) => f.(isAdmin := Some(Bool(checked)))
    case TextChange(field, value) =>
      match field
      case EmailField => f.(email := value)
      case FirstNameField => f.(firstName := value)
      case LastNameField => f.(lastName := value)
      case PasswordField => f.(password := value)
      case ConfirmPasswordField => f.(confirmPassword := value)
  }

  /** The number of white-space characters `s` starts with. */
  function LeadingWhitespace(s: string): (n: nat)
    ensures n <= |s|
    ensures forall k | 0 <= k < n :: IsWhitespace(s[k])
    ensures n < |s| ==> !IsWhitespace(s[n])
    decreases |s|
  {
    if |s| > 0 && IsWhitespace(s[0]) then 1 + LeadingWhitespace(s[1..]) else 0
  }

  /** The number of white-space characters `s` ends with. */
  function TrailingWhitespace(s: string): (n: nat)
    ensures n <= |s|
    ensures forall k | |s| - n <= k < |s| :: IsWhitespace(s[k])
    ensures n < |s| ==> !IsWhitespace(s[|s| - n - 1])
    decreases |s|
  {
    if |s| > 0 && IsWhitespace(s[|s| - 1]) then 1 + TrailingWhitespace(s[..|s| - 1]) else 0
  }

  /** Leading white space removed, as `trim` does at the start. */
  function TrimStart(s: string): (r: string)
    ensures |r| <= |s| && r == s[|s| - |r|..]
    ensures forall k | 0 <= k < |s| - |r| :: IsWhitespace(s[k])
    ensures |r| > 0 ==> !IsWhitespace(r[0])
  {
    s[LeadingWhitespace(s)..]
  }

  /** Trailing white space removed, as `trim` does at the end. */
  function TrimEnd(s: string): (r: string)
    ensures |r| <= |s| && r == s[..|r|]
    ensures forall k | |r| <= k < |s| :: IsWhitespace(s[k])
    ensures |r| > 0 ==> !IsWhitespace(r[|r| - 1])
  {
    s[..|s| - TrailingWhitespace(s)]
  }

  /** `s.trim()`. */
  function Trim(s: string): string {
    TrimEnd(TrimStart(s))
  }

  /** `!s.trim()`: an empty or all-white-space field. */
  predicate Blank(s: string) {
    Trim(s) == ""
  }

  /** A field is blank exactly when every character of it is white space. */
  lemma BlankIffAllWhitespace(s: string)
    ensures Blank(s) <==> forall k | 0 <= k < |s| :: IsWhitespace(s[k])
  {
    var t := TrimStart(s);
    if |t| > 0 {
      assert !IsWhitespace(t[0]);
      assert TrimEnd(t) != "";
      assert t[0] == s[|s| - |t|];
    }
  }

  /** One run of `[^\s@]+`. */
  predicate EmailPart(t: string) {
    |t| > 0 && forall k | 0 <= k < |t| :: !IsWhitespace(t[k]) && t[k] != '@'
  }

  /** `/^[^\s@]+@[^\s@]+\.[^\s@]+$/.test(s)`: a split into three such runs
      around an '@' and a later '.'. */
  predicate MatchesEmailPattern(s: string)
    ensures MatchesEmailPattern(s) ==> |s| >= 5
  {
    exists i, j | 0 <= i < j < |s| ::
      s[i] == '@' && s[j] == '.' && EmailPart(s[..i]) && EmailPart(s[i + 1..j]) && EmailPart(s[j + 1..])
  }

  /** The same rule said character by character: no white space, exactly one
      '@', not at the start, and after it a '.' that is neither the character
      right after the '@' nor the last one. */
  predicate ValidEmail(s: string) {
    && (forall k | 0 <= k < |s| :: !IsWhitespace(s[k]))
    && exists i | 0 < i < |s| ::
         && s[i] == '@'
         && (forall k | 0 <= k < |s| && k != i :: s[k] != '@')
         && exists j | i + 1 < j < |s| - 1 :: s[j] == '.'
  }

  /** A slice is one run of `[^\s@]+` exactly when it is non-empty and each
      of its characters is neither white space nor '@'. */
  lemma EmailPartOfSlice(s: string, lo: int, hi: int)
    requires 0 <= lo <= hi <= |s|
    ensures EmailPart(s[lo..hi]) <==> lo < hi && forall k | lo <= k < hi :: !IsWhitespace(s[k]) && s[k] != '@'
  {
    var t := s[lo..hi];
    assert forall k | lo <= k < hi :: t[k - lo] == s[k];
    assert forall k | 0 <= k < |t| :: t[k] == s[lo + k];
  }

  lemma PatternIsValidEmail(s: string)
    requires MatchesEmailPattern(s)
    ensures ValidEmail(s)
  {
    var i, j :| 0 <= i < j < |s| && s[i] == '@' && s[j] == '.'
                && EmailPart(s[..i]) && EmailPart(s[i + 1..j]) && EmailPart(s[j + 1..]);
    EmailPartOfSlice(s, 0, i);
    EmailPartOfSlice(s, i + 1, j);
    EmailPartOfSlice(s, j + 1, |s|);
    assert forall k | 0 <= k < |s| :: !IsWhitespace(s[k]) && (k != i ==> s[k] != '@');
    assert i + 1 < j < |s| - 1;
  }

  lemma ValidEmailMatchesPattern(s: string)
    requires ValidEmail(s)
    ensures MatchesEmailPattern(s)
  {
    var i :| 0 < i < |s| && s[i] == '@' && (forall k | 0 <= k < |s| && k != i :: s[k] != '@')
             && exists j | i + 1 < j < |s| - 1 :: s[j] == '.';
    var j :| i + 1 < j < |s| - 1 && s[j] == '.';
    EmailPartOfSlice(s, 0, i);
    EmailPartOfSlice(s, i + 1, j);
    EmailPartOfSlice(s, j + 1, |s|);
    assert s[i] == '@' && s[j] == '.' && EmailPart(s[..i]) && EmailPart(s[i + 1..j]) && EmailPart(s[j + 1..]);
  }

  lemma EmailPatternCharacterized(s: string)
    ensures MatchesEmailPattern(s) <==> ValidEmail(s)
  {
    if MatchesEmailPattern(s) {
      PatternIsValidEmail(s);
    }
    if ValidEmail(s) {
      ValidEmailMatchesPattern(s);
    }
  }

  /** An address of the usual shape is accepted. */
  lemma AcceptsPlainAddress()
    ensures ValidEmail("ana@example.com")
  {
    var s := "ana@example.com";
    assert s[3] == '@' && s[11] == '.';
  }

  /** An address without a local part is rejected. */
  lemma RejectsMissingLocalPart()
    ensures !ValidEmail("@example.com")
  {
    var s := "@example.com";
    assert s[0] == '@';
  }

  /** An address without a '.' after the '@' is rejected. */
  lemma RejectsMissingDot()
    ensures !ValidEmail("ana@example")
  {
  }

  /** The messages of the validation chain. */
  const EmailRequired := "Email is required"
  const FirstNameRequired := "First name is required"
  const LastNameRequired := "Last name is required"
  const InvalidEmail := "Please enter a valid email address"
  const PasswordTooShort := "Password must be at least 6 characters long"
  const PasswordMismatch := "Passwords do not match"

  /** The checks of `handleSubmit`, as early returns in source order; None
      when every check passes. An empty password skips both password checks. */
  function Validate(f: FormData): (r: Option<string>)
    ensures r.None? <==>
              && !Blank(f.email) && !Blank(f.firstName) && !Blank(f.lastName)
              && MatchesEmailPattern(f.email)
              && (f.password != "" ==> |f.password| >= 6 && f.password == f.confirmPassword)
  {
    if Blank(f.email) then Some(EmailRequired)
    else if Blank(f.firstName) then Some(FirstNameRequired)
    else if Blank(f.lastName) then Some(LastNameRequired)
    else if !MatchesEmailPattern(f.email) then Some(InvalidEmail)
    else if f.password != "" && |f.password| < 6 then Some(PasswordTooShort)
    else if f.password != "" && f.password != f.confirmPassword then Some(PasswordMismatch)
    else None
  }

  /** One check: whether it passes and the message shown when it does not. */
  datatype Check = Check(passes: bool, message: string)

  /** The checks as a list in source order. */
  function Checks(f: FormData): seq<Check> {
    [Check(!Blank(f.email), EmailRequired),
     Check(!Blank(f.firstName), FirstNameRequired),
     Check(!Blank(f.lastName), LastNameRequired),
     Check(MatchesEmailPattern(f.email), InvalidEmail),
     Check(f.password == "" || |f.password| >= 6, PasswordTooShort),
     Check(f.password == "" || f.password == f.confirmPassword, PasswordMismatch)]
  }

  /** The message of the first failing check. */
  function FirstFailure(checks: seq<Check>): (r: Option<string>)
    ensures r.None? <==> forall i | 0 <= i < |checks| :: checks[i].passes
    ensures r.Some? ==> exists i | 0 <= i < |checks| ::
              !checks[i].passes && r.value == checks[i].message && forall j | 0 <= j < i :: checks[j].passes
  {
    if |checks| == 0 then None
    else if !checks[0].passes then Some(checks[0].message)
    else
      var r := FirstFailure(checks[1..]);
      assert forall i | 1 <= i < |checks| :: checks[i] == checks[1..][i - 1];
      r
  }

  /** Only the first failure is reported: the chain is the first failing
      check of the list, in order. */
  lemma {:induction false} ValidateReportsFirstFailure(f: FormData)
    ensures Validate(f) == FirstFailure(Checks(f))
  {
    FirstFailureUnfolds(Checks(f));
  }

  /** FirstFailure of a list of six checks, unfolded. */
  lemma {:induction false} FirstFailureUnfolds(c: seq<Check>)
    requires |c| == 6
    ensures FirstFailure(c) ==
      if !c[0].passes then Some(c[0].message)
      else if !c[1].passes then Some(c[1].message)
      else if !c[2].passes then Some(c[2].message)
      else if !c[3].passes then Some(c[3].message)
      else if !c[4].passes then Some(c[4].message)
      else if !c[5].passes then Some(c[5].message)
      else None
  {
    var c1 := c[1..];
    var c2 := c1[1..];
    var c3 := c2[1..];
    var c4 := c3[1..];
    var c5 := c4[1..];
    var c6 := c5[1..];
    assert c1[0] == c[1] && c2[0] == c[2] && c3[0] == c[3] && c4[0] == c[4] && c5[0] == c[5];
    assert FirstFailure(c6) == None;
  }

  /** `{ confirmPassword, ...updateData } = formData`, without an empty
      password, as `JSON.stringify` writes it (an undefined flag is dropped). */
  function Payload(f: FormData): (p: map<string, Value>)
    ensures "confirmPassword" !in p
    ensures "email" in p && p["email"] == Str(f.email)
    ensures "first_name" in p && p["first_name"] == Str(f.firstName)
    ensures "last_name" in p && p["last_name"] == Str(f.lastName)
    ensures "password" in p <==> f.password != ""
    ensures "password" in p ==> p["password"] == Str(f.password)
    ensures "is_admin" in p <==> f.isAdmin.Some? && f.isAdmin.value != Undefined
    ensures "is_admin" in p ==> p["is_admin"] == f.isAdmin.value
    ensures p.Keys <= {"email", "first_name", "last_name", "password", "is_admin"}
  {
    var base := map["email" := Str(f.email), "first_name" := Str(f.firstName), "last_name" := Str(f.lastName)];
    var withPassword := if f.password != "" then base["password" := Str(f.password)] else base;
    if f.isAdmin.Some? && f.isAdmin.value != Undefined then withPassword["is_admin" := f.isAdmin.value]
    else withPassword
  }

  /** The PATCH of `handleSubmit`, with the stored token as read (a missing
      token prints as "null"). */
  function UpdateRequest(userId: Value, f: FormData, token: Option<string>): (r: Request)
    ensures r.url == UserUrl(userId) && r.query == map[]
    ensures r.options == map["method" := Str("PATCH"), "body" := Obj(Payload(f))]
    ensures r.headers == BearerHeaders(token)
  {
    Request(UserUrl(userId), map[], map["method" := Str("PATCH"), "body" := Obj(Payload(f))], BearerHeaders(token))
  }

  /** The error text a failed update shows, or None when the update succeeded:
      the rejection's message, or the error body's `detail` with the status as
      fallback; an empty message shows "Error updating user". */
  function SubmitError(reply: Reply): (e: Option<string>)
    ensures e.None? <==> reply.Responded? && reply.response.Ok()
    ensures reply.NetworkError? ==> e == Some(MessageOr(reply.message, "Error updating user"))
    ensures reply.Responded? && !reply.response.Ok() ==>
              e == Some(MessageOr(DetailMessage(reply.response.body,
                                                "Failed to update user (" + IntToString(reply.response.status) + ")"),
                                  "Error updating user"))
  {
    match reply
    case NetworkError(m) => Some(MessageOr(m, "Error updating user"))
    case Responded(response) =>
      if response.Ok() then None
      else
        var fallback := "Failed to update user (" + IntToString(response.status) + ")";
        Some(MessageOr(DetailMessage(response.body, fallback), "Error updating user"))
  }

  /** A 401 is reported like any other failed status: the detail or the
      status fallback, with no purge and no redirect. */
  lemma UnauthorizedIsPlainFailure()
    ensures SubmitError(Responded(Response(401, Ok(Obj(map[]))))) == Some("Failed to update user (401)")
  {
    assert "0123456789"[4] == '4' && "0123456789"[0] == '0' && "0123456789"[1] == '1';
    assert NatToString(4) == "4";
    assert NatToString(40) == "40";
    assert IntToString(401) == "401";
    assert "Failed to update user (" + IntToString(401) + ")" == "Failed to update user (401)";
    assert DetailMessage(Ok(Obj(map[])), "Failed to update user (401)") == "Failed to update user (401)";
  }

  class EditForm {
    var formData: FormData
    var loading: bool
    var error: string

    constructor()
      ensures formData == EmptyForm && !loading && error == ""
    {
      formData := EmptyForm;
      loading := false;
      error := "";
    }

    /** The effect on a change of the `user` prop: a truthy user fills the form. */
    method SyncFromUser(user: Value)
      modifies this
      ensures formData == if Truthy(user) then InitForm(user) else old(formData)
      ensures loading == old(loading) && error == old(error)
    {
      if Truthy(user) {
        formData := InitForm(user);
      }
    }

    /** `handleInputChange(e)`. */
    method HandleInputChange(e: InputEvent)
      modifies this
      ensures formData == ApplyInput(old(formData), e)
      ensures loading == old(loading) && error == old(error)
    {
      formData := ApplyInput(formData, e);
    }

    /** `handleSubmit(e)`: a failed check shows its message and sends nothing;
        otherwise the PATCH is sent, and either resets the form and asks the
        page to close the modal and reload (`closed`), or shows the error.
        Loading ends false on every path; storage and navigation are never
        touched. */
    method HandleSubmit(w: Window, user: Value, network: Request -> Reply) returns (closed: bool)
      requires !user.Null? && !user.Undefined?
      modifies this, w
      ensures var v := Validate(old(formData));
        v.Some? ==> error == v.value && formData == old(formData) && !closed && w.sent == old(w.sent)
      ensures Validate(old(formData)).None? ==>
        var request := UpdateRequest(Get(user, "id"), old(formData), old(w.GetItem(AccessTokenKey)));
        var failure := SubmitError(network(request));
        && w.sent == old(w.sent) + [request]
        && (failure.Some? ==> error == failure.value && formData == old(formData) && !closed)
        && (failure.None? ==> error == "" && formData == ResetForm && closed)
      ensures !loading
      ensures w.storage == old(w.storage) && w.history == old(w.history)
    {
      loading := true;
      error := "";
      var invalid := Validate(formData);
      if invalid.Some? {
        error := invalid.value;
        loading := false;
        return false;
      }
      var token := w.GetItem(AccessTokenKey);
      var request := UpdateRequest(Get(user, "id"), formData, token);
      w.Send([request]);
      var failure := SubmitError(network(request));
      if failure.Some? {
        error := failure.value;
        closed := false;
      } else {
        formData := ResetForm;
        error := "";
        closed := true;
      }
      loading := false;
    }

    /** `handleClose()`: reset the form, clear the error, close. */
    method HandleClose()
      modifies this
      ensures formData == ResetForm && error == "" && loading == old(loading)
    {
      formData := ResetForm;
      error := "";
    }
  }

  /** After a reset the admin flag is no longer part of the payload. */
  lemma ResetDropsAdminFlag()
    ensures "is_admin" !in Payload(ResetForm) && "password" !in Payload(ResetForm)
  {
  }

  /** A valid form with an empty password never sends a password, whatever
      the confirmation field holds. */
  lemma EmptyPasswordSkipsPasswordChecks(f: FormData, confirm: string)
    requires f.password == ""
    ensures Validate(f.(confirmPassword := confirm)) == Validate(f)
    ensures "password" !in Payload(f)
  {
  }
}
