/**
 * The page a reset link opens: the guard on the link's token, the outcome
 * of checking that token, the validator of the new password, the input
 * handler and the request a submit sends.
 */
module ResetPasswordPage {
  import opened Wrappers
  import opened FormValidation

  datatype ResetForm = ResetForm(newPassword: string, confirmPassword: string)

  /** The inputs, by their `name` attributes (`newPassword`, `confirmPassword`). */
  datatype Field = NewPassword | ConfirmPassword

  function Get(form: ResetForm, f: Field): string
  {
    match f
    case NewPassword => form.newPassword
    case ConfirmPassword => form.confirmPassword
  }

  /** The `errors` object, one entry per input. */
  datatype ResetErrors = ResetErrors(newPassword: Slot, confirmPassword: Slot)

  /** `{}`. */
  const NoErrors: ResetErrors := ResetErrors(None, None)

  function ErrorOf(e: ResetErrors, f: Field): Slot
  {
    match f
    case NewPassword => e.newPassword
    case ConfirmPassword => e.confirmPassword
  }

  /** What the page does once it has read the `token` query parameter. */
  datatype Load =
    | Redirect(message: string)   // a toast, then back to `/auth`; no request
    | CheckToken(token: string)   // the token is sent to the validation endpoint

  const InvalidLink: string := "Invalid reset link"

  /** The effect on mount: a missing or empty token redirects at once; any other token is checked. */
  function OnLoad(token: Option<string>): (r: Load)
    ensures r.Redirect? <==> token.None? || token.value == ""
    ensures r.Redirect? ==> r.message == InvalidLink
    ensures r.CheckToken? ==> token == Some(r.token)
  {
    if token.None? || token.value == "" then Redirect(InvalidLink) else CheckToken(token.value)
  }

  /** The answer of the validation endpoint: the user the token belongs to, or the server's message (if any) on failure. */
  datatype Check = Accepted(username: string) | Rejected(message: Option<string>)

  /** The page after the check: whether the form is offered, whose password it resets, or the message shown instead. */
  datatype TokenState = TokenState(tokenValid: bool, user: Option<string>, toast: Option<string>)

  /** `validateToken`: an accepted token opens the form; a rejected one shows the server's message or the default. */
  function AfterCheck(c: Check): (s: TokenState)
    ensures s.tokenValid <==> c.Accepted?
    ensures c.Accepted? ==> s.user == Some(c.username) && s.toast.None?
    ensures c.Rejected? ==> s.user.None? && s.toast == Some(ServerMessage(c.message, "Invalid or expired reset token"))
    ensures s.toast.Some? ==> s.toast.value != ""
  {
    match c
    case Accepted(name) => TokenState(true, Some(name), None)
    case Rejected(m) => TokenState(false, None, Some(ServerMessage(m, "Invalid or expired reset token")))
  }

  // The messages the validator shows.
  const NewPasswordRequired: string := "New password is required"
  const PasswordTooShort: string := "Password must be at least 6 characters long"
  const ConfirmRequired: string := "Please confirm your password"
  const PasswordMismatch: string := "Passwords do not match"

  /** The rule the validator implements: at least 6 characters, repeated exactly. */
  predicate Valid(f: ResetForm)
  {
    |f.newPassword| >= 6 && f.confirmPassword != "" && f.newPassword == f.confirmPassword
  }

  /**
   * The errors the validator should record: a field has an entry exactly
   * when its rule fails, and a missing value is reported before a short or
   * mismatched one.
   */
  function Expected(form: ResetForm): (e: ResetErrors)
    ensures e.newPassword.Some? <==> |form.newPassword| < 6
    ensures e.newPassword.Some? ==>
      e.newPassword.value == (if form.newPassword == "" then NewPasswordRequired else PasswordTooShort)
    ensures e.confirmPassword.Some? <==> form.confirmPassword == "" || form.newPassword != form.confirmPassword
    ensures e.confirmPassword.Some? ==>
      e.confirmPassword.value == (if form.confirmPassword == "" then ConfirmRequired else PasswordMismatch)
  {
    ResetErrors(
      Rule(form.newPassword == "", NewPasswordRequired, |form.newPassword| < 6, PasswordTooShort),
      Rule(form.confirmPassword == "", ConfirmRequired, form.newPassword != form.confirmPassword, PasswordMismatch))
  }

  /** The form is valid exactly when no rule fails. */
  lemma ExpectedEmptyIff(form: ResetForm)
    ensures Expected(form) == NoErrors <==> Valid(form)
  {
  }

  /** `validateForm`: fills the errors block by block; the form is valid iff none was recorded. */
  method ValidateForm(form: ResetForm) returns (errors: ResetErrors, ok: bool)
    ensures errors == Expected(form)
    ensures ok <==> errors == NoErrors
    ensures ok <==> Valid(form)
  {
    errors := NoErrors;
    if form.newPassword == "" {
      errors := errors.(newPassword := Some(NewPasswordRequired));
    } else if |form.newPassword| < 6 {
      errors := errors.(newPassword := Some(PasswordTooShort));
    }
    if form.confirmPassword == "" {
      errors := errors.(confirmPassword := Some(ConfirmRequired));
    } else if form.newPassword != form.confirmPassword {
      errors := errors.(confirmPassword := Some(PasswordMismatch));
    }
    ok := errors == NoErrors;
    ExpectedEmptyIff(form);
  }

  /** A valid form's two passwords both pass the server's own length and equality checks. */
  lemma ValidMeetsServerRules(f: ResetForm)
    requires Valid(f)
    ensures f.newPassword != "" && f.confirmPassword != ""
    ensures f.newPassword == f.confirmPassword && |f.confirmPassword| >= 6
  {
  }

  /** `handleChange`: the field takes the typed value and loses its error; nothing else changes. */
  function HandleChange(form: ResetForm, errors: ResetErrors, f: Field, value: string): (r: (ResetForm, ResetErrors))
    ensures Get(r.0, f) == value
    ensures forall g :: g != f ==> Get(r.0, g) == Get(form, g)
    ensures ErrorOf(r.1, f) == Cleared(ErrorOf(errors, f))
    ensures forall g :: g != f ==> ErrorOf(r.1, g) == ErrorOf(errors, g)
  {
    match f
    case NewPassword => (form.(newPassword := value), errors.(newPassword := Cleared(errors.newPassword)))
    case ConfirmPassword => (form.(confirmPassword := value), errors.(confirmPassword := Cleared(errors.confirmPassword)))
  }

  /** What `resetPassword` receives: the link's token and both passwords. */
  datatype ResetRequest = ResetRequest(token: string, newPassword: string, confirmPassword: string)

  /**
   * `handleSubmit` up to the request: the errors shown become the
   * validator's, and a request with the link's token goes out exactly when
   * there are none.
   */
  function Submit(token: string, form: ResetForm): (r: (ResetErrors, Option<ResetRequest>))
    ensures r.0 == Expected(form)
    ensures r.1.Some? <==> r.0 == NoErrors
    ensures r.1.Some? <==> Valid(form)
    ensures r.1.Some? ==> r.1.value == ResetRequest(token, form.newPassword, form.confirmPassword)
  {
    ExpectedEmptyIff(form);
    var errors := Expected(form);
    (errors, if errors == NoErrors then Some(ResetRequest(token, form.newPassword, form.confirmPassword)) else None)
  }

  /** `error.response?.data?.error || 'Failed to reset password'`. */
  function FailureMessage(reply: Option<string>): (m: string)
    ensures m != ""
    ensures reply.Some? && reply.value != "" ==> m == reply.value
  {
    ServerMessage(reply, "Failed to reset password")
  }
}
