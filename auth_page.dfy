/**
 * The sign-in page: one form in two modes, login and register. Its
 * validator fills an error object field by field; typing clears a field's
 * error; switching modes resets everything; a successful registration
 * switches to login and keeps only the email.
 */
module AuthPage {
  import opened Wrappers
  import opened FormValidation

  datatype AuthForm = AuthForm(username: string, email: string, password: string, confirmPassword: string)

  /** The inputs, by their `name` attributes (`username`, `email`, `password`, `confirmPassword`); errors are keyed by them. */
  datatype Field = Username | Email | Password | ConfirmPassword

  function Get(form: AuthForm, f: Field): string
  {
    match f
    case Username => form.username
    case Email => form.email
    case Password => form.password
    case ConfirmPassword => form.confirmPassword
  }

  /** The `errors` object, one entry per input. */
  datatype AuthErrors = AuthErrors(username: Slot, email: Slot, password: Slot, confirmPassword: Slot)

  /** `{}`. */
  const NoErrors: AuthErrors := AuthErrors(None, None, None, None)

  function ErrorOf(e: AuthErrors, f: Field): Slot
  {
    match f
    case Username => e.username
    case Email => e.email
    case Password => e.password
    case ConfirmPassword => e.confirmPassword
  }

  /** The page state: the mode, the form and the displayed errors. */
  datatype Page = Page(isLogin: bool, form: AuthForm, errors: AuthErrors)

  const EmptyForm: AuthForm := AuthForm("", "", "", "")

  /** The page as it opens: login mode, empty form, no errors. */
  const Initial: Page := Page(true, EmptyForm, NoErrors)

  // The messages the validator shows.
  const UsernameRequired: string := "Username is required"
  const UsernameTooShort: string := "Username must be at least 3 characters"
  const EmailRequired: string := "Email is required"
  const EmailInvalid: string := "Please enter a valid email"
  const PasswordRequired: string := "Password is required"
  const PasswordTooShort: string := "Password must be at least 6 characters"
  const ConfirmRequired: string := "Please confirm your password"
  const PasswordMismatch: string := "Passwords do not match"

  /** The rule the validator implements, one conjunct per field. */
  predicate Valid(isLogin: bool, f: AuthForm)
  {
    (isLogin || |f.username| >= 3)
    && LooseEmail(f.email)
    && f.password != "" && (isLogin || |f.password| >= 6)
    && (isLogin || (f.confirmPassword != "" && f.password == f.confirmPassword))
  }

  /**
   * The errors the validator should record: a field has an entry exactly
   * when its rule fails in the current mode, and a missing value is
   * reported before a malformed, short or mismatched one.
   */
  function Expected(isLogin: bool, form: AuthForm): (e: AuthErrors)
    ensures e.username.Some? <==> !isLogin && |form.username| < 3
    ensures e.username.Some? ==> e.username.value == (if form.username == "" then UsernameRequired else UsernameTooShort)
    ensures e.email.Some? <==> !LooseEmail(form.email)
    ensures e.email.Some? ==> e.email.value == (if form.email == "" then EmailRequired else EmailInvalid)
    ensures e.password.Some? <==> form.password == "" || (!isLogin && |form.password| < 6)
    ensures e.password.Some? ==> e.password.value == (if form.password == "" then PasswordRequired else PasswordTooShort)
    ensures e.confirmPassword.Some? <==> !isLogin && (form.confirmPassword == "" || form.password != form.confirmPassword)
    ensures e.confirmPassword.Some? ==>
      e.confirmPassword.value == (if form.confirmPassword == "" then ConfirmRequired else PasswordMismatch)
  {
    var email := if LooseEmail(form.email) then (EmailIsNonBlank(form.email); None) else Rule(form.email == "", EmailRequired, true, EmailInvalid);
    var password := Rule(form.password == "", PasswordRequired, !isLogin && |form.password| < 6, PasswordTooShort);
    if isLogin then
      AuthErrors(None, email, password, None)
    else
      AuthErrors(
        Rule(form.username == "", UsernameRequired, |form.username| < 3, UsernameTooShort),
        email,
        password,
        Rule(form.confirmPassword == "", ConfirmRequired, form.password != form.confirmPassword, PasswordMismatch))
  }

  /** The form is valid exactly when no rule fails. */
  lemma ExpectedEmptyIff(isLogin: bool, form: AuthForm)
    ensures Expected(isLogin, form) == NoErrors <==> Valid(isLogin, form)
  {
  }

  /** `validateForm`: fills the errors block by block; the form is valid iff none was recorded. */
  method ValidateForm(isLogin: bool, form: AuthForm) returns (errors: AuthErrors, ok: bool)
    ensures errors == Expected(isLogin, form)
    ensures ok <==> errors == NoErrors
    ensures ok <==> Valid(isLogin, form)
  {
    errors := NoErrors;
    if !isLogin {
      if form.username == "" {
        errors := errors.(username := Some(UsernameRequired));
      } else if |form.username| < 3 {
        errors := errors.(username := Some(UsernameTooShort));
      }
    }
    if form.email == "" {
      errors := errors.(email := Some(EmailRequired));
    } else if !LooseEmail(form.email) {
      errors := errors.(email := Some(EmailInvalid));
    }
    if form.password == "" {
      errors := errors.(password := Some(PasswordRequired));
    } else if !isLogin && |form.password| < 6 {
      errors := errors.(password := Some(PasswordTooShort));
    }
    if !isLogin {
      if form.confirmPassword == "" {
        errors := errors.(confirmPassword := Some(ConfirmRequired));
      } else if form.password != form.confirmPassword {
        errors := errors.(confirmPassword := Some(PasswordMismatch));
      }
    }
    ok := errors == NoErrors;
    ExpectedEmptyIff(isLogin, form);
  }

  /** Login mode looks at the email and a non-empty password only. */
  lemma LoginIgnoresRegisterFields(f: AuthForm, username: string, confirm: string)
    ensures Valid(true, f) <==> LooseEmail(f.email) && f.password != ""
    ensures Valid(true, f) == Valid(true, f.(username := username, confirmPassword := confirm))
  {
  }

  /** A form that registers also logs in. */
  lemma RegisterIsStricter(f: AuthForm)
    ensures Valid(false, f) ==> Valid(true, f)
  {
  }

  /** `handleChange`: the field takes the typed value and loses its error; nothing else changes. */
  function HandleChange(p: Page, f: Field, value: string): (r: Page)
    ensures r.isLogin == p.isLogin
    ensures Get(r.form, f) == value
    ensures forall g :: g != f ==> Get(r.form, g) == Get(p.form, g)
    ensures ErrorOf(r.errors, f) == Cleared(ErrorOf(p.errors, f))
    ensures forall g :: g != f ==> ErrorOf(r.errors, g) == ErrorOf(p.errors, g)
  {
    match f
    case Username => p.(form := p.form.(username := value), errors := p.errors.(username := Cleared(p.errors.username)))
    case Email => p.(form := p.form.(email := value), errors := p.errors.(email := Cleared(p.errors.email)))
    case Password => p.(form := p.form.(password := value), errors := p.errors.(password := Cleared(p.errors.password)))
    case ConfirmPassword =>
      p.(form := p.form.(confirmPassword := value), errors := p.errors.(confirmPassword := Cleared(p.errors.confirmPassword)))
  }

  /** `toggleMode`: the other mode, an empty form and no errors. */
  function ToggleMode(p: Page): (r: Page)
    ensures r.isLogin == !p.isLogin
    ensures forall g :: Get(r.form, g) == ""
    ensures r.errors == NoErrors
  {
    Page(!p.isLogin, EmptyForm, NoErrors)
  }

  /** Toggling twice returns to the mode one started in, but the form stays cleared. */
  lemma ToggleTwice(p: Page)
    ensures ToggleMode(ToggleMode(p)).isLogin == p.isLogin
    ensures ToggleMode(ToggleMode(p)) == ToggleMode(p).(isLogin := p.isLogin)
  {
  }

  /** What `handleSubmit` sends: the credentials in login mode, the new account otherwise. */
  datatype Request = Login(email: string, password: string) | Register(username: string, email: string, password: string)

  /** The request a submit sends, or `None` when validation fails and nothing is sent. */
  function SubmitRequest(isLogin: bool, f: AuthForm): (r: Option<Request>)
    ensures r.None? <==> !Valid(isLogin, f)
    ensures r.Some? && isLogin ==> r.value == Login(f.email, f.password)
    ensures r.Some? && !isLogin ==> r.value == Register(f.username, f.email, f.password)
  {
    if !Valid(isLogin, f) then None
    else if isLogin then Some(Login(f.email, f.password))
    else Some(Register(f.username, f.email, f.password))
  }

  /**
   * `handleSubmit` up to the request: the errors shown become the
   * validator's, and a request goes out exactly when there are none.
   */
  function Submit(p: Page): (r: (Page, Option<Request>))
    ensures r.0.isLogin == p.isLogin && r.0.form == p.form
    ensures r.0.errors == Expected(p.isLogin, p.form)
    ensures r.1.Some? <==> r.0.errors == NoErrors
    ensures r.1 == SubmitRequest(p.isLogin, p.form)
  {
    ExpectedEmptyIff(p.isLogin, p.form);
    (p.(errors := Expected(p.isLogin, p.form)), SubmitRequest(p.isLogin, p.form))
  }

  /** A registration request never carries the confirmation, and always a password of at least 6 characters. */
  lemma RegisterRequestShape(f: AuthForm)
    requires SubmitRequest(false, f).Some?
    ensures SubmitRequest(false, f).value.Register?
    ensures |SubmitRequest(false, f).value.password| >= 6 && SubmitRequest(false, f).value.password == f.confirmPassword
  {
  }

  /**
   * After the server's answer: a successful registration switches to login
   * and keeps only the email; a login, or a failure, leaves the page as it
   * is (errors are not touched).
   */
  function AfterResult(p: Page, success: bool): (r: Page)
    ensures success && !p.isLogin ==> r.isLogin && r.form == AuthForm("", p.form.email, "", "") && r.errors == p.errors
    ensures !(success && !p.isLogin) ==> r == p
  {
    if success && !p.isLogin then Page(true, AuthForm("", p.form.email, "", ""), p.errors) else p
  }

  /** A registration that succeeds lands on a login form the user can submit with a password alone. */
  lemma RegisteredCanLogIn(p: Page, password: string)
    requires !p.isLogin && Valid(false, p.form)
    requires password != ""
    ensures Valid(true, HandleChange(AfterResult(p, true), Password, password).form)
  {
  }
}
