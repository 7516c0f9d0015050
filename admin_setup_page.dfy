/**
 * The first-run page that creates the administrator account: its
 * validator, its input handler and the payload it posts.
 */
module AdminSetupPage {
  import opened Wrappers
  import opened Strings
  import opened FormValidation

  datatype SetupForm = SetupForm(
    username: string,
    email: string,
    password: string,
    confirmPassword: string,
    firstName: string,
    lastName: string,
    bio: string)

  /**
   * The inputs, by their `name` attributes (`username`, `email`, `password`,
   * `confirmPassword`, `first_name`, `last_name`, `bio`).
   */
  datatype Field = Username | Email | Password | ConfirmPassword | FirstName | LastName | Bio

  function Get(form: SetupForm, f: Field): string
  {
    match f
    case Username => form.username
    case Email => form.email
    case Password => form.password
    case ConfirmPassword => form.confirmPassword
    case FirstName => form.firstName
    case LastName => form.lastName
    case Bio => form.bio
  }

  /** The `errors` object, one entry per input. */
  datatype SetupErrors = SetupErrors(
    username: Slot,
    email: Slot,
    password: Slot,
    confirmPassword: Slot,
    firstName: Slot,
    lastName: Slot,
    bio: Slot)

  /** `{}`. */
  const NoErrors: SetupErrors := SetupErrors(None, None, None, None, None, None, None)

  function ErrorOf(e: SetupErrors, f: Field): Slot
  {
    match f
    case Username => e.username
    case Email => e.email
    case Password => e.password
    case ConfirmPassword => e.confirmPassword
    case FirstName => e.firstName
    case LastName => e.lastName
    case Bio => e.bio
  }

  // The messages the validator shows.
  const UsernameRequired: string := "Username is required"
  const EmailRequired: string := "Email is required"
  const EmailInvalid: string := "Please enter a valid email address"
  const PasswordRequired: string := "Password is required"
  const PasswordTooShort: string := "Password must be at least 6 characters"
  const ConfirmRequired: string := "Please confirm your password"
  const PasswordMismatch: string := "Passwords do not match"
  const FirstNameRequired: string := "First name is required"
  const LastNameRequired: string := "Last name is required"

  /**
   * The rule the validator implements: the names are required after trimming,
   * the email matches the anchored pattern, the password has at least 6
   * characters and the confirmation repeats it. The bio is optional.
   */
  predicate Valid(f: SetupForm)
  {
    !Blank(f.username)
    && StrictEmail(f.email)
    && |f.password| >= 6
    && f.confirmPassword != "" && f.password == f.confirmPassword
    && !Blank(f.firstName) && !Blank(f.lastName)
  }

  /**
   * The errors the validator should record: a field has an entry exactly
   * when its rule fails, and a missing value is reported before a
   * malformed, short or mismatched one.
   */
  function Expected(form: SetupForm): (e: SetupErrors)
    ensures e.username.Some? <==> Blank(form.username)
    ensures e.username.Some? ==> e.username.value == UsernameRequired
    ensures e.email.Some? <==> !StrictEmail(form.email)
    ensures e.email.Some? ==> e.email.value == (if Blank(form.email) then EmailRequired else EmailInvalid)
    ensures e.password.Some? <==> |form.password| < 6
    ensures e.password.Some? ==> e.password.value == (if form.password == "" then PasswordRequired else PasswordTooShort)
    ensures e.confirmPassword.Some? <==> form.confirmPassword == "" || form.password != form.confirmPassword
    ensures e.confirmPassword.Some? ==>
      e.confirmPassword.value == (if form.confirmPassword == "" then ConfirmRequired else PasswordMismatch)
    ensures e.firstName.Some? <==> Blank(form.firstName)
    ensures e.firstName.Some? ==> e.firstName.value == FirstNameRequired
    ensures e.lastName.Some? <==> Blank(form.lastName)
    ensures e.lastName.Some? ==> e.lastName.value == LastNameRequired
    ensures e.bio.None?
  {
    if StrictEmail(form.email) then
      EmailIsNonBlank(form.email);
      SetupErrors(
        Rule(Blank(form.username), UsernameRequired, false, ""),
        None,
        Rule(form.password == "", PasswordRequired, |form.password| < 6, PasswordTooShort),
        Rule(form.confirmPassword == "", ConfirmRequired, form.password != form.confirmPassword, PasswordMismatch),
        Rule(Blank(form.firstName), FirstNameRequired, false, ""),
        Rule(Blank(form.lastName), LastNameRequired, false, ""),
        None)
    else
      SetupErrors(
        Rule(Blank(form.username), UsernameRequired, false, ""),
        Rule(Blank(form.email), EmailRequired, true, EmailInvalid),
        Rule(form.password == "", PasswordRequired, |form.password| < 6, PasswordTooShort),
        Rule(form.confirmPassword == "", ConfirmRequired, form.password != form.confirmPassword, PasswordMismatch),
        Rule(Blank(form.firstName), FirstNameRequired, false, ""),
        Rule(Blank(form.lastName), LastNameRequired, false, ""),
        None)
  }

  /** The form is valid exactly when no rule fails. */
  lemma ExpectedEmptyIff(form: SetupForm)
    ensures Expected(form) == NoErrors <==> Valid(form)
  {
  }

  /** `validateForm`: fills the errors block by block; the form is valid iff none was recorded. */
  method ValidateForm(form: SetupForm) returns (errors: SetupErrors, ok: bool)
    ensures errors == Expected(form)
    ensures ok <==> errors == NoErrors
    ensures ok <==> Valid(form)
  {
    errors := NoErrors;
    if Blank(form.username) {
      errors := errors.(username := Some(UsernameRequired));
    }
    if Blank(form.email) {
      errors := errors.(email := Some(EmailRequired));
    } else if !StrictEmail(form.email) {
      errors := errors.(email := Some(EmailInvalid));
    }
    if form.password == "" {
      errors := errors.(password := Some(PasswordRequired));
    } else if |form.password| < 6 {
      errors := errors.(password := Some(PasswordTooShort));
    }
    if form.confirmPassword == "" {
      errors := errors.(confirmPassword := Some(ConfirmRequired));
    } else if form.password != form.confirmPassword {
      errors := errors.(confirmPassword := Some(PasswordMismatch));
    }
    if Blank(form.firstName) {
      errors := errors.(firstName := Some(FirstNameRequired));
    }
    if Blank(form.lastName) {
      errors := errors.(lastName := Some(LastNameRequired));
    }
    ok := errors == NoErrors;
    ExpectedEmptyIff(form);
  }

  /** A valid form's email carries no surrounding whitespace, although only its blankness was checked on the trimmed value. */
  lemma ValidEmailIsTrimmed(f: SetupForm)
    requires Valid(f)
    ensures Trim(f.email) == f.email
  {
    StrictIsTrimmed(f.email);
  }

  /** `handleInputChange`: the field takes the typed value and loses its error; nothing else changes. */
  function HandleInputChange(form: SetupForm, errors: SetupErrors, f: Field, value: string): (r: (SetupForm, SetupErrors))
    ensures Get(r.0, f) == value
    ensures forall g :: g != f ==> Get(r.0, g) == Get(form, g)
    ensures ErrorOf(r.1, f) == Cleared(ErrorOf(errors, f))
    ensures forall g :: g != f ==> ErrorOf(r.1, g) == ErrorOf(errors, g)
  {
    match f
    case Username => (form.(username := value), errors.(username := Cleared(errors.username)))
    case Email => (form.(email := value), errors.(email := Cleared(errors.email)))
    case Password => (form.(password := value), errors.(password := Cleared(errors.password)))
    case ConfirmPassword => (form.(confirmPassword := value), errors.(confirmPassword := Cleared(errors.confirmPassword)))
    case FirstName => (form.(firstName := value), errors.(firstName := Cleared(errors.firstName)))
    case LastName => (form.(lastName := value), errors.(lastName := Cleared(errors.lastName)))
    case Bio => (form.(bio := value), errors.(bio := Cleared(errors.bio)))
  }

  /** What `setupAdmin` receives: the form without the confirmation. */
  datatype AdminData = AdminData(username: string, email: string, password: string, firstName: string, lastName: string, bio: string)

  /** `const { confirmPassword, ...adminData } = formData`. */
  function Payload(f: SetupForm): (d: AdminData)
    ensures d.username == f.username && d.email == f.email && d.password == f.password
    ensures d.firstName == f.firstName && d.lastName == f.lastName && d.bio == f.bio
  {
    AdminData(f.username, f.email, f.password, f.firstName, f.lastName, f.bio)
  }

  /** The payload does not depend on the confirmation, and two forms that differ elsewhere post different payloads. */
  lemma PayloadDropsOnlyConfirmation(f: SetupForm, g: SetupForm)
    ensures (Payload(f) == Payload(g)) <==> f.(confirmPassword := g.confirmPassword) == g
  {
  }

  /** `error.response?.data?.error || 'Failed to create admin account'`. */
  function FailureMessage(reply: Option<string>): (m: string)
    ensures m != ""
    ensures reply.Some? && reply.value != "" ==> m == reply.value
  {
    ServerMessage(reply, "Failed to create admin account")
  }
}
