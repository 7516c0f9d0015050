/**
 * The administrator's dialog for adding a user: its validator, its change
 * handler (text inputs and the admin checkbox), the payload it posts and
 * the reset after success.
 */
module CreateUserModal {
  import opened Wrappers
  import opened Strings
  import opened FormValidation

  datatype UserForm = UserForm(
    username: string,
    email: string,
    password: string,
    confirmPassword: string,
    firstName: string,
    lastName: string,
    bio: string,
    isAdmin: bool)

  /**
   * The text inputs, by their `name` attributes (`username`, `email`,
   * `password`, `confirmPassword`, `first_name`, `last_name`, `bio`).
   */
  datatype TextField = Username | Email | Password | ConfirmPassword | FirstName | LastName | Bio

  /** An error key: a text input, or the `is_admin` checkbox. */
  datatype Input = TextInput(field: TextField) | IsAdminBox

  function Get(form: UserForm, f: TextField): string
  {
    match f
    case Username => form.username
    case Email => form.email
    case Password => form.password
    case ConfirmPassword => form.confirmPassword
    case FirstName => form.firstName
    case LastName => form.lastName
    case Bio => form.bio
  }

  /** The form as the dialog opens and as it is reset after a success. */
  const Initial: UserForm := UserForm("", "", "", "", "", "", "", false)

  // The messages the validator shows.
  const UsernameRequired: string := "Username is required"
  const UsernameTooShort: string := "Username must be at least 3 characters"
  const EmailRequired: string := "Email is required"
  const EmailInvalid: string := "Please enter a valid email"
  const PasswordRequired: string := "Password is required"
  const PasswordTooShort: string := "Password must be at least 6 characters"
  const ConfirmRequired: string := "Please confirm password"
  const PasswordMismatch: string := "Passwords do not match"

  /**
   * The rule the validator implements: a username that is not blank and
   * whose untrimmed length is at least 3, an email matching the loose
   * pattern, a password of at least 6 characters and a confirmation that
   * repeats it. Names and bio are optional.
   */
  predicate Valid(f: UserForm)
  {
    !Blank(f.username) && |f.username| >= 3
    && LooseEmail(f.email)
    && |f.password| >= 6
    && f.confirmPassword != "" && f.password == f.confirmPassword
  }

  /**
   * The `errors` object. Only the validator puts entries into it, and only
   * under these four keys; every other input's entry stays absent.
   */
  datatype UserErrors = UserErrors(username: Slot, email: Slot, password: Slot, confirmPassword: Slot)

  /** `{}`. */
  const NoErrors: UserErrors := UserErrors(None, None, None, None)

  /** `errors[name]` for an input. */
  function ErrorOf(e: UserErrors, k: Input): Slot
  {
    match k
    case TextInput(Username) => e.username
    case TextInput(Email) => e.email
    case TextInput(Password) => e.password
    case TextInput(ConfirmPassword) => e.confirmPassword
    case _ => None
  }

  /**
   * The errors the validator should record: a field has an entry exactly
   * when its rule fails, and a missing value is reported before a
   * malformed, short or mismatched one.
   */
  function Expected(form: UserForm): (e: UserErrors)
    ensures e.username.Some? <==> Blank(form.username) || |form.username| < 3
    ensures e.username.Some? ==> e.username.value == (if Blank(form.username) then UsernameRequired else UsernameTooShort)
    ensures e.email.Some? <==> !LooseEmail(form.email)
    ensures e.email.Some? ==> e.email.value == (if Blank(form.email) then EmailRequired else EmailInvalid)
    ensures e.password.Some? <==> |form.password| < 6
    ensures e.password.Some? ==> e.password.value == (if form.password == "" then PasswordRequired else PasswordTooShort)
    ensures e.confirmPassword.Some? <==> form.confirmPassword == "" || form.password != form.confirmPassword
    ensures e.confirmPassword.Some? ==>
      e.confirmPassword.value == (if form.confirmPassword == "" then ConfirmRequired else PasswordMismatch)
  {
    var email := if LooseEmail(form.email) then (EmailIsNonBlank(form.email); None) else Rule(Blank(form.email), EmailRequired, true, EmailInvalid);
    UserErrors(
      Rule(Blank(form.username), UsernameRequired, |form.username| < 3, UsernameTooShort),
      email,
      Rule(form.password == "", PasswordRequired, |form.password| < 6, PasswordTooShort),
      Rule(form.confirmPassword == "", ConfirmRequired, form.password != form.confirmPassword, PasswordMismatch))
  }

  /** The form is valid exactly when no rule fails. */
  lemma ExpectedEmptyIff(form: UserForm)
    ensures Expected(form) == NoErrors <==> Valid(form)
  {
  }

  /** `validateForm`: fills the errors block by block; the form is valid iff none was recorded. */
  method ValidateForm(form: UserForm) returns (errors: UserErrors, ok: bool)
    ensures errors == Expected(form)
    ensures ok <==> errors == NoErrors
    ensures ok <==> Valid(form)
  {
    errors := NoErrors;
    if Blank(form.username) {
      errors := errors.(username := Some(UsernameRequired));
    } else if |form.username| < 3 {
      errors := errors.(username := Some(UsernameTooShort));
    }
    if Blank(form.email) {
      errors := errors.(email := Some(EmailRequired));
    } else if !LooseEmail(form.email) {
      errors := errors.(email := Some(EmailInvalid));
    }
    if form.password == "" {
      errors := errors.(password := Some(PasswordRequired));
    } else if |form.password| < 6 {
      errors := errors.(password := Some(PasswordTooShort));
    }
    if form.confirmPassword == "" {
      errors := errors.(confirmPassword := Some(ConfirmRequired));
    } else if form.password != form.confirmPassword {
      errors := errors.(confirmPassword := Some(PasswordMismatch));
    }
    ok := errors == NoErrors;
    ExpectedEmptyIff(form);
  }

  /** The length rule counts the padding: a single letter between two spaces passes it. */
  lemma PaddedUsernamePasses()
    ensures Trim(" a ") == "a"
    ensures !Blank(" a ") && |" a "| >= 3
  {
    assert " a "[1..] == "a ";
    assert TrimLeft(" a ") == "a ";
    assert "a "[..1] == "a";
    assert TrimRight("a ") == "a";
  }

  /** One change event: a text input's value, or the admin checkbox's `checked`. */
  datatype Change = Text(field: TextField, value: string) | AdminBox(checked: bool)

  /** The error key a change clears. */
  function ChangedKey(c: Change): Input
  {
    if c.Text? then TextInput(c.field) else IsAdminBox
  }

  /** `handleChange`: the changed input takes its new value and loses its error; nothing else changes. */
  function HandleChange(form: UserForm, errors: UserErrors, c: Change): (r: (UserForm, UserErrors))
    ensures c.Text? ==> Get(r.0, c.field) == c.value && r.0.isAdmin == form.isAdmin
    ensures c.Text? ==> forall g :: g != c.field ==> Get(r.0, g) == Get(form, g)
    ensures c.AdminBox? ==> r.0 == form.(isAdmin := c.checked)
    ensures ErrorOf(r.1, ChangedKey(c)) == Cleared(ErrorOf(errors, ChangedKey(c)))
    ensures forall other :: other != ChangedKey(c) ==> ErrorOf(r.1, other) == ErrorOf(errors, other)
  {
    var next := match c
      case AdminBox(b) => form.(isAdmin := b)
      case Text(f, v) =>
        match f
        case Username => form.(username := v)
        case Email => form.(email := v)
        case Password => form.(password := v)
        case ConfirmPassword => form.(confirmPassword := v)
        case FirstName => form.(firstName := v)
        case LastName => form.(lastName := v)
        case Bio => form.(bio := v);
    var cleared := match c
      case Text(Username, _) => errors.(username := Cleared(errors.username))
      case Text(Email, _) => errors.(email := Cleared(errors.email))
      case Text(Password, _) => errors.(password := Cleared(errors.password))
      case Text(ConfirmPassword, _) => errors.(confirmPassword := Cleared(errors.confirmPassword))
      case _ => errors;
    (next, cleared)
  }

  /** What `createUser` receives: the form without the confirmation. */
  datatype UserData = UserData(
    username: string, email: string, password: string,
    firstName: string, lastName: string, bio: string, isAdmin: bool)

  /** `const { confirmPassword, ...userData } = formData`. */
  function Payload(f: UserForm): (d: UserData)
    ensures d.username == f.username && d.email == f.email && d.password == f.password
    ensures d.firstName == f.firstName && d.lastName == f.lastName && d.bio == f.bio && d.isAdmin == f.isAdmin
  {
    UserData(f.username, f.email, f.password, f.firstName, f.lastName, f.bio, f.isAdmin)
  }

  /** The payload does not depend on the confirmation, and two forms that differ elsewhere post different payloads. */
  lemma PayloadDropsOnlyConfirmation(f: UserForm, g: UserForm)
    ensures (Payload(f) == Payload(g)) <==> f.(confirmPassword := g.confirmPassword) == g
  {
  }

  /** The checkbox decides the role the payload asks for. */
  lemma CheckboxDecidesRole(form: UserForm, errors: UserErrors, checked: bool)
    ensures Payload(HandleChange(form, errors, AdminBox(checked)).0).isAdmin == checked
  {
  }

  /** After a success the form is back to its initial values, whatever it held. */
  function AfterSuccess(form: UserForm): (r: UserForm)
    ensures forall g :: Get(r, g) == ""
    ensures !r.isAdmin
  {
    Initial
  }
}
