/**
 * The page that asks for a reset email: the two guards a submit passes
 * before any request, the state while the request is out and after its
 * answer, and the button that starts over.
 */
module ForgotPasswordPage {
  import opened Wrappers
  import opened Strings
  import opened FormValidation

  /** The page state: the typed address, the spinner, the confirmation screen and the message shown. */
  datatype State = State(email: string, loading: bool, emailSent: bool, error: string)

  /** The page as it opens. */
  const Initial: State := State("", false, false, "")

  const EmailRequired: string := "Email is required"
  const EmailInvalid: string := "Please enter a valid email address"
  const SendFailed: string := "Failed to send reset email"

  /**
   * The guard clauses of `handleSubmit`: the message that stops the submit,
   * or `None` when it goes on. Blankness is judged on the trimmed address,
   * the pattern on the address as typed.
   */
  function Guard(email: string): (r: Option<string>)
    ensures r == Some(EmailRequired) <==> Blank(email)
    ensures r.None? <==> StrictEmail(email)
    ensures r.Some? ==> r.value == (if Blank(email) then EmailRequired else EmailInvalid)
  {
    if Blank(email) then Some(EmailRequired)
    else if !StrictEmail(email) then Some(EmailInvalid)
    else None
  }

  /** The address `forgotPassword` is called with, or `None` when a guard stops the submit. */
  function Request(s: State): (r: Option<string>)
    ensures r.Some? <==> Guard(s.email).None?
    ensures r.Some? ==> r.value == Trim(s.email)
  {
    if Guard(s.email).None? then Some(Trim(s.email)) else None
  }

  /**
   * `handleSubmit` until the request is out: a guard's message is shown and
   * nothing else changes; otherwise the spinner starts and the message is
   * cleared.
   */
  function StartSubmit(s: State): (r: State)
    ensures Guard(s.email).Some? ==> r == s.(error := Guard(s.email).value)
    ensures Guard(s.email).None? ==> r == s.(loading := true, error := "")
    ensures r.email == s.email && r.emailSent == s.emailSent
  {
    match Guard(s.email)
    case Some(message) => s.(error := message)
    case None => s.(loading := true, error := "")
  }

  /** The answer of the reset endpoint: sent, or failed with the server's message if it gave one. */
  datatype Reply = Sent | Failed(message: Option<string>)

  /** The rest of `handleSubmit`: success shows the confirmation, failure the server's message or the default; the spinner stops. */
  function FinishSubmit(s: State, reply: Reply): (r: State)
    ensures !r.loading && r.email == s.email
    ensures reply.Sent? ==> r.emailSent && r.error == s.error
    ensures reply.Failed? ==> r.emailSent == s.emailSent && r.error == ServerMessage(reply.message, SendFailed)
    ensures reply.Failed? ==> r.error != ""
  {
    match reply
    case Sent => s.(loading := false, emailSent := true)
    case Failed(m) => s.(loading := false, error := ServerMessage(m, SendFailed))
  }

  /** A blank address is refused with `Email is required` and no request is sent. */
  lemma BlankSendsNothing(s: State)
    requires Blank(s.email)
    ensures StartSubmit(s).error == EmailRequired
    ensures Request(s).None? && StartSubmit(s).loading == s.loading
  {
  }

  /**
   * The pattern is tested on the address as typed, so surrounding
   * whitespace is refused even though it would be trimmed away before
   * sending.
   */
  lemma PaddedAddressRefused(pad: string, x: string)
    requires pad != [] && forall k :: 0 <= k < |pad| ==> IsSpace(pad[k])
    ensures Guard(pad + x + pad).Some?
    ensures Trim(pad + x + pad) == Trim(x)
  {
    var s := pad + x + pad;
    assert s[0] == pad[0];
    TrimPadded(pad, x);
  }

  /** An address that passes the guards is sent exactly as typed: trimming it changes nothing. */
  lemma SentAsTyped(s: State)
    requires Request(s).Some?
    ensures Request(s).value == s.email
  {
    StrictIsTrimmed(s.email);
  }

  /** A request that goes out starts with no message on screen, and a failed one always ends with one. */
  lemma FailureAlwaysExplained(s: State, m: Option<string>)
    requires Request(s).Some?
    ensures StartSubmit(s).error == "" && StartSubmit(s).loading
    ensures FinishSubmit(StartSubmit(s), Failed(m)).error != ""
    ensures FinishSubmit(StartSubmit(s), Failed(m)).emailSent == s.emailSent
  {
  }

  /** "Send Another Email": back to the form, with the address cleared. */
  function SendAnother(s: State): (r: State)
    ensures !r.emailSent && r.email == ""
    ensures r.loading == s.loading && r.error == s.error
  {
    s.(emailSent := false, email := "")
  }

  /** After a successful send, starting over leaves nothing to resubmit until an address is typed again. */
  lemma SendAnotherNeedsNewAddress(s: State)
    ensures Guard(SendAnother(FinishSubmit(s, Sent)).email) == Some(EmailRequired)
  {
  }
}
