/** The registration form: the two password checks, made in a fixed order
    before anything is sent, the body of the registration request, and the
    outcome of the server's answer. */
module Register {
  import opened Common

  /** The form's fields. */
  datatype RegisterForm = RegisterForm(
    username: string, password: string, confirmPassword: string,
    name: string, email: string, college: string)

  /** The registration request's body: the form without the confirmation
      field. */
  datatype RegisterBody = RegisterBody(username: string, password: string, name: string, email: string, college: string)

  const MismatchError := "Passwords do not match"
  const LengthError := "Password must be at least 6 characters"
  const MinPasswordLength := 6

  /** The password checks shared by registration and password reset: a
      mismatch is reported first, then a password shorter than six
      characters; `None` when both pass. */
  function PasswordError(password: string, confirmPassword: string): (r: Option<string>)
    ensures r.None? <==> password == confirmPassword && |password| >= MinPasswordLength
    ensures password != confirmPassword ==> r == Some(MismatchError)
    ensures password == confirmPassword && |password| < MinPasswordLength ==> r == Some(LengthError)
  {
    if password != confirmPassword then Some(MismatchError)
    else if |password| < MinPasswordLength then Some(LengthError)
    else None
  }

  /** A short password that also differs from its confirmation is
      reported as a mismatch, not as too short. */
  lemma ShortMismatchReportsMismatch(password: string, confirmPassword: string)
    requires password != confirmPassword && |password| < MinPasswordLength
    ensures PasswordError(password, confirmPassword) == Some(MismatchError)
  {
  }

  function BodyOf(form: RegisterForm): RegisterBody
  {
    RegisterBody(form.username, form.password, form.name, form.email, form.college)
  }

  /** How the registration request ends: an answer with its status and
      the body's optional error text, or a network failure. */
  datatype Reply = Answer(ok: bool, error: Option<string>) | NetworkFailure

  const DefaultError := "Registration failed"
  const NetworkMessage := "Network error. Please try again."

  /** What one submit does: the error shown afterwards, the body sent (if
      any), and whether the page goes back to the login form (after the
      success alert). */
  datatype RegisterOutcome = RegisterOutcome(error: string, sent: Option<RegisterBody>, backToLogin: bool)

  /** `handleSubmit`: the error is cleared, a failed check stops before
      any request, and otherwise the body goes out and the answer decides
      between the login form and the error text. */
  function HandleSubmit(form: RegisterForm, reply: Reply): (r: RegisterOutcome)
    ensures r.sent.Some? <==> PasswordError(form.password, form.confirmPassword).None?
    ensures r.sent.Some? ==> r.sent.value == BodyOf(form)
    ensures r.sent.None? ==> r.error == PasswordError(form.password, form.confirmPassword).value && !r.backToLogin
    ensures r.backToLogin <==> r.sent.Some? && reply.Answer? && reply.ok
    ensures r.backToLogin ==> r.error == ""
    ensures r.sent.Some? && reply.Answer? && !reply.ok ==> r.error == TextOr(reply.error, DefaultError)
    ensures r.sent.Some? && reply.NetworkFailure? ==> r.error == NetworkMessage
  {
    var check := PasswordError(form.password, form.confirmPassword);
    if check.Some? then RegisterOutcome(check.value, None, false)
    else
      var body := BodyOf(form);
      match reply
      case NetworkFailure => RegisterOutcome(NetworkMessage, Some(body), false)
      case Answer(ok, error) =>
        if ok then RegisterOutcome("", Some(body), true)
        else RegisterOutcome(TextOr(error, DefaultError), Some(body), false)
  }

  /** The body carries every field the user typed except the
      confirmation: two forms that differ only there send the same body. */
  lemma BodyIgnoresConfirmation(form: RegisterForm, confirm: string)
    ensures BodyOf(form.(confirmPassword := confirm)) == BodyOf(form)
  {
  }

  /** A server refusal never leaves the error empty. */
  lemma RefusalShowsError(form: RegisterForm, error: Option<string>)
    requires PasswordError(form.password, form.confirmPassword).None?
    ensures HandleSubmit(form, Answer(false, error)).error != ""
  {
  }
}
