/** The password-reset page: the check of the reset link when the page
    opens, the screen that follows from it, and the two-step submit of a
    new password (validation and request, then the answer). */
module ResetPassword {
  import opened Common
  import Register

  /** The answer to the link check: its status, the body's `valid` flag,
      the account it names and the optional error text; or a failure to
      obtain a readable answer. */
  datatype VerifyReply = VerifyAnswer(ok: bool, valid: bool, username: string, email: string, error: Option<string>)
                       | VerifyFailure

  const InvalidLinkError := "Invalid or expired reset link"
  const VerifyFailureError := "Failed to verify reset link. Please try again."
  const InvalidLinkNotice := "This password reset link is invalid or has expired."
  const DefaultError := "Failed to reset password"
  const NetworkMessage := "Network error. Please try again."
  const SuccessMessage := "\U{2705} Password successfully reset! You can now login with your new password."

  /** What the page shows: a waiting notice while the link is checked,
      the invalid-link notice with its text, or the form. */
  datatype Screen = Verifying | InvalidLink(text: string) | Form

  /** The page's state cells. */
  class ResetPage {
    const token: string
    var password: string
    var confirmPassword: string
    var username: string
    var email: string
    var error: string
    var message: string
    var loading: bool
    var verifying: bool
    var validToken: bool
    var redirectScheduled: bool

    /** The page as it opens for a reset link, before the check. */
    constructor (token: string)
      ensures this.token == token
      ensures password == "" && confirmPassword == "" && username == "" && email == ""
      ensures error == "" && message == "" && !loading && verifying && !validToken && !redirectScheduled
    {
      this.token := token;
      password := "";
      confirmPassword := "";
      username := "";
      email := "";
      error := "";
      message := "";
      loading := false;
      verifying := true;
      validToken := false;
      redirectScheduled := false;
    }

    /** The screen the state selects. */
    function CurrentScreen(): (s: Screen)
      reads this
      ensures s == Verifying <==> verifying
      ensures s == Form <==> !verifying && validToken
      ensures s.InvalidLink? ==> s.text != "" && (error != "" ==> s.text == error)
    {
      if verifying then Verifying
      else if !validToken then InvalidLink(if error != "" then error else InvalidLinkNotice)
      else Form
    }

    /** `verifyToken`: the link is valid exactly when the answer is a
        success that says so, which also fills in the account; any other
        answer or a failure records the error and marks it invalid; the
        check is over in every case. */
    method VerifyToken(reply: VerifyReply)
      modifies this
      ensures !verifying
      ensures validToken <==> reply.VerifyAnswer? && reply.ok && reply.valid
      ensures validToken ==> username == reply.username && email == reply.email && error == old(error)
      ensures !validToken ==> username == old(username) && email == old(email)
      ensures reply.VerifyAnswer? && !validToken ==> error == TextOr(reply.error, InvalidLinkError)
      ensures reply.VerifyFailure? ==> error == VerifyFailureError
      ensures password == old(password) && confirmPassword == old(confirmPassword)
      ensures message == old(message) && loading == old(loading) && redirectScheduled == old(redirectScheduled)
    {
      match reply {
        case VerifyFailure =>
          error := VerifyFailureError;
          validToken := false;
        case VerifyAnswer(ok, valid, name, mail, err) =>
          if ok && valid {
            validToken := true;
            username := name;
            email := mail;
          } else {
            error := TextOr(err, InvalidLinkError);
            validToken := false;
          }
      }
      verifying := false;
    }

    /** Typing in the two password fields. */
    method EditPasswords(p: string, c: string)
      modifies this`password, this`confirmPassword
      ensures password == p && confirmPassword == c
    {
      password := p;
      confirmPassword := c;
    }

    /** The first half of `handleSubmit`: error and message are cleared,
        the checks shared with registration run (mismatch first), and only
        when both pass is the request sent, with `loading` set. */
    method BeginSubmit() returns (sent: bool)
      modifies this`error, this`message, this`loading
      ensures sent <==> Register.PasswordError(password, confirmPassword).None?
      ensures !sent ==> error == Register.PasswordError(password, confirmPassword).value && loading == old(loading)
      ensures sent ==> error == "" && loading
      ensures message == ""
    {
      error := "";
      message := "";
      var check := Register.PasswordError(password, confirmPassword);
      if check.Some? {
        error := check.value;
        return false;
      }
      loading := true;
      sent := true;
    }

    /** The second half: a success shows the message, empties both
        password fields and schedules the return to the login form; a
        refusal or a failure shows an error; `loading` ends in every case. */
    method FinishSubmit(reply: Register.Reply)
      modifies this`error, this`message, this`loading, this`password, this`confirmPassword, this`redirectScheduled
      ensures !loading
      ensures reply.Answer? && reply.ok ==>
                message == SuccessMessage && password == "" && confirmPassword == "" && redirectScheduled
                && error == old(error)
      ensures !(reply.Answer? && reply.ok) ==>
                message == old(message) && password == old(password) && confirmPassword == old(confirmPassword)
                && redirectScheduled == old(redirectScheduled)
      ensures reply.Answer? && !reply.ok ==> error == TextOr(reply.error, DefaultError)
      ensures reply.NetworkFailure? ==> error == NetworkMessage
    {
      match reply {
        case NetworkFailure =>
          error := NetworkMessage;
        case Answer(ok, err) =>
          if ok {
            message := SuccessMessage;
            password := "";
            confirmPassword := "";
            redirectScheduled := true;
          } else {
            error := TextOr(err, DefaultError);
          }
      }
      loading := false;
    }
  }

  /** A whole submit of matching, long-enough passwords that the server
      accepts: nothing is left loading, the message shows and the fields
      are empty, while the link stays valid. */
  method SubmitAccepted(page: ResetPage, p: string)
    requires |p| >= Register.MinPasswordLength && page.validToken && !page.verifying
    modifies page
    ensures !page.loading && page.error == "" && page.message == SuccessMessage
    ensures page.password == "" && page.confirmPassword == ""
    ensures page.CurrentScreen() == Form
  {
    page.EditPasswords(p, p);
    var sent := page.BeginSubmit();
    assert sent;
    page.FinishSubmit(Register.Answer(true, None));
  }
}
