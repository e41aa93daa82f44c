/** The login form's submit decision: a guest enters without asking the
    server; anyone else is let in only when the server accepts the
    credentials and the account has the role chosen on the form. */
module Login {
  import opened Common

  /** A signed-in user as the server describes it (only the fields the
      pages read). */
  datatype User = User(username: string, role: string, name: string)

  /** The user a guest enters as. */
  const GuestUser := User("Guest", "guest", "Guest User")

  /** The answer to the login request: its HTTP status was a success or
      not, the body's `success` flag and `user` object; or a failure to
      obtain a readable answer at all. */
  datatype Reply = Answer(ok: bool, success: bool, user: Option<User>) | NetworkFailure

  const InvalidCredentials := "Invalid username or password"
  const NetworkMessage := "Network error. Please try again."

  function RoleMismatch(role: string): string
  {
    "This account is not an " + role + " account"
  }

  /** What one submit does: the error shown afterwards (cleared first, so
      empty when nothing went wrong), the user handed to the app, and
      whether a request was sent. */
  datatype LoginOutcome = LoginOutcome(error: string, loggedIn: Option<User>, requested: bool)

  /** `handleSubmit` of the login form, given the role chosen and the
      server's reply (not consulted for a guest). An accepted answer
      without a user object makes reading its role throw, which the
      `catch` reports as a network error. */
  function HandleSubmit(role: string, reply: Reply): (r: LoginOutcome)
    ensures r.requested <==> role != "guest"
    ensures role == "guest" ==> r == LoginOutcome("", Some(GuestUser), false)
    ensures r.loggedIn.Some? <==> r.error == ""
    ensures role != "guest" ==>
              (r.loggedIn.Some? <==> reply.Answer? && reply.ok && reply.success
                                     && reply.user.Some? && reply.user.value.role == role)
    ensures role != "guest" && r.loggedIn.Some? ==> r.loggedIn == reply.user
    ensures role != "guest" && reply.Answer? && !(reply.ok && reply.success) ==> r.error == InvalidCredentials
    ensures (role != "guest" && reply.Answer? && reply.ok && reply.success && reply.user.Some?
             && reply.user.value.role != role) ==> r.error == RoleMismatch(role)
    ensures reply.NetworkFailure? && role != "guest" ==> r.error == NetworkMessage
  {
    if role == "guest" then LoginOutcome("", Some(GuestUser), false)
    else match reply
      case NetworkFailure => LoginOutcome(NetworkMessage, None, true)
      case Answer(ok, success, user) =>
        if ok && success then
          if user.None? then LoginOutcome(NetworkMessage, None, true)
          else if user.value.role == role then LoginOutcome("", user, true)
          else LoginOutcome(RoleMismatch(role), None, true)
        else LoginOutcome(InvalidCredentials, None, true)
  }

  /** Whoever logs in through the form has the role that was chosen on
      it. */
  lemma LoggedInHasChosenRole(role: string, reply: Reply)
    requires HandleSubmit(role, reply).loggedIn.Some?
    ensures HandleSubmit(role, reply).loggedIn.value.role == role
  {
  }

  /** An account whose role differs from the chosen one is never let in,
      whatever else the server says. */
  lemma WrongRoleRejected(role: string, user: User)
    requires role != "guest" && user.role != role
    ensures HandleSubmit(role, Answer(true, true, Some(user))) == LoginOutcome(RoleMismatch(role), None, true)
  {
  }
}
