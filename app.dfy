/** The application shell: which of the login form, the registration form
    and the home page is shown, decided by the signed-in user and the
    "show registration" flag, and the four handlers that change them. */
module App {
  import opened Common
  import Login

  /** The top-level page. */
  datatype View = LoginView | RegisterView | HomeView(user: Login.User)

  /** The page for a state: the home page whenever someone is signed in,
      otherwise registration when it was asked for and login when not. */
  function ViewOf(currentUser: Option<Login.User>, showRegister: bool): (v: View)
    ensures v.HomeView? <==> currentUser.Some?
    ensures v.HomeView? ==> v.user == currentUser.value
    ensures v == RegisterView <==> currentUser.None? && showRegister
    ensures v == LoginView <==> currentUser.None? && !showRegister
  {
    if currentUser.None? then
      if showRegister then RegisterView else LoginView
    else HomeView(currentUser.value)
  }

  /** The shell's two state cells. */
  class AppShell {
    var currentUser: Option<Login.User>
    var showRegister: bool

    /** Nobody signed in, the login form showing. */
    constructor ()
      ensures currentUser.None? && !showRegister
      ensures View() == LoginView
    {
      currentUser := None;
      showRegister := false;
    }

    function View(): (v: View)
      reads this
      ensures v == ViewOf(currentUser, showRegister)
    {
      ViewOf(currentUser, showRegister)
    }

    /** `handleLogin`: the user is signed in and the flag cleared. */
    method HandleLogin(user: Login.User)
      modifies this
      ensures currentUser == Some(user) && !showRegister
      ensures View() == HomeView(user)
    {
      currentUser := Some(user);
      showRegister := false;
    }

    /** `handleLogout`: nobody is signed in and the flag is cleared, so the
        login form shows. */
    method HandleLogout()
      modifies this
      ensures currentUser.None? && !showRegister
      ensures View() == LoginView
    {
      currentUser := None;
      showRegister := false;
    }

    /** `handleShowRegister`: the flag is set; the user is untouched. */
    method HandleShowRegister()
      modifies this`showRegister
      ensures showRegister
      ensures currentUser.None? ==> View() == RegisterView
    {
      showRegister := true;
    }

    /** `handleBackToLogin`: the flag is cleared; the user is untouched. */
    method HandleBackToLogin()
      modifies this`showRegister
      ensures !showRegister
      ensures currentUser.None? ==> View() == LoginView
    {
      showRegister := false;
    }

    /** A submit of the login form, which shows only while nobody is
        signed in and the flag is clear: the shell's `handleLogin` runs
        exactly when the form lets someone in. */
    method SubmitLogin(role: string, reply: Login.Reply) returns (outcome: Login.LoginOutcome)
      requires View() == LoginView
      modifies this
      ensures outcome == Login.HandleSubmit(role, reply)
      ensures outcome.loggedIn.Some? ==> currentUser == outcome.loggedIn && !showRegister
      ensures outcome.loggedIn.None? ==> currentUser == old(currentUser) && showRegister == old(showRegister)
    {
      outcome := Login.HandleSubmit(role, reply);
      if outcome.loggedIn.Some? {
        HandleLogin(outcome.loggedIn.value);
      }
    }
  }

  /** A signed-in user sees the home page whatever the flag says. */
  lemma SignedInIgnoresFlag(user: Login.User, flag: bool)
    ensures ViewOf(Some(user), flag) == ViewOf(Some(user), !flag) == HomeView(user)
  {
  }

  /** From any session, logging out shows the login form; a visit to the
      register page and back returns to it; a guest's login there reaches
      the home page as the guest user; logging out again returns to the
      login form. */
  method GuestSession(shell: AppShell, reply: Login.Reply) returns (seen: View)
    modifies shell
    ensures seen == HomeView(Login.GuestUser)
    ensures shell.View() == LoginView
  {
    shell.HandleLogout();
    shell.HandleShowRegister();
    shell.HandleBackToLogin();
    var outcome := shell.SubmitLogin("guest", reply);
    seen := shell.View();
    shell.HandleLogout();
  }
}
