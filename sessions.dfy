/**
 * SessionUtils: the current user kept as the "currentUser" attribute of the request's HTTP
 * session. A request either has no session or has one; only that attribute is modelled.
 */
module Sessions {
  import opened Wrappers
  import opened Entities

  /** An HTTP session, reduced to its "currentUser" attribute (None: attribute absent or null). */
  datatype HttpSession = HttpSession(currentUser: Option<User>)

  /** The servlet request, as far as its session goes. */
  class Request {
    var session: Option<HttpSession>

    constructor (session: Option<HttpSession>)
      ensures this.session == session
    {
      this.session := session;
    }

    /** getCurrentUser: the attribute of the existing session (no session is created), else null. */
    function GetCurrentUser(): (u: Option<User>)
      reads this
      ensures session.None? ==> u.None?
      ensures session.Some? ==> u == session.value.currentUser
    {
      if session.Some? then session.value.currentUser else None
    }

    /** isLoggedIn: there is a session and it holds a user. */
    function IsLoggedIn(): (b: bool)
      reads this
      ensures b <==> session.Some? && session.value.currentUser.Some?
    {
      GetCurrentUser().Some?
    }

    /** isAdmin: a current user whose role is present and named exactly "ADMIN"; an administrator
        is always logged in. */
    function IsAdmin(): (b: bool)
      reads this
      ensures b ==> IsLoggedIn()
      ensures b <==> && session.Some? && session.value.currentUser.Some?
                     && session.value.currentUser.value.role.Some?
                     && session.value.currentUser.value.role.value.name == Some("ADMIN")
    {
      var u := GetCurrentUser();
      u.Some? && u.value.role.Some? && u.value.role.value.name == Some("ADMIN")
    }

    /** setCurrentUser: getSession() creates the session when there is none, then the attribute is
        set; afterwards the current user is the one given. */
    method SetCurrentUser(user: Option<User>)
      modifies this
      ensures session.Some? && session.value.currentUser == user
      ensures GetCurrentUser() == user
      ensures user.Some? ==> IsLoggedIn()
    {
      if session.None? {
        session := Some(HttpSession(None));
      }
      session := Some(session.value.(currentUser := user));
    }

    /** logout: invalidates the session when there is one; with none it does nothing. */
    method Logout()
      modifies this
      ensures session.None?
      ensures GetCurrentUser().None? && !IsLoggedIn() && !IsAdmin()
      ensures old(session).None? ==> session == old(session)
    {
      if session.Some? {
        session := None;
      }
    }
  }
}
