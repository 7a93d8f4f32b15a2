/**
 * The request middleware: paths under "/admin" need an admin session;
 * everything else passes. The route matcher that decides which requests
 * reach the middleware at all is not modelled: the decision is made on the
 * "/admin" prefix alone, as the function body does.
 */
module Middleware {
  import opened Wrappers
  import opened SafeAction

  datatype Decision = Next | Redirect(path: string)

  const ADMIN_PREFIX: string := "/admin"
  const LOGIN_PATH: string := "/login"
  const HOME_PATH: string := "/"

  /**
   * The routing decision for `pathname`. `session` is what the session
   * lookup would return; it is consulted only for admin paths.
   */
  function Route(pathname: string, session: Option<Session>): (d: Decision)
    ensures !(ADMIN_PREFIX <= pathname) ==> d == Next
    ensures ADMIN_PREFIX <= pathname && session.None? ==> d == Redirect(LOGIN_PATH)
    ensures ADMIN_PREFIX <= pathname && session.Some? && session.value.user.role != Some(ADMIN_ROLE) ==> d == Redirect(HOME_PATH)
    ensures ADMIN_PREFIX <= pathname && session.Some? && session.value.user.role == Some(ADMIN_ROLE) ==> d == Next
  {
    if !(ADMIN_PREFIX <= pathname) then Next
    else if session.None? then Redirect(LOGIN_PATH)
    else if session.value.user.role != Some(ADMIN_ROLE) then Redirect(HOME_PATH)
    else Next
  }

  /** Outside "/admin" the decision does not depend on the session at all. */
  lemma PublicPathsIgnoreSession(pathname: string, s1: Option<Session>, s2: Option<Session>)
    requires !(ADMIN_PREFIX <= pathname)
    ensures Route(pathname, s1) == Route(pathname, s2)
  {
  }

  /** An admin path is let through exactly when the admin procedure would admit the session. */
  lemma AdminPathsAgreeWithProcedure(pathname: string, session: Option<Session>)
    requires ADMIN_PREFIX <= pathname
    ensures Route(pathname, session) == Next <==> AdminProcedure(session).Ok?
  {
  }
}
