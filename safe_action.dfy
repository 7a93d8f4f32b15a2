/**
 * The two action procedures every server action runs first: the public one
 * yields the signed-in user, if any; the admin one admits only a session
 * whose user has the role "admin".
 */
module SafeAction {
  import opened Wrappers

  datatype User = User(id: string, role: Option<string>)

  /** A signed-in session as the auth library returns it. */
  datatype Session = Session(user: User)

  /**
   * What a server action hands back to its caller: the handler's value, a
   * refusal of the input by the action's schema, or the message of an error
   * thrown by the procedure or the handler.
   */
  datatype ActionOutcome<+T> = Returned(value: T) | InvalidInput | Thrown(message: string)

  const ADMIN_ROLE: string := "admin"
  const NOT_AUTHENTICATED: string := "Not authenticated"
  const NOT_AUTHORIZED: string := "Not authorized - admin role required"

  /** The session's user when there is a session (`session?.user || null`); it never fails. */
  function PublicProcedure(session: Option<Session>): (u: Option<User>)
    ensures u.Some? <==> session.Some?
    ensures u.Some? ==> u.value == session.value.user
  {
    match session
    case None => None
    case Some(s) => Some(s.user)
  }

  /** The admin procedure: no session, or a user whose role is not "admin", is an error. */
  function AdminProcedure(session: Option<Session>): (r: Result<User, string>)
    ensures r.Ok? <==> session.Some? && session.value.user.role == Some(ADMIN_ROLE)
    ensures r.Ok? ==> r.value == session.value.user
    ensures session.None? ==> r == Err(NOT_AUTHENTICATED)
    ensures session.Some? && session.value.user.role != Some(ADMIN_ROLE) ==> r == Err(NOT_AUTHORIZED)
  {
    if session.None? then Err(NOT_AUTHENTICATED)
    else if session.value.user.role != Some(ADMIN_ROLE) then Err(NOT_AUTHORIZED)
    else Ok(session.value.user)
  }
}
