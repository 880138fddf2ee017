/** The admin gate placed in front of a route handler. */
module AdminMiddleware {
  import opened Wrappers
  import opened Models

  /** What the gate does with a request: hand it on, or answer it itself. */
  datatype Decision =
    | CallNext       // `next()` is called, no response is sent
    | Unauthorized   // 401, `next` is not called
    | Forbidden      // 403, `next` is not called

  /**
   * The gate on the request's user (`None` when no user is attached):
   * exactly one of the three decisions, passing only administrators.
   */
  function IsAdmin(user: Option<User>): (d: Decision)
    ensures d == CallNext <==> user.Some? && user.value.role == AdminRole
    ensures d == Unauthorized <==> user.None?
    ensures d == Forbidden <==> user.Some? && user.value.role != AdminRole
  {
    if user.None? then Unauthorized
    else if user.value.role == AdminRole then CallNext
    else Forbidden
  }
}
