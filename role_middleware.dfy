/**
 * `authorizeRole(...allowedRoles)` (middleware/roleMiddleware.js): a
 * middleware that lets a request through only when the caller's role is
 * one of the allowed ones.
 */
module RoleMiddleware {
  import opened Wrappers
  import opened Http

  /** The middleware `authorizeRole(...allowed)` builds, applied to `req.user`. */
  function AuthorizeRole(allowed: seq<Role>, user: Option<Caller>): (r: Verdict)
    ensures r == Halt(401) <==> user.None?
    ensures r == Halt(403) <==> user.Some? && user.value.role !in allowed
    ensures r == Next <==> user.Some? && user.value.role in allowed
  {
    if user.None? then Halt(401)
    else if user.value.role !in allowed then Halt(403)
    else Next
  }

  /** Exactly one of 401, 403 and passing on happens, whatever the request. */
  lemma AuthorizeRoleOutcomes(allowed: seq<Role>, user: Option<Caller>)
    ensures AuthorizeRole(allowed, user) in {Next, Halt(401), Halt(403)}
  {
  }

  /** With no allowed roles, every authenticated caller is refused. */
  lemma NoRolesDeniesEveryone(user: Option<Caller>)
    requires user.Some?
    ensures AuthorizeRole([], user) == Halt(403)
  {
  }

  /**
   * `PUT /bookings/:id` runs `authorizeRole('admin')` before `updateBooking`:
   * the update is reached exactly by admins.
   */
  lemma UpdateBookingAdminOnly(user: Option<Caller>)
    ensures AuthorizeRole([Admin], user) == Next <==> user.Some? && user.value.role == Admin
  {
  }
}
