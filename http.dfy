/**
 * The request-side facts every controller and middleware reads: who the caller
 * is (`req.user`, set by the authentication layer) and the outcome of a
 * middleware step (call `next()` or answer with an HTTP status).
 */
module Http {

  /** The two roles of the `users.role` column. */
  datatype Role = Member | Admin

  /** The authenticated caller, `req.user`. */
  datatype Caller = Caller(id: int, role: Role)

  /** What one middleware step does: pass control on, or answer and stop. */
  datatype Verdict = Next | Halt(status: int)
}
