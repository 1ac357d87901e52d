/**
 * The HTTP authentication middleware: a decision on the `token` cookie,
 * with signature checking and the user lookup as abstract outcomes.
 */
module IsAuth {
  import opened Wrappers

  /** What `jwt.verify` did: a payload naming a user id, a falsy payload, or a throw of the named error. */
  datatype Verification = Verified(subject: string) | VerifiedFalsy | VerifyThrew(errorName: string)

  /** What `User.findById(subject)` did: the user's id, no user, or a throw of the named error. */
  datatype Lookup = Found(id: string) | Missing | LookupThrew(errorName: string)

  /**
   * The middleware's effect: either `req.user = {_id}` followed by a single
   * call to `next()`, or a JSON failure response, possibly after clearing the
   * `token` cookie.
   */
  datatype Verdict =
    | Next(userId: string)
    | Respond(status: int, message: string, clearCookie: bool)

  /** The `catch` block: the error's name picks the response. */
  function ErrorResponse(errorName: string): (r: Verdict)
    ensures r.Respond? && !r.clearCookie
    ensures r.status == 401 <==> errorName == "TokenExpiredError" || errorName == "JsonWebTokenError"
    ensures r.status != 401 ==> r == Respond(500, "Internal server error in authentication", false)
  {
    if errorName == "TokenExpiredError" then Respond(401, "Token expired. Please login again", false)
    else if errorName == "JsonWebTokenError" then Respond(401, "Invalid token", false)
    else Respond(500, "Internal server error in authentication", false)
  }

  /**
   * The whole middleware: no token, a falsy payload, a missing user, a thrown
   * verification or lookup (answered by `ErrorResponse`), or `next()`.
   */
  function Authenticate(token: Option<string>, verification: Verification, lookup: Lookup): (r: Verdict)
    ensures !Truthy(token) ==> r == Respond(401, "Authentication token required", false)
    ensures r.Next? <==> Truthy(token) && verification.Verified? && lookup.Found?
    ensures r.Next? ==> r.userId == lookup.id
    ensures r.Respond? ==> r.status == 401 || r.status == 500
    ensures r.Respond? && r.clearCookie <==> Truthy(token) && verification.Verified? && lookup.Missing?
    ensures r.Respond? && r.clearCookie ==> r == Respond(401, "User not found", true)
    ensures Truthy(token) && verification.VerifiedFalsy? ==> r == Respond(401, "Invalid token", false)
    ensures Truthy(token) && verification.VerifyThrew? ==> r == ErrorResponse(verification.errorName)
    ensures Truthy(token) && verification.Verified? && lookup.LookupThrew? ==> r == ErrorResponse(lookup.errorName)
  {
    if !Truthy(token) then Respond(401, "Authentication token required", false)
    else match verification
      case VerifyThrew(name) => ErrorResponse(name)
      case VerifiedFalsy => Respond(401, "Invalid token", false)
      case Verified(_) =>
        match lookup
        case LookupThrew(name) => ErrorResponse(name)
        case Missing => Respond(401, "User not found", true)
        case Found(id) => Next(id)
  }

  /** Without a token the verdict is the same whatever verification or lookup would have done: neither is attempted. */
  lemma NoTokenNoVerification(token: Option<string>, v1: Verification, v2: Verification, l1: Lookup, l2: Lookup)
    requires !Truthy(token)
    ensures Authenticate(token, v1, l1) == Authenticate(token, v2, l2)
  {
  }

  /** A failing signature check never reaches the user lookup. */
  lemma BadSignatureSkipsLookup(token: Option<string>, v: Verification, l1: Lookup, l2: Lookup)
    requires !v.Verified?
    ensures Authenticate(token, v, l1) == Authenticate(token, v, l2)
  {
  }
}
