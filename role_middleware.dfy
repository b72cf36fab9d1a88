/** `checkRole(requiredRole)`: lets a request through only when the caller's
    profile holds exactly the required role. */
module RoleMiddleware {
  import opened Common
  import opened Records

  /** How the read of the caller's profile ended. */
  datatype Lookup = Found(profile: UserProfile) | NotFound | LookupFailed

  /** Either `next()` is called, or a reply is written and `next` is not. */
  datatype Decision = Next | Deny(status: nat, error: string)

  function LookupOf(profile: Option<UserProfile>): Lookup {
    match profile
    case Some(p) => Found(p)
    case None => NotFound
  }

  function CheckRole(requiredRole: string, lookup: Lookup): (d: Decision)
    ensures lookup.NotFound? ==> d == Deny(404, "User not found")
    ensures lookup.LookupFailed? ==> d == Deny(500, "Internal server error during role verification")
    ensures lookup.Found? ==> (d.Next? <==> lookup.profile.role == requiredRole)
    ensures lookup.Found? && d.Deny? ==> d == Deny(403, "Access denied. " + requiredRole + " role required.")
  {
    match lookup
    case NotFound => Deny(404, "User not found")
    case LookupFailed => Deny(500, "Internal server error during role verification")
    case Found(p) =>
      if p.role != requiredRole then Deny(403, "Access denied. " + requiredRole + " role required.")
      else Next
  }

  /** Roles form no hierarchy: an admin does not pass a check for "user". */
  lemma NoRoleHierarchy(p: UserProfile)
    requires p.role == AdminRole
    ensures CheckRole(UserRole, Found(p)) == Deny(403, "Access denied. user role required.")
  {
  }
}
