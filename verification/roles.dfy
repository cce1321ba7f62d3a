/** The user roles the application assigns, shared by the route guard and the role hook. */
module Roles {

  /** Roles served by the unified portal routes (no `/portal/` prefix). */
  const PortalRoles: seq<string> := ["volunteer", "caregiver", "participant"]

  /** Roles that own a protected route group of their own. */
  const GroupRoles: seq<string> := ["admin", "staff"]

  predicate IsPortalRole(role: string)
  {
    role in PortalRoles
  }

  /** The roles onboarding can assign. */
  predicate IsKnownRole(role: string)
  {
    role in GroupRoles || role in PortalRoles
  }
}
