/** Role-based access control (`access/rbac.js`): a static role to action map. */
module Rbac {
  import opened Entities

  const RolePermissions: map<string, seq<string>> := map[
    "owner" := [
      "projects:create", "projects:read", "projects:update", "projects:delete",
      "files:create", "files:read", "files:delete",
      "users:read", "users:update"],
    "manager" := [
      "projects:create", "projects:read", "projects:update",
      "files:create", "files:read", "files:delete"],
    "engineer" := ["projects:read", "files:create", "files:read"],
    "finance" := ["projects:read", "files:read", "finance:read"]
  ]

  /** `rolePermissions[role] || []`: an unrecognised role has no permissions. */
  function Permissions(role: string): seq<string> {
    if role in RolePermissions then RolePermissions[role] else []
  }

  predicate CheckRole(p: Principal, action: string) {
    action in Permissions(p.role)
  }

  lemma UnknownRoleDeniesAll(p: Principal, action: string)
    requires p.role !in RolePermissions
    ensures !CheckRole(p, action)
  {
  }

  lemma CheckRoleIsMembership(p: Principal, action: string)
    ensures CheckRole(p, action) <==> p.role in RolePermissions && action in RolePermissions[p.role]
  {
  }

  /** The owner-only actions. */
  lemma OnlyOwnerHolds(p: Principal)
    ensures CheckRole(p, "projects:delete") ==> p.role == "owner"
    ensures CheckRole(p, "users:read") ==> p.role == "owner"
    ensures CheckRole(p, "users:update") ==> p.role == "owner"
  {
  }

  lemma FinanceAndEngineer(p: Principal)
    ensures CheckRole(p, "finance:read") <==> p.role == "finance"
    ensures p.role == "engineer" ==> !CheckRole(p, "projects:create") && !CheckRole(p, "files:delete")
  {
  }

  lemma ManagerWithinOwner(action: string)
    ensures action in Permissions("manager") ==> action in Permissions("owner")
  {
  }
}
