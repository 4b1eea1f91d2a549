/** The four roles and the fixed role-to-permission table (src/models/userRole.ts). */
module Roles {

  /** A user's role; resolved per check, never stored. */
  datatype UserRole = Admin | Reviewer | Author | Regular

  /** The string value of each enum member, which the views compare against. */
  function RoleValue(role: UserRole): string {
    match role
    case Admin => "admin"
    case Reviewer => "reviewer"
    case Author => "author"
    case Regular => "regular"
  }

  /** Distinct roles have distinct string values, so comparing values is comparing roles. */
  lemma RoleValueInjective(a: UserRole, b: UserRole)
    requires RoleValue(a) == RoleValue(b)
    ensures a == b
  {
  }

  /** The five actions a role may or may not take. */
  datatype UserPermission = UserPermission(
    canDelete: bool,
    canResolve: bool,
    canApprove: bool,
    canCreate: bool,
    canReply: bool)

  /** `rolePermissions[role]`. The table is total over the four roles: everybody may create and reply,
      only an admin may delete, admins and file authors may resolve, admins and reviewers may approve. */
  function RolePermissions(role: UserRole): (p: UserPermission)
    ensures p.canCreate && p.canReply
    ensures p.canDelete <==> role == Admin
    ensures p.canResolve <==> role == Admin || role == Author
    ensures p.canApprove <==> role == Admin || role == Reviewer
  {
    match role
    case Admin => UserPermission(true, true, true, true, true)
    case Reviewer => UserPermission(false, false, true, true, true)
    case Author => UserPermission(false, true, false, true, true)
    case Regular => UserPermission(false, false, false, true, true)
  }

  /** Every action `q` allows, `p` allows too. */
  predicate Includes(p: UserPermission, q: UserPermission) {
    (q.canDelete ==> p.canDelete) && (q.canResolve ==> p.canResolve) && (q.canApprove ==> p.canApprove)
    && (q.canCreate ==> p.canCreate) && (q.canReply ==> p.canReply)
  }

  /** Admin dominates: any permission some role has, the admin has; and Regular has the least. */
  lemma AdminDominates(role: UserRole)
    ensures Includes(RolePermissions(Admin), RolePermissions(role))
    ensures Includes(RolePermissions(role), RolePermissions(Regular))
  {
  }
}
