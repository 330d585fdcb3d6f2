/** The role-to-permission table and the role predicates of lib/permissions.ts. */
module Permissions {
  import opened Common
  import opened Schema

  datatype Permission =
    | ManageMembers | ManageEvents | ManageNews | ManageCommittees
    | ManageGallery | ManageUsers | AccessAdminPanel | ApproveMatrimonial

  /** What a JavaScript call returns: a value, or a thrown TypeError. */
  datatype Outcome = Returns(b: bool) | Throws

  /** The names an ordinary object inherits from Object.prototype. Looking one of
      them up in the table finds an inherited member instead of a list. */
  predicate IsPrototypeKey(key: string)
  {
    key in ["constructor", "__proto__", "__defineGetter__", "__defineSetter__",
            "__lookupGetter__", "__lookupSetter__", "hasOwnProperty", "isPrototypeOf",
            "propertyIsEnumerable", "toString", "toLocaleString", "valueOf"]
  }

  /** `rolePermissions[role]` for an ordinary key: the list for the three roles,
      nothing for any other string. */
  function RolePermissions(role: string): Option<seq<Permission>>
  {
    if role == RoleSuperAdmin then
      Some([ManageMembers, ManageEvents, ManageNews, ManageCommittees,
            ManageGallery, ManageUsers, AccessAdminPanel, ApproveMatrimonial])
    else if role == RoleCommitteeAdmin then
      Some([ManageEvents, ManageGallery, AccessAdminPanel])
    else if role == RoleMember then
      Some([])
    else None
  }

  /** `rolePermissions[role]?.includes(permission) || false`. An inherited member has
      no `includes`, so the call throws for the prototype keys. */
  function HasPermission(role: string, permission: Permission): Outcome
  {
    if IsPrototypeKey(role) then Throws
    else
      match RolePermissions(role)
      case Some(ps) => Returns(permission in ps)
      case None => Returns(false)
  }

  function CanAccessAdminPanel(role: string): Outcome
  {
    HasPermission(role, AccessAdminPanel)
  }

  predicate IsAdmin(role: string)
  {
    role == RoleSuperAdmin || role == RoleCommitteeAdmin
  }

  lemma SuperAdminHasEverything(p: Permission)
    ensures HasPermission(RoleSuperAdmin, p) == Returns(true)
  {
  }

  lemma CommitteeAdminPermissions(p: Permission)
    ensures HasPermission(RoleCommitteeAdmin, p) == Returns(p == ManageEvents || p == ManageGallery || p == AccessAdminPanel)
  {
  }

  lemma MemberHasNothing(p: Permission)
    ensures HasPermission(RoleMember, p) == Returns(false)
  {
  }

  /** The table is monotone in rank: whatever a Committee Admin may do, a Super Admin may do. */
  lemma CommitteeAdminBelowSuperAdmin(p: Permission)
    ensures HasPermission(RoleCommitteeAdmin, p) == Returns(true) ==> HasPermission(RoleSuperAdmin, p) == Returns(true)
  {
  }

  /** Role strings match exactly and case-sensitively: every other ordinary string
      (say "super admin" or "Admin") is granted nothing. */
  lemma UnknownRoleHasNothing(role: string, p: Permission)
    requires !IsPrototypeKey(role)
    requires role != RoleSuperAdmin && role != RoleCommitteeAdmin && role != RoleMember
    ensures HasPermission(role, p) == Returns(false)
  {
  }

  /** For an ordinary role string the lookup never throws. */
  lemma OrdinaryRolesReturn(role: string, p: Permission)
    ensures HasPermission(role, p).Returns? <==> !IsPrototypeKey(role)
  {
  }

  /** The permission-table test and the two-role string test agree on every ordinary role. */
  lemma AdminPanelIsAdmin(role: string)
    requires !IsPrototypeKey(role)
    ensures CanAccessAdminPanel(role) == Returns(IsAdmin(role))
  {
  }
}
