/** The role checks written inline at the top of each admin API handler: most
    admit both admin roles, member creation admits only the Super Admin. The
    handlers test `session?.user`, here `user`, which is None when there is no
    session. */
module Gates {
  import opened Common
  import opened Schema
  import Permissions
  import Auth
  import Middleware

  /** `!session?.user || (role !== 'Super Admin' && role !== 'Committee Admin')` refused. */
  predicate TwoRoleGate(user: Option<Auth.SessionUser>)
  {
    user.Some? && (user.value.role == Some(RoleSuperAdmin) || user.value.role == Some(RoleCommitteeAdmin))
  }

  /** `!session?.user || role !== 'Super Admin'` refused. */
  predicate SuperAdminGate(user: Option<Auth.SessionUser>)
  {
    user.Some? && user.value.role == Some(RoleSuperAdmin)
  }

  function WithRole(role: string): Auth.SessionUser
  {
    Auth.SessionUser(None, None, None, Some(role), None)
  }

  /** The two-role gate is `isAdmin` of the session's role, and it admits the
      same roles as the middleware admits to admin pages. */
  lemma TwoRoleGateIsAdmin(u: Auth.SessionUser, role: string)
    requires u.role == Some(role)
    ensures TwoRoleGate(Some(u)) == Permissions.IsAdmin(role)
    ensures TwoRoleGate(Some(u)) == Middleware.Authorized(Middleware.AdminPrefix, Some(Middleware.Token(u.role)))
  {
  }

  /** The member-creation gate is strictly narrower than the two-role gate. */
  lemma SuperAdminGateNarrower(user: Option<Auth.SessionUser>)
    ensures SuperAdminGate(user) ==> TwoRoleGate(user)
    ensures TwoRoleGate(Some(WithRole(RoleCommitteeAdmin))) && !SuperAdminGate(Some(WithRole(RoleCommitteeAdmin)))
  {
  }

  /** The gates and the permission table disagree: a Committee Admin passes the
      committee and news handlers although the table grants it neither
      manage_committees nor manage_news. */
  lemma GateExceedsPermissionTable()
    ensures TwoRoleGate(Some(WithRole(RoleCommitteeAdmin)))
    ensures Permissions.HasPermission(RoleCommitteeAdmin, Permissions.ManageCommittees) == Permissions.Returns(false)
    ensures Permissions.HasPermission(RoleCommitteeAdmin, Permissions.ManageNews) == Permissions.Returns(false)
  {
  }

  /** Without a session, or with a session whose role is missing, every gate refuses. */
  lemma NoSessionRefused(u: Auth.SessionUser)
    requires u.role.None?
    ensures !TwoRoleGate(None) && !SuperAdminGate(None)
    ensures !TwoRoleGate(Some(u)) && !SuperAdminGate(Some(u))
  {
  }
}
