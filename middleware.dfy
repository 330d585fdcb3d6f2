/** The request guard for the admin area (middleware.ts): an inner middleware
    wrapped by next-auth's `withAuth`, whose `authorized` callback runs first. */
module Middleware {
  import opened Common
  import opened Schema
  import Permissions

  /** The decoded session token as the middleware sees it; `role` is a custom
      claim that may be missing. */
  datatype Token = Token(role: Option<string>)

  datatype Response =
    | Next                       // NextResponse.next(): the request goes through
    | Redirect(to: string)       // NextResponse.redirect(new URL(to, req.url))
    | SignInRedirect             // withAuth's redirect to the sign-in page

  const AdminPrefix := "/admin"

  /** The guard's path test, `pathname.startsWith('/admin')`. */
  predicate IsAdminPath(path: string)
  {
    StartsWith(path, AdminPrefix)
  }

  predicate HasAdminRole(token: Token)
  {
    token.role == Some(RoleSuperAdmin) || token.role == Some(RoleCommitteeAdmin)
  }

  /** The `authorized` callback. */
  function Authorized(path: string, token: Option<Token>): (ok: bool)
    ensures !IsAdminPath(path) ==> ok
    ensures IsAdminPath(path) ==> (ok <==> token.Some? && HasAdminRole(token.value))
  {
    if !IsAdminPath(path) then true
    else token.Some? && (token.value.role == Some(RoleSuperAdmin) || token.value.role == Some(RoleCommitteeAdmin))
  }

  /** The inner middleware function. */
  function Inner(path: string, token: Option<Token>): (r: Response)
    ensures IsAdminPath(path) && token.None? ==> r == Redirect("/login")
    ensures IsAdminPath(path) && token.Some? && !HasAdminRole(token.value) ==> r == Redirect("/")
    ensures !IsAdminPath(path) || (token.Some? && HasAdminRole(token.value)) ==> r == Next
  {
    if IsAdminPath(path) then
      if token.None? then Redirect("/login")
      else
        var userRole := token.value.role;
        if userRole != Some(RoleSuperAdmin) && userRole != Some(RoleCommitteeAdmin) then Redirect("/")
        else Next
    else Next
  }

  /** `withAuth(middleware, { callbacks: { authorized } })`: the inner function
      runs only for requests the callback lets through. */
  function Guard(path: string, token: Option<Token>): Response
  {
    if Authorized(path, token) then Inner(path, token) else SignInRedirect
  }

  /** `matcher: ['/admin/:path*']`: "/admin" itself and everything below "/admin/". */
  predicate Matches(path: string)
  {
    path == AdminPrefix || StartsWith(path, AdminPrefix + "/")
  }

  /** What a request receives: paths outside the matcher never reach the guard. */
  function Handle(path: string, token: Option<Token>): (r: Response)
    ensures !Matches(path) ==> r == Next
  {
    if Matches(path) then Guard(path, token) else Next
  }

  /** The composed guard lets exactly admins into admin paths, and once
      `authorized` has passed, the inner function's own redirects never fire. */
  lemma GuardDecision(path: string, token: Option<Token>)
    ensures Guard(path, token) == Next <==> !IsAdminPath(path) || (token.Some? && HasAdminRole(token.value))
    ensures Guard(path, token) != Next ==> Guard(path, token) == SignInRedirect
  {
  }

  /** The role test of `authorized` is `isAdmin` of the permission module. */
  lemma AuthorizedIsAdmin(path: string, role: string)
    requires IsAdminPath(path)
    ensures Authorized(path, Some(Token(Some(role)))) == Permissions.IsAdmin(role)
  {
  }

  /** Every path the matcher selects passes the prefix test, so the guard
      never sees a matched path that it treats as public. */
  lemma MatchedPathsAreAdminPaths(path: string)
    requires Matches(path)
    ensures IsAdminPath(path)
  {
  }

  /** The prefix test is literal: "/administrator" counts as an admin path, although
      the matcher does not route it to the guard. */
  lemma AdministratorIsAdminPath()
    ensures IsAdminPath("/administrator")
    ensures !Matches("/administrator")
    ensures Authorized("/administrator", None) == false
  {
    assert AdminPrefix <= "/administrator";
    assert (AdminPrefix + "/")[6] == '/' && "/administrator"[6] == 'i';
  }
}
