/** The route guard (src/components/ProtectedRoute.tsx). */
module ProtectedRoute {
  import opened Wrappers
  import Auth

  /** What a guarded route renders: nothing yet, a redirect, or the protected page. */
  datatype Outcome = RenderNothing | RedirectTo(path: string) | RenderChildren

  const LoginPath := "/login"
  const UnauthorizedPath := "/unauthorized"

  /** The guard's decision; `allowedRoles == None` is a route with no role constraint. */
  function Guard(loading: bool, user: Option<Auth.Claims>, allowedRoles: Option<seq<string>>): Outcome
  {
    if loading then RenderNothing
    else if user.None? then RedirectTo(LoginPath)
    else if allowedRoles.Some? && user.value.role !in allowedRoles.value then RedirectTo(UnauthorizedPath)
    else RenderChildren
  }

  /**
   * The four outcomes: nothing while the session is being restored, whoever the user and
   * whatever the roles; the login page without a user, whatever the roles; the unauthorized
   * page for a role outside the list; the page itself otherwise.
   */
  lemma GuardCases(loading: bool, user: Option<Auth.Claims>, allowedRoles: Option<seq<string>>)
    ensures loading ==> Guard(loading, user, allowedRoles) == RenderNothing
    ensures !loading && user.None? ==> Guard(loading, user, allowedRoles) == RedirectTo(LoginPath)
    ensures Guard(loading, user, allowedRoles) == RedirectTo(UnauthorizedPath)
        <==> !loading && user.Some? && allowedRoles.Some? && user.value.role !in allowedRoles.value
    ensures Guard(loading, user, allowedRoles) == RenderChildren
        <==> !loading && user.Some? && (allowedRoles.None? || user.value.role in allowedRoles.value)
  {
  }

  /** Of the user, the guard looks at the role only: two users with the same role get the same outcome. */
  lemma GuardSeesOnlyTheRole(loading: bool, a: Auth.Claims, b: Auth.Claims, allowedRoles: Option<seq<string>>)
    requires a.role == b.role
    ensures Guard(loading, Some(a), allowedRoles) == Guard(loading, Some(b), allowedRoles)
  {
  }

  /** Widening the role list never turns an admitted user away. */
  lemma GuardMonotoneInRoles(user: Option<Auth.Claims>, roles: seq<string>, more: seq<string>)
    requires forall r :: r in roles ==> r in more
    ensures Guard(false, user, Some(roles)) == RenderChildren ==> Guard(false, user, Some(more)) == RenderChildren
  {
  }
}
