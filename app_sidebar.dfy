/**
 * The sidebar (src/components/AppSidebar.tsx): the navigation list chosen by role, the active
 * item, the change-password checks and the logout button.
 */
module AppSidebar {
  import opened Wrappers
  import Auth
  import App = AppRoutes

  datatype NavItem = NavItem(title: string, url: string, description: string)

  const AdminNavigation: seq<NavItem> := [
    NavItem("Monitoring", "/monitoring", "Task monitoring with filters"),
    NavItem("User Management", "/users", "Manage system users"),
    NavItem("File Upload", "/upload", "Upload and process files"),
    NavItem("Log", "/activity", "User activities")
  ]

  const UserNavigation: seq<NavItem> := [
    NavItem("Monitoring", "/monitoring", "Task monitoring with filters"),
    NavItem("File Upload", "/upload", "Upload and process files"),
    NavItem("Log", "/activity", "Log activities")
  ]

  /** The admin list for the admin role, the user list for any other role and for no user. */
  function NavigationFor(user: Option<Auth.Claims>): seq<NavItem>
  {
    if user.Some? && user.value.role == "admin" then AdminNavigation else UserNavigation
  }

  /** `isActive(url)`: exact equality with the current path. */
  predicate IsActive(pathname: string, url: string)
  {
    pathname == url
  }

  /** The admin gets four items including user management; everyone else gets three, without it. */
  lemma MenuByRole(user: Option<Auth.Claims>)
    ensures user.Some? && user.value.role == "admin" ==> |NavigationFor(user)| == 4 && NavigationFor(user)[1].url == "/users"
    ensures !(user.Some? && user.value.role == "admin") ==>
      |NavigationFor(user)| == 3 && forall i :: 0 <= i < 3 ==> NavigationFor(user)[i].url != "/users"
  {
  }

  /** No two items of a menu share a url, so at most one item is highlighted. */
  lemma AtMostOneActive(user: Option<Auth.Claims>, pathname: string, i: int, j: int)
    requires 0 <= i < |NavigationFor(user)| && 0 <= j < |NavigationFor(user)|
    requires IsActive(pathname, NavigationFor(user)[i].url) && IsActive(pathname, NavigationFor(user)[j].url)
    ensures i == j
  {
  }

  /**
   * For the two roles the application knows, every menu entry opens its page, and the one page
   * missing from the user's menu turns the user away.
   */
  lemma MenuMatchesRoutes(c: Auth.Claims, i: int)
    requires c.role == "admin" || c.role == "user"
    requires 0 <= i < |NavigationFor(Some(c))|
    ensures App.VisitPath(NavigationFor(Some(c))[i].url, false, Some(c)).Show?
    ensures c.role == "user" ==> App.VisitPath("/users", false, Some(c)) == App.Redirect("/unauthorized")
  {
  }

  /** A role the application does not know gets the user menu, and every entry of it is refused. */
  lemma UnknownRoleMenuLeadsNowhere(c: Auth.Claims, i: int)
    requires c.role != "admin" && c.role != "user"
    requires 0 <= i < |NavigationFor(Some(c))|
    ensures App.VisitPath(NavigationFor(Some(c))[i].url, false, Some(c)) == App.Redirect("/unauthorized")
  {
  }

  // ---------------------------------------------------------------- change password

  datatype PasswordDecision = SameAsCurrent | ConfirmationMismatch | SendChange

  /** `handleChangePassword` up to the request: the "different from current" check runs first. */
  function CheckPasswords(currentPassword: string, newPassword: string, confirmPassword: string): PasswordDecision
  {
    if newPassword == currentPassword then SameAsCurrent
    else if newPassword != confirmPassword then ConfirmationMismatch
    else SendChange
  }

  /**
   * A request is sent exactly when the new password differs from the current one and equals its
   * confirmation; a new password equal to the current one is reported as such even when the
   * confirmation differs too.
   */
  lemma PasswordChecks(currentPassword: string, newPassword: string, confirmPassword: string)
    ensures CheckPasswords(currentPassword, newPassword, confirmPassword) == SendChange
        <==> newPassword != currentPassword && newPassword == confirmPassword
    ensures newPassword == currentPassword ==> CheckPasswords(currentPassword, newPassword, confirmPassword) == SameAsCurrent
  {
  }

  /** How the change-password request settles; a thrown error counts as a failure. */
  datatype ChangeOutcome = Changed | ChangeFailed

  /** `handleChangePassword` once its request has settled: a success signs the user out. */
  method ChangePasswordSettle(auth: Auth.AuthProvider, outcome: ChangeOutcome)
    modifies auth
    ensures outcome == Changed ==> auth.Snapshot() == Auth.LogoutSpec(old(auth.Snapshot()))
    ensures outcome == ChangeFailed ==> auth.Snapshot() == old(auth.Snapshot())
  {
    if outcome == Changed {
      auth.Logout();
    }
  }

  /** The logout button: sign out, then go to the login page. */
  method LogoutAndNavigate(auth: Auth.AuthProvider) returns (target: string)
    modifies auth
    ensures auth.Snapshot() == Auth.LogoutSpec(old(auth.Snapshot()))
    ensures target == "/login"
  {
    auth.Logout();
    target := "/login";
  }
}
