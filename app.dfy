/**
 * The route table and the home redirect (src/App.tsx). A path is matched exactly; the
 * top-level routes are tried first and every other path goes to the layout's inner table.
 */
module AppRoutes {
  import opened Wrappers
  import Auth
  import PR = ProtectedRoute

  datatype Page =
    | LoginPage | ResetPasswordPage | HomePage
    | MonitoringPage | UploadPage | UsersPage | ActivityPage
    | UnauthorizedPage | NotFoundPage

  /** A route: the page and, for a guarded page, the roles it admits. */
  datatype Route = Route(page: Page, allowedRoles: Option<seq<string>>)

  const BothRoles: seq<string> := ["admin", "user"]
  const AdminOnly: seq<string> := ["admin"]

  function RouteOf(path: string): Route
  {
    if path == "/login" then Route(LoginPage, None)
    else if path == "/reset-password" then Route(ResetPasswordPage, None)
    else if path == "/" then Route(HomePage, None)
    else if path == "/monitoring" then Route(MonitoringPage, Some(BothRoles))
    else if path == "/upload" then Route(UploadPage, Some(BothRoles))
    else if path == "/users" then Route(UsersPage, Some(AdminOnly))
    else if path == "/activity" then Route(ActivityPage, Some(BothRoles))
    else if path == "/unauthorized" then Route(UnauthorizedPage, None)
    else Route(NotFoundPage, None)
  }

  /** `HomeRedirect`: nothing while loading, the login page without a user, the upload page otherwise. */
  function HomeRedirect(loading: bool, user: Option<Auth.Claims>): PR.Outcome
  {
    if loading then PR.RenderNothing
    else if user.None? then PR.RedirectTo(PR.LoginPath)
    else PR.RedirectTo("/upload")
  }

  /** What visiting `path` shows. */
  datatype Visit = Show(page: Page) | Blank | Redirect(to: string)

  function VisitPath(path: string, loading: bool, user: Option<Auth.Claims>): Visit
  {
    var route := RouteOf(path);
    var outcome :=
      if route.page == HomePage then HomeRedirect(loading, user)
      else if route.allowedRoles.Some? then PR.Guard(loading, user, route.allowedRoles)
      else PR.RenderChildren;
    match outcome
    case RenderNothing => Blank
    case RedirectTo(to) => Redirect(to)
    case RenderChildren => Show(route.page)
  }

  /** The home page: nothing while loading, the login page without a user, and the upload page for any user. */
  lemma HomeRedirectCases(loading: bool, user: Option<Auth.Claims>)
    ensures loading ==> VisitPath("/", loading, user) == Blank
    ensures !loading && user.None? ==> VisitPath("/", loading, user) == Redirect("/login")
    ensures !loading && user.Some? ==> VisitPath("/", loading, user) == Redirect("/upload")
  {
  }

  /** The user management page admits only the admin role. */
  lemma UsersIsAdminOnly(c: Auth.Claims)
    ensures VisitPath("/users", false, Some(c)) == Show(UsersPage) <==> c.role == "admin"
    ensures c.role != "admin" ==> VisitPath("/users", false, Some(c)) == Redirect("/unauthorized")
  {
  }

  /** Monitoring, upload and activity admit the admin and the user roles, and no other. */
  lemma SharedPagesAdmitBothRoles(path: string, c: Auth.Claims)
    requires path in {"/monitoring", "/upload", "/activity"}
    ensures VisitPath(path, false, Some(c)).Show? <==> c.role == "admin" || c.role == "user"
  {
  }

  /** Login, password reset and unauthorized are shown to anyone at any time; an unknown path shows the not-found page. */
  lemma OpenPages(path: string, loading: bool, user: Option<Auth.Claims>)
    ensures path == "/login" ==> VisitPath(path, loading, user) == Show(LoginPage)
    ensures path == "/reset-password" ==> VisitPath(path, loading, user) == Show(ResetPasswordPage)
    ensures path == "/unauthorized" ==> VisitPath(path, loading, user) == Show(UnauthorizedPage)
    ensures path !in {"/login", "/reset-password", "/", "/monitoring", "/upload", "/users", "/activity", "/unauthorized"}
        ==> VisitPath(path, loading, user) == Show(NotFoundPage)
  {
  }
}
