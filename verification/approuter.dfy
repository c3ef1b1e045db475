/**
 The client's router: which page a signed-in role, or nobody, sees at a
 path, and where everything else is redirected. It is the only place in
 the system where a role decides anything; the API itself checks no role.
 */
module AppRouter {
  import opened Wrappers

  datatype Page = LoginPage | ServerDashboardPage | BeneficiaryPortalPage | SecretaryDashboardPage

  /** What the router renders at a path: a page, or a `<Navigate>` to another path. */
  datatype View = Show(page: Page) | Redirect(to: string)

  const Servidor := "servidor"
  const Beneficiario := "beneficiario"
  const Secretario := "secretario"

  /** The path each page is mounted at. */
  function PathOf(p: Page): string {
    match p
    case LoginPage => "/login"
    case ServerDashboardPage => "/dashboard"
    case BeneficiaryPortalPage => "/portal"
    case SecretaryDashboardPage => "/secretary"
  }

  /** Who may see each page: the login page only with nobody signed in, each dashboard only its role. */
  function AudienceOf(p: Page): Option<string> {
    match p
    case LoginPage => None
    case ServerDashboardPage => Some(Servidor)
    case BeneficiaryPortalPage => Some(Beneficiario)
    case SecretaryDashboardPage => Some(Secretario)
  }

  /** A role the router has a branch for. */
  predicate KnownRole(role: string) {
    role == Servidor || role == Beneficiario || role == Secretario
  }

  /**
   `AppRoutes`, for the signed-in user's role (`cargo`) or None. A page is
   shown exactly at its own path and only to its own audience. Nobody
   signed in is sent to `/login`; a signed-in user at `/login` to `/`; a
   known role at `/` to its page; anything else to `/`.
   */
  function Route(user: Option<string>, path: string): (v: View)
    ensures forall p :: v == Show(p) <==> AudienceOf(p) == user && PathOf(p) == path
    ensures user.None? && path != "/login" ==> v == Redirect("/login")
    ensures user.Some? && path == "/login" ==> v == Redirect("/")
    ensures forall p :: user.Some? && AudienceOf(p) == user && path == "/" ==> v == Redirect(PathOf(p))
    ensures user.Some? && !KnownRole(user.value) ==> v == Redirect("/")
    ensures user.Some? && v.Redirect? && v.to != "/" ==> KnownRole(user.value) && path == "/"
  {
    if user.None? then
      if path == "/login" then Show(LoginPage) else Redirect("/login")
    else if path == "/login" then Redirect("/")
    else if user.value == Servidor then
      if path == "/dashboard" then Show(ServerDashboardPage)
      else if path == "/" then Redirect("/dashboard")
      else Redirect("/")
    else if user.value == Beneficiario then
      if path == "/portal" then Show(BeneficiaryPortalPage)
      else if path == "/" then Redirect("/portal")
      else Redirect("/")
    else if user.value == Secretario then
      if path == "/secretary" then Show(SecretaryDashboardPage)
      else if path == "/" then Redirect("/secretary")
      else Redirect("/")
    else Redirect("/")
  }

  /** Follows redirects from `path`, at most `hops` of them. */
  function Follow(user: Option<string>, path: string, hops: nat): View
    decreases hops
  {
    var v := Route(user, path);
    if hops == 0 || v.Show? then v else Follow(user, v.to, hops - 1)
  }

  /** The page a user ends up on: the login page for nobody, the role's own page otherwise. */
  function Home(user: Option<string>): (p: Page)
    requires user.None? || KnownRole(user.value)
    ensures AudienceOf(p) == user
  {
    if user.None? then LoginPage
    else if user.value == Servidor then ServerDashboardPage
    else if user.value == Beneficiario then BeneficiaryPortalPage
    else SecretaryDashboardPage
  }

  /** From any path, nobody and every known role reach their own page after at most two redirects. */
  lemma EveryPathSettles(user: Option<string>, path: string)
    requires user.None? || KnownRole(user.value)
    ensures Follow(user, path, 2) == Show(Home(user))
  {
    var home := Home(user);
    assert Route(user, PathOf(home)) == Show(home);
    if user.Some? {
      assert Route(user, "/") == Redirect(PathOf(home));
    }
  }

  /**
   A role without a branch, such as "coordenador", never reaches a page:
   every path redirects to `/`, which redirects to itself.
   */
  lemma {:induction false} UnknownRoleNeverSettles(role: string, path: string, hops: nat)
    requires !KnownRole(role)
    ensures Follow(Some(role), path, hops) == Redirect("/")
    decreases hops
  {
    if hops > 0 {
      UnknownRoleNeverSettles(role, "/", hops - 1);
    }
  }
}
