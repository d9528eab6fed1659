/** The dashboard page: it sends a visitor without a session to the login
    page, shows a notice to a user without a role, and otherwise renders the
    dashboard their role selects. */
module DashboardPage {
  import opened Wrappers
  import opened Domain

  /** The dashboards the page can render. */
  datatype DashboardKind = AdminView | AllocaterView | DeclarantView

  /** The dashboards rendered for a role label: three independent
      conditionals, one per dashboard. */
  function Rendered(role: string): (kinds: set<DashboardKind>)
    ensures AdminView in kinds <==> role == "admin" || role == "manager"
    ensures AllocaterView in kinds <==> role == "allocater"
    ensures DeclarantView in kinds <==> role == "declarant"
  {
    (if role == "admin" || role == "manager" then {AdminView} else {})
    + (if role == "allocater" then {AllocaterView} else {})
    + (if role == "declarant" then {DeclarantView} else {})
  }

  /** At most one dashboard renders for any label; each of the four roles
      renders exactly its own, and any other label renders none. */
  lemma RenderedByRole(role: string)
    ensures |Rendered(role)| <= 1
    ensures Rendered(role) == {} <==> ParseRole(role).None?
    ensures ParseRole(role) == Some(Admin) || ParseRole(role) == Some(Manager) ==> Rendered(role) == {AdminView}
    ensures ParseRole(role) == Some(Allocater) ==> Rendered(role) == {AllocaterView}
    ensures ParseRole(role) == Some(Declarant) ==> Rendered(role) == {DeclarantView}
  {
    if role == "admin" || role == "manager" {
      assert Rendered(role) == {AdminView};
    } else if role == "allocater" {
      assert Rendered(role) == {AllocaterView};
    } else if role == "declarant" {
      assert Rendered(role) == {DeclarantView};
    } else {
      assert Rendered(role) == {};
    }
  }

  /** What the page shows once the session and the role are loaded. */
  datatype Screen =
    | RedirectToLogin
    | NoRoleAssigned                                   // the notice and a logout button
    | Home(user: UserId, role: string, dashboards: set<DashboardKind>) // the header and the dashboards

  /** `getUser` followed by the render: no session redirects; a missing or
      empty role shows the notice; otherwise the header and the dashboards
      of the role. The role is the single `user_roles` row of the user, if
      the query found one. */
  function Resolve(session: Option<UserId>, role: Option<string>): (r: Screen)
    ensures r.RedirectToLogin? <==> session.None?
    ensures r.NoRoleAssigned? <==> session.Some? && (role.None? || role.value == "")
    ensures r.Home? ==> r.user == session.value && r.role == role.value && r.dashboards == Rendered(role.value)
    ensures r.Home? ==> |r.dashboards| <= 1
  {
    match session
    case None => RedirectToLogin
    case Some(u) =>
      match role
      case None => NoRoleAssigned
      case Some(text) =>
        if text == "" then NoRoleAssigned
        else
          RenderedByRole(text);
          Home(u, text, Rendered(text))
  }

  /** A label outside the enum passes the no-role check and shows the
      header with no dashboard under it. The role column is the enum, which
      refuses such labels, so this case cannot arise from the table as it
      is; the page itself does not guard against it. */
  lemma UnknownRoleShowsNoDashboard(user: UserId, text: string)
    requires text != "" && ParseRole(text).None?
    ensures Resolve(Some(user), Some(text)) == Home(user, text, {})
  {
    RenderedByRole(text);
  }

  /** The page's state: the signed-in user, the role label loaded for
      the first session, and whether it has navigated to the login page. */
  datatype Page = Page(user: Option<UserId>, role: Option<string>, redirected: bool)

  /** `getUser`, run once when the page mounts: without a session it goes
      to the login page; otherwise it holds the session's user and the role
      the `user_roles` query found, if any. */
  function Mount(session: Option<UserId>, role: Option<string>): (p: Page)
    ensures p.redirected <==> session.None?
    ensures p.user == session
    ensures p.role == if session.Some? then role else None
  {
    match session
    case None => Page(None, None, true)
    case Some(u) => Page(Some(u), role, false)
  }

  /** What the page shows for its state. */
  function Shown(p: Page): (r: Screen)
    ensures r.RedirectToLogin? <==> p.redirected || p.user.None?
  {
    if p.redirected then RedirectToLogin else Resolve(p.user, p.role)
  }

  /** Mounting shows what `Resolve` gives for the session and its role. */
  lemma MountShowsResolve(session: Option<UserId>, role: Option<string>)
    ensures Shown(Mount(session, role)) == Resolve(session, role)
  {
  }

  /** `onAuthStateChange`: a change to no session redirects to the login
      page; a new session replaces the user. Nothing refetches the role. */
  function OnAuthChange(p: Page, session: Option<UserId>): (r: Page)
    ensures session.None? ==> r.redirected && r.user == p.user
    ensures session.Some? ==> r.user == session && r.redirected == p.redirected
    ensures r.role == p.role
  {
    match session
    case None => p.(redirected := true)
    case Some(u) => p.(user := Some(u))
  }

  /** An auth change and the page: losing the session always ends on the
      login page; a new session keeps the role loaded for the first one, so
      a page that was showing anything but the login page shows the new
      user under that old role, and the old role's dashboard when it is a
      label of the enum. */
  lemma AuthChangeResolves(p: Page, session: Option<UserId>)
    ensures session.None? ==> Shown(OnAuthChange(p, session)) == RedirectToLogin
    ensures session.Some? ==> OnAuthChange(p, session).role == p.role
    ensures session.Some? && !p.redirected ==> Shown(OnAuthChange(p, session)) == Resolve(session, p.role)
    ensures session.Some? && !p.redirected && p.role.Some? && ParseRole(p.role.value).Some? ==>
      Shown(OnAuthChange(p, session)) == Home(session.value, p.role.value, Rendered(p.role.value))
      && |Rendered(p.role.value)| == 1
  {
    if p.role.Some? {
      RenderedByRole(p.role.value);
      if ParseRole(p.role.value).Some? {
        assert p.role.value != "";
      }
    }
  }

  /** A page mounted for one user and then signed in as another renders
      the second user's id under the first user's role: a page loaded for
      an admin that receives a declarant's session shows the admin
      dashboard for the declarant. */
  lemma NewSessionKeepsOldRole(first: UserId, role: string, next: UserId)
    requires ParseRole(role).Some?
    ensures Shown(OnAuthChange(Mount(Some(first), Some(role)), Some(next))) == Home(next, role, Rendered(role))
    ensures role == "admin" ==> Shown(OnAuthChange(Mount(Some(first), Some(role)), Some(next))).dashboards == {AdminView}
  {
    AuthChangeResolves(Mount(Some(first), Some(role)), Some(next));
    RenderedByRole(role);
  }
}
