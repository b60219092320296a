/** The client router's route table, reduced to what the navigation guard
    reads (route names and `meta` flags, and which record each named route
    is nested in), and the `beforeEach` guard. */
module Router {
  import opened Wrappers

  /** Route `meta`: `requiresAuth` is absent, `true` or `false`. */
  datatype Meta = Meta(requiresAuth: Option<bool>, requiresGuest: bool, isAdmin: bool)

  const NoMeta := Meta(None, false, false)
  const AuthMeta := Meta(Some(true), false, false)
  const GuestMeta := Meta(None, true, false)
  const AdminMeta := Meta(Some(true), false, true)

  /** The named routes. */
  datatype RouteName =
    | Home | About | Discover | Community
    | PostDetail | CreatePost | EditPost
    | Login | Register | ResetPassword | VerifyEmail
    | UserProfile
    | EditProfile | AccountSettings | Notifications | MyPosts | MyFavorites
    | AdminDashboard | AdminFoodManagement | AdminPosts | AdminUsers
    | AdminTagManagement | AdminSettings | AdminOther

  /** The unnamed parent record a route is declared under, by its `meta`:
      `/` , `/posts/:id`, `/post/create`, `/post/edit/:id` and `/admin`
      carry none, `/user/:userId` says `requiresAuth: false` and
      `/settings` says `requiresAuth: true`. Top-level routes have none. */
  function ParentMeta(name: RouteName): Option<Meta> {
    match name
    case Home | About | Discover | Community => Some(NoMeta)
    case PostDetail | CreatePost | EditPost => Some(NoMeta)
    case Login | Register | ResetPassword | VerifyEmail => None
    case UserProfile => Some(Meta(Some(false), false, false))
    case EditProfile | AccountSettings | Notifications | MyPosts | MyFavorites => Some(AuthMeta)
    case AdminDashboard | AdminFoodManagement | AdminPosts | AdminUsers
      | AdminTagManagement | AdminSettings | AdminOther => Some(NoMeta)
  }

  /** The `meta` of the named record itself. */
  function OwnMeta(name: RouteName): Meta {
    match name
    case CreatePost | EditPost => AuthMeta
    case Login | Register | ResetPassword | VerifyEmail => GuestMeta
    case AdminUsers | AdminTagManagement | AdminSettings => AdminMeta
    case _ => NoMeta
  }

  /** `to.matched` for the named route: its parent record, then itself. */
  function Matched(name: RouteName): (m: seq<Meta>)
    ensures |m| >= 1 && m[|m| - 1] == OwnMeta(name)
  {
    match ParentMeta(name)
    case Some(p) => [p, OwnMeta(name)]
    case None => [OwnMeta(name)]
  }

  /** The target of a navigation, as the guard sees it; a path that no
      route matches has no name and nothing matched. */
  datatype Target = Target(name: Option<RouteName>, matched: seq<Meta>, fullPath: string)

  function NamedTarget(name: RouteName, fullPath: string): Target {
    Target(Some(name), Matched(name), fullPath)
  }

  /** The three ways the guard calls `next`. */
  datatype Decision =
    | ToLogin(redirect: string)   // next({ name: 'Login', query: { redirect } })
    | ToHome                      // next('/')
    | Proceed                     // next()

  /** `to.matched.some(record => record.meta.requiresAuth)`. */
  predicate RequiresAuth(matched: seq<Meta>) {
    exists i :: 0 <= i < |matched| && matched[i].requiresAuth == Some(true)
  }

  /** The guard: sign-in first, then keeping signed-in users off the login
      and registration pages, otherwise let the navigation through. */
  function Guard(to: Target, isLoggedIn: bool): (d: Decision)
    ensures d.ToLogin? <==> RequiresAuth(to.matched) && !isLoggedIn
    ensures d.ToLogin? ==> d.redirect == to.fullPath
    ensures d == ToHome <==>
      !(RequiresAuth(to.matched) && !isLoggedIn) && isLoggedIn
      && (to.name == Some(Login) || to.name == Some(Register))
  {
    if RequiresAuth(to.matched) && !isLoggedIn then ToLogin(to.fullPath)
    else if (to.name == Some(Login) || to.name == Some(Register)) && isLoggedIn then ToHome
    else Proceed
  }

  /** A signed-out visitor is never sent home, and a signed-in user is
      never sent to the login page. */
  lemma GuardByLoginState(to: Target)
    ensures Guard(to, false) != ToHome
    ensures !Guard(to, true).ToLogin?
  {
  }

  /** Exactly the routes below `/settings`, the post editor pages and the
      three flagged admin pages need sign-in; the children of `/settings`
      inherit it from their parent record. */
  lemma {:induction false} RoutesRequiringAuth(name: RouteName)
    ensures RequiresAuth(Matched(name)) <==>
      name in {EditProfile, AccountSettings, Notifications, MyPosts, MyFavorites,
               CreatePost, EditPost, AdminUsers, AdminTagManagement, AdminSettings}
  {
    var m := Matched(name);
    if name in {EditProfile, AccountSettings, Notifications, MyPosts, MyFavorites} {
      assert m[0].requiresAuth == Some(true);
    } else if name in {CreatePost, EditPost, AdminUsers, AdminTagManagement, AdminSettings} {
      assert m[|m| - 1].requiresAuth == Some(true);
    } else {
      assert forall i :: 0 <= i < |m| ==> m[i].requiresAuth != Some(true);
    }
  }

  /** Signed out, a page needing sign-in leads to the login page carrying
      the requested path; signed in, the guard lets it through. */
  lemma ProtectedPages(name: RouteName, fullPath: string)
    requires RequiresAuth(Matched(name))
    ensures Guard(NamedTarget(name, fullPath), false) == ToLogin(fullPath)
    ensures Guard(NamedTarget(name, fullPath), true) == Proceed
  {
    RoutesRequiringAuth(name);
  }

  /** `requiresGuest` is not enforced: a signed-in user may open the
      password-reset and e-mail verification pages, but is sent home from
      the login and registration pages. */
  lemma GuestOnlyPagesStayOpen(fullPath: string)
    ensures Guard(NamedTarget(ResetPassword, fullPath), true) == Proceed
    ensures Guard(NamedTarget(VerifyEmail, fullPath), true) == Proceed
    ensures Guard(NamedTarget(Login, fullPath), true) == ToHome
    ensures Guard(NamedTarget(Register, fullPath), true) == ToHome
  {
    RoutesRequiringAuth(ResetPassword);
    RoutesRequiringAuth(VerifyEmail);
    RoutesRequiringAuth(Login);
    RoutesRequiringAuth(Register);
  }
}
