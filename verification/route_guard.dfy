/**
 * The route guard (src/components/route/ProtectedRoute.tsx): from the authentication state
 * and whether the page needs an administrator, it decides what to draw and where, if
 * anywhere, to send the browser.
 */
module RouteGuard {
  import opened Types

  const LoginPath: string := "/login"
  const LibraryPath: string := "/my-library"

  /** What the guard draws. */
  datatype View = Spinner | Nothing | Children

  /**
   * The user may see the guarded page: an administrator, or any user when none is
   * required. The source compares the role's wire spelling with "admin".
   */
  predicate Permitted(user: User, requireAdmin: bool)
  {
    !requireAdmin || RoleName(user.role) == "admin"
  }

  /**
   * The effect's navigation: nothing while the session is loading, the login page when
   * nobody is signed in, the library when an administrator is required and the user is
   * not one.
   */
  function RedirectTarget(loading: bool, user: Option<User>, requireAdmin: bool := false): (r: Option<string>)
    ensures loading ==> r == None
    ensures !loading && user.None? ==> r == Some(LoginPath)
    ensures !loading && user.Some? && requireAdmin && user.value.role != AdminRole ==> r == Some(LibraryPath)
    ensures r == None <==> loading || (user.Some? && Permitted(user.value, requireAdmin))
  {
    if loading then None
    else if user.None? then Some(LoginPath)
    else if requireAdmin && RoleName(user.value.role) != "admin" then Some(LibraryPath)
    else None
  }

  /** The render: the spinner while loading, nothing for a refused visitor, the page otherwise. */
  function Rendered(loading: bool, user: Option<User>, requireAdmin: bool := false): (v: View)
    ensures v == Spinner <==> loading
    ensures v == Children <==> !loading && user.Some? && Permitted(user.value, requireAdmin)
  {
    if loading then Spinner
    else if user.None? || (requireAdmin && RoleName(user.value.role) != "admin") then Nothing
    else Children
  }

  /** The two decisions agree: the guard draws nothing exactly when it navigates away. */
  lemma RedirectIffNothing(loading: bool, user: Option<User>, requireAdmin: bool)
    ensures Rendered(loading, user, requireAdmin) == Nothing <==> RedirectTarget(loading, user, requireAdmin).Some?
    ensures RedirectTarget(loading, user, requireAdmin).Some? ==> Rendered(loading, user, requireAdmin) != Children
  {
  }

  /** With the default, any signed-in user, whatever the role, sees the page once loaded. */
  lemma DefaultGuardAdmitsEveryUser(user: User)
    ensures Rendered(false, Some(user)) == Children
    ensures RedirectTarget(false, Some(user)) == None
  {
  }

  /** Requiring an administrator only ever takes the page away; it never grants it. */
  lemma RequireAdminIsStricter(loading: bool, user: Option<User>)
    ensures Rendered(loading, user, true) == Children ==> Rendered(loading, user, false) == Children
    ensures RedirectTarget(loading, user, false).Some? ==> RedirectTarget(loading, user, true) == RedirectTarget(loading, user, false)
  {
  }
}
