/**
 * RouteGuard of app/_layout.tsx: while the session check is loading it
 * shows a spinner and redirects nowhere; afterwards it keeps a signed-out
 * user inside the `auth` route group and a signed-in user out of it.
 */
module RouteGuard {

  import opened Wrappers

  const AuthGroup: string := "auth"
  const AuthRoute: string := "/auth"
  /** The app's root route; a successful sign-in on the auth screen also goes here. */
  const HomeRoute: string := "/"

  /** `segments[0] === "auth"`; an empty segment list has no first segment. */
  predicate InAuthGroup(segments: seq<string>)
  {
    |segments| > 0 && segments[0] == AuthGroup
  }

  /** The route the guard's effect passes to `router.replace`, if any. */
  function Redirect(loading: bool, isLogged: bool, segments: seq<string>): (r: Option<string>)
    ensures loading ==> r == None
    ensures r == Some(AuthRoute) <==> !loading && !isLogged && !InAuthGroup(segments)
    ensures r == Some(HomeRoute) <==> !loading && isLogged && InAuthGroup(segments)
    ensures r == None <==> loading || isLogged != InAuthGroup(segments)
  {
    if loading then None
    else if !isLogged && !InAuthGroup(segments) then Some(AuthRoute)
    else if isLogged && InAuthGroup(segments) then Some(HomeRoute)
    else None
  }

  /** Only the first segment matters: routes that agree on it are treated alike. */
  lemma OnlyFirstSegmentMatters(loading: bool, isLogged: bool, s: seq<string>, t: seq<string>)
    requires InAuthGroup(s) == InAuthGroup(t)
    ensures Redirect(loading, isLogged, s) == Redirect(loading, isLogged, t)
  {
  }

  /**
   * A redirect lands where the guard is satisfied: once the target route is
   * shown (its first segment is "auth" exactly when it is the auth route),
   * the guard asks for nothing more.
   */
  lemma RedirectSettles(isLogged: bool, segments: seq<string>, next: seq<string>)
    requires Redirect(false, isLogged, segments).Some?
    requires InAuthGroup(next) <==> Redirect(false, isLogged, segments).value == AuthRoute
    ensures Redirect(false, isLogged, next) == None
  {
  }

  /** What RouteGuard renders. */
  datatype View<C> = Spinner | Children(content: C)

  function Render<C>(loading: bool, children: C): (v: View<C>)
    ensures v.Spinner? <==> loading
    ensures !loading ==> v == Children(children)
  {
    if loading then Spinner else Children(children)
  }
}
