/**
 * The route table and the navigation guard (src/router/index.ts).  Before every navigation
 * the auth store is bootstrapped; the guard then sends guests away from member-only pages
 * and members away from guest-only pages.
 */
module Router {
  import opened Wrappers
  import opened Js
  import Auth
  import HttpClient

  datatype RouteMeta = RouteMeta(guestOnly: bool, authOnly: bool)

  datatype Page = LoginPage | RegisterPage | EmailVerifiedPage | DashboardPage

  datatype Route = Route(path: string, page: Page, meta: RouteMeta)

  const HomePath := "/"

  const Routes: seq<Route> := [
    Route(HttpClient.LoginPath, LoginPage, RouteMeta(true, false)),
    Route("/register", RegisterPage, RouteMeta(true, false)),
    Route("/email-verified", EmailVerifiedPage, RouteMeta(false, false)),
    Route(HomePath, DashboardPage, RouteMeta(false, true))
  ]

  /** The meta of the first route with this path; a path no route matches has no flags. */
  function MetaFor(path: string): (meta: RouteMeta)
    ensures (forall k :: 0 <= k < |Routes| ==> Routes[k].path != path) ==> meta == RouteMeta(false, false)
    ensures meta != RouteMeta(false, false) ==> exists k :: 0 <= k < |Routes| && Routes[k].path == path && Routes[k].meta == meta
  {
    MetaIn(Routes, path)
  }

  function MetaIn(routes: seq<Route>, path: string): (meta: RouteMeta)
    ensures (forall k :: 0 <= k < |routes| ==> routes[k].path != path) ==> meta == RouteMeta(false, false)
    ensures meta != RouteMeta(false, false) ==> exists k :: 0 <= k < |routes| && routes[k].path == path && routes[k].meta == meta
  {
    if routes == [] then RouteMeta(false, false)
    else if routes[0].path == path then routes[0].meta
    else MetaIn(routes[1..], path)
  }

  /** The flags of the four routes. */
  lemma RouteTable()
    ensures MetaFor(HttpClient.LoginPath) == RouteMeta(true, false)
    ensures MetaFor("/register") == RouteMeta(true, false)
    ensures MetaFor("/email-verified") == RouteMeta(false, false)
    ensures MetaFor(HomePath) == RouteMeta(false, true)
  {
    var r1, r2, r3 := Routes[1..], Routes[2..], Routes[3..];
    assert r1[0] == Routes[1] && r1[1..] == r2 && r2[0] == Routes[2] && r2[1..] == r3 && r3[0] == Routes[3];
    assert "/register"[1] != HttpClient.LoginPath[1];
    assert "/email-verified"[1] != HttpClient.LoginPath[1] && "/email-verified"[1] != "/register"[1];
    assert |HomePath| == 1 && |HttpClient.LoginPath| == 6 && |"/register"| == 9 && |"/email-verified"| == 15;
    assert MetaIn(Routes, "/register") == MetaIn(r1, "/register");
    assert MetaIn(Routes, "/email-verified") == MetaIn(r1, "/email-verified") == MetaIn(r2, "/email-verified");
    assert MetaIn(Routes, HomePath) == MetaIn(r1, HomePath) == MetaIn(r2, HomePath) == MetaIn(r3, HomePath);
  }

  datatype Decision = Allow | Redirect(path: string)

  /** The decision on a route's flags once the session is known. */
  function Guard(meta: RouteMeta, loggedIn: bool): (d: Decision)
    ensures meta.authOnly && !loggedIn ==> d == Redirect(HttpClient.LoginPath)
    ensures !(meta.authOnly && !loggedIn) && meta.guestOnly && loggedIn ==> d == Redirect(HomePath)
    ensures d == Allow <==> !(meta.authOnly && !loggedIn) && !(meta.guestOnly && loggedIn)
  {
    if meta.authOnly && !loggedIn then Redirect(HttpClient.LoginPath)
    else if meta.guestOnly && loggedIn then Redirect(HomePath)
    else Allow
  }

  /** A redirect always lands on a page the same session is allowed to see: no redirect loops. */
  lemma NoRedirectLoop(path: string, loggedIn: bool)
    ensures Guard(MetaFor(path), loggedIn).Redirect? ==> Guard(MetaFor(Guard(MetaFor(path), loggedIn).path), loggedIn) == Allow
  {
    RouteTable();
  }

  /** Each page is reachable by exactly one kind of session, except the e-mail landing page, open to both. */
  lemma WhoSeesWhat(loggedIn: bool)
    ensures Guard(MetaFor(HomePath), loggedIn) == Allow <==> loggedIn
    ensures Guard(MetaFor(HttpClient.LoginPath), loggedIn) == Allow <==> !loggedIn
    ensures Guard(MetaFor("/register"), loggedIn) == Allow <==> !loggedIn
    ensures Guard(MetaFor("/email-verified"), loggedIn) == Allow
  {
    RouteTable();
  }

  /**
   * beforeEach: bootstrap the session first, then decide on the session it leaves.  Only
   * the first navigation ever asks the server who is logged in.
   */
  method BeforeEach(auth: Auth.AuthStore, path: string, me: Result<Auth.MeResponse, Value>) returns (d: Decision)
    requires auth.Valid()
    modifies auth, auth.storage
    ensures auth.Valid() && auth.bootstrapped && Auth.MeCalls(auth.calls) <= 1
    ensures old(auth.bootstrapped) ==> unchanged(auth) && unchanged(auth.storage)
    ensures d == Guard(MetaFor(path), auth.IsLoggedIn())
    ensures old(auth.Synced()) ==> auth.Synced()
  {
    auth.Bootstrap(me);
    d := Guard(MetaFor(path), auth.IsLoggedIn());
  }
}
