/**
 * The client's route table and the redirect rule of its navigation guard, as pure data and
 * a pure decision over the target route and whether a user is signed in.
 */
module Navigation {

  datatype RouteName = Login | Dashboard | Tasks | NotFound

  /** The route a path resolves to: three fixed paths, and the catch-all for everything else. */
  function Resolve(path: string): (r: RouteName)
    ensures r == Login <==> path == "/"
    ensures r == Dashboard <==> path == "/dashboard"
    ensures r == Tasks <==> path == "/tasks"
  {
    if path == "/" then Login
    else if path == "/dashboard" then Dashboard
    else if path == "/tasks" then Tasks
    else NotFound
  }

  /** `meta.requiresAuth`: set on the dashboard and the tasks page only. */
  predicate RequiresAuth(r: RouteName) {
    r == Dashboard || r == Tasks
  }

  /** The path each named route is declared with; NotFound stands for every other path. */
  function PathOf(r: RouteName): string
    requires r != NotFound
  {
    match r
    case Login => "/"
    case Dashboard => "/dashboard"
    case Tasks => "/tasks"
  }

  lemma ResolveRoundTrip(r: RouteName)
    requires r != NotFound
    ensures Resolve(PathOf(r)) == r
  {
  }

  /** Whatever path is not one of the three declared ones is NotFound, which needs no sign-in. */
  lemma UndeclaredIsNotFound(path: string)
    requires path != "/" && path != "/dashboard" && path != "/tasks"
    ensures Resolve(path) == NotFound && !RequiresAuth(Resolve(path))
  {
  }

  /** What the guard tells the router: go on, or go to another named route instead. */
  datatype Decision = Proceed | Redirect(target: RouteName)

  /**
   * The redirect rule: a protected route without a user goes to Login, Login with a user goes
   * to the dashboard, and every other navigation proceeds.
   */
  function Guard(to: RouteName, signedIn: bool): (d: Decision)
    ensures d == Redirect(Login) <==> RequiresAuth(to) && !signedIn
    ensures d == Redirect(Dashboard) <==> to == Login && signedIn
    ensures d == Proceed <==> (RequiresAuth(to) ==> signedIn) && (to == Login ==> !signedIn)
  {
    if RequiresAuth(to) && !signedIn then Redirect(Login)
    else if to == Login && signedIn then Redirect(Dashboard)
    else Proceed
  }

  /** The catch-all page is never redirected away from. */
  lemma NotFoundProceeds(signedIn: bool)
    ensures Guard(NotFound, signedIn) == Proceed
  {
  }

  /** A redirect's target is accepted under the same sign-in state, so the guard never loops. */
  lemma {:induction false} RedirectSettles(to: RouteName, signedIn: bool)
    requires Guard(to, signedIn).Redirect?
    ensures Guard(Guard(to, signedIn).target, signedIn) == Proceed
    ensures Guard(to, signedIn).target != to
  {
    if signedIn {
      assert Guard(to, signedIn) == Redirect(Dashboard);
    } else {
      assert Guard(to, signedIn) == Redirect(Login);
    }
  }
}
