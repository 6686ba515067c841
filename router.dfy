/**
 * The router's `beforeEach` hook: it loads the session first when no user is known and no
 * load is under way, then applies the redirect rule to the user the auth store now holds.
 */
module Router {
  import opened Common
  import opened Navigation
  import opened AuthStore

  /**
   * One navigation from `from` to `to`. `reply` is what `getSession()` would answer if the
   * hook runs `init`; `initNav` is the navigation `init` itself starts, if any.
   */
  method BeforeEach(auth: Store, to: RouteName, from: RouteName, reply: SessionReply)
    returns (d: Decision, ranInit: bool, initNav: Option<RouteName>)
    requires auth.Valid()
    modifies auth
    ensures auth.Valid()
    ensures ranInit <==> old(auth.user).None? && !old(auth.loading)
    ensures !ranInit ==> unchanged(auth) && initNav.None?
    ensures ranInit ==> !auth.loading && match reply
      case SessionFound(session) =>
        && auth.session == session && auth.user == UserOf(session) && auth.error == None
        && auth.listenerBound && auth.listeners == 1
        && initNav == (if auth.user.Some? && from == Login then Some(Dashboard) else None)
      case SessionError(message) =>
        && auth.session == None && auth.user == None && auth.error == Some(message)
        && auth.listenerBound == old(auth.listenerBound) && auth.listeners == old(auth.listeners)
        && initNav == None
    ensures d == Guard(to, auth.user.Some?)
  {
    ranInit := auth.user.None? && !auth.loading;
    initNav := None;
    if ranInit {
      initNav := auth.Init(reply, from);
    }
    if RequiresAuth(to) && auth.user.None? {
      return Redirect(Login), ranInit, initNav;
    }
    if to == Login && auth.user.Some? {
      return Redirect(Dashboard), ranInit, initNav;
    }
    d := Proceed;
  }
}
