/**
 * The client's auth store: the signed-in user, the provider's session, a loading flag, the
 * last error, and a flag that stops the auth-change listener from being registered twice.
 * The provider's answers are inputs; a navigation the store starts is returned.
 */
module AuthStore {
  import opened Common
  import opened TaskModel
  import opened Navigation

  datatype Session = Session(user: Option<User>, accessToken: string)

  /** `session?.user ?? null`. */
  function UserOf(session: Option<Session>): Option<User> {
    match session
    case None => None
    case Some(s) => s.user
  }

  /** What `getSession()` answered: an error with its message, or the current session, if any. */
  datatype SessionReply = SessionError(message: string) | SessionFound(session: Option<Session>)

  /** The auth-change events; only two of them navigate. */
  datatype AuthEvent = SignedIn | SignedOut | TokenRefreshed | UserUpdated | InitialSession | PasswordRecovery

  /** Where the listener sends the router after copying the event's session. */
  function EventTarget(event: AuthEvent): Option<RouteName> {
    match event
    case SignedIn => Some(Dashboard)
    case SignedOut => Some(Login)
    case _ => None
  }

  class Store {
    var user: Option<User>
    var session: Option<Session>
    var loading: bool
    var error: Option<string>
    var listenerBound: bool
    /** How many auth-change listeners the provider holds for this store. */
    var listeners: nat

    /** The user always comes from the session, and the listener is registered once when bound. */
    ghost predicate Valid()
      reads this
    {
      && user == UserOf(session)
      && listeners == (if listenerBound then 1 else 0)
    }

    constructor ()
      ensures Valid()
      ensures user == None && session == None && !loading && error == None && !listenerBound
    {
      user := None;
      session := None;
      loading := false;
      error := None;
      listenerBound := false;
      listeners := 0;
    }

    /** `isAuthenticated`: `!!state.user`. */
    predicate IsAuthenticated()
      reads this
    {
      user.Some?
    }

    /**
     * `init()`: a session found replaces the store's, the listener is registered if it was
     * not yet, and a user sitting on the login page is sent to the dashboard; an error clears
     * both session and user and records the message.
     */
    method Init(reply: SessionReply, currentRoute: RouteName) returns (nav: Option<RouteName>)
      requires Valid()
      modifies this
      ensures Valid() && !loading
      ensures reply.SessionFound? ==>
        && session == reply.session && user == UserOf(reply.session) && error == None
        && listenerBound && listeners == 1
        && nav == (if user.Some? && currentRoute == Login then Some(Dashboard) else None)
      ensures reply.SessionError? ==>
        && session == None && user == None && error == Some(reply.message)
        && listenerBound == old(listenerBound) && listeners == old(listeners)
        && nav == None
    {
      loading := true;
      error := None;
      nav := None;
      if reply.SessionError? {
        error := Some(reply.message);
        session := None;
        user := None;
      } else {
        session := reply.session;
        user := UserOf(reply.session);
        if user.Some? && currentRoute == Login {
          nav := Some(Dashboard);
        }
        if !listenerBound {
          listenerBound := true;
          listeners := listeners + 1;
        }
      }
      loading := false;
    }

    /**
     * The auth-change listener: it always copies the event's session and its user, then
     * navigates for sign-in and sign-out only.
     */
    method OnAuthStateChange(event: AuthEvent, newSession: Option<Session>) returns (nav: Option<RouteName>)
      requires Valid() && listenerBound
      modifies this`session, this`user
      ensures Valid()
      ensures session == newSession && user == UserOf(newSession)
      ensures nav == EventTarget(event)
    {
      session := newSession;
      user := UserOf(newSession);
      nav := EventTarget(event);
    }

    /**
     * `signInWithGoogle()`: starts the provider's redirect and never touches user or session;
     * a refusal is recorded as the error.
     */
    method SignInWithGoogle(refusal: Option<string>)
      requires Valid()
      modifies this`loading, this`error
      ensures Valid() && !loading
      ensures error == refusal
    {
      loading := true;
      error := None;
      if refusal.Some? {
        error := Some(refusal.value);
      }
      loading := false;
    }

    /** `signOut()`: success clears session and user; a refusal keeps them and records the error. */
    method SignOut(refusal: Option<string>)
      requires Valid()
      modifies this`loading, this`error, this`session, this`user
      ensures Valid() && !loading
      ensures refusal.None? ==> session == None && user == None && error == None
      ensures refusal.Some? ==> session == old(session) && user == old(user) && error == refusal
    {
      loading := true;
      error := None;
      if refusal.Some? {
        error := Some(refusal.value);
      } else {
        session := None;
        user := None;
      }
      loading := false;
    }
  }

  /** Two sessions found in a row still leave one listener registered, not two. */
  method InitTwice(store: Store, first: SessionReply, second: SessionReply, route: RouteName)
    requires store.Valid() && first.SessionFound?
    modifies store
    ensures store.Valid() && store.listenerBound && store.listeners == 1
  {
    var _ := store.Init(first, route);
    var _ := store.Init(second, route);
  }
}
