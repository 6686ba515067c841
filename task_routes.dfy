/**
 * The task router: `checkAuth` is mounted in front of every route, then GET and POST on `/`
 * and PUT and DELETE on `/:id` reach the four handlers. A path is taken as its list of
 * segments below the mount point (`/` is `[]`, `/7` is `["7"]`).
 */
module TaskRoutes {
  import opened Common
  import opened Js
  import opened TaskModel
  import opened Api
  import opened TaskController
  import opened AuthGuard

  /**
   * The request method. `OtherMethod` carries the name of any method other than the five
   * listed before it, never one of theirs.
   */
  datatype HttpMethod = Get | Head | Post | Put | Delete | OtherMethod(name: string)

  /** A handler together with the `:id` parameter the route extracted. */
  datatype Route = ListTasks | CreateTask | UpdateTask(id: string) | DeleteTask(id: string)

  /**
   * The route table: GET and POST match only `/`; PUT and DELETE match only a single
   * non-empty segment, which becomes `req.params.id`; every other request matches nothing.
   * Express answers HEAD with the GET route when no HEAD route is declared, so HEAD `/`
   * reaches the list handler too.
   */
  function Dispatch(m: HttpMethod, segments: seq<string>): (r: Option<Route>)
    ensures r == Some(ListTasks) <==> (m == Get || m == Head) && segments == []
    ensures r == Some(CreateTask) <==> m == Post && segments == []
    ensures r.Some? && r.value.UpdateTask? <==> m == Put && |segments| == 1 && segments[0] != ""
    ensures r.Some? && r.value.DeleteTask? <==> m == Delete && |segments| == 1 && segments[0] != ""
    ensures r.Some? && (r.value.UpdateTask? || r.value.DeleteTask?) ==> r.value.id == segments[0]
  {
    match m
    case Get => if segments == [] then Some(ListTasks) else None
    case Head => if segments == [] then Some(ListTasks) else None
    case Post => if segments == [] then Some(CreateTask) else None
    case Put => if |segments| == 1 && segments[0] != "" then Some(UpdateTask(segments[0])) else None
    case Delete => if |segments| == 1 && segments[0] != "" then Some(DeleteTask(segments[0])) else None
    case OtherMethod(_) => None
  }

  function MethodOf(r: Route): HttpMethod {
    match r
    case ListTasks => Get
    case CreateTask => Post
    case UpdateTask(_) => Put
    case DeleteTask(_) => Delete
  }

  function PathOf(r: Route): seq<string> {
    match r
    case ListTasks => []
    case CreateTask => []
    case UpdateTask(id) => [id]
    case DeleteTask(id) => [id]
  }

  /** Every route is reached by its own method and path, with the id it was given. */
  lemma DispatchRoundTrip(r: Route)
    requires (r.UpdateTask? || r.DeleteTask?) ==> r.id != ""
    ensures Dispatch(MethodOf(r), PathOf(r)) == Some(r)
  {
  }

  /**
   * A request matched by the table was made with that route's path and with its method, or
   * with HEAD in place of GET.
   */
  lemma DispatchInverse(m: HttpMethod, segments: seq<string>)
    requires Dispatch(m, segments).Some?
    ensures MethodOf(Dispatch(m, segments).value) == m || (m == Head && MethodOf(Dispatch(m, segments).value) == Get)
    ensures PathOf(Dispatch(m, segments).value) == segments
  {
    var r := Dispatch(m, segments).value;
    if r.UpdateTask? || r.DeleteTask? {
      assert segments == [segments[0]];
    }
  }

  /** Where a request ends up once it enters the router. */
  datatype Stage =
    | Refused(response: Response)          // the guard answered
    | Unrouted(user: User)                 // the guard passed it, no route matched: `next()` out of the router
    | Invoke(route: Route, user: User)     // the guard passed it to a handler

  /**
   * The guard runs first on every request, matched or not; a handler is invoked only for a
   * request the guard accepted, and with the user the guard attached.
   */
  function Pipeline(header: Option<string>, getUser: string -> ProviderReply, m: HttpMethod,
                    segments: seq<string>): (s: Stage)
    ensures s.Refused? <==> Decide(header, getUser).Reject?
    ensures s.Refused? ==> s.response == Decide(header, getUser).response
    ensures s.Invoke? ==> Decide(header, getUser) == Accept(s.user) && Dispatch(m, segments) == Some(s.route)
    ensures s.Unrouted? ==> Decide(header, getUser) == Accept(s.user) && Dispatch(m, segments).None?
  {
    match Decide(header, getUser)
    case Reject(resp) => Refused(resp)
    case Accept(u) =>
      match Dispatch(m, segments)
      case None => Unrouted(u)
      case Some(r) => Invoke(r, u)
  }

  /** No handler, on any path and with any method, is reached without passing the guard. */
  lemma NoHandlerWithoutGuard(header: Option<string>, getUser: string -> ProviderReply,
                               m: HttpMethod, segments: seq<string>)
    requires Decide(header, getUser).Reject?
    ensures !Pipeline(header, getUser, m, segments).Invoke?
    ensures Pipeline(header, getUser, m, segments) == Refused(Decide(header, getUser).response)
  {
  }

  /** A request without an Authorization header is refused with 401 whatever it asks for. */
  lemma MissingHeaderRefused(getUser: string -> ProviderReply, m: HttpMethod, segments: seq<string>)
    ensures Pipeline(None, getUser, m, segments) == Refused(NO_TOKEN)
  {
  }

  /**
   * Serving one request: the guard, then the matched handler on the table. `None` is a
   * request no route matched, which the router hands back to the application. The path id
   * is read by `parseNumber`, standing for `Number(req.params.id)`.
   */
  method Serve(table: TaskTable, req: Request, getUser: string -> ProviderReply, m: HttpMethod,
               segments: seq<string>, parseNumber: string -> Number, body: TaskBody,
               outcome: StoreOutcome, createdAt: int) returns (resp: Option<Response>)
    requires table.Valid()
    modifies table, req
    ensures table.Valid()
    ensures var s := Pipeline(req.authorization, getUser, m, segments);
      && (s.Refused? ==> resp == Some(s.response) && unchanged(table) && req.user == old(req.user))
      && (s.Unrouted? ==> resp.None? && unchanged(table) && req.user == Some(s.user))
      && (s.Invoke? ==> resp.Some? && req.user == Some(s.user))
      && (s.Invoke? ==>
            var u := Some(s.user);
            match s.route
            case ListTasks =>
              ListAnswer(old(table.rows), u, outcome, resp.value) && unchanged(table)
            case CreateTask =>
              CreateEffect(old(table.rows), old(table.nextId), u, body, outcome, createdAt,
                           resp.value, table.rows, table.nextId)
            case UpdateTask(id) =>
              UpdateEffect(old(table.rows), u, parseNumber(id), body, outcome, resp.value, table.rows)
              && table.nextId == old(table.nextId)
            case DeleteTask(id) =>
              DeleteEffect(old(table.rows), u, parseNumber(id), outcome, resp.value, table.rows)
              && table.nextId == old(table.nextId))
      && (table.rows != old(table.rows) ==> s.Invoke? && s.route != ListTasks && s.user.id != "")
  {
    var step := CheckAuth(req, getUser);
    if step.Respond? {
      return Some(step.response);
    }
    var route := Dispatch(m, segments);
    if route.None? {
      return None;
    }
    var r: Response;
    match route.value {
      case ListTasks =>
        r := table.GetAllTasks(req.user, outcome);
      case CreateTask =>
        r := table.CreateTask(req.user, body, outcome, createdAt);
      case UpdateTask(id) =>
        r := table.UpdateTask(req.user, parseNumber(id), body, outcome);
      case DeleteTask(id) =>
        r := table.DeleteTask(req.user, parseNumber(id), outcome);
    }
    resp := Some(r);
  }
}
