/**
 * The `checkAuth` middleware: it reads the Authorization header, strips the `Bearer ` prefix,
 * asks the identity provider for the token's user, and either answers the request itself or
 * attaches the user and passes the request on. The provider is a function parameter.
 */
module AuthGuard {
  import opened Common
  import opened Js
  import opened TaskModel
  import opened Api

  /** How the provider's `getUser(token)` ended. */
  datatype ProviderReply =
    | ProviderError        // `error` is set
    | NoUser               // no error, but `data?.user` is missing
    | Found(user: User)    // the token's user
    | ProviderThrew        // the call rejected

  const NO_TOKEN := Response(401, Message("No token provided"))
  const INVALID_TOKEN := Response(401, Message("Invalid token"))
  const AUTH_FAILURE := Response(500, Message("Auth failure"))

  const BEARER: string := "Bearer "

  /** `authHeader.replace('Bearer ', '')`. */
  function StripBearer(header: string): string {
    ReplaceFirst(header, BEARER, "")
  }

  /** A `Bearer <t>` header yields the token `t`. */
  lemma BearerToken(t: string)
    ensures StripBearer(BEARER + t) == t
  {
    var h := BEARER + t;
    assert h[0..|BEARER|] == BEARER;
    ReplaceFirstAt(h, BEARER, "", 0);
    assert h[|BEARER|..] == t;
  }

  /** Only the first `Bearer ` is removed: a doubled prefix leaves one behind. */
  lemma BearerStrippedOnce(t: string)
    ensures StripBearer(BEARER + BEARER + t) == BEARER + t
  {
    BearerToken(BEARER + t);
    assert BEARER + BEARER + t == BEARER + (BEARER + t);
  }

  /** A header without `Bearer ` anywhere in it is passed to the provider as it is. */
  lemma BareToken(h: string)
    requires forall j | 0 <= j <= |h| :: !OccursAt(h, BEARER, j)
    ensures StripBearer(h) == h
  {
    ReplaceFirstAbsent(h, BEARER, "");
  }

  /** The middleware either rejects with a response or accepts the provider's user. */
  datatype Decision = Reject(response: Response) | Accept(user: User)

  /**
   * The decision chain. A missing or empty header is refused before the provider is asked;
   * the provider's error or a missing user gives 401, its exception 500; only a user the
   * provider returns for the stripped token is accepted, and it is that user.
   */
  function Decide(header: Option<string>, getUser: string -> ProviderReply): (d: Decision)
    ensures header.None? || header.value == "" ==> d == Reject(NO_TOKEN)
    ensures header.Some? && header.value != "" ==>
      match getUser(StripBearer(header.value))
      case Found(u) => d == Accept(u)
      case ProviderThrew => d == Reject(AUTH_FAILURE)
      case _ => d == Reject(INVALID_TOKEN)
    ensures d.Accept? <==> header.Some? && header.value != "" && getUser(StripBearer(header.value)).Found?
    ensures d.Reject? ==> d.response.status == 401 || d.response.status == 500
  {
    if header.None? || header.value == "" then
      Reject(NO_TOKEN)
    else
      match getUser(StripBearer(header.value))
      case ProviderError => Reject(INVALID_TOKEN)
      case NoUser => Reject(INVALID_TOKEN)
      case Found(u) => Accept(u)
      case ProviderThrew => Reject(AUTH_FAILURE)
  }

  /** Without a header the provider is never consulted: every provider gives the same answer. */
  lemma NoHeaderIgnoresProvider(g1: string -> ProviderReply, g2: string -> ProviderReply)
    ensures Decide(None, g1) == Decide(None, g2) == Reject(NO_TOKEN)
    ensures Decide(Some(""), g1) == Decide(Some(""), g2) == Reject(NO_TOKEN)
  {
  }

  /** With a `Bearer <t>` header, the provider is asked about `t` itself. */
  lemma BearerHeaderAsksForToken(t: string, getUser: string -> ProviderReply)
    ensures Decide(Some(BEARER + t), getUser).Accept? <==> getUser(t).Found?
    ensures getUser(t).Found? ==> Decide(Some(BEARER + t), getUser) == Accept(getUser(t).user)
  {
    BearerToken(t);
  }

  /** What the middleware does with the request: it answers it, or it calls `next()`. */
  datatype Step = Respond(response: Response) | CallNext

  /** The request as the middleware sees it: its Authorization header and the user slot. */
  class Request {
    const authorization: Option<string>
    var user: Option<User>

    constructor (authorization: Option<string>)
      ensures this.authorization == authorization && user == None
    {
      this.authorization := authorization;
      user := None;
    }
  }

  /**
   * `checkAuth(req, res, next)`: exactly one of answering and calling `next` happens. On
   * acceptance `req.user` becomes the provider's user; on rejection the request is untouched.
   */
  method CheckAuth(req: Request, getUser: string -> ProviderReply) returns (step: Step)
    modifies req
    ensures var d := Decide(req.authorization, getUser);
      && (step.CallNext? <==> d.Accept?)
      && (d.Accept? ==> req.user == Some(d.user))
      && (d.Reject? ==> step == Respond(d.response) && req.user == old(req.user))
  {
    var authHeader := req.authorization;
    if authHeader.None? || authHeader.value == "" {
      return Respond(NO_TOKEN);
    }
    var token := StripBearer(authHeader.value);
    var reply := getUser(token);
    match reply {
      case ProviderThrew =>
        return Respond(AUTH_FAILURE);
      case Found(u) =>
        req.user := Some(u);
        return CallNext;
      case _ =>
        return Respond(INVALID_TOKEN);
    }
  }
}
