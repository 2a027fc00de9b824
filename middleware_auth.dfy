/** The two Express middlewares: `authenticate` checks the `Authorization: Bearer
    <token>` header (the header form of section 2.1 of RFC 6750) and attaches the
    token's payload to the request; `requireAdmin` lets only ADMIN users through.
    Token verification (a JSON Web Token, RFC 7519) is the parameter `verify`:
    it yields the payload of a valid token and `None` where the library throws. */
module Middleware {
  import opened Common
  import opened Strings
  import opened Http

  /** The payload `{ id, role }` signed into a token and read back as `req.user`. */
  datatype Claims = Claims(id: string, role: string)

  /** A middleware's decision: hand the request on with this user, or answer it. */
  datatype Gate = Pass(user: Claims) | Deny(error: ApiError)

  const BEARER_PREFIX: string := "Bearer "
  const ADMIN_ROLE: string := "ADMIN"

  /** `authHeader.startsWith('Bearer ')`: case-sensitive, space included. */
  predicate IsBearer(header: string)
    ensures IsBearer(header) <==> |header| >= 7 && header[..7] == "Bearer "
  {
    BEARER_PREFIX <= header
  }

  /** `authHeader.split(' ')[1]`, taken only after the prefix check: the text after
      "Bearer " up to the next space or the end of the header. */
  function BearerToken(header: string): (token: string)
    requires IsBearer(header)
    ensures var rest := header[|BEARER_PREFIX|..];
      token <= rest && ' ' !in token && (|token| == |rest| || rest[|token|] == ' ')
  {
    var rest := header[|BEARER_PREFIX|..];
    assert header == "Bearer" + [' '] + rest;
    SplitAfterField("Bearer", rest, ' ');
    FirstFieldIsLongestPrefix(rest, ' ');
    Split(header, ' ')[1]
  }

  /** The decision `authenticate` takes for a request with this Authorization header. */
  function Authentication(authorization: Option<string>, verify: string -> Option<Claims>): (g: Gate)
    ensures g.Deny? ==> g.error.status == 401
  {
    if authorization.None? || !IsBearer(authorization.value) then Deny(UNAUTHORIZED)
    else
      match verify(BearerToken(authorization.value))
      case None => Deny(INVALID_TOKEN)
      case Some(claims) => Pass(claims)
  }

  /** `req.user?.role === 'ADMIN'`: a missing user is not an admin. */
  predicate IsAdmin(user: Option<Claims>)
    ensures IsAdmin(user) ==> user.Some? && user.value.role == "ADMIN"
    ensures user.None? ==> !IsAdmin(user)
  {
    user.Some? && user.value.role == ADMIN_ROLE
  }

  /** The decision of the chain `authenticate, requireAdmin` that guards the admin
      routes and event creation. */
  function AdminGate(authorization: Option<string>, verify: string -> Option<Claims>): (g: Gate)
    ensures g.Pass? ==> g.user.role == ADMIN_ROLE
  {
    match Authentication(authorization, verify)
    case Deny(e) => Deny(e)
    case Pass(user) => if IsAdmin(Some(user)) then Pass(user) else Deny(FORBIDDEN)
  }

  /** A missing header, or one that does not start with exactly "Bearer ", is
      answered 401 "Unauthorized" before any token is looked at. */
  lemma RejectsWithoutBearer(authorization: Option<string>, verify: string -> Option<Claims>)
    requires authorization.None? || !IsBearer(authorization.value)
    ensures Authentication(authorization, verify) == Deny(UNAUTHORIZED)
  {
  }

  /** `authenticate` passes the request on exactly when the header carries the
      Bearer prefix and its token verifies, and then with the token's own payload;
      a token that fails verification is answered 401 "Invalid token". */
  lemma AuthenticationPassIff(authorization: Option<string>, verify: string -> Option<Claims>)
    ensures Authentication(authorization, verify).Pass?
        <==> authorization.Some? && IsBearer(authorization.value)
             && verify(BearerToken(authorization.value)).Some?
    ensures Authentication(authorization, verify).Pass? ==>
              Some(Authentication(authorization, verify).user) == verify(BearerToken(authorization.value))
    ensures authorization.Some? && IsBearer(authorization.value)
            && verify(BearerToken(authorization.value)).None?
            ==> Authentication(authorization, verify) == Deny(INVALID_TOKEN)
  {
  }

  /** The admin chain lets a request through if and only if it is authenticated and
      the token's role is exactly "ADMIN"; an authenticated non-admin gets 403, and
      an unauthenticated request gets the 401 of `authenticate`. */
  lemma AdminGatePassIff(authorization: Option<string>, verify: string -> Option<Claims>)
    ensures AdminGate(authorization, verify).Pass?
        <==> Authentication(authorization, verify).Pass?
             && Authentication(authorization, verify).user.role == ADMIN_ROLE
    ensures Authentication(authorization, verify).Deny? ==>
              AdminGate(authorization, verify) == Authentication(authorization, verify)
    ensures Authentication(authorization, verify).Pass? && !IsAdmin(Some(Authentication(authorization, verify).user)) ==>
              AdminGate(authorization, verify) == Deny(FORBIDDEN)
  {
  }

  /** An Express request as the middlewares see it: the Authorization header, the
      `user` field that `authenticate` assigns, how many times `next` has been called,
      and the error answer, if one was sent. */
  class Request {
    const authorization: Option<string>
    var user: Option<Claims>
    var nextCalls: nat
    var answer: Option<ApiError>

    constructor (authorization: Option<string>)
      ensures this.authorization == authorization
      ensures user == None && nextCalls == 0 && answer == None
    {
      this.authorization := authorization;
      user := None;
      nextCalls := 0;
      answer := None;
    }

    /** `authenticate(req, res, next)`: on success `req.user` becomes the decoded
        payload and `next` is called once; otherwise a 401 is sent, `req.user` is
        left as it was and `next` is not called. */
    method Authenticate(verify: string -> Option<Claims>)
      modifies this
      ensures Authentication(authorization, verify).Pass? ==>
                user == Some(Authentication(authorization, verify).user)
                && nextCalls == old(nextCalls) + 1 && answer == old(answer)
      ensures Authentication(authorization, verify).Deny? ==>
                user == old(user) && nextCalls == old(nextCalls)
                && answer == Some(Authentication(authorization, verify).error)
    {
      if authorization.None? || !IsBearer(authorization.value) {
        answer := Some(UNAUTHORIZED);
        return;
      }
      var token := BearerToken(authorization.value);
      var decoded := verify(token);
      if decoded.None? {
        answer := Some(INVALID_TOKEN);
        return;
      }
      user := decoded;
      nextCalls := nextCalls + 1;
    }

    /** `requireAdmin(req, res, next)`: calls `next` if and only if `req.user` is
        present with role exactly "ADMIN"; otherwise answers 403. */
    method RequireAdmin()
      modifies this
      ensures user == old(user)
      ensures IsAdmin(user) ==> nextCalls == old(nextCalls) + 1 && answer == old(answer)
      ensures !IsAdmin(user) ==> nextCalls == old(nextCalls) && answer == Some(FORBIDDEN)
    {
      if user.None? || user.value.role != ADMIN_ROLE {
        answer := Some(FORBIDDEN);
        return;
      }
      nextCalls := nextCalls + 1;
    }
  }

  /** Runs `authenticate` on a fresh request and, when `admin` is set, `requireAdmin`
      after it, as Express runs a route's middleware list. The route's handler is
      reached when the result is `Pass`, and then with `req.user` as its user. */
  method RunChain(authorization: Option<string>, verify: string -> Option<Claims>, admin: bool)
    returns (g: Gate)
    ensures g == if admin then AdminGate(authorization, verify) else Authentication(authorization, verify)
  {
    var req := new Request(authorization);
    req.Authenticate(verify);
    if req.nextCalls == 0 {
      return Deny(req.answer.value);
    }
    if admin {
      req.RequireAdmin();
      if req.nextCalls == 1 {
        return Deny(req.answer.value);
      }
    }
    return Pass(req.user.value);
  }
}
