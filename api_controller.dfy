/**
 * What every API controller shares: the responses it renders, the request
 * it reads (its headers and the per-request memo of the auth token), and the
 * `authorize` gate that resolves the acting user from the `tb-auth-token`
 * header.
 */
module ApiController {
  import opened Wrappers
  import opened Rows
  import opened Store

  const AuthTokenHeader: string := "tb-auth-token"
  const ValidationFailedMessage: string := "Validation Failed"

  /** The JSON a handler renders. */
  datatype Body =
    | NoBody
    | ValidationFailed(message: string, errors: seq<string>)
    | UserCreated(id: nat, authToken: string)
    | EventId(id: nat)
    | EventShown(event: EventRow)

  datatype Response = Response(status: int, body: Body)

  /** What `authorize` does: halt with a rendered response, or run its block with the resolved user. */
  datatype Authorization = Halted(response: Response) | Proceed(user: Option<UserRow>)

  /** The value of header `name`, nil when the request does not carry it. */
  function Header(headers: map<string, string>, name: string): (r: Option<string>)
    ensures r.Some? <==> name in headers
    ensures r.Some? ==> r.value == headers[name]
  {
    if name in headers then Some(headers[name]) else None
  }

  /**
   * `authorize`: without a token it renders an empty 401 and the block does
   * not run; with any token, even one no user has, the block runs with
   * `User.find_by(auth_token: token)`, which is nil for an unknown token.
   */
  function Authorized(users: seq<UserRow>, token: Option<string>): (a: Authorization)
    ensures a.Halted? <==> token.None?
    ensures a.Halted? ==> a.response == Response(401, NoBody)
    ensures a.Proceed? && a.user.Some? ==> a.user.value in users && a.user.value.authToken == token.value
    ensures a.Proceed? && a.user.None? ==> forall u :: u in users ==> u.authToken != token.value
  {
    match token
    case None => Halted(Response(401, NoBody))
    case Some(t) => Proceed(UserByAuthToken(users, t))
  }

  /** A request: its headers, and the controller's `@authorization_token` memo. */
  class Request {
    const headers: map<string, string>
    var authorizationToken: Option<string>

    constructor (headers: map<string, string>)
      ensures this.headers == headers && authorizationToken.None? && Valid()
    {
      this.headers := headers;
      authorizationToken := None;
    }

    /** The memo, once set, holds the header's value. */
    predicate Valid()
      reads this
    {
      authorizationToken.None? || authorizationToken == AuthorizationHeader()
    }

    /** `authorization_header`: the token comes from the `tb-auth-token` header and nowhere else. */
    function AuthorizationHeader(): (r: Option<string>)
      ensures r.Some? <==> AuthTokenHeader in headers
      ensures r.Some? ==> r.value == headers[AuthTokenHeader]
    {
      Header(headers, AuthTokenHeader)
    }

    /** `authorization_token`: reads the header the first time and remembers it. */
    method AuthorizationToken() returns (token: Option<string>)
      requires Valid()
      modifies this
      ensures Valid()
      ensures token == AuthorizationHeader()
      ensures old(authorizationToken).Some? ==> authorizationToken == old(authorizationToken)
      ensures authorizationToken == token
    {
      if authorizationToken.None? {
        authorizationToken := AuthorizationHeader();
      }
      token := authorizationToken;
    }
  }

  /** `authorize`: reads the store, writes only the request's memo. */
  method Authorize(request: Request, store: Tables) returns (a: Authorization)
    requires request.Valid()
    modifies request
    ensures request.Valid()
    ensures a == Authorized(store.users, request.AuthorizationHeader())
  {
    var token := request.AuthorizationToken();
    if token.Some? {
      a := Proceed(UserByAuthToken(store.users, token.value));
    } else {
      a := Halted(Response(401, NoBody));
    }
  }
}
