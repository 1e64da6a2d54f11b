/** The request context and error formatting of the GraphQL server: which token
    is verified for a request, and how a `ForbiddenError` reaches the client. */
module Session {
  import opened Wrappers
  import opened Types

  /** The kinds of error `jwt.verify` throws: a malformed or badly signed token,
      an expired one, one used before its `nbf` time, and anything else the
      library or the runtime may raise. */
  datatype JwtError =
    | JsonWebTokenError(message: string)
    | TokenExpiredError(expiredAt: int)
    | NotBeforeError(date: int)
    | OtherThrow(name: string)

  /** `jwt.verify(token, secret)`, section 7.2 of RFC 7519, left abstract: the
      decoded claim, or the error it throws. */
  type JwtVerify = (string, string) -> Result<AuthUser, JwtError>

  /** The signing secret the server verifies tokens against. */
  const SigningSecret := "TypeGraphQL"

  /** `verifyToken`: it never throws. A token that verifies against the signing
      secret yields its claim; every error, whatever its kind, yields no user. */
  function VerifyToken(jwt: JwtVerify, token: string): (user: Option<AuthUser>)
    ensures user.Some? <==> jwt(token, SigningSecret).Success?
    ensures user.Some? ==> user.value == jwt(token, SigningSecret).value
  {
    match jwt(token, SigningSecret)
    case Success(claim) => Some(claim)
    case Failure(_) => None
  }

  /** Only the signing secret matters: two verifiers that agree on the token
      under that secret, and may differ under any other, give the same user;
      and two verifiers that both throw on the token give the same (absent)
      user, however differently they fail. */
  lemma VerifyTokenDependsOnOutcomeOnly(jwt1: JwtVerify, jwt2: JwtVerify, token: string)
    requires jwt1(token, SigningSecret) == jwt2(token, SigningSecret)
          || (jwt1(token, SigningSecret).Failure? && jwt2(token, SigningSecret).Failure?)
    ensures VerifyToken(jwt1, token) == VerifyToken(jwt2, token)
  {
  }

  /** `connection.context` of a subscription connection. */
  datatype Connection = Connection(authorization: Option<string>)

  /** The HTTP request, reduced to its `authorization` header. */
  datatype Request = Request(authorization: Option<string>)

  /** What the server hands to the context function: a subscription connection
      if the operation arrived over one, and the HTTP request. */
  datatype ContextInput = ContextInput(connection: Option<Connection>, req: Request)

  datatype Context = Context(req: Request, user: Option<AuthUser>)

  /** The token the context function consults, if it consults one: the
      connection's when a connection is present, the header's otherwise. */
  function ConsultedToken(input: ContextInput): Option<string> {
    if input.connection.Some? then input.connection.value.authorization else input.req.authorization
  }

  /** The `context` function. */
  function BuildContext(jwt: JwtVerify, input: ContextInput): (ctx: Context)
    ensures ctx.req == input.req
    ensures !Truthy(ConsultedToken(input)) ==> ctx.user.None?
    ensures Truthy(ConsultedToken(input)) ==> ctx.user == VerifyToken(jwt, ConsultedToken(input).value)
    ensures ctx.user.Some? ==> exists t :: Truthy(Some(t)) && jwt(t, SigningSecret) == Success(ctx.user.value)
  {
    var user :=
      if input.connection.Some? then
        if Truthy(input.connection.value.authorization) then
          VerifyToken(jwt, input.connection.value.authorization.value)
        else None
      else if Truthy(input.req.authorization) then
        VerifyToken(jwt, input.req.authorization.value)
      else None;
    Context(input.req, user)
  }

  /** Over a subscription connection the HTTP header is ignored, even when set. */
  lemma ConnectionOverridesHeader(jwt: JwtVerify, c: Connection, r1: Request, r2: Request)
    ensures BuildContext(jwt, ContextInput(Some(c), r1)).user == BuildContext(jwt, ContextInput(Some(c), r2)).user
  {
  }

  /** Both places a token can travel funnel into the same verification. */
  lemma SameTokenSameUser(jwt: JwtVerify, token: string)
    ensures BuildContext(jwt, ContextInput(Some(Connection(Some(token))), Request(None))).user
         == BuildContext(jwt, ContextInput(None, Request(Some(token)))).user
  {
  }

  /** The error classes the formatter distinguishes: type-graphql's
      `ForbiddenError` and anything else. */
  datatype OriginalError = ForbiddenError(message: string) | OtherError(name: string, message: string)

  datatype GraphQLError = GraphQLError(message: string, originalError: Option<OriginalError>)

  const NotAuthenticatedMsg := "No estas autenticado, verifica el token de acceso."

  predicate IsForbidden(e: GraphQLError) {
    e.originalError.Some? && e.originalError.value.ForbiddenError?
  }

  /** `formatError`: a forbidden error becomes a plain error with the fixed
      message; every other error passes through unchanged. */
  function FormatError(e: GraphQLError): (r: GraphQLError)
    ensures IsForbidden(e) ==> r.message == NotAuthenticatedMsg && r.originalError.None?
    ensures !IsForbidden(e) ==> r == e
    ensures !IsForbidden(r)
  {
    if IsForbidden(e) then GraphQLError(NotAuthenticatedMsg, None) else e
  }

  /** Formatting twice is formatting once. */
  lemma FormatErrorIdempotent(e: GraphQLError)
    ensures FormatError(FormatError(e)) == FormatError(e)
  {
  }
}
