/** The authentication interceptor (`AuthInterceptor`): on the way out it
    attaches the bearer token and a default content type; on the way back it
    turns 401, 403 and 5xx failures into messages, and a 401 also signs the
    user out and sends the browser to the login page. */
module AuthInterceptor {
  import opened Results
  import opened Text
  import opened Http
  import opened Maps
  import Session

  const AuthorizationHeader := "Authorization"
  const ContentTypeHeader := "Content-Type"
  const JsonContentType := "application/json"
  const BearerPrefix := "Bearer "
  const LoginRoute := "/login"

  const SessionExpired := "Your session has expired. Please login again."
  const Forbidden := "You do not have permission to access this resource."
  const ServerError := "Server error. Please try again later."

  /** First step: a truthy token sets `Authorization: Bearer <token>`. */
  function AttachToken(req: Request, token: Option<string>): (r: Request)
    ensures Truthy(token) ==>
      AuthorizationHeader in r.headers && r.headers[AuthorizationHeader] == BearerPrefix + token.value
    ensures Truthy(token) ==> AgreeOutside(req.headers, r.headers, {AuthorizationHeader})
    ensures !Truthy(token) ==> r == req
    ensures r.url == req.url
  {
    if Truthy(token) then
      req.(headers := req.headers[AuthorizationHeader := BearerPrefix + token.value])
    else req
  }

  /** Second step: `Content-Type: application/json` unless one is present. */
  function DefaultContentType(req: Request): (r: Request)
    ensures ContentTypeHeader in req.headers ==> r == req
    ensures ContentTypeHeader !in req.headers ==>
      ContentTypeHeader in r.headers && r.headers[ContentTypeHeader] == JsonContentType &&
      AgreeOutside(req.headers, r.headers, {ContentTypeHeader})
    ensures r.url == req.url
  {
    if ContentTypeHeader in req.headers then req
    else req.(headers := req.headers[ContentTypeHeader := JsonContentType])
  }

  /** The request `intercept` hands on: token first, then content type. Only
      those two headers can change, and an existing content type survives. */
  function PrepareRequest(req: Request, token: Option<string>): (r: Request)
    ensures r.url == req.url
    ensures Truthy(token) ==>
      AuthorizationHeader in r.headers && r.headers[AuthorizationHeader] == BearerPrefix + token.value
    ensures !Truthy(token) ==>
      (AuthorizationHeader in r.headers <==> AuthorizationHeader in req.headers) &&
      (AuthorizationHeader in req.headers ==> r.headers[AuthorizationHeader] == req.headers[AuthorizationHeader])
    ensures ContentTypeHeader in r.headers
    ensures ContentTypeHeader in req.headers ==> r.headers[ContentTypeHeader] == req.headers[ContentTypeHeader]
    ensures ContentTypeHeader !in req.headers ==> r.headers[ContentTypeHeader] == JsonContentType
    ensures AgreeOutside(req.headers, r.headers, {AuthorizationHeader, ContentTypeHeader})
  {
    DefaultContentType(AttachToken(req, token))
  }

  /** Side effects of the error handler, in the order they happen. */
  datatype Effect = SignOut | Navigate(route: string)

  /** What the handler rethrows: a replacement record `{error, status}`, or
      the original failure untouched. */
  datatype Thrown = Replaced(error: string, status: nat) | Original(failure: HttpError)

  datatype Handled = Handled(effects: seq<Effect>, thrown: Thrown)

  /** The `catchError` handler: 401, then 403, then status >= 500, else the
      failure is passed on as it came. */
  function OnError(err: HttpError): (h: Handled)
    ensures err.status == 401 ==>
      h == Handled([SignOut, Navigate(LoginRoute)], Replaced(SessionExpired, 401))
    ensures err.status == 403 ==> h == Handled([], Replaced(Forbidden, 403))
    ensures err.status >= 500 ==> h == Handled([], Replaced(ServerError, err.status))
    ensures err.status != 401 && err.status != 403 && err.status < 500 ==> h == Handled([], Original(err))
  {
    if err.status == 401 then Handled([SignOut, Navigate(LoginRoute)], Replaced(SessionExpired, 401))
    else if err.status == 403 then Handled([], Replaced(Forbidden, 403))
    else if err.status >= 500 then Handled([], Replaced(ServerError, err.status))
    else Handled([], Original(err))
  }

  /** Runs the effects against the session service; navigation leaves the
      service alone and is recorded in the returned route list. */
  function Apply(svc: Session.AuthService, effects: seq<Effect>): (r: (Session.AuthService, seq<string>))
    decreases |effects|
  {
    if |effects| == 0 then (svc, [])
    else
      var rest := Apply(if effects[0] == SignOut then Session.Logout(svc) else svc, effects[1..]);
      (rest.0, if effects[0].Navigate? then [effects[0].route] + rest.1 else rest.1)
  }

  /** The handler as the browser sees it: a 401 leaves the service signed
      out, with `false` as the latest emission, and the login page as the one
      navigation; every other status leaves the service and route alone.
      Sign-out happens on 401 and on nothing else. */
  lemma HandleErrorEffects(svc: Session.AuthService, err: HttpError)
    ensures var (svc', routes) := Apply(svc, OnError(err).effects);
      && (err.status == 401 ==>
            svc' == Session.Logout(svc) && !Session.IsAuthenticated(svc'.storage) &&
            Session.InSync(svc') && routes == [LoginRoute])
      && (err.status != 401 ==> svc' == svc && routes == [])
    ensures SignOut in OnError(err).effects <==> err.status == 401
  {
    if err.status == 401 {
      var effects := OnError(err).effects;
      var out := Session.Logout(svc);
      assert effects[1..] == [Navigate(LoginRoute)];
      assert effects[1..][1..] == [];
      assert Apply(out, effects[1..][1..]) == (out, []);
      assert [LoginRoute] + [] == [LoginRoute];
      assert Apply(out, effects[1..]) == (out, [LoginRoute]);
      assert Apply(svc, effects) == (out, [LoginRoute]);
    }
  }
}
