/** The web client's todo service (todopalm-web/src/api/todos/index.ts) as the
    requests it sends, and what the server's JWT gate makes of them. The axios
    instance (todopalm-web/src/api/api.ts) adds only a content type; its base
    URL puts every route under "/api/v1". */
module TodosService {
  import opened Common
  import JwtMiddleware
  import TodosRoutes

  /** The path prefix of the axios instance's base URL. */
  const API_PREFIX := "/api/v1"

  /** The body axios sends: the object passed as its data argument, or none. */
  datatype Body = HeadersObject(authorization: string) | NoBody

  /** One request as the server receives it: the path, the Authorization header
      (None when absent) and the body. */
  datatype Request = Request(path: string, authorization: Option<string>, body: Body)

  /** `api.put(route, { headers: { Authorization } })`: with only two arguments
      the headers object is the request's data, so the token travels in the
      body and no Authorization header is sent. This is how `updateTodo`,
      `completeTodo` and `unCompletetodo` call axios. */
  function PutAsWritten(accessToken: string, route: string): (req: Request)
    ensures req.path == API_PREFIX + route
    ensures req.authorization.None?
    ensures req.body == HeadersObject("Bearer " + accessToken)
  {
    Request(API_PREFIX + route, None, HeadersObject("Bearer " + accessToken))
  }

  /** `api.put(route, undefined, { headers: { Authorization } })`: the header the
      gate reads, and no body; how the other calls of the service pass it. */
  function PutWithHeader(accessToken: string, route: string): (req: Request)
    ensures req.path == API_PREFIX + route
    ensures req.authorization == Some("Bearer " + accessToken)
    ensures req.body == NoBody
  {
    Request(API_PREFIX + route, Some("Bearer " + accessToken), NoBody)
  }

  /** A route under "/todos" is guarded: every allow-listed path is under
      "/api/v1/users", and the two differ at index 8. */
  lemma TodosRouteGuarded(route: string)
    requires |route| >= 2 && route[1] == 't'
    ensures API_PREFIX + route !in JwtMiddleware.EXCLUDED_PATHS
  {
    var p := API_PREFIX + route;
    assert p[8] == route[1];
    var excluded := JwtMiddleware.EXCLUDED_PATHS;
    assert excluded[0][8] == 'u' && excluded[1][8] == 'u' && excluded[2][8] == 'u';
    assert p != excluded[0] && p != excluded[1] && p != excluded[2];
  }

  /** The three PUT routes of the service are guarded: none is allow-listed. */
  lemma TodoRoutesAreGuarded(id: string)
    ensures API_PREFIX + TodosRoutes.UpdateTodo(id) !in JwtMiddleware.EXCLUDED_PATHS
    ensures API_PREFIX + TodosRoutes.CompleteTodo(id) !in JwtMiddleware.EXCLUDED_PATHS
    ensures API_PREFIX + TodosRoutes.UnCompleteTodo(id) !in JwtMiddleware.EXCLUDED_PATHS
  {
    var base := TodosRoutes.TodoPath(id);
    assert base[1] == TodosRoutes.CREATE_TODO[1] == 't';
    TodosRouteGuarded(TodosRoutes.UpdateTodo(id));
    assert TodosRoutes.CompleteTodo(id)[1] == base[1];
    TodosRouteGuarded(TodosRoutes.CompleteTodo(id));
    assert TodosRoutes.UnCompleteTodo(id)[1] == base[1];
    TodosRouteGuarded(TodosRoutes.UnCompleteTodo(id));
  }

  /** As written, every update, complete and uncomplete request is answered 401
      "No token provided" by the gate, whatever the token and the clock: the
      handler behind it never runs. */
  lemma PutAsWrittenIsRejected(
    codec: JwtMiddleware.Codec, secrets: JwtMiddleware.Secrets, accessToken: string, id: string, nowSec: int)
    ensures forall route :: route in [TodosRoutes.UpdateTodo(id), TodosRoutes.CompleteTodo(id), TodosRoutes.UnCompleteTodo(id)] ==>
      var req := PutAsWritten(accessToken, route);
      JwtMiddleware.Authenticate(codec, secrets, req.path, req.authorization, nowSec) ==
        JwtMiddleware.Unauthorized("No token provided")
  {
    TodoRoutesAreGuarded(id);
  }

  /** With the token in the header, a request carrying a fresh access token
      passes the gate as the token's user. */
  lemma PutWithHeaderPasses(
    codec: JwtMiddleware.Codec, secrets: JwtMiddleware.Secrets, userId: Id, nowMs: int, id: string)
    requires JwtMiddleware.WellFormed(codec)
    ensures forall route :: route in [TodosRoutes.UpdateTodo(id), TodosRoutes.CompleteTodo(id), TodosRoutes.UnCompleteTodo(id)] ==>
      var token := codec.encode(JwtMiddleware.GenerateAccessToken(secrets, userId, nowMs).token);
      var req := PutWithHeader(token, route);
      JwtMiddleware.Authenticate(codec, secrets, req.path, req.authorization, JwtMiddleware.EpochSeconds(nowMs)) ==
        JwtMiddleware.Next(Some(JwtMiddleware.Principal(userId)))
  {
    TodoRoutesAreGuarded(id);
    var token := codec.encode(JwtMiddleware.GenerateAccessToken(secrets, userId, nowMs).token);
    forall route | route in [TodosRoutes.UpdateTodo(id), TodosRoutes.CompleteTodo(id), TodosRoutes.UnCompleteTodo(id)]
      ensures JwtMiddleware.Authenticate(codec, secrets, API_PREFIX + route, Some("Bearer " + token), JwtMiddleware.EpochSeconds(nowMs)) ==
        JwtMiddleware.Next(Some(JwtMiddleware.Principal(userId)))
    {
      JwtMiddleware.GateOnIssuedTokens(codec, secrets, API_PREFIX + route, userId, nowMs);
    }
  }
}
