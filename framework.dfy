/**
 * The ASGI application object of web_framework.py (class App): it owns a
 * router, forwards route registration to it and, called with a scope, builds
 * the request, dispatches it and returns the response as a dict.
 *
 * Handlers are identified by values of a type parameter `H`; running one is a
 * function `run` from the application's state, the handler and the request to
 * the new state and the response or the exception the handler raises.
 */
module Framework {
  import opened Wrappers
  import opened Dicts
  import opened Json
  import opened Errors
  import opened Asgi
  import opened Messages
  import opened Routing

  /** The dict `__call__` returns for a response. */
  function ToDict(r: Response): ResponseDict
  {
    ResponseDict(r.statusCode, r.reasonPhrase, r.headers, r.body)
  }

  /**
   * `await app(scope)` against a routing table: a non-http scope gives `None`
   * (the 400 dict is built but not returned); an exception while building the
   * request or inside the handler propagates; otherwise the dict of the
   * dispatched response.
   */
  function CallSpec<H, S>(table: RouteTable<H>, scope: Scope, lib: Library, state: S,
                         run: (S, H, Request) -> (S, Result<Response, Error>)): (S, AppOutcome)
  {
    if scope.kind != "http" then (state, Returned(None))
    else match NewRequest(scope, lib)
      case Failure(e) => (state, Raised(e))
      case Success(request) =>
        match Resolve(table, request, lib.dumps)
        case NotFound(resp) => (state, Returned(Some(ToDict(resp))))
        case Handle(h, req) =>
          var (next, out) := run(state, h, req);
          match out
          case Success(resp) => (next, Returned(Some(ToDict(resp))))
          case Failure(e) => (next, Raised(e))
  }

  /**
   * What the application promises its server: for any scope whose type is not
   * "http" it returns None and leaves the state alone; for an http scope it
   * either raises or returns the dict of a response, and when no route matches
   * that dict is the 404 with JSON content type and an empty body.
   */
  lemma CallOutcome<H, S>(table: RouteTable<H>, scope: Scope, lib: Library, state: S,
                          run: (S, H, Request) -> (S, Result<Response, Error>))
    ensures var (next, out) := CallSpec(table, scope, lib, state, run);
      (scope.kind != "http" <==> out == Returned(None)) &&
      (scope.kind != "http" ==> next == state) &&
      (scope.kind == "http" && NewRequest(scope, lib).Success? &&
       Resolve(table, NewRequest(scope, lib).value, lib.dumps).NotFound? ==>
         next == state &&
         out == Returned(Some(ResponseDict(404, "Not Found",
                  [("Content-Type", "application/json"), ("Content-Length", "0")], []))))
  {
    if scope.kind == "http" && NewRequest(scope, lib).Success? {
      NotFoundShape(lib.dumps);
    }
  }

  /**
   * The handler that runs is the first matching route of the request's method,
   * and it sees the request with that route's captures as path parameters.
   */
  lemma CallRunsFirstMatch<H, S>(table: RouteTable<H>, scope: Scope, lib: Library, state: S,
                                 run: (S, H, Request) -> (S, Result<Response, Error>), i: nat)
    requires scope.kind == "http" && NewRequest(scope, lib).Success?
    requires scope.httpMethod in table && i < |table[scope.httpMethod]|
    requires Match(table[scope.httpMethod][i].pattern, scope.path).Some?
    requires forall j :: 0 <= j < i ==> Match(table[scope.httpMethod][j].pattern, scope.path).None?
    ensures var request := NewRequest(scope, lib).value;
      var caps := Match(table[scope.httpMethod][i].pattern, scope.path).value;
      var (next, resp) := run(state, table[scope.httpMethod][i].handler, request.(pathParams := caps));
      CallSpec(table, scope, lib, state, run) ==
        (next, if resp.Success? then Returned(Some(ToDict(resp.value))) else Raised(resp.error))
  {
    NewRequestJson(scope, lib);
    FirstMatchIsFirst(table[scope.httpMethod], scope.path, i);
  }

  /** The application object: a router and the entry point the server awaits. */
  class App<H> {
    const router: Router<H>

    constructor ()
      ensures fresh(router) && router.routes == map[]
    {
      router := new Router();
    }

    method Get(path: string, handler: H) returns (r: Result<H, Error>)
      modifies router
      ensures r == (if Compile(path).Some? then Success(handler) else Failure(PatternError))
      ensures router.routes == Register(old(router.routes), "GET", Compile(path), handler)
    {
      r := router.Get(path, handler);
    }

    method Post(path: string, handler: H) returns (r: Result<H, Error>)
      modifies router
      ensures r == (if Compile(path).Some? then Success(handler) else Failure(PatternError))
      ensures router.routes == Register(old(router.routes), "POST", Compile(path), handler)
    {
      r := router.Post(path, handler);
    }

    method Put(path: string, handler: H) returns (r: Result<H, Error>)
      modifies router
      ensures r == (if Compile(path).Some? then Success(handler) else Failure(PatternError))
      ensures router.routes == Register(old(router.routes), "PUT", Compile(path), handler)
    {
      r := router.Put(path, handler);
    }

    method Patch(path: string, handler: H) returns (r: Result<H, Error>)
      modifies router
      ensures r == (if Compile(path).Some? then Success(handler) else Failure(PatternError))
      ensures router.routes == Register(old(router.routes), "PATCH", Compile(path), handler)
    {
      r := router.Patch(path, handler);
    }

    method Delete(path: string, handler: H) returns (r: Result<H, Error>)
      modifies router
      ensures r == (if Compile(path).Some? then Success(handler) else Failure(PatternError))
      ensures router.routes == Register(old(router.routes), "DELETE", Compile(path), handler)
    {
      r := router.Delete(path, handler);
    }

    /** `__call__`: build the request, let the router dispatch it, and return the response's dict. */
    method Call<S>(scope: Scope, lib: Library, state: S, run: (S, H, Request) -> (S, Result<Response, Error>))
      returns (next: S, out: AppOutcome)
      ensures (next, out) == CallSpec(router.routes, scope, lib, state, run)
    {
      if scope.kind != "http" {
        return state, Returned(None);
      }
      var built := NewRequest(scope, lib);
      if built.Failure? {
        return state, Raised(built.error);
      }
      var dispatched := router.Dispatch(built.value, lib.dumps);
      match dispatched
      case NotFound(resp) =>
        next, out := state, Returned(Some(ToDict(resp)));
      case Handle(h, req) =>
        var ran := run(state, h, req);
        var result := ran.1;
        next := ran.0;
        out := if result.Success? then Returned(Some(ToDict(result.value))) else Raised(result.error);
    }
  }
}
