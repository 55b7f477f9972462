/**
 * The application app.py builds: the seven decorated handlers registered on
 * one App in the order of the module, the routing table that results, where
 * requests go, and the application the server awaits.
 */
module UsersApp {
  import opened Wrappers
  import opened Text
  import opened PyStr
  import opened Dicts
  import opened Json
  import opened Errors
  import opened Asgi
  import opened Messages
  import opened Routing
  import opened Framework
  import opened Server
  import opened Users
  import opened UserFacts

  /** The compiled templates. */
  function RootPattern(): seq<Token> { [Lit("/")] }
  function UsersPattern(): seq<Token> { [Lit("/users")] }
  function UserPattern(): seq<Token> { [Lit("/users/"), Param("user_id")] }

  /** The routing table after the seven decorators have run. */
  function UsersTable(): RouteTable<HandlerName>
  {
    map[
      "GET" := [Route(RootPattern(), ReadRoot), Route(UsersPattern(), GetUsers), Route(UserPattern(), GetUserById)],
      "POST" := [Route(UsersPattern(), CreateUser)],
      "PUT" := [Route(UserPattern(), UpdateUser)],
      "PATCH" := [Route(UserPattern(), PartialUpdateUser)],
      "DELETE" := [Route(UserPattern(), DeleteUser)]]
  }

  /** The three templates of app.py compile to these token lists. */
  lemma CompileTemplates()
    ensures Compile("/") == Some(RootPattern())
    ensures Compile("/users") == Some(UsersPattern())
    ensures Compile("/users/{user_id}") == Some(UserPattern())
  {
    CompileLiteral("/");
    CompileLiteral("/users");
    CompileUserPattern();
  }

  lemma CompileLiteral(text: string)
    requires text != [] && '{' !in text
    ensures Compile(text) == Some([Lit(text)])
  {
    var ts := [Lit(text)];
    assert TokenOk(ts, 0);
    assert Source(ts) == text;
    SourceTokenize(ts);
  }

  lemma CompileUserPattern()
    ensures Compile("/users/{user_id}") == Some(UserPattern())
  {
    var ts := UserPattern();
    assert IsIdent("user_id");
    assert TokenOk(ts, 0) && TokenOk(ts, 1);
    assert ParamNames(ts) == ["user_id"];
    assert Source(ts) == "/users/" + "{" + "user_id" + "}";
    assert Source(ts) == "/users/{user_id}";
    SourceTokenize(ts);
  }

  /** `app = App()` and the decorators of app.py, in their order. */
  method BuildApp() returns (app: App<HandlerName>)
    ensures fresh(app.router) && app.router.routes == UsersTable()
  {
    CompileTemplates();
    app := new App();
    var _ := app.Get("/", ReadRoot);
    var _ := app.Get("/users", GetUsers);
    var _ := app.Get("/users/{user_id}", GetUserById);
    var _ := app.Post("/users", CreateUser);
    var _ := app.Put("/users/{user_id}", UpdateUser);
    var _ := app.Patch("/users/{user_id}", PartialUpdateUser);
    var _ := app.Delete("/users/{user_id}", DeleteUser);
    RegisterAll();
  }

  /** Registering the seven routes one after the other, starting from no routes. */
  function Registered(): RouteTable<HandlerName>
  {
    var t0: RouteTable<HandlerName> := map[];
    var t1 := Register(t0, "GET", Some(RootPattern()), ReadRoot);
    var t2 := Register(t1, "GET", Some(UsersPattern()), GetUsers);
    var t3 := Register(t2, "GET", Some(UserPattern()), GetUserById);
    var t4 := Register(t3, "POST", Some(UsersPattern()), CreateUser);
    var t5 := Register(t4, "PUT", Some(UserPattern()), UpdateUser);
    var t6 := Register(t5, "PATCH", Some(UserPattern()), PartialUpdateUser);
    Register(t6, "DELETE", Some(UserPattern()), DeleteUser)
  }

  /** ... gives the table above. */
  lemma RegisterAll()
    ensures Registered() == UsersTable()
  {
    assert "GET" != "POST" && "GET" != "PUT" && "GET" != "PATCH" && "GET" != "DELETE";
    assert "POST" != "PUT" && "POST" != "PATCH" && "POST" != "DELETE";
    assert "PUT" != "PATCH" && "PUT" != "DELETE" && "PATCH" != "DELETE";
    var root, users, item := Route(RootPattern(), ReadRoot), Route(UsersPattern(), GetUsers), Route(UserPattern(), GetUserById);
    var t0: RouteTable<HandlerName> := map[];
    var t1 := Register(t0, "GET", Some(RootPattern()), ReadRoot);
    AppendNew(t0, "GET", root);
    var t2 := Register(t1, "GET", Some(UsersPattern()), GetUsers);
    var t3 := Register(t2, "GET", Some(UserPattern()), GetUserById);
    assert t3 == map["GET" := [root] + [users] + [item]];
    var t4 := Register(t3, "POST", Some(UsersPattern()), CreateUser);
    AppendNew(t3, "POST", Route(UsersPattern(), CreateUser));
    var t5 := Register(t4, "PUT", Some(UserPattern()), UpdateUser);
    AppendNew(t4, "PUT", Route(UserPattern(), UpdateUser));
    var t6 := Register(t5, "PATCH", Some(UserPattern()), PartialUpdateUser);
    AppendNew(t5, "PATCH", Route(UserPattern(), PartialUpdateUser));
    AppendNew(t6, "DELETE", Route(UserPattern(), DeleteUser));
    assert [root] + [users] + [item] == UsersTable()["GET"];
    assert Registered() == Register(t6, "DELETE", Some(UserPattern()), DeleteUser);
  }

  /** Registering under a method with no list yet starts a list of one route. */
  lemma AppendNew(t: RouteTable<HandlerName>, m: string, route: Route<HandlerName>)
    requires m !in t
    ensures Register(t, m, Some(route.pattern), route.handler) == t[m := [route]]
  {
    assert [] + [route] == [route];
  }

  /** The handler of each method for `/users/{user_id}`. */
  function ItemHandler(httpMethod: string): HandlerName
    requires httpMethod in {"GET", "PUT", "PATCH", "DELETE"}
  {
    if httpMethod == "GET" then GetUserById
    else if httpMethod == "PUT" then UpdateUser
    else if httpMethod == "PATCH" then PartialUpdateUser
    else DeleteUser
  }

  lemma MatchUser(id: string)
    requires IsSegment(id)
    ensures Match(UserPattern(), "/users/" + id) == Some([("user_id", id)])
  {
    assert Aligned(UserPattern());
    assert UserPattern()[1..] == [Param("user_id")];
    assert Fill([Param("user_id")], [id]) == id + Fill([], []);
    assert Fill(UserPattern(), [id]) == "/users/" + id;
    assert ParamNames(UserPattern()) == ["user_id"];
    MatchComplete(UserPattern(), [id]);
    assert Zip(["user_id"], [id]) == [("user_id", id)];
  }

  lemma MatchLit(lit: string, rest: seq<Token>, s: string)
    ensures MatchRest([Lit(lit)] + rest, s) ==
      if |lit| <= |s| && s[..|lit|] == lit then MatchRest(rest, s[|lit|..]) else None
  {
    assert ([Lit(lit)] + rest)[1..] == rest;
  }

  lemma NoMatchCollection(id: string)
    requires IsSegment(id)
    ensures Match(RootPattern(), "/users/" + id).None?
    ensures Match(UsersPattern(), "/users/" + id).None?
  {
    var p := "/users/" + id;
    assert p[..1] == "/" && p[1..][0] == 'u';
    MatchLit("/", [], p);
    assert RootPattern() == [Lit("/")] + [];
    assert p[..6] == "/users" && p[6..][1..] == id;
    MatchLit("/users", [], p);
    assert UsersPattern() == [Lit("/users")] + [];
  }

  /**
   * `/users/<id>` for a non-empty id without `/` reaches the item handler of
   * its method with `user_id` as the only path parameter.
   */
  lemma ResolveItem(request: Request, id: string, dumps: Json -> string)
    requires IsSegment(id) && request.path == "/users/" + id
    requires request.httpMethod in {"GET", "PUT", "PATCH", "DELETE"}
    ensures Resolve(UsersTable(), request, dumps) ==
      Handle(ItemHandler(request.httpMethod), request.(pathParams := [("user_id", id)]))
  {
    MatchUser(id);
    NoMatchCollection(id);
    var routes := UsersTable()[request.httpMethod];
    var i := if request.httpMethod == "GET" then 2 else 0;
    FirstMatchIsFirst(routes, request.path, i);
  }

  /** POST to `/users/<id>` has no route: the 404. */
  lemma ResolveItemPost(request: Request, id: string, dumps: Json -> string)
    requires IsSegment(id) && request.path == "/users/" + id && request.httpMethod == "POST"
    ensures Resolve(UsersTable(), request, dumps) == NotFound(NotFoundResponse(dumps))
  {
    NoMatchCollection(id);
    FirstMatchNone(UsersTable()["POST"], request.path);
  }

  /**
   * `/users` reaches get_users for GET and create_user for POST with no path
   * parameters; as with Python's `$`, one trailing newline still matches.
   */
  lemma ResolveCollection(request: Request, dumps: Json -> string)
    requires request.path == "/users" || request.path == "/users\n"
    requires request.httpMethod == "GET" || request.httpMethod == "POST"
    ensures Resolve(UsersTable(), request, dumps) ==
      Handle(if request.httpMethod == "GET" then GetUsers else CreateUser, request.(pathParams := []))
  {
    var p := request.path;
    assert p[..6] == "/users" && AtEnd(p[6..]);
    MatchLit("/users", [], p);
    assert UsersPattern() == [Lit("/users")] + [];
    if request.httpMethod == "GET" {
      assert p[..1] == "/" && p[1..][0] == 'u';
      MatchLit("/", [], p);
      assert RootPattern() == [Lit("/")] + [];
      FirstMatchIsFirst(UsersTable()["GET"], p, 1);
    } else {
      FirstMatchIsFirst(UsersTable()["POST"], p, 0);
    }
  }

  /** `GET /` reaches read_root. */
  lemma ResolveRoot(request: Request, dumps: Json -> string)
    requires request.path == "/" && request.httpMethod == "GET"
    ensures Resolve(UsersTable(), request, dumps) == Handle(ReadRoot, request.(pathParams := []))
  {
    assert Match(RootPattern(), "/") == Some([]);
    FirstMatchIsFirst(UsersTable()["GET"], "/", 0);
  }

  /** A method app.py registers nothing for (HEAD, OPTIONS, ...) always gets the 404. */
  lemma ResolveUnknownMethod(request: Request, dumps: Json -> string)
    requires request.httpMethod !in {"GET", "POST", "PUT", "PATCH", "DELETE"}
    ensures Resolve(UsersTable(), request, dumps) == NotFound(NotFoundResponse(dumps))
  {
  }

  // ---------------------------------------------------------------------------
  // The application the server awaits
  // ---------------------------------------------------------------------------

  /** Awaiting a handler: the store is the application's state. */
  function RunHandler(lib: Library): (Db, HandlerName, Request) -> (Db, Result<Response, Error>)
  {
    (db: Db, h: HandlerName, request: Request) => Invoke(lib, db, h, request)
  }

  /** `await app(scope)` with `users_db` as its state. */
  function UsersApplication(lib: Library): (Db, Scope) -> (Db, AppOutcome)
  {
    (db: Db, scope: Scope) => CallSpec(UsersTable(), scope, lib, db, RunHandler(lib))
  }

  /** Whatever scope arrives, the application leaves a well-formed store. */
  lemma ApplicationPreserves(lib: Library, db: Db, scope: Scope)
    requires StoreInv(db)
    ensures StoreInv(UsersApplication(lib)(db, scope).0)
  {
    if scope.kind == "http" && NewRequest(scope, lib).Success? {
      match Resolve(UsersTable(), NewRequest(scope, lib).value, lib.dumps)
      case NotFound(_) =>
      case Handle(h, req) => InvokePreserves(lib, db, h, req);
    }
  }

  /** Whatever bytes a connection sends, handling it leaves a well-formed store. */
  lemma ConnectionPreserves(lib: Library, db: Db, data: Bytes, pos: nat)
    requires pos <= |data| && StoreInv(db)
    ensures StoreInv(HandleSpec(data, pos, db, UsersApplication(lib)).0)
  {
    var parsed := ParseSpec(data, pos, MaxBodySize);
    if parsed.Success? {
      ApplicationPreserves(lib, db, parsed.value);
    }
  }

  /** `AsyncHTTPServer(app, ...)` serving the application over the initial `users_db`. */
  method NewUsersServer(lib: Library) returns (server: AsyncHttpServer<Db>)
    ensures server.app == UsersApplication(lib) && server.state == InitialUsers()
    ensures StoreInv(server.state)
  {
    InitialStoreInv();
    server := new AsyncHttpServer(UsersApplication(lib), InitialUsers());
  }
}
