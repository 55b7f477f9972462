# A verified model of a small async web server, its web framework and its demo REST API

The system serves HTTP/1.1 from an asyncio server:

- **The server.** Each connection's request is parsed into an ASGI-style scope dict and passed to an application. The dict the application returns is written back in wire form.
- **The framework.** It provides `Request` and `Response` objects and a `Router` that turns path templates such as `/users/{user_id}` into anchored regular expressions. Its `App` is the ASGI callable: it builds the request, dispatches it to the first matching route of its method, and returns the response as a dict.
- **The demo application.** It keeps an in-memory `users_db` and registers seven handlers over it: read the root, list and filter users, fetch, create, replace, patch and delete a user.

The model follows this structure module by module:

| module | file | models |
|---|---|---|
| `Wrappers`, `Dicts`, `Text`, `PyStr` | wrappers.dfy, dicts.dfy, text.dfy, pystr.dfy | `Option`/`Result`; Python dicts as insertion-ordered association lists; UTF-8 encode and strict decode; the `str` methods the code calls (`strip`, `lower`, `split` with a limit, `join`, `in`, `int`, `str` of a number) |
| `Json`, `Errors`, `Asgi` | json.dfy | JSON values and truthiness; the exceptions by their Python names; the scope and response dicts |
| `Messages` | messages.dfy | `Request.__init__` and `Response.__init__` |
| `Routing` | routing.dfy | template compilation, regular-expression matching, the route table, class `Router` |
| `Framework` | framework.dfy | class `App` and `App.__call__` |
| `Server`, `ServerFacts` | server.dfy, serverfacts.dfy | `parse_http_request`, `send_http_response`, `__handle_request`, class `AsyncHTTPServer`, and the properties of parsing |
| `Users`, `UserFacts` | users.dfy, userfacts.dfy | `users_db` and its seven handlers, and the properties of each handler |
| `UsersApp` | usersapp.dfy | the application of app.py: its route table, what each path dispatches to, the server it is served by |

Each object whose fields the source updates is a class:

- `Router.routes` is a map updated by the registration methods.
- `UserStore.users` is `users_db`, updated by the handlers.
- `StreamReader` and `StreamWriter` are the connection; the writer records the bytes written and whether the connection was closed.
- `AsyncHttpServer` holds the application and the state the application keeps between requests.

Each method is proved against a function of the old state and its inputs (`ParseSpec`, `SendSpec`, `Resolve`, `CallSpec`, `HandleSpec`, and the handlers' `...Spec` functions). The lemmas state what the source promises about those functions.

Library code is passed in as parameters (`Json.Library`): `json.loads`, `json.dumps` and `urllib.parse.parse_qs`. The connection's input is a finite byte string. Handlers are named by the datatype `Users.HandlerName`, and running one is a function from the store, the handler and the request to the new store and the response or exception.

Where the code behaves otherwise than its documentation and comments suggest, the model follows the code:

- A template placeholder must be an ASCII identifier `[a-zA-Z_][a-zA-Z0-9_]*`, so `{café}` is not substituted although it is a Python identifier. Other braces stay in the pattern: `{a-b}` matches itself, but `{1}` is a repeat count to `re.compile` (see "## Left out"). A repeated placeholder name means `re.compile` raises, so registration fails.
- `App.__call__` builds a 400 dict for a non-http scope but falls off the end, so it returns `None` (`Framework.CallOutcome`).
- `$` in the route regular expression also accepts a single final newline, so `/users\n` reaches the `/users` handlers (`UsersApp.ResolveCollection`).
- The path in the scope is not percent-decoded.
- Every call of `send_http_response` without explicit headers raises `AttributeError`. The default headers call `len(body.encode(...))`, and the body is later taken through `body.decode()`, which a `str` lacks. So none of the server's 400 and 500 answers is ever written, and those exceptions escape the connection handler (`Server.DefaultSendRaises`, `Server.HandleOutcome`).
- `create_user` takes `str(len(users_db) + 1)` as the new id. After a delete this can be the id of a user still stored, and that user is then overwritten (`UserFacts.CreateAfterDeleteReplaces`).
- A status of 201 or 204 keeps the reason phrase "OK", the constructor's default.

## Model

| member | source | states |
|---|---|---|
| Messages.NewRequestJson | web_framework/web_framework.py:14-28 | a built request copies the scope's path, method and body, starts with empty path parameters, and has a JSON value exactly when the content type declares JSON, the body is UTF-8 and `json.loads` accepts it; invalid JSON gives None, not an error |
| Messages.NewRequestFails | web_framework/web_framework.py:17-25 | building a request fails exactly when a header, the query string or a body declared JSON is not UTF-8, and the error is then UnicodeDecodeError |
| Messages.DecodeEncodePairs | web_framework/web_framework.py:17 | decoding the encoded pairs of a dict into an accumulator gives the accumulator updated with that dict |
| Messages.RequestHeadersRoundTrip | web_framework/web_framework.py:17 | the request's header dict is exactly the dict the server encoded into the scope (encode then decode is the identity) |
| Messages.ResponseContentLength | web_framework/web_framework.py:48-57 | the body is the encoding of the given body, and Content-Length is its decimal byte length, which `int()` reads back |
| Messages.ResponseContentType | web_framework/web_framework.py:44-53 | a dict or list body forces `application/json`; otherwise an existing Content-Type header (any case) is kept, else the `content_type` argument is set |
| Messages.ResponseKeepsHeaders | web_framework/web_framework.py:41-57 | every header the caller passed other than Content-Type and Content-Length keeps its value |
| Messages.ResponseHeaderOrder | web_framework/web_framework.py:41-57 | the caller's header names stay in front in their order, and the only names added are Content-Type and Content-Length |
| Messages.RespondShape | web_framework/web_framework.py:37-57 | a response built without headers has exactly the headers Content-Type `application/json` then Content-Length |
| Messages.NotFoundShape | web_framework/web_framework.py:123 | the no-route answer is 404 "Not Found" with an empty body and headers Content-Type `application/json`, Content-Length 0 |
| Routing.PlaceholderLen | web_framework/web_framework.py:78 | a non-zero length spans `{`, an identifier and `}` at the start of the text |
| Routing.TokenizeSource | web_framework/web_framework.py:78 | splitting a template into literals and placeholders loses no text: the tokens spell the template |
| Routing.SourceTokenize | web_framework/web_framework.py:78 | a well-formed token list (merged literals, valid names) is recovered from its own text |
| Routing.MatchSound | web_framework/web_framework.py:119-121 | a match covers the whole path (up to a final newline): the captures are named by the placeholders in order, are each a non-empty run without `/`, and fill the template back into the path |
| Routing.MatchComplete | web_framework/web_framework.py:119-121 | filling a template whose placeholders are separated by literals with any such runs gives a path that matches with exactly those captures |
| Routing.FirstMatch | web_framework/web_framework.py:118-121 | the result is the first route that matches, with its captures; None exactly when no route matches |
| Routing.FirstMatchIsFirst | web_framework/web_framework.py:118-122 | if route i matches and none before it does, the first match is route i |
| Routing.FirstMatchNone | web_framework/web_framework.py:118-123 | if no route matches, there is no first match |
| Routing.FirstMatchPrefix | web_framework/web_framework.py:118-122 | routes appended later do not change a path's existing first match |
| Routing.ResolveFirstMatch | web_framework/web_framework.py:112-123 | dispatch runs the earliest matching route of the request's method, with that route's captures as path parameters and the rest of the request unchanged; otherwise the 404 and no route of the method matches |
| Routing.RegisterKeepsEarlier | web_framework/web_framework.py:79 | registering creates the method's list even when compiling fails, leaves other methods alone, keeps earlier routes as a prefix, and preserves every existing first match |
| Routing.Router.constructor | web_framework/web_framework.py:71-72 | a new router has no routes |
| Routing.Router.AddRoute | web_framework/web_framework.py:74-80 | the method's list is created and, when the template compiles, the compiled route is appended; reports whether it compiled |
| Routing.Router.Decorate | web_framework/web_framework.py:83-85 | registers the route and hands back the handler, or the compile error |
| Routing.Router.Get | web_framework/web_framework.py:82-86 | registers under GET and hands back the handler, or PatternError |
| Routing.Router.Post | web_framework/web_framework.py:88-92 | registers under POST and hands back the handler, or PatternError |
| Routing.Router.Put | web_framework/web_framework.py:94-98 | registers under PUT and hands back the handler, or PatternError |
| Routing.Router.Patch | web_framework/web_framework.py:100-104 | registers under PATCH and hands back the handler, or PatternError |
| Routing.Router.Delete | web_framework/web_framework.py:106-110 | registers under DELETE and hands back the handler, or PatternError |
| Routing.Router.Dispatch | web_framework/web_framework.py:112-123 | the loop over the method's routes gives the first-match dispatch |
| Framework.CallOutcome | web_framework/web_framework.py:140-163 | a non-http scope gives None and changes nothing, and only a non-http scope gives None; an http request that no route matches gives the 404 dict and changes nothing |
| Framework.CallRunsFirstMatch | web_framework/web_framework.py:144-157 | the handler that runs is the first matching route's, on the request with that route's captures; its response comes back as a dict and its exception propagates |
| Framework.App.constructor | web_framework/web_framework.py:130-131 | a new application owns a fresh router with no routes |
| Framework.App.Get | web_framework/web_framework.py:134 | forwards GET registration to the router |
| Framework.App.Post | web_framework/web_framework.py:135 | forwards POST registration to the router |
| Framework.App.Put | web_framework/web_framework.py:136 | forwards PUT registration to the router |
| Framework.App.Patch | web_framework/web_framework.py:137 | forwards PATCH registration to the router |
| Framework.App.Delete | web_framework/web_framework.py:138 | forwards DELETE registration to the router |
| Framework.App.Call | web_framework/web_framework.py:140-163 | awaiting the application gives the new state and outcome of the call over the router's current table |
| Server.LineEnd | web_server/async_web_server.py:52 | `readline()` stops just past the first LF or at the end of the data, and reads nothing only at the end |
| Server.StreamReader.ReadLine | web_server/async_web_server.py:61 | returns the bytes up to and including the next LF and advances past them |
| Server.StreamReader.ReadExactly | web_server/async_web_server.py:75 | returns exactly the next n bytes, or IncompleteReadError when fewer remain (ValueError for negative n) |
| Server.StreamWriter.Write | web_server/async_web_server.py:116 | appends the bytes to what was written |
| Server.StreamWriter.Close | web_server/async_web_server.py:118 | marks the connection closed and writes nothing |
| Server.ParseRequestLine | web_server/async_web_server.py:56 | an undecodable line is refused; a parsed line's method and target contain no space, and method, space, target, space, version spell the stripped line, so the cut is at its first two spaces and the version keeps any further ones |
| ServerFacts.RequestLineRoundTrip | web_server/async_web_server.py:56 | the line `method target version CRLF` parses back to those three parts whenever the method is non-empty, method and target hold no whitespace and the version is non-empty and does not end in whitespace (it may hold spaces) |
| ServerFacts.RequestLineRefused | web_server/async_web_server.py:56 | a decodable line whose stripped text holds fewer than two spaces is refused as a malformed request line |
| ServerFacts.HeaderLineRoundTrip | web_server/async_web_server.py:64-65 | the line `name: value CRLF` parses to the lower-cased name and the value |
| ServerFacts.MalformedHeaderRefused | web_server/async_web_server.py:64 | a header line without a colon makes the whole header loop fail |
| ServerFacts.HeaderLoopNoDup | web_server/async_web_server.py:59-65 | the header dict never holds a name twice |
| ServerFacts.HeaderLoopLastWins | web_server/async_web_server.py:59-65 | read as a map, the header dict is the fold of `headers[key] = value` over the header lines in order, so of a repeated name the last value wins |
| ServerFacts.HeaderLoopLower | web_server/async_web_server.py:65 | every header name is lower case |
| ServerFacts.HeaderLoopOrder | web_server/async_web_server.py:59-65 | names already in the dict stay in front in their order |
| ServerFacts.HeaderLoopStops | web_server/async_web_server.py:60-63 | the loop stops just past the first line that is exactly CRLF, or at the end of the data: every line before that point is a non-empty, non-CRLF header line that splits at `:` |
| ServerFacts.BodyShape | web_server/async_web_server.py:67-75 | the body is empty without a content-length header; with one, it is exactly the next `int(value)` bytes, at most the maximum |
| ServerFacts.BodyLimit | web_server/async_web_server.py:69-75 | with `Content-Length: n` and the bytes present, the body is accepted exactly when n is at most the maximum |
| ServerFacts.BodyShort | web_server/async_web_server.py:75 | a stream that ends before the announced body fails with IncompleteReadError |
| ServerFacts.ParseAtEnd | web_server/async_web_server.py:52-55 | a connection with nothing left to read is refused |
| ServerFacts.ParseParts | web_server/async_web_server.py:49-89 | a parsed scope comes from a request line, a header loop ending before the body, and a body read, in that order |
| ServerFacts.ParseScope | web_server/async_web_server.py:79-89 | every parsed scope has type "http", a method and path without spaces, a path without `?`, and a body within the maximum |
| ServerFacts.ParseScopeHeaders | web_server/async_web_server.py:85 | the scope's header pairs decode back to the header loop's dict, which has distinct lower-case names |
| Server.UrlParse | web_server/async_web_server.py:83-84 | the path has no `?`; path, `?` and query spell the target; without `?` the query is empty |
| Server.DefaultSendRaises | web_server/async_web_server.py:96-113 | a send with the default headers raises AttributeError whatever the body |
| Server.SendWire | web_server/async_web_server.py:96-120 | a send succeeds exactly with explicit headers and a UTF-8 bytes body, and then writes the status line, the header lines, an empty line and the body; otherwise it raises AttributeError or UnicodeDecodeError |
| Server.HttpHandler.constructor | web_server/async_web_server.py:45-47 | keeps the reader and writer |
| Server.HttpHandler.SendHttpResponse | web_server/async_web_server.py:96-120 | writes the response bytes and closes, or raises and leaves the connection untouched |
| Server.HttpHandler.SendAnswer | web_server/async_web_server.py:35-41 | a returned dict is sent; an exception, a None or a failed send leads to the 500 send, which raises |
| Server.HttpHandler.Reject | web_server/async_web_server.py:91-94 | the 400 answer raises AttributeError and writes nothing |
| Server.HttpHandler.ReadRequestLine | web_server/async_web_server.py:52-56 | reads one line; an empty read is refused, otherwise the line is split into its three parts |
| Server.HttpHandler.ReadHeaders | web_server/async_web_server.py:59-65 | the loop gives the header loop's dict and stops where it stops, or fails with the header loop's rejection just past the line it could not split |
| Server.HttpHandler.ReadBodyOf | web_server/async_web_server.py:67-75 | reads the body as announced, within the maximum, and leaves the reader where the read ends; a body over the maximum leaves the reader untouched |
| ServerFacts.BodyEnd | web_server/async_web_server.py:67-75 | after a body is read the reader stands just past it; a missing, unreadable or too large Content-Length leaves it in place; a short stream leaves it at the end |
| PyStr.SplitThreeRejoins | web_server/async_web_server.py:56 | a split into three pieces, rejoined with the separator, gives back its input |
| PyStr.SplitFewer | web_server/async_web_server.py:56 | a string holding at most one separator splits into fewer than three pieces |
| Server.HttpHandler.ParseHttpRequest | web_server/async_web_server.py:49-94 | the scope of an acceptable request, otherwise AttributeError; nothing is written either way, and the reader stands where the last read of the request line, header loop or body left it |
| ServerFacts.ParseConsumes | web_server/async_web_server.py:49-75 | an accepted request consumes exactly its request line, header block and body |
| Server.HandleOutcome | web_server/async_web_server.py:25-41 | a connection is answered exactly when its request parses, the application returns a dict and its body is UTF-8, and the answer is that dict in wire form; otherwise AttributeError escapes, and a request that does not parse leaves the state alone |
| Server.AsyncHttpServer.constructor | web_server/async_web_server.py:12-16 | keeps the application and its state |
| Server.AsyncHttpServer.HandleRequest | web_server/async_web_server.py:25-41 | the connection's new state, bytes written, closing and escaping exception are those of the connection function, and the reader stands where parsing left it |
| Users.UserStore.constructor | app.py:15-18 | the store starts as the two users of the module |
| UserFacts.InitialStoreInv | app.py:15-18 | the initial store has distinct ids, and every record has distinct fields including `id` |
| UserFacts.InvokePreserves | app.py:21-116 | every handler keeps that store invariant, whatever it answers or raises |
| UserFacts.ReadRootShape | app.py:21-24 | the root answer is 200 with the welcome message as JSON and exactly Content-Type and Content-Length |
| Users.UserStore.GetUsers | app.py:26-37 | all users, or those matching the first `name` query value, as a JSON list; the store is unchanged |
| UserFacts.FilterSucceeds | app.py:35 | the name filter succeeds exactly when every user has a string name |
| UserFacts.FilterFirstError | app.py:35 | otherwise it raises the error of the first user without one |
| UserFacts.FilterMembers | app.py:35 | a user is in the filtered list exactly when it is stored and its lower-cased name contains the lower-cased query |
| UserFacts.FilterLength | app.py:35 | the filtered list is no longer than the store, and as long exactly when every user matches |
| Users.UserStore.GetUserById | app.py:39-50 | answers the lookup of the path's id and changes nothing |
| UserFacts.GetUserByIdAnswers | app.py:46-50 | a stored id answers 200 with its record; any other id, or none, answers 404 "user not found" |
| Users.UserStore.CreateUser | app.py:52-66 | the new store and answer of `create_user` |
| UserFacts.CreateStores | app.py:59-65 | a JSON object body stores its new user under `str(len + 1)`, appended when that id is new, and answers 201 with the user |
| UserFacts.CreateRejects | app.py:59-66 | any other body leaves the store alone: a falsy body answers 400, a truthy non-object raises TypeError |
| UserFacts.NewUserFields | app.py:63 | the new user has `id` first, holding the body's own `id` if it has one and the new id otherwise; every other field comes from the body |
| UserFacts.CreateAfterDeleteReplaces | app.py:62-64 | after deleting user "1" from the initial store, creating a user reuses id "2" and overwrites that user |
| Users.UserStore.UpdateUser | app.py:68-84 | the new store and answer of `update_user` |
| UserFacts.UpdateRejects | app.py:75-84 | an unknown id answers 404 and a falsy body answers 400, both without change |
| UserFacts.UpdateMerges | app.py:79-83 | a JSON object merges into the stored record: its fields win, the record's names keep their order in front, only that record changes, and the answer is 200 with it |
| UserFacts.UpdateRaisesUnchanged | app.py:82 | an update that raises before changing the record leaves the store as it was |
| UserFacts.UpdateFromPairsCompletes | app.py:82 | updating from a list completes exactly when every element is a two-item pair with a string key |
| UserFacts.UpdateFromPairsStops | app.py:82 | otherwise it raises at the first bad element and keeps the pairs assigned before it |
| UserFacts.UpdateFromPairsInv | app.py:82 | updating from a list keeps the record invariant |
| UserFacts.DictUpdateInv | app.py:82 | `dict.update` with any JSON value keeps the record invariant |
| Users.UserStore.PartialUpdateUser | app.py:86-104 | the new store and answer of `partial_update_user` |
| Users.PatchLoop | app.py:100-102 | the patch loop computes the patched record |
| UserFacts.PatchKeys | app.py:100-102 | patching adds and removes no field: the record's names are unchanged |
| UserFacts.PatchGet | app.py:100-102 | a field the record has takes the patch's value; every other name keeps the record's value |
| UserFacts.PatchUpdates | app.py:97-103 | a known id with a JSON object answers 200 with the patched record, and only that record changes |
| UserFacts.PatchRejects | app.py:93-104 | an unknown id answers 404, a falsy body 400, a truthy non-object raises AttributeError; none changes the store |
| Users.UserStore.DeleteUser | app.py:106-116 | the new store and answer of `delete_user` |
| UserFacts.DeleteRemoves | app.py:112-116 | a stored id is removed from its place, the rest keeping their order, with a 204 answer; an unknown id answers 404 without change |
| Users.UserStore.Handle | app.py:21-116 | running any handler gives the store and answer of its function |
| UsersApp.CompileTemplates | app.py:21-39 | the three templates of the application compile to `/`, `/users` and `/users/` followed by the placeholder `user_id` |
| UsersApp.BuildApp | app.py:12-106 | creating the application and running its seven decorators in order gives its route table |
| UsersApp.RegisterAll | app.py:21-106 | the seven registrations from an empty table give that table |
| UsersApp.MatchUser | app.py:39 | `/users/` followed by one segment matches the item template, capturing `user_id` |
| UsersApp.ResolveItem | app.py:39-116 | GET, PUT, PATCH and DELETE on `/users/<id>` reach the item handler of that method, with `user_id` as the only path parameter |
| UsersApp.ResolveItemPost | app.py:52 | POST on `/users/<id>` has no route and answers 404 |
| UsersApp.ResolveCollection | app.py:26-53 | GET and POST on `/users` (or `/users` and a newline) reach `get_users` and `create_user` |
| UsersApp.ResolveRoot | app.py:21-22 | GET on `/` reaches `read_root` |
| UsersApp.ResolveUnknownMethod | web_framework/web_framework.py:117-123 | a method with no routes answers 404 |
| UsersApp.ApplicationPreserves | web_framework/web_framework.py:140-157 | the application keeps the store invariant on every scope |
| UsersApp.ConnectionPreserves | web_server/async_web_server.py:25-41 | so does every connection the server handles |
| UsersApp.NewUsersServer | app.py:119-121 | the server serves the application from the initial store, and that store satisfies the invariant |

## Left out

- Asynchrony and concurrency are not modelled. Connections are handled one at a time, each on the byte string it will deliver. Interleaving between connections is not modelled.
- `listen_serve` and `main` are left out: they only bind a socket and serve forever. Host and port are not modelled.
- Logging is left out.
- `writer.drain`, `wait_closed` and `get_extra_info` are left out: they have no effect the model can observe.
- `json.loads`, `json.dumps` and `urllib.parse.parse_qs` are parameters and are not defined here. Their behaviour is library code.
- `str.lower` is modelled on ASCII letters only. Python lower-cases all of Unicode.
- `int()` of a header value accepts surrounding whitespace, an optional sign, ASCII decimal digits and single underscores between digits, as Python does. Python also accepts non-ASCII decimal digits; the model refuses them.
- `readline()`'s 64 KiB line limit is not modelled.
- Regular-expression metacharacters in literal template text (`.`, `+`, `{`, `}`, ...) are matched as themselves. Python's `re` gives them their meaning, so the template `/v{1}` matches the path `/v` there and `/v{1}` in the model. The application's templates contain none.
- `urlparse` is taken on origin-form targets: path and query split at the first `?`. Fragments, `;params` and absolute-form targets are not modelled.
- `urlparse` of a target starting `//` takes what follows as a network location: Python gives `//x` the empty path, while the model keeps `//x` as the path.
- `urlparse` (Python 3.9.5 and later) deletes tab, CR and LF anywhere in the target and strips leading control characters and spaces. The model keeps them, so `GET /users\r HTTP/1.1` routes `/users\r` (a 404) where Python routes `/users`.
- Users.PairOf: a two-item list given to `dict.update` must start with a string, because a record's field names are strings here. Python would also store an int, float, bool or None key; the model raises TypeError instead.
- Users.PatchLoop: each patch step writes the record back into the store only once, after the loop. This is the same final state, since no other code runs in between.
- UserFacts.UpdateMerges, UserFacts.PatchUpdates and UserFacts.PatchGet: stated for JSON objects without a repeated name, which is what `json.loads` returns.
- The Response's `headers` dict is aliased with the caller's dict in Python and updated in place. The model builds a new dict; no modelled caller reads its own dict afterwards.
- A `Response` body of any other type (an int, None) is not modelled. The handlers pass only str, bytes, dict and list.
