/**
 * The demo application of app.py: the in-memory user store `users_db` and
 * the seven handlers over it.
 *
 * The store maps an id to a record and a record maps field names to JSON
 * values; both are Python dicts and keep insertion order. The handlers change
 * the store in place. Here the store is the field of a class and each handler
 * a method on it, proved against a function of the old store and the request
 * that states the handler's answer and the new store; the lemmas below are
 * about those functions.
 */
module Users {
  import opened Wrappers
  import opened PyStr
  import opened Dicts
  import opened Json
  import opened Errors
  import opened Messages

  type Record = Dict<string, Json>
  type Db = Dict<string, Record>

  /** The handler functions of app.py, by name. */
  datatype HandlerName =
    | ReadRoot | GetUsers | GetUserById | CreateUser | UpdateUser | PartialUpdateUser | DeleteUser

  /** `users_db` as the module defines it. */
  function InitialUsers(): Db
  {
    [("1", [("id", JString("1")), ("name", JString("mayur")), ("email", JString("mayur@example.com"))]),
     ("2", [("id", JString("2")), ("name", JString("admin")), ("email", JString("admin@example.com"))])]
  }

  /** `Response({"detail": message}, status_code=..., reason_phrase=..., content_type="application/json")` */
  function Detail(statusCode: int, reasonPhrase: string, message: string, dumps: Json -> string): Response
  {
    Respond(DictBody([("detail", JString(message))]), statusCode, reasonPhrase, dumps)
  }

  /** `Response(body, content_type="application/json")`: status 200, reason "OK". */
  function Ok(body: Body, dumps: Json -> string): Response
  {
    Respond(body, 200, "OK", dumps)
  }

  // ---------------------------------------------------------------------------
  // read_root and get_users
  // ---------------------------------------------------------------------------

  function ReadRootSpec(dumps: Json -> string): Response
  {
    Ok(DictBody([("message", JString("welcome to the simple REST API!"))]), dumps)
  }

  /** `user['name'].lower()` needs a `name` (else KeyError) holding a string (else AttributeError). */
  function NameOf(user: Record): Result<string, Error>
  {
    match Get(user, "name")
    case None => Failure(KeyError)
    case Some(v) => if v.JString? then Success(v.s) else Failure(AttributeError)
  }

  /** The filter of the comprehension: the name contains the query, both lower-cased. */
  predicate NameMatches(user: Record, query: string)
  {
    NameOf(user).Success? && Contains(Lower(NameOf(user).value), Lower(query))
  }

  /**
   * `[user for user in users if query.lower() in user['name'].lower()]`:
   * evaluated in order, so the first user without a string name raises.
   */
  function FilterByName(users: seq<Record>, query: string): Result<seq<Record>, Error>
  {
    if users == [] then Success([])
    else match NameOf(users[0])
      case Failure(e) => Failure(e)
      case Success(name) =>
        match FilterByName(users[1..], query)
        case Failure(e) => Failure(e)
        case Success(rest) => Success((if Contains(Lower(name), Lower(query)) then [users[0]] else []) + rest)
  }

  /** The records as JSON objects, for a list body. */
  function Objects(users: seq<Record>): (js: seq<Json>)
    ensures |js| == |users| && forall i :: 0 <= i < |users| ==> js[i] == JObject(users[i])
  {
    if users == [] then [] else [JObject(users[0])] + Objects(users[1..])
  }

  /** `get_users`: all records, or those whose name contains the first `name` query value. */
  function GetUsersSpec(db: Db, request: Request, dumps: Json -> string): Result<Response, Error>
  {
    var filter := Get(request.queryParams, "name");
    if filter.Some? && filter.value != [] then
      match FilterByName(Values(db), filter.value[0])
      case Failure(e) => Failure(e)
      case Success(users) => Success(Ok(ListBody(Objects(users)), dumps))
    else Success(Ok(ListBody(Objects(Values(db))), dumps))
  }

  // ---------------------------------------------------------------------------
  // The handlers under /users/{user_id}
  // ---------------------------------------------------------------------------

  /** `request.path_params.get('user_id')` */
  function UserId(request: Request): Option<string>
  {
    Get(request.pathParams, "user_id")
  }

  /** `user_id in users_db`, where a missing `user_id` is `None` and never a key. */
  predicate Known(db: Db, id: Option<string>)
  {
    id.Some? && id.value in Keys(db)
  }

  /** `request.json` is truthy. */
  predicate HasJson(request: Request)
  {
    request.json.Some? && Truthy(request.json.value)
  }

  /** `get_user_by_id`: the record when the lookup gives a non-empty one, else the 404. */
  function GetUserByIdSpec(db: Db, request: Request, dumps: Json -> string): Response
  {
    var user := if UserId(request).Some? then Get(db, UserId(request).value) else None;
    if user.Some? && user.value != [] then Ok(DictBody(user.value), dumps)
    else Detail(404, "Not Found", "user not found", dumps)
  }

  /** `str(len(users_db) + 1)` */
  function NewId(db: Db): string
  {
    NatToString(|db| + 1)
  }

  /** `{"id": new_id, **data}`: `id` first, then the fields of `data`, whose own `id` wins. */
  function NewUser(id: string, data: Record): Record
  {
    Update([("id", JString(id))], data)
  }

  /** `create_user`: the new store and the answer, or the exception. */
  function CreateSpec(db: Db, request: Request, dumps: Json -> string): (Db, Result<Response, Error>)
  {
    if HasJson(request) then
      match request.json.value
      case JObject(data) =>
        var user := NewUser(NewId(db), data);
        (Put(db, NewId(db), user), Success(Respond(DictBody(user), 201, "OK", dumps)))
      case _ => (db, Failure(TypeError))
    else (db, Success(Detail(400, "Bad Request", "invalid JSON body", dumps)))
  }

  /**
   * An element of a sequence given to `dict.update`: it must iterate to
   * exactly two items, the first a string key.
   */
  function PairOf(item: Json): Result<(string, Json), Error>
  {
    match item
    case JArray(ys) =>
      if |ys| != 2 then Failure(ValueError)
      else if ys[0].JString? then Success((ys[0].s, ys[1]))
      else Failure(TypeError)
    case JString(s) =>
      if |s| != 2 then Failure(ValueError) else Success(([s[0]], JString([s[1]])))
    case JObject(ms) =>
      if |ms| != 2 then Failure(ValueError) else Success((ms[0].0, JString(ms[1].0)))
    case _ => Failure(TypeError)
  }

  /** `rec.update(items)` for a list: pairs assigned in order; an exception keeps the pairs before it. */
  function UpdateFromPairs(rec: Record, items: seq<Json>): (Record, Option<Error>)
    decreases |items|
  {
    if items == [] then (rec, None)
    else match PairOf(items[0])
      case Failure(e) => (rec, Some(e))
      case Success((k, v)) => UpdateFromPairs(Put(rec, k, v), items[1..])
  }

  /** `rec.update(other)` for a JSON value: the record after it and the exception, if any. */
  function DictUpdate(rec: Record, other: Json): (Record, Option<Error>)
  {
    match other
    case JObject(members) => (Update(rec, members), None)
    case JArray(items) => UpdateFromPairs(rec, items)
    case JString(s) =>
      if s == [] then (rec, None) else (rec, Some(ValueError))
    case _ => (rec, Some(TypeError))
  }

  /** `update_user` */
  function UpdateSpec(db: Db, request: Request, dumps: Json -> string): (Db, Result<Response, Error>)
  {
    var id := UserId(request);
    if !Known(db, id) then (db, Success(Detail(404, "Not Found", "user not found", dumps)))
    else if HasJson(request) then
      var updated := DictUpdate(Get(db, id.value).value, request.json.value);
      var db' := Put(db, id.value, updated.0);
      if updated.1.Some? then (db', Failure(updated.1.value))
      else (db', Success(Ok(DictBody(updated.0), dumps)))
    else (db, Success(Detail(400, "Bad Request", "Invalid JSON body", dumps)))
  }

  /** The patch loop: each pair is assigned only when its key is already in the record. */
  function PatchRecord(rec: Record, items: Dict<string, Json>): Record
  {
    if items == [] then rec
    else
      var before := PatchRecord(rec, items[..|items| - 1]);
      var last := items[|items| - 1];
      if last.0 in Keys(before) then Put(before, last.0, last.1) else before
  }

  /** `partial_update_user` */
  function PatchSpec(db: Db, request: Request, dumps: Json -> string): (Db, Result<Response, Error>)
  {
    var id := UserId(request);
    if !Known(db, id) then (db, Success(Detail(404, "Not Found", "User not found", dumps)))
    else if HasJson(request) then
      match request.json.value
      case JObject(items) =>
        var rec := PatchRecord(Get(db, id.value).value, items);
        (Put(db, id.value, rec), Success(Ok(DictBody(rec), dumps)))
      case _ => (db, Failure(AttributeError))
    else (db, Success(Detail(400, "Bad Request", "invalid JSON body", dumps)))
  }

  /** `delete_user` */
  function DeleteSpec(db: Db, request: Request, dumps: Json -> string): (Db, Result<Response, Error>)
  {
    var id := UserId(request);
    if Known(db, id) then
      (Remove(db, id.value), Success(Respond(DictBody([("message", JString("user deleted successfully"))]), 204, "OK", dumps)))
    else (db, Success(Detail(404, "Not Found", "user not found", dumps)))
  }

  /** Running a handler: the store after it and its response or exception. */
  function Invoke(lib: Library, db: Db, h: HandlerName, request: Request): (Db, Result<Response, Error>)
  {
    match h
    case ReadRoot => (db, Success(ReadRootSpec(lib.dumps)))
    case GetUsers => (db, GetUsersSpec(db, request, lib.dumps))
    case GetUserById => (db, Success(GetUserByIdSpec(db, request, lib.dumps)))
    case CreateUser => CreateSpec(db, request, lib.dumps)
    case UpdateUser => UpdateSpec(db, request, lib.dumps)
    case PartialUpdateUser => PatchSpec(db, request, lib.dumps)
    case DeleteUser => DeleteSpec(db, request, lib.dumps)
  }

  // ---------------------------------------------------------------------------
  // The store
  // ---------------------------------------------------------------------------

  /** `users_db` and the handlers that read and change it. */
  class UserStore {
    var users: Db

    constructor ()
      ensures users == InitialUsers()
    {
      users := InitialUsers();
    }

    method GetUsers(request: Request, dumps: Json -> string) returns (r: Result<Response, Error>)
      ensures r == GetUsersSpec(users, request, dumps)
    {
      var filter := Get(request.queryParams, "name");
      if filter.Some? && filter.value != [] {
        var filtered := FilterByName(Values(users), filter.value[0]);
        if filtered.Failure? {
          return Failure(filtered.error);
        }
        return Success(Ok(ListBody(Objects(filtered.value)), dumps));
      }
      r := Success(Ok(ListBody(Objects(Values(users))), dumps));
    }

    method GetUserById(request: Request, dumps: Json -> string) returns (r: Response)
      ensures r == GetUserByIdSpec(users, request, dumps)
    {
      var id := UserId(request);
      var user := if id.Some? then Get(users, id.value) else None;
      if user.Some? && user.value != [] {
        return Ok(DictBody(user.value), dumps);
      }
      r := Detail(404, "Not Found", "user not found", dumps);
    }

    method CreateUser(request: Request, dumps: Json -> string) returns (r: Result<Response, Error>)
      modifies this
      ensures (users, r) == CreateSpec(old(users), request, dumps)
    {
      if !HasJson(request) {
        return Success(Detail(400, "Bad Request", "invalid JSON body", dumps));
      }
      if !request.json.value.JObject? {
        return Failure(TypeError);
      }
      var newId := NewId(users);
      var newUser := NewUser(newId, request.json.value.members);
      users := Put(users, newId, newUser);
      r := Success(Respond(DictBody(newUser), 201, "OK", dumps));
    }

    method UpdateUser(request: Request, dumps: Json -> string) returns (r: Result<Response, Error>)
      modifies this
      ensures (users, r) == UpdateSpec(old(users), request, dumps)
    {
      var id := UserId(request);
      if !Known(users, id) {
        return Success(Detail(404, "Not Found", "user not found", dumps));
      }
      if !HasJson(request) {
        return Success(Detail(400, "Bad Request", "Invalid JSON body", dumps));
      }
      var updated := DictUpdate(Get(users, id.value).value, request.json.value);
      users := Put(users, id.value, updated.0);
      if updated.1.Some? {
        return Failure(updated.1.value);
      }
      r := Success(Ok(DictBody(updated.0), dumps));
    }

    method PartialUpdateUser(request: Request, dumps: Json -> string) returns (r: Result<Response, Error>)
      modifies this
      ensures (users, r) == PatchSpec(old(users), request, dumps)
    {
      var id := UserId(request);
      if !Known(users, id) {
        return Success(Detail(404, "Not Found", "User not found", dumps));
      }
      if !HasJson(request) {
        return Success(Detail(400, "Bad Request", "invalid JSON body", dumps));
      }
      if !request.json.value.JObject? {
        return Failure(AttributeError);
      }
      var rec := PatchLoop(Get(users, id.value).value, request.json.value.members);
      users := Put(users, id.value, rec);
      r := Success(Ok(DictBody(rec), dumps));
    }

    method DeleteUser(request: Request, dumps: Json -> string) returns (r: Result<Response, Error>)
      modifies this
      ensures (users, r) == DeleteSpec(old(users), request, dumps)
    {
      var id := UserId(request);
      if Known(users, id) {
        users := Remove(users, id.value);
        return Success(Respond(DictBody([("message", JString("user deleted successfully"))]), 204, "OK", dumps));
      }
      r := Success(Detail(404, "Not Found", "user not found", dumps));
    }

    /** Awaiting the handler the router picked. */
    method Handle(h: HandlerName, request: Request, lib: Library) returns (r: Result<Response, Error>)
      modifies this
      ensures (users, r) == Invoke(lib, old(users), h, request)
    {
      match h {
        case ReadRoot => r := Success(ReadRootSpec(lib.dumps));
        case GetUsers => r := GetUsers(request, lib.dumps);
        case GetUserById => var resp := GetUserById(request, lib.dumps); r := Success(resp);
        case CreateUser => r := CreateUser(request, lib.dumps);
        case UpdateUser => r := UpdateUser(request, lib.dumps);
        case PartialUpdateUser => r := PartialUpdateUser(request, lib.dumps);
        case DeleteUser => r := DeleteUser(request, lib.dumps);
      }
    }
  }

  /** `for key, value in items: if key in rec: rec[key] = value` */
  method PatchLoop(rec0: Record, items: Dict<string, Json>) returns (rec: Record)
    ensures rec == PatchRecord(rec0, items)
  {
    rec := rec0;
    var i := 0;
    assert items[..0] == [];
    while i < |items|
      invariant 0 <= i <= |items|
      invariant rec == PatchRecord(rec0, items[..i])
    {
      PatchStep(rec0, items, i);
      if items[i].0 in Keys(rec) {
        rec := Put(rec, items[i].0, items[i].1);
      }
      i := i + 1;
    }
    assert items[..i] == items;
  }

  /** One more pass of the patch loop. */
  lemma PatchStep(rec: Record, items: Dict<string, Json>, i: nat)
    requires i < |items|
    ensures var before := PatchRecord(rec, items[..i]);
      PatchRecord(rec, items[..i + 1]) ==
        if items[i].0 in Keys(before) then Put(before, items[i].0, items[i].1) else before
  {
    assert items[..i + 1][..i] == items[..i];
  }
}
