/**
 * What the handlers of app.py do to `users_db`: the invariant they all keep,
 * and for each handler which answer it gives and which records it changes.
 * Everything here is about the functions of module Users that the store's
 * methods are proved against.
 */
module UserFacts {
  import opened Wrappers
  import opened PyStr
  import opened Dicts
  import opened Json
  import opened Errors
  import opened Messages
  import opened Users

  // ---------------------------------------------------------------------------
  // The store invariant
  // ---------------------------------------------------------------------------

  /** A stored user: a dict (each field once) that has an `id` field. */
  ghost predicate RecordInv(rec: Record)
  {
    NoDupKeys(rec) && "id" in Keys(rec)
  }

  /** `users_db`: each id once, and every record a stored user. */
  ghost predicate StoreInv(db: Db)
  {
    NoDupKeys(db) && forall e :: e in db ==> RecordInv(e.1)
  }

  /** Only the record under `id` may differ; the ids and their order stay. */
  ghost predicate OnlyRecordChanges(db: Db, db': Db, id: string)
  {
    Keys(db') == Keys(db) && forall k :: k != id ==> Get(db', k) == Get(db, k)
  }

  lemma InitialStoreInv()
    ensures StoreInv(InitialUsers())
  {
  }

  lemma PutRecordInv(rec: Record, k: string, v: Json)
    requires RecordInv(rec)
    ensures RecordInv(Put(rec, k, v))
  {
    PutNoDup(rec, k, v);
    PutKeys(rec, k, v);
  }

  lemma StorePut(db: Db, id: string, rec: Record)
    requires StoreInv(db) && RecordInv(rec)
    ensures StoreInv(Put(db, id, rec))
  {
    PutNoDup(db, id, rec);
    forall e | e in Put(db, id, rec)
      ensures RecordInv(e.1)
    {
      PutEntries(db, id, rec, e);
    }
  }

  lemma StoreRemove(db: Db, id: string)
    requires StoreInv(db)
    ensures StoreInv(Remove(db, id))
  {
    RemoveNoDup(db, id);
    forall e | e in Remove(db, id)
      ensures RecordInv(e.1)
    {
      RemoveEntries(db, id, e);
    }
  }

  /** The record stored under a known id is a stored user. */
  lemma StoredRecord(db: Db, id: string)
    requires StoreInv(db) && id in Keys(db)
    ensures RecordInv(Get(db, id).value)
  {
    GetEntry(db, id);
  }

  /** `{"id": new_id, **data}` is a stored user whatever `data` holds. */
  lemma NewUserInv(id: string, data: Record)
    ensures RecordInv(NewUser(id, data))
  {
    var start: Record := [("id", JString(id))];
    UpdateNoDup(start, data);
    UpdateKeys(start, data);
    PrefixIn(Keys(start), Keys(NewUser(id, data)), "id");
  }

  /** Assigning the pairs of a list one by one keeps a stored user one. */
  lemma {:induction false} UpdateFromPairsInv(rec: Record, items: seq<Json>)
    requires RecordInv(rec)
    ensures RecordInv(UpdateFromPairs(rec, items).0)
    decreases |items|
  {
    if items != [] {
      match PairOf(items[0])
      case Failure(_) =>
      case Success((k, v)) =>
        PutRecordInv(rec, k, v);
        UpdateFromPairsInv(Put(rec, k, v), items[1..]);
    }
  }

  /** `rec.update(other)` keeps a stored user one, also when it raises part way. */
  lemma DictUpdateInv(rec: Record, other: Json)
    requires RecordInv(rec)
    ensures RecordInv(DictUpdate(rec, other).0)
  {
    match other
    case JObject(members) =>
      UpdateNoDup(rec, members);
      UpdateKeys(rec, members);
      PrefixIn(Keys(rec), Keys(Update(rec, members)), "id");
    case JArray(items) => UpdateFromPairsInv(rec, items);
    case _ =>
  }

  /** Every handler keeps the store invariant, whatever the request. */
  lemma InvokePreserves(lib: Library, db: Db, h: HandlerName, request: Request)
    requires StoreInv(db)
    ensures StoreInv(Invoke(lib, db, h, request).0)
  {
    var id := UserId(request);
    match h
    case ReadRoot =>
    case GetUsers =>
    case GetUserById =>
    case CreateUser =>
      if HasJson(request) && request.json.value.JObject? {
        NewUserInv(NewId(db), request.json.value.members);
        StorePut(db, NewId(db), NewUser(NewId(db), request.json.value.members));
      }
    case UpdateUser =>
      if Known(db, id) && HasJson(request) {
        StoredRecord(db, id.value);
        var rec := Get(db, id.value).value;
        DictUpdateInv(rec, request.json.value);
        StorePut(db, id.value, DictUpdate(rec, request.json.value).0);
      }
    case PartialUpdateUser =>
      if Known(db, id) && HasJson(request) && request.json.value.JObject? {
        StoredRecord(db, id.value);
        var rec := Get(db, id.value).value;
        var items := request.json.value.members;
        PatchKeys(rec, items);
        StorePut(db, id.value, PatchRecord(rec, items));
      }
    case DeleteUser =>
      if Known(db, id) {
        StoreRemove(db, id.value);
      }
  }

  // ---------------------------------------------------------------------------
  // get_users and read_root
  // ---------------------------------------------------------------------------

  /** The root answers 200 with its welcome message as a JSON object. */
  lemma ReadRootShape(dumps: Json -> string)
    ensures var bytes := EncodeBody(DictBody([("message", JString("welcome to the simple REST API!"))]), dumps);
      ReadRootSpec(dumps) ==
        Response(200, "OK", [("Content-Type", "application/json"), ("Content-Length", NatToString(|bytes|))],
                 bytes, "application/json")
  {
    RespondShape(DictBody([("message", JString("welcome to the simple REST API!"))]), 200, "OK", dumps);
  }

  /** The comprehension completes exactly when every user has a string name. */
  lemma {:induction false} FilterSucceeds(users: seq<Record>, query: string)
    ensures FilterByName(users, query).Success? <==> forall i :: 0 <= i < |users| ==> NameOf(users[i]).Success?
  {
    if users != [] {
      FilterSucceeds(users[1..], query);
      assert forall i :: 1 <= i < |users| ==> users[i] == users[1..][i - 1];
    }
  }

  /** When it raises, it raises the error of the first user without a string name. */
  lemma {:induction false} FilterFirstError(users: seq<Record>, query: string, i: nat)
    requires i < |users| && NameOf(users[i]).Failure?
    requires forall j :: 0 <= j < i ==> NameOf(users[j]).Success?
    ensures FilterByName(users, query) == Failure(NameOf(users[i]).error)
  {
    if i > 0 {
      assert NameOf(users[0]).Success?;
      FilterFirstError(users[1..], query, i - 1);
    }
  }

  /** When it completes, it keeps exactly the users whose name contains the query. */
  lemma {:induction false} FilterMembers(users: seq<Record>, query: string, u: Record)
    requires FilterByName(users, query).Success?
    ensures u in FilterByName(users, query).value <==> u in users && NameMatches(u, query)
  {
    if users != [] {
      FilterMembers(users[1..], query, u);
      assert users == [users[0]] + users[1..];
    }
  }

  /** ... and keeps them in the order of the store, dropping the others. */
  lemma {:induction false} FilterLength(users: seq<Record>, query: string)
    requires FilterByName(users, query).Success?
    ensures |FilterByName(users, query).value| <= |users|
    ensures |FilterByName(users, query).value| == |users| <==> forall i :: 0 <= i < |users| ==> NameMatches(users[i], query)
  {
    if users != [] {
      FilterLength(users[1..], query);
      assert forall i :: 1 <= i < |users| ==> users[i] == users[1..][i - 1];
    }
  }

  // ---------------------------------------------------------------------------
  // get_user_by_id
  // ---------------------------------------------------------------------------

  /** On a well-formed store a known id answers 200 with its record, and only an unknown one the 404. */
  lemma GetUserByIdAnswers(db: Db, request: Request, dumps: Json -> string)
    requires StoreInv(db)
    ensures GetUserByIdSpec(db, request, dumps) ==
      if Known(db, UserId(request)) then Ok(DictBody(Get(db, UserId(request).value).value), dumps)
      else Detail(404, "Not Found", "user not found", dumps)
  {
    if Known(db, UserId(request)) {
      StoredRecord(db, UserId(request).value);
    }
  }

  // ---------------------------------------------------------------------------
  // create_user
  // ---------------------------------------------------------------------------

  /** A JSON object body stores a new user under `str(len(users_db) + 1)` and answers 201 with it. */
  lemma CreateStores(db: Db, request: Request, dumps: Json -> string)
    requires HasJson(request) && request.json.value.JObject?
    ensures var user := NewUser(NewId(db), request.json.value.members);
      var (db', r) := CreateSpec(db, request, dumps);
      && ToMap(db') == ToMap(db)[NewId(db) := user]
      && (NewId(db) !in Keys(db) ==> db' == db + [(NewId(db), user)])
      && r == Success(Respond(DictBody(user), 201, "OK", dumps))
  {
    var user := NewUser(NewId(db), request.json.value.members);
    PutIsMapUpdate(db, NewId(db), user);
    if NewId(db) !in Keys(db) {
      PutAppends(db, NewId(db), user);
    }
  }

  /** Any other body changes nothing: a falsy one answers 400, a truthy non-object raises. */
  lemma CreateRejects(db: Db, request: Request, dumps: Json -> string)
    requires !(HasJson(request) && request.json.value.JObject?)
    ensures CreateSpec(db, request, dumps).0 == db
    ensures CreateSpec(db, request, dumps).1 ==
      if HasJson(request) then Failure(TypeError) else Success(Detail(400, "Bad Request", "invalid JSON body", dumps))
  {
  }

  /** The new user has `id` first; `id` comes from the body when it has one, every other field too. */
  lemma NewUserFields(id: string, data: Record)
    requires NoDupKeys(data)
    ensures PrefixOf(["id"], Keys(NewUser(id, data)))
    ensures Get(NewUser(id, data), "id") == if "id" in Keys(data) then Get(data, "id") else Some(JString(id))
    ensures forall k :: k != "id" ==> Get(NewUser(id, data), k) == Get(data, k)
  {
    var start: Record := [("id", JString(id))];
    UpdateKeys(start, data);
    UpdateGet(start, data, "id");
    forall k | k != "id"
      ensures Get(NewUser(id, data), k) == Get(data, k)
    {
      UpdateGet(start, data, k);
    }
  }

  /**
   * The new id counts the users, not the ids ever given out: after user "1"
   * is deleted, creating a user reuses id "2" and replaces the user stored
   * there, so the store still holds one user.
   */
  lemma CreateAfterDeleteReplaces(del: Request, create: Request, data: Record, dumps: Json -> string)
    requires UserId(del) == Some("1")
    requires create.json == Some(JObject(data)) && data != []
    ensures var afterDelete := DeleteSpec(InitialUsers(), del, dumps).0;
      var afterCreate := CreateSpec(afterDelete, create, dumps).0;
      && Keys(afterDelete) == ["2"]
      && Keys(afterCreate) == ["2"]
      && Get(afterCreate, "2") == Some(NewUser("2", data))
  {
    DeleteFirstUser(del, dumps);
    CreateInSecond(create, data, dumps);
  }

  lemma DeleteFirstUser(del: Request, dumps: Json -> string)
    requires UserId(del) == Some("1")
    ensures DeleteSpec(InitialUsers(), del, dumps).0 == [InitialUsers()[1]]
  {
    assert Known(InitialUsers(), UserId(del));
  }

  lemma CreateInSecond(create: Request, data: Record, dumps: Json -> string)
    requires create.json == Some(JObject(data)) && data != []
    ensures CreateSpec([InitialUsers()[1]], create, dumps).0 == [("2", NewUser("2", data))]
  {
    var db: Db := [InitialUsers()[1]];
    assert HasJson(create);
    assert NewId(db) == "2" by { assert NatToString(2) == [DigitChar(2)]; }
    assert CreateSpec(db, create, dumps).0 == Put(db, "2", NewUser("2", data));
  }

  // ---------------------------------------------------------------------------
  // update_user
  // ---------------------------------------------------------------------------

  /** An unknown id answers 404 and changes nothing; a known one with a falsy body answers 400. */
  lemma UpdateRejects(db: Db, request: Request, dumps: Json -> string)
    requires !Known(db, UserId(request)) || !HasJson(request)
    ensures UpdateSpec(db, request, dumps) ==
      if !Known(db, UserId(request)) then (db, Success(Detail(404, "Not Found", "user not found", dumps)))
      else (db, Success(Detail(400, "Bad Request", "Invalid JSON body", dumps)))
  {
  }

  /**
   * A JSON object merges into the record: its fields take the new values,
   * the others keep theirs, no field goes away, and no other user changes.
   */
  lemma UpdateMerges(db: Db, request: Request, dumps: Json -> string)
    requires Known(db, UserId(request)) && HasJson(request) && request.json.value.JObject?
    requires NoDupKeys(request.json.value.members)
    ensures var id := UserId(request).value;
      var rec := Get(db, id).value;
      var members := request.json.value.members;
      var (db', r) := UpdateSpec(db, request, dumps);
      && OnlyRecordChanges(db, db', id)
      && Get(db', id) == Some(Update(rec, members))
      && PrefixOf(Keys(rec), Keys(Update(rec, members)))
      && (forall f :: Get(Update(rec, members), f) == if f in Keys(members) then Get(members, f) else Get(rec, f))
      && r == Success(Ok(DictBody(Update(rec, members)), dumps))
  {
    var id := UserId(request).value;
    var rec := Get(db, id).value;
    var members := request.json.value.members;
    StoreOnlyRecord(db, id, Update(rec, members));
    UpdateKeys(rec, members);
    forall f
      ensures Get(Update(rec, members), f) == if f in Keys(members) then Get(members, f) else Get(rec, f)
    {
      UpdateGet(rec, members, f);
    }
  }

  /** When `update` raises before assigning anything, the store is as it was. */
  lemma UpdateRaisesUnchanged(db: Db, request: Request, dumps: Json -> string)
    requires Known(db, UserId(request)) && HasJson(request)
    requires DictUpdate(Get(db, UserId(request).value).value, request.json.value).0 == Get(db, UserId(request).value).value
    ensures UpdateSpec(db, request, dumps).0 == db
  {
    PutSame(db, UserId(request).value);
  }

  /** `update` with a list completes exactly when every element is a pair with a string key. */
  lemma {:induction false} UpdateFromPairsCompletes(rec: Record, items: seq<Json>)
    ensures UpdateFromPairs(rec, items).1.None? <==> forall i :: 0 <= i < |items| ==> PairOf(items[i]).Success?
    decreases |items|
  {
    if items != [] {
      assert forall i :: 1 <= i < |items| ==> items[i] == items[1..][i - 1];
      match PairOf(items[0])
      case Failure(_) =>
      case Success((k, v)) => UpdateFromPairsCompletes(Put(rec, k, v), items[1..]);
    }
  }

  /** When an element is not a pair, the pairs before it stay assigned and its error is raised. */
  lemma {:induction false} UpdateFromPairsStops(rec: Record, items: seq<Json>, i: nat)
    requires i < |items| && PairOf(items[i]).Failure?
    requires forall j :: 0 <= j < i ==> PairOf(items[j]).Success?
    ensures UpdateFromPairs(rec, items) == (UpdateFromPairs(rec, items[..i]).0, Some(PairOf(items[i]).error))
    decreases i
  {
    if i > 0 {
      assert PairOf(items[0]).Success?;
      var (k, v) := PairOf(items[0]).value;
      assert items[..i][1..] == items[1..][..i - 1];
      UpdateFromPairsStops(Put(rec, k, v), items[1..], i - 1);
    }
  }

  // ---------------------------------------------------------------------------
  // partial_update_user
  // ---------------------------------------------------------------------------

  /** The patch loop never adds a field and keeps their order. */
  lemma {:induction false} PatchKeys(rec: Record, items: Dict<string, Json>)
    ensures Keys(PatchRecord(rec, items)) == Keys(rec)
    decreases |items|
  {
    if items != [] {
      var init := items[..|items| - 1];
      PatchKeys(rec, init);
      var before := PatchRecord(rec, init);
      var last := items[|items| - 1];
      PutKeys(before, last.0, last.1);
    }
  }

  /** A field takes the patched value when both the record and the body have it. */
  lemma {:induction false} PatchGet(rec: Record, items: Dict<string, Json>, f: string)
    requires NoDupKeys(items)
    ensures Get(PatchRecord(rec, items), f) ==
      if f in Keys(rec) && f in Keys(items) then Get(items, f) else Get(rec, f)
    decreases |items|
  {
    if items != [] {
      var init := items[..|items| - 1];
      var last := items[|items| - 1];
      SnocGet(items, f);
      PatchGet(rec, init, f);
      PatchKeys(rec, init);
      var before := PatchRecord(rec, init);
      if last.0 in Keys(before) && f != last.0 {
        PutOther(before, last.0, last.1, f);
      }
    }
  }

  /** A JSON object patches the record's existing fields only, and no other user changes. */
  lemma PatchUpdates(db: Db, request: Request, dumps: Json -> string)
    requires Known(db, UserId(request)) && HasJson(request) && request.json.value.JObject?
    requires NoDupKeys(request.json.value.members)
    ensures var id := UserId(request).value;
      var rec := Get(db, id).value;
      var items := request.json.value.members;
      var (db', r) := PatchSpec(db, request, dumps);
      && OnlyRecordChanges(db, db', id)
      && Get(db', id) == Some(PatchRecord(rec, items))
      && Keys(PatchRecord(rec, items)) == Keys(rec)
      && (forall f :: Get(PatchRecord(rec, items), f) ==
            if f in Keys(rec) && f in Keys(items) then Get(items, f) else Get(rec, f))
      && r == Success(Ok(DictBody(PatchRecord(rec, items)), dumps))
  {
    var id := UserId(request).value;
    var rec := Get(db, id).value;
    var items := request.json.value.members;
    StoreOnlyRecord(db, id, PatchRecord(rec, items));
    PatchKeys(rec, items);
    forall f
      ensures Get(PatchRecord(rec, items), f) ==
        if f in Keys(rec) && f in Keys(items) then Get(items, f) else Get(rec, f)
    {
      PatchGet(rec, items, f);
    }
  }

  /** Without a known id, or without a JSON object, nothing changes. */
  lemma PatchRejects(db: Db, request: Request, dumps: Json -> string)
    requires !(Known(db, UserId(request)) && HasJson(request) && request.json.value.JObject?)
    ensures PatchSpec(db, request, dumps) ==
      if !Known(db, UserId(request)) then (db, Success(Detail(404, "Not Found", "User not found", dumps)))
      else if HasJson(request) then (db, Failure(AttributeError))
      else (db, Success(Detail(400, "Bad Request", "invalid JSON body", dumps)))
  {
  }

  // ---------------------------------------------------------------------------
  // delete_user
  // ---------------------------------------------------------------------------

  /** A known id is removed and nothing else, with a 204; an unknown one answers 404 and changes nothing. */
  lemma DeleteRemoves(db: Db, request: Request, dumps: Json -> string)
    requires StoreInv(db)
    ensures var (db', r) := DeleteSpec(db, request, dumps);
      if Known(db, UserId(request)) then
        && ToMap(db') == ToMap(db) - {UserId(request).value}
        && db' == db[..IndexOf(db, UserId(request).value).value] + db[IndexOf(db, UserId(request).value).value + 1..]
        && r == Success(Respond(DictBody([("message", JString("user deleted successfully"))]), 204, "OK", dumps))
      else db' == db && r == Success(Detail(404, "Not Found", "user not found", dumps))
  {
    if Known(db, UserId(request)) {
      var id := UserId(request).value;
      RemoveIsMapRemove(db, id);
      RemoveSplice(db, id, IndexOf(db, id).value);
    }
  }

  // ---------------------------------------------------------------------------
  // Helpers
  // ---------------------------------------------------------------------------

  /** A dict with unique keys seen as its entries but the last, then the last. */
  lemma SnocGet(items: Dict<string, Json>, f: string)
    requires items != [] && NoDupKeys(items)
    ensures var init := items[..|items| - 1];
      var last := items[|items| - 1];
      && NoDupKeys(init) && last.0 !in Keys(init)
      && (f in Keys(items) <==> f in Keys(init) || f == last.0)
      && Get(items, f) == if f in Keys(init) then Get(init, f) else if f == last.0 then Some(last.1) else None
  {
    var init := items[..|items| - 1];
    var last := items[|items| - 1];
    assert items == init + [last];
    KeysAppend(init, [last]);
    assert Keys([last]) == [last.0];
    assert Keys(items) == Keys(init) + [last.0];
    DistinctAppend(Keys(init), [last.0]);
    assert last.0 in [last.0];
    GetSnoc(init, last, f);
  }

  /** `users_db[id] = rec` for a known id changes that record only. */
  lemma StoreOnlyRecord(db: Db, id: string, rec: Record)
    requires id in Keys(db)
    ensures OnlyRecordChanges(db, Put(db, id, rec), id)
  {
    PutKeys(db, id, rec);
    forall k | k != id
      ensures Get(Put(db, id, rec), k) == Get(db, k)
    {
      PutOther(db, id, rec, k);
    }
  }
}
