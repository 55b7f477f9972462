/**
 * The framework's request and response values (web_framework.py, classes
 * Request and Response).
 */
module Messages {
  import opened Wrappers
  import opened Text
  import opened PyStr
  import opened Dicts
  import opened Json
  import opened Errors
  import opened Asgi

  // ---------------------------------------------------------------------------
  // Request
  // ---------------------------------------------------------------------------

  datatype Request = Request(
    path: string,
    httpMethod: string,
    headers: Dict<string, string>,
    queryParams: Dict<string, seq<string>>,
    body: Bytes,
    pathParams: Dict<string, string>,
    json: Option<Json>)

  /** `{k.decode(): v.decode() for k, v in pairs}`, continuing from `acc`; None when a decode raises. */
  function DecodeHeaders(pairs: seq<(Bytes, Bytes)>, acc: Dict<string, string>): Option<Dict<string, string>>
    decreases |pairs|
  {
    if pairs == [] then Some(acc)
    else match (Decode(pairs[0].0), Decode(pairs[0].1))
      case (Some(k), Some(v)) => DecodeHeaders(pairs[1..], Put(acc, k, v))
      case _ => None
  }

  /** `'content-type' in headers and 'application/json' in headers['content-type']` */
  predicate DeclaresJson(headers: Dict<string, string>)
  {
    match Get(headers, "content-type")
    case None => false
    case Some(ct) => Contains(ct, "application/json")
  }

  /**
   * The `json` attribute: `json.loads(body.decode('utf-8'))` when the headers
   * declare JSON, with a `JSONDecodeError` turned into None. A body that is not
   * UTF-8 raises `UnicodeDecodeError`, which the constructor does not catch.
   */
  function BodyJson(headers: Dict<string, string>, body: Bytes, lib: Library): Result<Option<Json>, Error>
  {
    if DeclaresJson(headers) then
      match Decode(body)
      case None => Failure(UnicodeDecodeError)
      case Some(text) => Success(lib.loads(text))
    else Success(None)
  }

  /** `Request(scope)`: the exception it raises, or the request. */
  function NewRequest(scope: Scope, lib: Library): Result<Request, Error>
  {
    match DecodeHeaders(scope.headers, [])
    case None => Failure(UnicodeDecodeError)
    case Some(headers) =>
      match Decode(scope.queryString)
      case None => Failure(UnicodeDecodeError)
      case Some(query) =>
        match BodyJson(headers, scope.body, lib)
        case Failure(e) => Failure(e)
        case Success(json) =>
          Success(Request(scope.path, scope.httpMethod, headers, lib.parseQs(query), scope.body, [], json))
  }

  /**
   * A request has a JSON value exactly when its headers declare JSON, its body
   * is UTF-8 and `json.loads` accepts the text; an invalid JSON text gives None,
   * not an error. Path, method and body are copied and `path_params` is empty.
   */
  lemma NewRequestJson(scope: Scope, lib: Library)
    requires NewRequest(scope, lib).Success?
    ensures var r := NewRequest(scope, lib).value;
      r.path == scope.path && r.httpMethod == scope.httpMethod && r.body == scope.body && r.pathParams == [] &&
      (r.json.Some? <==> DeclaresJson(r.headers) && Decode(r.body).Some? && lib.loads(Decode(r.body).value).Some?) &&
      (r.json.Some? ==> r.json == lib.loads(Decode(r.body).value))
  {
  }

  /** Construction fails only by a decode: of a header, of the query string, or of a body declared JSON. */
  lemma NewRequestFails(scope: Scope, lib: Library)
    ensures NewRequest(scope, lib).Failure? <==>
      DecodeHeaders(scope.headers, []).None? || Decode(scope.queryString).None? ||
      (DeclaresJson(DecodeHeaders(scope.headers, []).value) && Decode(scope.body).None?)
    ensures NewRequest(scope, lib).Failure? ==> NewRequest(scope, lib).error == UnicodeDecodeError
  {
  }

  /** The scope's header pairs for a dict: `[(k.encode(), v.encode()) for k, v in headers.items()]`. */
  function EncodePairs(headers: Dict<string, string>): (pairs: seq<(Bytes, Bytes)>)
    ensures |pairs| == |headers|
  {
    if headers == [] then [] else [(Encode(headers[0].0), Encode(headers[0].1))] + EncodePairs(headers[1..])
  }

  lemma DecodeHeadersStep(pairs: seq<(Bytes, Bytes)>, acc: Dict<string, string>, k: string, v: string)
    requires pairs != [] && Decode(pairs[0].0) == Some(k) && Decode(pairs[0].1) == Some(v)
    ensures DecodeHeaders(pairs, acc) == DecodeHeaders(pairs[1..], Put(acc, k, v))
  {
  }

  /** Decoding encoded headers replays them, in order, as assignments into the accumulator. */
  lemma {:induction false} DecodeEncodePairs(h: Dict<string, string>, acc: Dict<string, string>)
    ensures DecodeHeaders(EncodePairs(h), acc) == Some(Update(acc, h))
    decreases |h|
  {
    if h != [] {
      var pairs := EncodePairs(h);
      assert pairs[0] == (Encode(h[0].0), Encode(h[0].1)) && pairs[1..] == EncodePairs(h[1..]);
      DecodeEncode(h[0].0);
      DecodeEncode(h[0].1);
      DecodeHeadersStep(pairs, acc, h[0].0, h[0].1);
      DecodeEncodePairs(h[1..], Put(acc, h[0].0, h[0].1));
    }
  }

  /** The request sees the headers the parser put in the scope: decoding undoes the scope's encoding. */
  lemma RequestHeadersRoundTrip(h: Dict<string, string>)
    requires NoDupKeys(h)
    ensures DecodeHeaders(EncodePairs(h), []) == Some(h)
  {
    var empty: Dict<string, string> := [];
    DecodeEncodePairs(h, empty);
    assert Keys(empty) + Keys(h) == Keys(h);
    UpdateAppends(empty, h);
    assert empty + h == h;
  }

  // ---------------------------------------------------------------------------
  // Response
  // ---------------------------------------------------------------------------

  /** The kinds of value the handlers pass as a body. */
  datatype Body =
    | StrBody(text: string)
    | BytesBody(bytes: Bytes)
    | DictBody(members: Dict<string, Json>)
    | ListBody(items: seq<Json>)

  datatype Response = Response(
    statusCode: int,
    reasonPhrase: string,
    headers: Dict<string, string>,
    body: Bytes,
    contentType: string)

  /** `'content-type' in {k.lower() for k in headers.keys()}` */
  predicate HasContentType(headers: Dict<string, string>)
  {
    exists i :: 0 <= i < |headers| && Lower(headers[i].0) == "content-type"
  }

  /** The bytes a body becomes: UTF-8 text, bytes as they are, JSON text for a dict or list. */
  function EncodeBody(body: Body, dumps: Json -> string): Bytes
  {
    match body
    case StrBody(text) => Encode(text)
    case BytesBody(bytes) => bytes
    case DictBody(members) => Encode(dumps(JObject(members)))
    case ListBody(items) => Encode(dumps(JArray(items)))
  }

  /**
   * `Response(body, status_code, reason_phrase, headers, content_type)`: the
   * header dict is updated in three steps, Content-Type default, JSON
   * Content-Type, Content-Length.
   */
  function NewResponse(body: Body, statusCode: int, reasonPhrase: string,
                       headers: Option<Dict<string, string>>, contentType: string,
                       dumps: Json -> string): Response
  {
    var h0 := if headers.Some? then headers.value else [];
    var bytes := EncodeBody(body, dumps);
    Response(statusCode, reasonPhrase,
             ResponseHeaders(h0, contentType, body.DictBody? || body.ListBody?, |bytes|),
             bytes, contentType)
  }

  /** The three header steps of the constructor, for a body of `length` bytes. */
  function ResponseHeaders(h0: Dict<string, string>, contentType: string, json: bool, length: nat): Dict<string, string>
  {
    var h1 := if HasContentType(h0) then h0 else Put(h0, "Content-Type", contentType);
    var h2 := if json then Put(h1, "Content-Type", "application/json") else h1;
    Put(h2, "Content-Length", NatToString(length))
  }

  /** `Response(body, status_code=..., reason_phrase=..., content_type=...)`, no headers passed. */
  function Respond(body: Body, statusCode: int, reasonPhrase: string, dumps: Json -> string): Response
  {
    NewResponse(body, statusCode, reasonPhrase, None, "application/json", dumps)
  }

  /**
   * Whatever the body, the response carries `Content-Length` equal to the
   * decimal byte length of its final body, which reads back with `int()`.
   */
  lemma ResponseContentLength(body: Body, statusCode: int, reasonPhrase: string,
                              headers: Option<Dict<string, string>>, contentType: string, dumps: Json -> string)
    ensures var r := NewResponse(body, statusCode, reasonPhrase, headers, contentType, dumps);
      r.body == EncodeBody(body, dumps) &&
      Get(r.headers, "Content-Length") == Some(NatToString(|r.body|)) &&
      ParseInt(Get(r.headers, "Content-Length").value) == Some(|r.body|)
  {
    ParseIntNatToString(|EncodeBody(body, dumps)|);
  }

  /**
   * Content-Type: a dict or list body forces `application/json`; otherwise
   * the `content_type` argument is set only when no header name equals
   * `content-type` case-insensitively, and an existing entry is kept.
   */
  lemma ResponseContentType(body: Body, statusCode: int, reasonPhrase: string,
                            headers: Option<Dict<string, string>>, contentType: string, dumps: Json -> string)
    ensures var h0 := if headers.Some? then headers.value else [];
      var r := NewResponse(body, statusCode, reasonPhrase, headers, contentType, dumps);
      Get(r.headers, "Content-Type") ==
        if body.DictBody? || body.ListBody? then Some("application/json")
        else if HasContentType(h0) then Get(h0, "Content-Type")
        else Some(contentType)
  {
    var h0 := if headers.Some? then headers.value else [];
    HeadersContentType(h0, contentType, body.DictBody? || body.ListBody?, |EncodeBody(body, dumps)|);
  }

  lemma HeadersContentType(h0: Dict<string, string>, contentType: string, json: bool, length: nat)
    ensures Get(ResponseHeaders(h0, contentType, json, length), "Content-Type") ==
      if json then Some("application/json")
      else if HasContentType(h0) then Get(h0, "Content-Type")
      else Some(contentType)
  {
    var h1 := if HasContentType(h0) then h0 else Put(h0, "Content-Type", contentType);
    var h2 := if json then Put(h1, "Content-Type", "application/json") else h1;
    PutOther(h2, "Content-Length", NatToString(length), "Content-Type");
  }

  /** Headers the caller passed keep their values, except the two the constructor writes. */
  lemma ResponseKeepsHeaders(body: Body, statusCode: int, reasonPhrase: string,
                             headers: Dict<string, string>, contentType: string, dumps: Json -> string)
    ensures var r := NewResponse(body, statusCode, reasonPhrase, Some(headers), contentType, dumps);
      forall k :: k != "Content-Type" && k != "Content-Length" ==> Get(r.headers, k) == Get(headers, k)
  {
    var json, length := body.DictBody? || body.ListBody?, |EncodeBody(body, dumps)|;
    forall k | k != "Content-Type" && k != "Content-Length"
      ensures Get(ResponseHeaders(headers, contentType, json, length), k) == Get(headers, k)
    {
      HeadersKeep(headers, contentType, json, length, k);
    }
  }

  lemma HeadersKeep(h0: Dict<string, string>, contentType: string, json: bool, length: nat, k: string)
    requires k != "Content-Type" && k != "Content-Length"
    ensures Get(ResponseHeaders(h0, contentType, json, length), k) == Get(h0, k)
  {
    var h1 := if HasContentType(h0) then h0 else Put(h0, "Content-Type", contentType);
    var h2 := if json then Put(h1, "Content-Type", "application/json") else h1;
    PutOther(h0, "Content-Type", contentType, k);
    PutOther(h1, "Content-Type", "application/json", k);
    PutOther(h2, "Content-Length", NatToString(length), k);
  }

  /** `k1` keeps the names of `k0` in front, in their order, and adds none but `a` and `b`. */
  ghost predicate ExtendsBy(k0: seq<string>, k1: seq<string>, a: string, b: string)
  {
    |k0| <= |k1| && k1[..|k0|] == k0 && forall x :: x in k1 ==> x in k0 || x == a || x == b
  }

  /** `d[k] = v` keeps the names of `d` in front and adds no name but `k`. */
  lemma PutExtends(d: Dict<string, string>, k: string, v: string, a: string, b: string)
    requires k == a || k == b
    ensures ExtendsBy(Keys(d), Keys(Put(d, k, v)), a, b)
  {
    PutKeys(d, k, v);
  }

  lemma ExtendsRefl(k0: seq<string>, a: string, b: string)
    ensures ExtendsBy(k0, k0, a, b)
  {
    assert k0[..|k0|] == k0;
  }

  lemma ExtendsTrans(k0: seq<string>, k1: seq<string>, k2: seq<string>, a: string, b: string)
    requires ExtendsBy(k0, k1, a, b) && ExtendsBy(k1, k2, a, b)
    ensures ExtendsBy(k0, k2, a, b)
  {
    assert k2[..|k0|] == k1[..|k0|];
  }

  /**
   * The caller's header names keep their order at the front; the only names
   * the constructor can add after them are Content-Type and Content-Length.
   */
  lemma ResponseHeaderOrder(body: Body, statusCode: int, reasonPhrase: string,
                            headers: Dict<string, string>, contentType: string, dumps: Json -> string)
    ensures var r := NewResponse(body, statusCode, reasonPhrase, Some(headers), contentType, dumps);
      |headers| <= |r.headers| && Keys(r.headers)[..|headers|] == Keys(headers) &&
      forall k :: k in Keys(r.headers) ==> k in Keys(headers) || k == "Content-Type" || k == "Content-Length"
  {
    HeadersOrder(headers, contentType, body.DictBody? || body.ListBody?, |EncodeBody(body, dumps)|);
  }

  lemma HeadersOrder(h0: Dict<string, string>, contentType: string, json: bool, length: nat)
    ensures ExtendsBy(Keys(h0), Keys(ResponseHeaders(h0, contentType, json, length)), "Content-Type", "Content-Length")
  {
    var a, b := "Content-Type", "Content-Length";
    var h1 := if HasContentType(h0) then h0 else Put(h0, a, contentType);
    var h2 := if json then Put(h1, a, "application/json") else h1;
    if HasContentType(h0) { ExtendsRefl(Keys(h0), a, b); } else { PutExtends(h0, a, contentType, a, b); }
    if json { PutExtends(h1, a, "application/json", a, b); } else { ExtendsRefl(Keys(h1), a, b); }
    PutExtends(h2, b, NatToString(length), a, b);
    ExtendsTrans(Keys(h0), Keys(h1), Keys(h2), a, b);
    ExtendsTrans(Keys(h0), Keys(h2), Keys(ResponseHeaders(h0, contentType, json, length)), a, b);
  }

  /**
   * A response built without headers and with the JSON content type, as every
   * handler of the application builds it: exactly Content-Type then
   * Content-Length, and the encoded body.
   */
  lemma RespondShape(body: Body, statusCode: int, reasonPhrase: string, dumps: Json -> string)
    ensures var bytes := EncodeBody(body, dumps);
      Respond(body, statusCode, reasonPhrase, dumps) ==
        Response(statusCode, reasonPhrase,
                 [("Content-Type", "application/json"), ("Content-Length", NatToString(|bytes|))],
                 bytes, "application/json")
  {
    var bytes := EncodeBody(body, dumps);
    var empty: Dict<string, string> := [];
    assert !HasContentType(empty);
    assert "Content-Type" != "Content-Length" by { assert "Content-Type"[8] != "Content-Length"[8]; }
    var h1 := Put(empty, "Content-Type", "application/json");
    assert h1 == [("Content-Type", "application/json")];
    assert Put(h1, "Content-Type", "application/json") == h1;
    assert Put(h1, "Content-Length", NatToString(|bytes|)) == [("Content-Type", "application/json"), ("Content-Length", NatToString(|bytes|))];
  }

  /** The response `dispatch` returns when no route matches. */
  function NotFoundResponse(dumps: Json -> string): Response
  {
    NewResponse(StrBody(""), 404, "Not Found", None, "application/json", dumps)
  }

  /** The 404: empty body, `Content-Type: application/json` then `Content-Length: 0`. */
  lemma NotFoundShape(dumps: Json -> string)
    ensures NotFoundResponse(dumps) ==
      Response(404, "Not Found", [("Content-Type", "application/json"), ("Content-Length", "0")], [], "application/json")
  {
    assert !HasContentType([]);
    assert Encode("") == [];
    assert NatToString(0) == "0";
    assert "Content-Type" != "Content-Length" by { assert "Content-Type"[8] != "Content-Length"[8]; }
    var h1 := Put([], "Content-Type", "application/json");
    assert h1 == [("Content-Type", "application/json")];
  }
}
