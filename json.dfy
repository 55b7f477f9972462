/**
 * JSON values as Python's `json` module produces and consumes them, and the
 * library functions the framework calls but this model does not define:
 * `urllib.parse.parse_qs`, `json.loads` and `json.dumps` are parameters.
 */
module Json {
  import opened Wrappers
  import opened Dicts

  datatype Json =
    | JNull
    | JBool(b: bool)
    | JInt(i: int)
    | JFloat(f: real)
    | JString(s: string)
    | JArray(items: seq<Json>)
    | JObject(members: Dict<string, Json>)

  /** `bool(v)` for the Python value `json.loads` returns. */
  predicate Truthy(v: Json)
  {
    match v
    case JNull => false
    case JBool(b) => b
    case JInt(i) => i != 0
    case JFloat(f) => f != 0.0
    case JString(s) => s != []
    case JArray(items) => items != []
    case JObject(members) => members != []
  }

  /**
   * The library code the framework calls: `parse_qs` (name to list of values),
   * `json.loads` (None when it raises `JSONDecodeError`) and `json.dumps`.
   */
  datatype Library = Library(
    parseQs: string -> Dict<string, seq<string>>,
    loads: string -> Option<Json>,
    dumps: Json -> string)
}

/** The exceptions the modelled code can raise, by their Python names. */
module Errors {
  datatype Error =
    | AttributeError      // a method called on a value of the wrong type (`str.decode`, `bytes.encode`, `list.items`)
    | TypeError           // `**` on a non-mapping, or on `None`
    | ValueError          // failed unpacking, `int()` of bad text, negative `readexactly`
    | KeyError            // `d[k]` with `k` absent
    | UnicodeDecodeError  // strict UTF-8 decoding of malformed bytes
    | IncompleteReadError // `readexactly` on a stream that ends early
    | PatternError        // `re.compile` of a template that repeats a placeholder name
}

/**
 * The dictionaries that cross between the server and the application: the
 * scope the parser builds and the response dict `App.__call__` returns.
 */
module Asgi {
  import opened Wrappers
  import opened Text
  import opened Dicts
  import opened Errors

  datatype Scope = Scope(
    kind: string,
    httpVersion: string,
    httpMethod: string,
    path: string,
    queryString: Bytes,
    headers: seq<(Bytes, Bytes)>,
    rawPath: Bytes,
    body: Bytes)

  datatype ResponseDict = ResponseDict(
    statusCode: int,
    reasonPhrase: string,
    headers: Dict<string, string>,
    body: Bytes)

  /** What awaiting the application gives: a value (possibly `None`) or an exception. */
  datatype AppOutcome = Returned(result: Option<ResponseDict>) | Raised(error: Error)
}
