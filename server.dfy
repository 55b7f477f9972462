/**
 * The HTTP/1.1 front end of async_web_server.py: reading a request off a
 * stream into an ASGI scope (HttpHandler.parse_http_request), writing a
 * response (HttpHandler.send_http_response) and the per-connection control
 * flow of AsyncHTTPServer.__handle_request.
 *
 * A connection is a finite byte stream read from a position; the writer
 * records what was written and whether the connection was closed.
 * `urllib.parse.urlparse` is taken on an origin-form target: path and query
 * split at the first `?`.
 */
module Server {
  import opened Wrappers
  import opened Text
  import opened PyStr
  import opened Dicts
  import opened Errors
  import opened Asgi
  import opened Messages

  /** `AsyncHTTPServer.MAX_BODY_SIZE`: 1 MiB. */
  const MaxBodySize: int := 1024 * 1024

  // ---------------------------------------------------------------------------
  // Streams
  // ---------------------------------------------------------------------------

  /** Where `readline()` from `pos` stops: just past the first LF, or at the end of the data. */
  function LineEnd(data: Bytes, pos: nat): (e: nat)
    requires pos <= |data|
    ensures pos <= e <= |data|
    ensures e == pos <==> pos == |data|
    ensures e > pos ==> (forall i :: pos <= i < e - 1 ==> data[i] != LF) && (data[e - 1] == LF || e == |data|)
    decreases |data| - pos
  {
    if pos == |data| then pos
    else if data[pos] == LF then pos + 1
    else
      LineEnd(data, pos + 1)
  }

  /** `readexactly(n)` from `pos`: the bytes or the exception, and where the stream is left. */
  function ReadExactlyAt(data: Bytes, pos: nat, n: int): (Result<Bytes, Error>, nat)
    requires pos <= |data|
  {
    if n < 0 then (Failure(ValueError), pos)
    else if pos + n <= |data| then (Success(data[pos..pos + n]), pos + n)
    else (Failure(IncompleteReadError), |data|)
  }

  /** The reading end of a connection: the bytes the client sends and how far they have been read. */
  class StreamReader {
    const data: Bytes
    var pos: nat

    predicate Valid()
      reads this
    {
      pos <= |data|
    }

    constructor (data: Bytes)
      ensures this.data == data && pos == 0 && Valid()
    {
      this.data := data;
      pos := 0;
    }

    /** `readline()`: up to and including the next LF, what is left at end of data, `b''` at the end. */
    method ReadLine() returns (line: Bytes)
      requires Valid()
      modifies this
      ensures Valid() && pos == LineEnd(data, old(pos)) && line == data[old(pos)..pos]
    {
      var i := pos;
      while i < |data| && data[i] != LF
        invariant pos <= i <= |data|
        invariant LineEnd(data, pos) == LineEnd(data, i)
        decreases |data| - i
      {
        i := i + 1;
      }
      if i < |data| {
        i := i + 1;
      }
      line := data[pos..i];
      pos := i;
    }

    /** `readexactly(n)` */
    method ReadExactly(n: int) returns (r: Result<Bytes, Error>)
      requires Valid()
      modifies this
      ensures Valid() && (r, pos) == ReadExactlyAt(data, old(pos), n)
    {
      if n < 0 {
        return Failure(ValueError);
      }
      if pos + n <= |data| {
        r := Success(data[pos..pos + n]);
        pos := pos + n;
      } else {
        r := Failure(IncompleteReadError);
        pos := |data|;
      }
    }
  }

  /** The writing end of a connection. */
  class StreamWriter {
    var written: Bytes
    var closed: bool

    constructor ()
      ensures written == [] && !closed
    {
      written := [];
      closed := false;
    }

    method Write(b: Bytes)
      modifies this
      ensures written == old(written) + b && closed == old(closed)
    {
      written := written + b;
    }

    method Close()
      modifies this
      ensures written == old(written) && closed
    {
      closed := true;
    }
  }

  // ---------------------------------------------------------------------------
  // Parsing a request
  // ---------------------------------------------------------------------------

  /** Why a request is turned away; the parser answers each the same way. */
  datatype Rejection =
    | NoRequestLine              // the first `readline()` gave `b''`
    | Undecodable                // a request or header line is not UTF-8
    | MalformedRequestLine       // the stripped line does not split into three at spaces
    | MalformedHeader            // a stripped header line has no ':'
    | BadContentLength           // `int()` of the content-length value raised
    | BodyTooLarge               // content-length above the maximum
    | ShortBody(error: Error)    // `readexactly` raised

  /** `method, path, http_version = line.decode().strip().split(' ', 2)` */
  function ParseRequestLine(line: Bytes): (r: Result<(string, string, string), Rejection>)
    ensures Decode(line).None? ==> r == Failure(Undecodable)
    ensures r.Success? ==> ' ' !in r.value.0 && ' ' !in r.value.1
    ensures r.Success? ==>
      Decode(line).Some? && r.value.0 + " " + r.value.1 + " " + r.value.2 == Strip(Decode(line).value)
  {
    match Decode(line)
    case None => Failure(Undecodable)
    case Some(text) =>
      var parts := Split(Strip(text), ' ', 2);
      if |parts| == 3 then
        SplitPiecesFree(Strip(text), ' ', 2);
        SplitThreeRejoins(Strip(text), ' ');
        Success((parts[0], parts[1], parts[2]))
      else Failure(MalformedRequestLine)
  }

  /** The first `readline()`: `b''` is refused, anything else must be a request line. */
  function RequestLineSpec(first: Bytes): Result<(string, string, string), Rejection>
  {
    if first == [] then Failure(NoRequestLine) else ParseRequestLine(first)
  }

  /** `key, value = line.decode().strip().split(':', 1)`, giving `(key.lower(), value.strip())`. */
  function ParseHeaderLine(line: Bytes): (r: Result<(string, string), Rejection>)
  {
    match Decode(line)
    case None => Failure(Undecodable)
    case Some(text) =>
      var parts := Split(Strip(text), ':', 1);
      if |parts| == 2 then Success((Lower(parts[0]), Strip(parts[1])))
      else Failure(MalformedHeader)
  }

  /**
   * The header loop from `pos`: lines go into the dict until the end of the
   * data or a line that is exactly CRLF; the result is the dict and where the
   * loop stopped reading.
   */
  function HeaderLoop(data: Bytes, pos: nat, acc: Dict<string, string>): (r: Result<(Dict<string, string>, nat), Rejection>)
    requires pos <= |data|
    ensures r.Success? ==> pos <= r.value.1 <= |data|
    decreases |data| - pos
  {
    var e := LineEnd(data, pos);
    var line := data[pos..e];
    if line == [] || line == CRLF then Success((acc, e))
    else match ParseHeaderLine(line)
      case Failure(x) => Failure(x)
      case Success((k, v)) => HeaderLoop(data, e, Put(acc, k, v))
  }

  /** The body: `b''` without a content-length header, otherwise `readexactly(int(value))` within the maximum. */
  function ReadBody(data: Bytes, pos: nat, headers: Dict<string, string>, maxBodySize: int): Result<Bytes, Rejection>
    requires pos <= |data|
  {
    match Get(headers, "content-length")
    case None => Success([])
    case Some(v) =>
      match ParseInt(v)
      case None => Failure(BadContentLength)
      case Some(n) =>
        if n > maxBodySize then Failure(BodyTooLarge)
        else match ReadExactlyAt(data, pos, n).0
          case Failure(e) => Failure(ShortBody(e))
          case Success(body) => Success(body)
  }

  /** Where the reader stands after the body: it moves only once the size check has passed. */
  function ReadBodyEnd(data: Bytes, pos: nat, headers: Dict<string, string>, maxBodySize: int): (end: nat)
    requires pos <= |data|
    ensures pos <= end <= |data|
  {
    match Get(headers, "content-length")
    case None => pos
    case Some(v) =>
      match ParseInt(v)
      case None => pos
      case Some(n) => if n > maxBodySize then pos else ReadExactlyAt(data, pos, n).1
  }

  /**
   * `urlparse(target)` for an origin-form target: the path before the first
   * `?` and the query after it (empty without one).
   */
  function UrlParse(target: string): (r: (string, string))
    ensures '?' !in r.0
    ensures target == r.0 + (if '?' in target then "?" + r.1 else "")
    ensures '?' !in target ==> r == (target, "")
  {
    match Find(target, '?')
    case None => (target, "")
    case Some(i) =>
      FindFirst(target, '?');
      assert target == target[..i] + "?" + target[i + 1..];
      (target[..i], target[i + 1..])
  }

  /** The scope dict of lines 79-88. */
  function BuildScope(httpMethod: string, target: string, httpVersion: string, headers: Dict<string, string>,
                      body: Bytes): Scope
  {
    Scope("http", httpVersion, httpMethod, UrlParse(target).0, Encode(UrlParse(target).1),
          EncodePairs(headers), Encode(target), body)
  }

  /** Where the header loop leaves the reader: past the blank line, at the end, or past the line it could not split. */
  function HeaderLoopEnd(data: Bytes, pos: nat, acc: Dict<string, string>): (end: nat)
    requires pos <= |data|
    ensures pos <= end <= |data|
    ensures HeaderLoop(data, pos, acc).Success? ==> end == HeaderLoop(data, pos, acc).value.1
    decreases |data| - pos
  {
    var e := LineEnd(data, pos);
    var line := data[pos..e];
    if line == [] || line == CRLF then e
    else match ParseHeaderLine(line)
      case Failure(_) => e
      case Success((k, v)) => HeaderLoopEnd(data, e, Put(acc, k, v))
  }

  /** Where `parse_http_request` leaves the reader, whether it succeeds or refuses the request. */
  function ParseEnd(data: Bytes, pos: nat, maxBodySize: int): (end: nat)
    requires pos <= |data|
    ensures pos <= end <= |data|
  {
    var e0 := LineEnd(data, pos);
    if RequestLineSpec(data[pos..e0]).Failure? then e0
    else match HeaderLoop(data, e0, [])
      case Failure(_) => HeaderLoopEnd(data, e0, [])
      case Success((headers, e1)) => ReadBodyEnd(data, e1, headers, maxBodySize)
  }

  /** What `parse_http_request` makes of the data from `pos`: a scope or the reason it is refused. */
  function ParseSpec(data: Bytes, pos: nat, maxBodySize: int): Result<Scope, Rejection>
    requires pos <= |data|
  {
    var e0 := LineEnd(data, pos);
    match RequestLineSpec(data[pos..e0])
      case Failure(x) => Failure(x)
      case Success((m, target, version)) =>
        match HeaderLoop(data, e0, [])
        case Failure(x) => Failure(x)
        case Success((headers, e1)) =>
          match ReadBody(data, e1, headers, maxBodySize)
          case Failure(x) => Failure(x)
          case Success(body) => Success(BuildScope(m, target, version, headers, body))
  }

  // ---------------------------------------------------------------------------
  // Writing a response
  // ---------------------------------------------------------------------------

  /** The two kinds of body `send_http_response` is called with. */
  datatype Payload = StrPayload(text: string) | BytesPayload(bytes: Bytes)

  function HeaderLine(h: (string, string)): string { h.0 + ": " + h.1 }

  function HeaderLines(headers: Dict<string, string>): (lines: seq<string>)
    ensures |lines| == |headers| && forall i :: 0 <= i < |headers| ==> lines[i] == HeaderLine(headers[i])
  {
    if headers == [] then [] else [HeaderLine(headers[0])] + HeaderLines(headers[1..])
  }

  function StatusLine(statusCode: int, reasonPhrase: string): string
  {
    "HTTP/1.1 " + IntToString(statusCode) + " " + reasonPhrase
  }

  /**
   * What `send_http_response` writes, or the exception it raises before
   * writing anything. Without headers the default needs `body.encode`, which a
   * bytes body lacks; the body is then taken through `body.decode()`, which a
   * str body lacks and which raises on bytes that are not UTF-8. So only a
   * UTF-8 bytes body with explicit headers is ever written.
   */
  function SendSpec(statusCode: int, reasonPhrase: string, headers: Option<Dict<string, string>>, body: Payload): Result<Bytes, Error>
  {
    if headers.None? && body.BytesPayload? then Failure(AttributeError)
    else
      var hs := if headers.Some? then headers.value
                else [("Content-Type", "text/plain"), ("Content-Length", NatToString(|Encode(body.text)|))];
      match body
      case StrPayload(_) => Failure(AttributeError)
      case BytesPayload(b) =>
        match Decode(b)
        case None => Failure(UnicodeDecodeError)
        case Some(text) =>
          Success(Encode(Join([StatusLine(statusCode, reasonPhrase)] + HeaderLines(hs) + ["", text], "\r\n")))
  }

  /** The header block: each header as `key: value` and CRLF. */
  function HeaderText(headers: Dict<string, string>): string
  {
    if headers == [] then [] else HeaderLine(headers[0]) + "\r\n" + HeaderText(headers[1..])
  }

  /** An HTTP/1.1 response on the wire: status line, header lines, an empty line, the body bytes. */
  function Wire(statusCode: int, reasonPhrase: string, headers: Dict<string, string>, body: Bytes): Bytes
  {
    Encode(StatusLine(statusCode, reasonPhrase) + "\r\n" + HeaderText(headers) + "\r\n") + body
  }

  /**
   * Every call with the default `headers=None` raises AttributeError whatever
   * the body: these are the 400 and 500 answers of the parser and the server.
   */
  lemma DefaultSendRaises(statusCode: int, reasonPhrase: string, body: Payload)
    ensures SendSpec(statusCode, reasonPhrase, None, body) == Failure(AttributeError)
  {
  }

  /** A send fails exactly as described, and when it succeeds it writes the response in wire form. */
  lemma SendWire(statusCode: int, reasonPhrase: string, headers: Option<Dict<string, string>>, body: Payload)
    ensures SendSpec(statusCode, reasonPhrase, headers, body).Success? <==>
      headers.Some? && body.BytesPayload? && Decode(body.bytes).Some?
    ensures SendSpec(statusCode, reasonPhrase, headers, body).Failure? ==>
      SendSpec(statusCode, reasonPhrase, headers, body).error ==
        (if headers.Some? && body.BytesPayload? then UnicodeDecodeError else AttributeError)
    ensures SendSpec(statusCode, reasonPhrase, headers, body).Success? ==>
      SendSpec(statusCode, reasonPhrase, headers, body).value == Wire(statusCode, reasonPhrase, headers.value, body.bytes)
  {
    if headers.Some? && body.BytesPayload? && Decode(body.bytes).Some? {
      SendSuccessWire(statusCode, reasonPhrase, headers.value, body.bytes);
    }
  }

  lemma SendSuccessWire(statusCode: int, reasonPhrase: string, hs: Dict<string, string>, b: Bytes)
    requires Decode(b).Some?
    ensures SendSpec(statusCode, reasonPhrase, Some(hs), BytesPayload(b)) == Success(Wire(statusCode, reasonPhrase, hs, b))
  {
    var text := Decode(b).value;
    var s := StatusLine(statusCode, reasonPhrase);
    var lines := [s] + HeaderLines(hs) + ["", text];
    assert SendSpec(statusCode, reasonPhrase, Some(hs), BytesPayload(b)) == Success(Encode(Join(lines, "\r\n")));
    JoinResponseLines(s, hs, text);
    EncodeAppend(s + "\r\n" + HeaderText(hs) + "\r\n", text);
    EncodeDecode(b);
  }

  lemma JoinResponseLines(s: string, hs: Dict<string, string>, text: string)
    ensures Join([s] + HeaderLines(hs) + ["", text], "\r\n") == s + "\r\n" + HeaderText(hs) + "\r\n" + text
  {
    var rest := HeaderLines(hs) + ["", text];
    JoinHeaderLines(hs, text);
    assert [s] + HeaderLines(hs) + ["", text] == [s] + rest;
    assert ([s] + rest)[1..] == rest;
    assert Join([s] + rest, "\r\n") == s + "\r\n" + Join(rest, "\r\n");
  }

  lemma {:induction false} JoinHeaderLines(hs: Dict<string, string>, text: string)
    ensures Join(HeaderLines(hs) + ["", text], "\r\n") == HeaderText(hs) + "\r\n" + text
  {
    if hs == [] {
      assert HeaderLines(hs) + ["", text] == ["", text];
      assert Join(["", text], "\r\n") == "" + "\r\n" + Join([text], "\r\n");
    } else {
      JoinHeaderLines(hs[1..], text);
      var tail := HeaderLines(hs[1..]) + ["", text];
      assert HeaderLines(hs) + ["", text] == [HeaderLine(hs[0])] + tail;
      assert ([HeaderLine(hs[0])] + tail)[1..] == tail;
    }
  }

  lemma HeaderLinesSnoc(hs: Dict<string, string>, i: nat)
    requires i < |hs|
    ensures HeaderLines(hs[..i + 1]) == HeaderLines(hs[..i]) + [HeaderLine(hs[i])]
  {
  }

  /** The handler of one connection. */
  class HttpHandler {
    const reader: StreamReader
    const writer: StreamWriter

    constructor (reader: StreamReader, writer: StreamWriter)
      ensures this.reader == reader && this.writer == writer
    {
      this.reader := reader;
      this.writer := writer;
    }

    /**
     * `send_http_response`: build the list of lines, join them with CRLF, write
     * the UTF-8 bytes and close; an exception leaves the connection untouched.
     */
    method SendHttpResponse(statusCode: int, reasonPhrase: string, headers: Option<Dict<string, string>>, body: Payload)
      returns (r: Result<(), Error>)
      modifies writer
      ensures match SendSpec(statusCode, reasonPhrase, headers, body)
        case Success(bytes) => r == Success(()) && writer.written == old(writer.written) + bytes && writer.closed
        case Failure(e) => r == Failure(e) && writer.written == old(writer.written) && writer.closed == old(writer.closed)
    {
      var hs: Dict<string, string>;
      if headers.None? {
        if body.BytesPayload? {
          return Failure(AttributeError);
        }
        hs := [("Content-Type", "text/plain"), ("Content-Length", NatToString(|Encode(body.text)|))];
      } else {
        hs := headers.value;
      }
      var lines := [StatusLine(statusCode, reasonPhrase)];
      var i := 0;
      while i < |hs|
        invariant 0 <= i <= |hs|
        invariant lines == [StatusLine(statusCode, reasonPhrase)] + HeaderLines(hs[..i])
        invariant unchanged(writer)
      {
        HeaderLinesSnoc(hs, i);
        lines := lines + [HeaderLine(hs[i])];
        i := i + 1;
      }
      assert hs[..i] == hs;
      lines := lines + [""];
      if body.StrPayload? {
        return Failure(AttributeError);
      }
      var text := Decode(body.bytes);
      if text.None? {
        return Failure(UnicodeDecodeError);
      }
      lines := lines + [text.value];
      assert lines == [StatusLine(statusCode, reasonPhrase)] + HeaderLines(hs) + ["", text.value];
      writer.Write(Encode(Join(lines, "\r\n")));
      writer.Close();
      r := Success(());
    }

    /**
     * The `try` around the application's answer: a dict is sent; an
     * exception, `None` or a failed send leads to the 500 answer, which raises.
     */
    method SendAnswer(out: AppOutcome) returns (r: Result<(), Error>)
      modifies writer
      ensures match Answer(out)
        case Success(bytes) => r == Success(()) && writer.written == old(writer.written) + bytes && writer.closed
        case Failure(e) => r == Failure(e) && writer.written == old(writer.written) && writer.closed == old(writer.closed)
    {
      var sent: Result<(), Error>;
      match out {
        case Returned(Some(d)) =>
          sent := SendHttpResponse(d.statusCode, d.reasonPhrase, Some(d.headers), BytesPayload(d.body));
        case Returned(None) =>
          sent := Failure(TypeError);
        case Raised(e) =>
          sent := Failure(e);
      }
      if sent.Failure? {
        DefaultSendRaises(500, "Something went wrong!", StrPayload(""));
        r := SendHttpResponse(500, "Something went wrong!", None, StrPayload(""));
      } else {
        r := sent;
      }
    }

    /** The 400 answer of the parser: it raises, so the parser raises too. */
    method Reject(inTry: bool) returns (r: Result<Scope, Error>)
      modifies writer
      ensures r == Failure(AttributeError)
      ensures writer.written == old(writer.written) && writer.closed == old(writer.closed)
    {
      DefaultSendRaises(400, "Bad Request", StrPayload(""));
      if inTry {
        // the send inside the `try` raises and lands in the `except` clause
        var sent := SendHttpResponse(400, "Bad Request", None, StrPayload(""));
      }
      var again := SendHttpResponse(400, "Bad Request", None, StrPayload(""));
      r := Failure(again.error);
    }

    /**
     * `parse_http_request(max_body_size)`: the scope when the data holds an
     * acceptable request, otherwise the AttributeError its 400 answer raises;
     * nothing is written either way.
     */
    method ParseHttpRequest(maxBodySize: int) returns (r: Result<Scope, Error>)
      requires reader.Valid()
      modifies reader, writer
      ensures reader.Valid()
      ensures var spec := ParseSpec(reader.data, old(reader.pos), maxBodySize);
        r == if spec.Success? then Success(spec.value) else Failure(AttributeError)
      ensures writer.written == old(writer.written) && writer.closed == old(writer.closed)
      ensures reader.pos == ParseEnd(reader.data, old(reader.pos), maxBodySize)
    {
      var requestLine := ReadRequestLine();
      if requestLine.Failure? {
        r := Reject(requestLine.error == NoRequestLine);
        return;
      }
      var (m, target, version) := requestLine.value;
      var headers := ReadHeaders();
      if headers.Failure? {
        r := Reject(false);
        return;
      }
      var body := ReadBodyOf(headers.value, maxBodySize);
      if body.Failure? {
        r := Reject(body.error == BodyTooLarge);
        return;
      }
      r := Success(BuildScope(m, target, version, headers.value, body.value));
    }

    /** The request line, read and split. */
    method ReadRequestLine() returns (r: Result<(string, string, string), Rejection>)
      requires reader.Valid()
      modifies reader
      ensures reader.Valid() && reader.pos == LineEnd(reader.data, old(reader.pos))
      ensures r == RequestLineSpec(reader.data[old(reader.pos)..reader.pos])
    {
      var line := reader.ReadLine();
      if line == [] {
        return Failure(NoRequestLine);
      }
      r := ParseRequestLine(line);
    }

    /** The `while True` loop over header lines. */
    method ReadHeaders() returns (r: Result<Dict<string, string>, Rejection>)
      requires reader.Valid()
      modifies reader
      ensures reader.Valid()
      ensures var spec := HeaderLoop(reader.data, old(reader.pos), []);
        if spec.Success? then r == Success(spec.value.0) && reader.pos == spec.value.1 else r == Failure(spec.error)
      ensures reader.pos == HeaderLoopEnd(reader.data, old(reader.pos), [])
    {
      ghost var e0 := reader.pos;
      var headers: Dict<string, string> := [];
      while true
        invariant reader.Valid() && e0 <= reader.pos
        invariant HeaderLoop(reader.data, e0, []) == HeaderLoop(reader.data, reader.pos, headers)
        invariant HeaderLoopEnd(reader.data, e0, []) == HeaderLoopEnd(reader.data, reader.pos, headers)
        decreases |reader.data| - reader.pos
      {
        var line := reader.ReadLine();
        if line == [] || line == CRLF {
          return Success(headers);
        }
        var kv := ParseHeaderLine(line);
        if kv.Failure? {
          return Failure(kv.error);
        }
        headers := Put(headers, kv.value.0, kv.value.1);
      }
    }

    /** `body = b''`, or `readexactly(int(...))` after the size check. */
    method ReadBodyOf(headers: Dict<string, string>, maxBodySize: int) returns (r: Result<Bytes, Rejection>)
      requires reader.Valid()
      modifies reader
      ensures reader.Valid()
      ensures r == ReadBody(reader.data, old(reader.pos), headers, maxBodySize)
      ensures reader.pos == ReadBodyEnd(reader.data, old(reader.pos), headers, maxBodySize)
      ensures r == Failure(BodyTooLarge) ==> reader.pos == old(reader.pos)
    {
      var declared := Get(headers, "content-length");
      if declared.None? {
        return Success([]);
      }
      var n := ParseInt(declared.value);
      if n.None? {
        return Failure(BadContentLength);
      }
      if n.value > maxBodySize {
        return Failure(BodyTooLarge);
      }
      var read := reader.ReadExactly(n.value);
      if read.Failure? {
        return Failure(ShortBody(read.error));
      }
      r := Success(read.value);
    }
  }

  // ---------------------------------------------------------------------------
  // One connection
  // ---------------------------------------------------------------------------

  /**
   * What `__handle_request` does with a connection's data, from the
   * application's state: the new state and the bytes written, or the
   * exception that escapes. A scope that does not parse escapes from the
   * parser; an application that raises, returns None (`**None`) or returns a
   * body that is not UTF-8 gets the 500 answer, which raises in turn.
   */
  function HandleSpec<S>(data: Bytes, pos: nat, state: S, app: (S, Scope) -> (S, AppOutcome)): (S, Result<Bytes, Error>)
    requires pos <= |data|
  {
    match ParseSpec(data, pos, MaxBodySize)
    case Failure(_) => (state, Failure(AttributeError))
    case Success(scope) =>
      var ran := app(state, scope);
      (ran.0, Answer(ran.1))
  }

  /** What answering the application's outcome writes, or the exception that escapes. */
  function Answer(out: AppOutcome): Result<Bytes, Error>
  {
    match out
    case Returned(Some(d)) =>
      (match SendSpec(d.statusCode, d.reasonPhrase, Some(d.headers), BytesPayload(d.body))
       case Success(bytes) => Success(bytes)
       case Failure(_) => Failure(AttributeError))
    case _ => Failure(AttributeError)
  }

  /**
   * A connection gets an answer exactly when its request parses, the
   * application returns a dict and that dict's body is UTF-8; the answer is
   * the dict in wire form. In every other case AttributeError escapes and
   * nothing is written.
   */
  lemma HandleOutcome<S>(data: Bytes, pos: nat, state: S, app: (S, Scope) -> (S, AppOutcome))
    requires pos <= |data|
    ensures var (next, out) := HandleSpec(data, pos, state, app);
      var parsed := ParseSpec(data, pos, MaxBodySize);
      (out.Failure? ==> out.error == AttributeError) &&
      (parsed.Failure? ==> next == state && out.Failure?) &&
      (parsed.Success? ==>
        var (next', res) := app(state, parsed.value);
        next == next' &&
        (out.Success? <==> res.Returned? && res.result.Some? && Decode(res.result.value.body).Some?) &&
        (out.Success? ==> out.value == Wire(res.result.value.statusCode, res.result.value.reasonPhrase,
                                            res.result.value.headers, res.result.value.body)))
  {
    var parsed := ParseSpec(data, pos, MaxBodySize);
    if parsed.Success? {
      var (next', res) := app(state, parsed.value);
      if res.Returned? && res.result.Some? {
        var d := res.result.value;
        SendWire(d.statusCode, d.reasonPhrase, Some(d.headers), BytesPayload(d.body));
      }
    }
  }

  /** The server: the application it serves and the state that application keeps between requests. */
  class AsyncHttpServer<S> {
    const app: (S, Scope) -> (S, AppOutcome)
    var state: S

    constructor (app: (S, Scope) -> (S, AppOutcome), state: S)
      ensures this.app == app && this.state == state
    {
      this.app := app;
      this.state := state;
    }

    /** `__handle_request(reader, writer)` */
    method HandleRequest(reader: StreamReader, writer: StreamWriter) returns (r: Result<(), Error>)
      requires reader.Valid()
      modifies this, reader, writer
      ensures reader.Valid()
      ensures var (next, out) := HandleSpec(reader.data, old(reader.pos), old(state), app);
        state == next &&
        r == (if out.Success? then Success(()) else Failure(out.error)) &&
        writer.written == old(writer.written) + (if out.Success? then out.value else []) &&
        writer.closed == (out.Success? || old(writer.closed))
      ensures reader.pos == ParseEnd(reader.data, old(reader.pos), MaxBodySize)
    {
      var handler := new HttpHandler(reader, writer);
      var scope := handler.ParseHttpRequest(MaxBodySize);
      if scope.Failure? {
        return Failure(scope.error);
      }
      var ran := app(state, scope.value);
      state := ran.0;
      r := handler.SendAnswer(ran.1);
    }
  }
}
