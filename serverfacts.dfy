/**
 * What parse_http_request of async_web_server.py makes of the bytes a client
 * sends: well-formed request and header lines read back as written, the
 * header loop's dict and where it stops, the Content-Length limit, and the
 * shape of every scope it returns.
 */
module ServerFacts {
  import opened Wrappers
  import opened Text
  import opened PyStr
  import opened Dicts
  import opened Errors
  import opened Asgi
  import opened Messages
  import opened Server

  /** No whitespace anywhere. */
  predicate NoSpace(s: string)
  {
    forall i :: 0 <= i < |s| ==> !IsSpace(s[i])
  }

  /** Every header name is in lower case. */
  ghost predicate LowerKeys(h: Dict<string, string>)
  {
    forall x :: x in h ==> Lower(x.0) == x.0
  }

  lemma CrlfIsSpace()
    ensures forall i :: 0 <= i < |"\r\n"| ==> IsSpace("\r\n"[i])
  {
  }

  // ---------------------------------------------------------------------------
  // Request and header lines
  // ---------------------------------------------------------------------------

  /**
   * `METHOD TARGET VERSION\r\n` with no whitespace in the method and the
   * target reads back as those parts; the version may hold further spaces,
   * as long as it does not end in whitespace that `strip()` would drop.
   */
  lemma RequestLineRoundTrip(m: string, t: string, v: string)
    requires m != [] && v != [] && NoSpace(m) && NoSpace(t) && !IsSpace(v[|v| - 1])
    ensures ParseRequestLine(Encode(m + " " + t + " " + v + "\r\n")) == Success((m, t, v))
  {
    RequestLineText(m, t, v);
    ParseRequestLineOf(m + " " + t + " " + v + "\r\n", m, t, v);
  }

  lemma RequestLineText(m: string, t: string, v: string)
    requires m != [] && v != [] && NoSpace(m) && NoSpace(t) && !IsSpace(v[|v| - 1])
    ensures Split(Strip(m + " " + t + " " + v + "\r\n"), ' ', 2) == [m, t, v]
  {
    var line := m + " " + t + " " + v;
    assert line[0] == m[0] && line[|line| - 1] == v[|v| - 1];
    StripLine(line);
    SplitThree(m, t, v);
  }

  /**
   * A decodable line that holds fewer than two spaces once stripped is
   * refused: the three-way unpacking of its split fails.
   */
  lemma RequestLineRefused(line: Bytes)
    requires Decode(line).Some?
    requires var s := Strip(Decode(line).value);
      forall i, j :: 0 <= i < j < |s| && s[i] == ' ' ==> s[j] != ' '
    ensures ParseRequestLine(line) == Failure(MalformedRequestLine)
  {
    SplitFewer(Strip(Decode(line).value), ' ');
  }

  lemma ParseRequestLineOf(text: string, m: string, t: string, v: string)
    requires Split(Strip(text), ' ', 2) == [m, t, v]
    ensures ParseRequestLine(Encode(text)) == Success((m, t, v))
  {
    DecodeEncode(text);
  }

  /** The line's own text, without its CRLF, is what `strip()` leaves. */
  lemma StripLine(line: string)
    requires line != [] && !IsSpace(line[0]) && !IsSpace(line[|line| - 1])
    ensures Strip(line + "\r\n") == line
  {
    CrlfIsSpace();
    StripPadded([], line, "\r\n");
    assert [] + line + "\r\n" == line + "\r\n";
  }

  lemma SplitThree(m: string, t: string, v: string)
    requires NoSpace(m) && NoSpace(t)
    ensures Split(m + " " + t + " " + v, ' ', 2) == [m, t, v]
  {
    assert ' ' !in m && ' ' !in t by { assert IsSpace(' '); }
    SplitThreeAt(m, ' ', t, v);
  }

  /**
   * `Name: value\r\n` reads back as the lower-cased name and the value, when
   * the name has no ':' and starts with a non-space, and the value has no
   * whitespace at its ends (it may hold ':').
   */
  lemma HeaderLineRoundTrip(k: string, v: string)
    requires k != [] && ':' !in k && !IsSpace(k[0])
    requires v != [] && !IsSpace(v[0]) && !IsSpace(v[|v| - 1])
    ensures ParseHeaderLine(Encode(k + ": " + v + "\r\n")) == Success((Lower(k), v))
  {
    var line := k + ": " + v;
    DecodeEncode(line + "\r\n");
    assert line[0] == k[0] && line[|line| - 1] == v[|v| - 1];
    StripLine(line);
    SplitHeader(k, v);
  }

  lemma SplitHeader(k: string, v: string)
    requires ':' !in k && v != [] && !IsSpace(v[0]) && !IsSpace(v[|v| - 1])
    ensures Split(k + ": " + v, ':', 1) == [k, " " + v]
    ensures Strip(" " + v) == v
  {
    HeaderText(k, v);
    SplitTwoAt(k, ':', " " + v);
    StripSpaced(v);
  }

  lemma HeaderText(k: string, v: string)
    ensures k + ": " + v == k + [':'] + (" " + v)
  {
  }

  lemma StripSpaced(v: string)
    requires v != [] && !IsSpace(v[0]) && !IsSpace(v[|v| - 1])
    ensures Strip(" " + v) == v
  {
    assert IsSpace(' ');
    StripPadded(" ", v, []);
    assert " " + v + [] == " " + v;
  }

  /** A header line whose stripped text has no ':' ends the parse. */
  lemma MalformedHeaderRefused(data: Bytes, pos: nat, acc: Dict<string, string>)
    requires pos <= |data|
    requires var line := data[pos..LineEnd(data, pos)];
      line != [] && line != CRLF && Decode(line).Some? && ':' !in Strip(Decode(line).value)
    ensures HeaderLoop(data, pos, acc) == Failure(MalformedHeader)
  {
  }

  // ---------------------------------------------------------------------------
  // The header loop
  // ---------------------------------------------------------------------------

  /** The dict keeps each name once: a repeated header overwrites the earlier value in place. */
  lemma {:induction false} HeaderLoopNoDup(data: Bytes, pos: nat, acc: Dict<string, string>)
    requires pos <= |data| && NoDupKeys(acc) && HeaderLoop(data, pos, acc).Success?
    ensures NoDupKeys(HeaderLoop(data, pos, acc).value.0)
    decreases |data| - pos
  {
    var e := LineEnd(data, pos);
    var line := data[pos..e];
    if !(line == [] || line == CRLF) {
      var (k, v) := ParseHeaderLine(line).value;
      PutNoDup(acc, k, v);
      HeaderLoopNoDup(data, e, Put(acc, k, v));
    }
  }

  /** Names are stored lower-cased. */
  lemma {:induction false} HeaderLoopLower(data: Bytes, pos: nat, acc: Dict<string, string>)
    requires pos <= |data| && LowerKeys(acc) && HeaderLoop(data, pos, acc).Success?
    ensures LowerKeys(HeaderLoop(data, pos, acc).value.0)
    decreases |data| - pos
  {
    var e := LineEnd(data, pos);
    var line := data[pos..e];
    if !(line == [] || line == CRLF) {
      var (k, v) := ParseHeaderLine(line).value;
      var text := Decode(line).value;
      LowerIdempotent(Split(Strip(text), ':', 1)[0]);
      forall x | x in Put(acc, k, v)
        ensures Lower(x.0) == x.0
      {
        PutEntries(acc, k, v, x);
      }
      HeaderLoopLower(data, e, Put(acc, k, v));
    }
  }

  /** Headers come in the order of their first occurrence. */
  lemma {:induction false} HeaderLoopOrder(data: Bytes, pos: nat, acc: Dict<string, string>)
    requires pos <= |data| && HeaderLoop(data, pos, acc).Success?
    ensures PrefixOf(Keys(acc), Keys(HeaderLoop(data, pos, acc).value.0))
    decreases |data| - pos
  {
    var e := LineEnd(data, pos);
    var line := data[pos..e];
    if line == [] || line == CRLF {
      assert Keys(acc)[..|Keys(acc)|] == Keys(acc);
    } else {
      var (k, v) := ParseHeaderLine(line).value;
      PutPrefix(acc, k, v);
      HeaderLoopOrder(data, e, Put(acc, k, v));
      PrefixTrans(Keys(acc), Keys(Put(acc, k, v)), Keys(HeaderLoop(data, e, Put(acc, k, v)).value.0));
    }
  }

  /**
   * From `pos` up to `s` the data is a run of header lines: each one
   * non-empty, not the blank CRLF line, and split by `':'` without fault.
   */
  ghost predicate HeaderLinesBetween(data: Bytes, pos: nat, s: nat)
    requires pos <= s <= |data|
    decreases s - pos
  {
    pos == s ||
    var e := LineEnd(data, pos);
    pos < e <= s && data[pos..e] != CRLF && ParseHeaderLine(data[pos..e]).Success? &&
    HeaderLinesBetween(data, e, s)
  }

  /**
   * The loop stops at the first line that is exactly CRLF, or at the end of
   * the data: it returns the start `s` of that line, every line before it is
   * a header line, and the loop's position is just past it.
   */
  lemma {:induction false} HeaderLoopStops(data: Bytes, pos: nat, acc: Dict<string, string>) returns (s: nat)
    requires pos <= |data| && HeaderLoop(data, pos, acc).Success?
    ensures pos <= s <= |data| && HeaderLinesBetween(data, pos, s)
    ensures var stop := HeaderLoop(data, pos, acc).value.1;
      stop == LineEnd(data, s) && (s == |data| || data[s..stop] == CRLF)
    decreases |data| - pos
  {
    var e := LineEnd(data, pos);
    var line := data[pos..e];
    if line == [] || line == CRLF {
      s := pos;
    } else {
      var (k, v) := ParseHeaderLine(line).value;
      s := HeaderLoopStops(data, e, Put(acc, k, v));
    }
  }

  /**
   * The header lines from `pos` on, folded into a map one assignment
   * `headers[key] = value` at a time, as a Python dict takes them.
   */
  ghost function LoopMap(data: Bytes, pos: nat, m: map<string, string>): map<string, string>
    requires pos <= |data|
    decreases |data| - pos
  {
    var e := LineEnd(data, pos);
    var line := data[pos..e];
    if line == [] || line == CRLF then m
    else match ParseHeaderLine(line)
      case Failure(_) => m
      case Success((k, v)) => LoopMap(data, e, m[k := v])
  }

  /** Read as a map, the loop's dict is that fold: of repeated names, the last value wins. */
  lemma {:induction false} HeaderLoopLastWins(data: Bytes, pos: nat, acc: Dict<string, string>)
    requires pos <= |data| && HeaderLoop(data, pos, acc).Success?
    ensures ToMap(HeaderLoop(data, pos, acc).value.0) == LoopMap(data, pos, ToMap(acc))
    decreases |data| - pos
  {
    var e := LineEnd(data, pos);
    var line := data[pos..e];
    if !(line == [] || line == CRLF) {
      var (k, v) := ParseHeaderLine(line).value;
      PutIsMapUpdate(acc, k, v);
      HeaderLoopLastWins(data, e, Put(acc, k, v));
    }
  }

  // ---------------------------------------------------------------------------
  // The body
  // ---------------------------------------------------------------------------

  /**
   * A body read is either empty without a content-length header, or exactly
   * the next content-length bytes, within the maximum.
   */
  lemma BodyShape(data: Bytes, pos: nat, headers: Dict<string, string>, maxBodySize: int)
    requires pos <= |data| && ReadBody(data, pos, headers, maxBodySize).Success?
    ensures var body := ReadBody(data, pos, headers, maxBodySize).value;
      match Get(headers, "content-length")
      case None => body == []
      case Some(text) =>
        && ParseInt(text) == Some(|body|)
        && |body| <= maxBodySize
        && pos + |body| <= |data| && body == data[pos..pos + |body|]
  {
    match Get(headers, "content-length")
    case None =>
    case Some(text) =>
      var n := ParseInt(text).value;
      assert ReadExactlyAt(data, pos, n).0.Success?;
  }

  /** With `Content-Length: n` and the bytes there, the body is accepted exactly when `n` is at most the maximum. */
  lemma BodyLimit(data: Bytes, pos: nat, headers: Dict<string, string>, maxBodySize: int, n: nat)
    requires pos <= |data| && Get(headers, "content-length") == Some(NatToString(n)) && pos + n <= |data|
    ensures ReadBody(data, pos, headers, maxBodySize) ==
      if n <= maxBodySize then Success(data[pos..pos + n]) else Failure(BodyTooLarge)
  {
    ParseIntNatToString(n);
  }

  /** A stream that ends before the announced body fails the read. */
  lemma BodyShort(data: Bytes, pos: nat, headers: Dict<string, string>, maxBodySize: int, n: nat)
    requires pos <= |data| && Get(headers, "content-length") == Some(NatToString(n))
    requires n <= maxBodySize && |data| < pos + n
    ensures ReadBody(data, pos, headers, maxBodySize) == Failure(ShortBody(IncompleteReadError))
  {
    ParseIntNatToString(n);
  }

  /**
   * A body that is read leaves the reader just past it; a missing, unreadable
   * or too large Content-Length leaves the reader where it was.
   */
  lemma BodyEnd(data: Bytes, pos: nat, headers: Dict<string, string>, maxBodySize: int)
    requires pos <= |data|
    ensures var r := ReadBody(data, pos, headers, maxBodySize);
      r.Success? ==> ReadBodyEnd(data, pos, headers, maxBodySize) == pos + |r.value|
    ensures var r := ReadBody(data, pos, headers, maxBodySize);
      r == Failure(BodyTooLarge) || r == Failure(BadContentLength) ==>
        ReadBodyEnd(data, pos, headers, maxBodySize) == pos
    ensures ReadBody(data, pos, headers, maxBodySize) == Failure(ShortBody(IncompleteReadError)) ==>
      ReadBodyEnd(data, pos, headers, maxBodySize) == |data|
  {
  }

  // ---------------------------------------------------------------------------
  // The scope
  // ---------------------------------------------------------------------------

  /** A connection already at its end is refused: the first `readline()` gives `b''`. */
  lemma ParseAtEnd(data: Bytes, maxBodySize: int)
    ensures ParseSpec(data, |data|, maxBodySize) == Failure(NoRequestLine)
  {
  }

  /** The pieces of a successful parse. */
  lemma ParseParts(data: Bytes, pos: nat, maxBodySize: int)
    returns (m: string, target: string, version: string, headers: Dict<string, string>, e1: nat, body: Bytes)
    requires pos <= |data| && ParseSpec(data, pos, maxBodySize).Success?
    ensures RequestLineSpec(data[pos..LineEnd(data, pos)]) == Success((m, target, version))
    ensures HeaderLoop(data, LineEnd(data, pos), []) == Success((headers, e1)) && e1 <= |data|
    ensures ReadBody(data, e1, headers, maxBodySize) == Success(body)
    ensures ParseSpec(data, pos, maxBodySize).value == BuildScope(m, target, version, headers, body)
  {
    var e0 := LineEnd(data, pos);
    m, target, version := RequestLineSpec(data[pos..e0]).value.0, RequestLineSpec(data[pos..e0]).value.1,
                          RequestLineSpec(data[pos..e0]).value.2;
    headers, e1 := HeaderLoop(data, e0, []).value.0, HeaderLoop(data, e0, []).value.1;
    body := ReadBody(data, e1, headers, maxBodySize).value;
  }

  /**
   * An accepted request consumes exactly its request line, its header block
   * and its body: the reader stands just past the body.
   */
  lemma ParseConsumes(data: Bytes, pos: nat, maxBodySize: int)
    requires pos <= |data| && ParseSpec(data, pos, maxBodySize).Success?
    ensures var e1 := HeaderLoop(data, LineEnd(data, pos), []).value.1;
      ParseEnd(data, pos, maxBodySize) == e1 + |ParseSpec(data, pos, maxBodySize).value.body|
  {
    var m, target, version, headers, e1, body := ParseParts(data, pos, maxBodySize);
    BodyEnd(data, e1, headers, maxBodySize);
  }

  /**
   * Every scope the parser returns has type "http", a method and a path
   * without spaces, a path without `?`, and a body within the maximum.
   */
  lemma ParseScope(data: Bytes, pos: nat, maxBodySize: int)
    requires pos <= |data| && ParseSpec(data, pos, maxBodySize).Success?
    ensures var scope := ParseSpec(data, pos, maxBodySize).value;
      && scope.kind == "http"
      && ' ' !in scope.httpMethod && ' ' !in scope.path && '?' !in scope.path
      && (scope.body == [] || |scope.body| <= maxBodySize)
  {
    var m, target, version, headers, e1, body := ParseParts(data, pos, maxBodySize);
    BodyShape(data, e1, headers, maxBodySize);
    var path := UrlParse(target).0;
    assert forall i :: 0 <= i < |path| ==> path[i] == target[i];
  }

  /** The scope's header pairs decode back to the header loop's dict, one lower-case name each. */
  lemma ParseScopeHeaders(data: Bytes, pos: nat, maxBodySize: int)
    requires pos <= |data| && ParseSpec(data, pos, maxBodySize).Success?
    ensures var scope := ParseSpec(data, pos, maxBodySize).value;
      var loop := HeaderLoop(data, LineEnd(data, pos), []);
      && loop.Success?
      && DecodeHeaders(scope.headers, []) == Some(loop.value.0)
      && NoDupKeys(loop.value.0) && LowerKeys(loop.value.0)
  {
    var m, target, version, headers, e1, body := ParseParts(data, pos, maxBodySize);
    var empty: Dict<string, string> := [];
    HeaderLoopNoDup(data, LineEnd(data, pos), empty);
    HeaderLoopLower(data, LineEnd(data, pos), empty);
    RequestHeadersRoundTrip(headers);
  }
}
