/**
 * Bytes, the UTF-8 codec and the few Python `str` operations the server and
 * the framework rely on: `strip`, ASCII `lower`, `split` with a `maxsplit`,
 * `in` on strings, `int(...)` and `str(...)` of integers.
 */
module Text {
  import opened Wrappers

  newtype byte = x: int | 0 <= x < 256

  type Bytes = seq<byte>

  const LF: byte := 10
  const CR: byte := 13
  /** `b'\r\n'` */
  const CRLF: Bytes := [CR, LF]

  // ---------------------------------------------------------------------------
  // UTF-8 (`str.encode()` and strict `bytes.decode()`)
  // ---------------------------------------------------------------------------

  /** The UTF-8 encoding of one Unicode scalar value. */
  function EncodeChar(c: char): (b: Bytes)
    ensures 1 <= |b| <= 4
    ensures (c as int < 0x80) <==> |b| == 1
  {
    var x := c as int;
    if x < 0x80 then [x as byte]
    else if x < 0x800 then [(0xC0 + x / 64) as byte, (0x80 + x % 64) as byte]
    else if x < 0x10000 then
      [(0xE0 + x / 4096) as byte, (0x80 + (x / 64) % 64) as byte, (0x80 + x % 64) as byte]
    else
      [(0xF0 + x / 262144) as byte, (0x80 + (x / 4096) % 64) as byte,
       (0x80 + (x / 64) % 64) as byte, (0x80 + x % 64) as byte]
  }

  /** `s.encode("utf-8")` */
  function Encode(s: string): Bytes
  {
    if s == [] then [] else EncodeChar(s[0]) + Encode(s[1..])
  }

  predicate IsCont(b: byte) { 0x80 <= b < 0xC0 }

  predicate IsScalar(x: int) { (0 <= x < 0xD800) || (0xE000 <= x < 0x110000) }

  /**
   * The first character of a strict UTF-8 byte sequence and the number of
   * bytes it occupies; None for a malformed, overlong, surrogate or
   * out-of-range sequence.
   */
  function DecodeFirst(b: Bytes): (r: Option<(char, nat)>)
    requires |b| > 0
    ensures r.Some? ==> 1 <= r.value.1 <= |b|
  {
    var b0 := b[0] as int;
    if b0 < 0x80 then Some((b0 as char, 1))
    else if 0xC0 <= b0 < 0xE0 && |b| >= 2 && IsCont(b[1]) then
      var x := (b0 - 0xC0) * 64 + (b[1] as int - 0x80);
      if 0x80 <= x then Some((x as char, 2)) else None
    else if 0xE0 <= b0 < 0xF0 && |b| >= 3 && IsCont(b[1]) && IsCont(b[2]) then
      var x := (b0 - 0xE0) * 4096 + (b[1] as int - 0x80) * 64 + (b[2] as int - 0x80);
      if 0x800 <= x && IsScalar(x) then Some((x as char, 3)) else None
    else if 0xF0 <= b0 < 0xF8 && |b| >= 4 && IsCont(b[1]) && IsCont(b[2]) && IsCont(b[3]) then
      var x := (b0 - 0xF0) * 262144 + (b[1] as int - 0x80) * 4096
               + (b[2] as int - 0x80) * 64 + (b[3] as int - 0x80);
      if 0x10000 <= x < 0x110000 then Some((x as char, 4)) else None
    else None
  }

  /** `b.decode("utf-8")` with strict error handling: None when it raises. */
  function Decode(b: Bytes): Option<string>
    decreases |b|
  {
    if b == [] then Some([])
    else match DecodeFirst(b)
      case None => None
      case Some((c, n)) =>
        match Decode(b[n..])
        case None => None
        case Some(s) => Some([c] + s)
  }

  lemma {:induction false} EncodeAppend(s: string, t: string)
    ensures Encode(s + t) == Encode(s) + Encode(t)
  {
    if s == [] {
      assert s + t == t;
    } else {
      assert (s + t)[1..] == s[1..] + t;
      EncodeAppend(s[1..], t);
    }
  }

  lemma DivMod64(q: int, r: int)
    requires 0 <= r < 64
    ensures (q * 64 + r) / 64 == q && (q * 64 + r) % 64 == r
  {
  }

  lemma Split3(x: int)
    requires 0 <= x
    ensures x == (x / 4096) * 4096 + ((x / 64) % 64) * 64 + x % 64
  {
    DivMod64(x / 4096, (x / 64) % 64);
  }

  lemma Split4(x: int)
    requires 0 <= x
    ensures x == (x / 262144) * 262144 + ((x / 4096) % 64) * 4096 + ((x / 64) % 64) * 64 + x % 64
  {
    assert x / 4096 == (x / 64) / 64;
    assert x / 262144 == (x / 4096) / 64;
  }

  lemma DecodeFirstEncode3(c: char, rest: Bytes)
    requires 0x800 <= c as int < 0x10000
    ensures DecodeFirst(EncodeChar(c) + rest) == Some((c, 3))
  {
    var x := c as int;
    Split3(x);
    var b := EncodeChar(c) + rest;
    assert b[0] as int == 0xE0 + x / 4096;
    assert b[1] as int == 0x80 + (x / 64) % 64;
    assert b[2] as int == 0x80 + x % 64;
  }

  lemma DecodeFirstEncode4(c: char, rest: Bytes)
    requires 0x10000 <= c as int
    ensures DecodeFirst(EncodeChar(c) + rest) == Some((c, 4))
  {
    var x := c as int;
    Split4(x);
    var b := EncodeChar(c) + rest;
    assert b[0] as int == 0xF0 + x / 262144;
    assert b[1] as int == 0x80 + (x / 4096) % 64;
    assert b[2] as int == 0x80 + (x / 64) % 64;
    assert b[3] as int == 0x80 + x % 64;
  }

  lemma DecodeFirstEncodeChar(c: char, rest: Bytes)
    ensures DecodeFirst(EncodeChar(c) + rest) == Some((c, |EncodeChar(c)|))
  {
    var x := c as int;
    if x < 0x80 {
    } else if x < 0x800 {
      DivMod64(x / 64, x % 64);
    } else if x < 0x10000 {
      DecodeFirstEncode3(c, rest);
    } else {
      DecodeFirstEncode4(c, rest);
    }
  }

  /** Decoding undoes encoding: every string survives a UTF-8 round trip. */
  lemma {:induction false} DecodeEncode(s: string)
    ensures Decode(Encode(s)) == Some(s)
  {
    if s != [] {
      var head := EncodeChar(s[0]);
      DecodeFirstEncodeChar(s[0], Encode(s[1..]));
      assert (head + Encode(s[1..]))[|head|..] == Encode(s[1..]);
      DecodeEncode(s[1..]);
      assert [s[0]] + s[1..] == s;
    }
  }

  lemma EncodeCharDecode3(b: Bytes)
    requires |b| >= 3 && 0xE0 <= b[0] < 0xF0 && IsCont(b[1]) && IsCont(b[2])
    ensures var x := (b[0] as int - 0xE0) * 4096 + (b[1] as int - 0x80) * 64 + (b[2] as int - 0x80);
      x / 4096 == b[0] as int - 0xE0 && (x / 64) % 64 == b[1] as int - 0x80 && x % 64 == b[2] as int - 0x80
  {
    var q := (b[0] as int - 0xE0) * 64 + (b[1] as int - 0x80);
    DivMod64(q, b[2] as int - 0x80);
    DivMod64(b[0] as int - 0xE0, b[1] as int - 0x80);
  }

  lemma EncodeCharDecode4(b: Bytes)
    requires |b| >= 4 && 0xF0 <= b[0] < 0xF8 && IsCont(b[1]) && IsCont(b[2]) && IsCont(b[3])
    ensures var x := (b[0] as int - 0xF0) * 262144 + (b[1] as int - 0x80) * 4096
                     + (b[2] as int - 0x80) * 64 + (b[3] as int - 0x80);
      x / 262144 == b[0] as int - 0xF0 && (x / 4096) % 64 == b[1] as int - 0x80 &&
      (x / 64) % 64 == b[2] as int - 0x80 && x % 64 == b[3] as int - 0x80
  {
    var q1 := (b[0] as int - 0xF0) * 64 + (b[1] as int - 0x80);
    var q2 := q1 * 64 + (b[2] as int - 0x80);
    DivMod64(q2, b[3] as int - 0x80);
    DivMod64(q1, b[2] as int - 0x80);
    DivMod64(b[0] as int - 0xF0, b[1] as int - 0x80);
    var x := q2 * 64 + (b[3] as int - 0x80);
    assert x / 4096 == (x / 64) / 64;
    assert x / 262144 == (x / 4096) / 64;
  }

  lemma EncodeCharDecodeFirst(b: Bytes)
    requires |b| > 0 && DecodeFirst(b).Some?
    ensures EncodeChar(DecodeFirst(b).value.0) == b[..DecodeFirst(b).value.1]
  {
    var b0 := b[0] as int;
    if b0 < 0x80 {
    } else if b0 < 0xE0 {
      DivMod64(b0 - 0xC0, b[1] as int - 0x80);
    } else if b0 < 0xF0 {
      EncodeCharDecode3(b);
    } else {
      EncodeCharDecode4(b);
    }
  }

  lemma DecodeStep(b: Bytes)
    requires b != [] && Decode(b).Some?
    ensures DecodeFirst(b).Some?
    ensures var n := DecodeFirst(b).value.1;
      Decode(b[n..]).Some? && Decode(b).value == [DecodeFirst(b).value.0] + Decode(b[n..]).value
  {
  }

  /** Encoding undoes decoding: a byte string that decodes re-encodes to itself. */
  lemma {:induction false} EncodeDecode(b: Bytes)
    requires Decode(b).Some?
    ensures Encode(Decode(b).value) == b
  {
    if b != [] {
      DecodeStep(b);
      var first := DecodeFirst(b).value;
      var n := first.1;
      var s := Decode(b[n..]).value;
      EncodeCharDecodeFirst(b);
      EncodeDecode(b[n..]);
      var whole := [first.0] + s;
      assert whole[0] == first.0 && whole[1..] == s;
      assert Encode(whole) == EncodeChar(first.0) + Encode(s);
      assert b == b[..n] + b[n..];
    }
  }
}
