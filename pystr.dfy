/**
 * The Python `str` operations the server and the framework use, on Dafny
 * strings: `strip()`, `lower()` (ASCII letters only), `split(sep, maxsplit)`,
 * the substring test `in`, `int(s)` and `str(n)`.
 */
module PyStr {
  import opened Wrappers

  /** `c.isspace()`: Python's whitespace characters. */
  predicate IsSpace(c: char)
  {
    var x := c as int;
    (0x09 <= x <= 0x0D) || (0x1C <= x <= 0x20) || x == 0x85 || x == 0xA0 || x == 0x1680 ||
    (0x2000 <= x <= 0x200A) || x == 0x2028 || x == 0x2029 || x == 0x202F || x == 0x205F || x == 0x3000
  }

  function TrimLeft(s: string): (r: string)
    ensures |r| <= |s| && r == s[|s| - |r|..]
    ensures r == [] || !IsSpace(r[0])
    ensures forall i :: 0 <= i < |s| - |r| ==> IsSpace(s[i])
  {
    if s != [] && IsSpace(s[0]) then TrimLeft(s[1..]) else s
  }

  function TrimRight(s: string): (r: string)
    ensures |r| <= |s| && r == s[..|r|]
    ensures r == [] || !IsSpace(r[|r| - 1])
    ensures forall i :: |r| <= i < |s| ==> IsSpace(s[i])
  {
    if s != [] && IsSpace(s[|s| - 1]) then TrimRight(s[..|s| - 1]) else s
  }

  /** `s.strip()`: drops leading and trailing whitespace. */
  function Strip(s: string): string
  {
    TrimRight(TrimLeft(s))
  }

  /** The result of `strip()` starts and ends with a non-whitespace character. */
  lemma StripEnds(s: string)
    ensures var r := Strip(s); r == [] || (!IsSpace(r[0]) && !IsSpace(r[|r| - 1]))
  {
    var l := TrimLeft(s);
    var r := TrimRight(l);
    if r != [] {
      assert r[0] == l[0];
    }
  }

  /** A string without whitespace at its ends is left alone by `strip()`. */
  lemma StripUnchanged(s: string)
    requires s == [] || (!IsSpace(s[0]) && !IsSpace(s[|s| - 1]))
    ensures Strip(s) == s
  {
  }

  function LowerChar(c: char): char
  {
    if 'A' <= c <= 'Z' then (c as int + 32) as char else c
  }

  /** `s.lower()` for ASCII letters; every other character is kept. */
  function Lower(s: string): (r: string)
    ensures |r| == |s| && forall i :: 0 <= i < |s| ==> r[i] == LowerChar(s[i])
  {
    if s == [] then [] else [LowerChar(s[0])] + Lower(s[1..])
  }

  /** Index of the first occurrence of `c` in `s`. */
  function Find(s: string, c: char): (r: Option<nat>)
    ensures r.None? <==> c !in s
    ensures r.Some? ==> r.value < |s| && s[r.value] == c
  {
    if s == [] then None
    else if s[0] == c then Some(0)
    else match Find(s[1..], c)
      case None => None
      case Some(i) => Some(i + 1)
  }

  /** `Find` gives the first occurrence. */
  lemma {:induction false} FindFirst(s: string, c: char)
    requires Find(s, c).Some?
    ensures c !in s[..Find(s, c).value]
  {
    if s[0] != c {
      FindFirst(s[1..], c);
      var i := Find(s[1..], c).value;
      assert s[..i + 1] == [s[0]] + s[1..][..i];
    }
  }

  /**
   * `s.split(sep, maxsplit)` for a one-character separator: at most `maxsplit`
   * cuts, each at the first remaining occurrence of `sep`.
   */
  function Split(s: string, sep: char, maxsplit: nat): (parts: seq<string>)
    ensures 1 <= |parts| <= maxsplit + 1
    decreases maxsplit
  {
    if maxsplit == 0 then [s]
    else match Find(s, sep)
      case None => [s]
      case Some(i) => [s[..i]] + Split(s[i + 1..], sep, maxsplit - 1)
  }

  lemma JoinCons(p: string, rest: seq<string>, sep: string)
    requires rest != []
    ensures Join([p] + rest, sep) == p + sep + Join(rest, sep)
  {
    assert ([p] + rest)[1..] == rest;
  }

  /** Every piece but the last is free of the separator. */
  lemma {:induction false} SplitPiecesFree(s: string, sep: char, maxsplit: nat)
    ensures forall k :: 0 <= k < |Split(s, sep, maxsplit)| - 1 ==> sep !in Split(s, sep, maxsplit)[k]
    decreases maxsplit
  {
    if maxsplit > 0 && Find(s, sep).Some? {
      var i := Find(s, sep).value;
      FindFirst(s, sep);
      SplitPiecesFree(s[i + 1..], sep, maxsplit - 1);
    }
  }

  /** The first `c` in `a + [c] + b`, when `a` has none, is right after `a`. */
  lemma {:induction false} FindAfter(a: string, c: char, b: string)
    requires c !in a
    ensures Find(a + [c] + b, c) == Some(|a|)
  {
    if a != [] {
      assert (a + [c] + b)[1..] == a[1..] + [c] + b;
      FindAfter(a[1..], c, b);
    }
  }

  /** Splitting `a + sep + b` with `sep` not in `a` cuts off exactly `a`. */
  lemma SplitAt(a: string, sep: char, b: string, maxsplit: nat)
    requires sep !in a && maxsplit > 0
    ensures Split(a + [sep] + b, sep, maxsplit) == [a] + Split(b, sep, maxsplit - 1)
  {
    var s := a + [sep] + b;
    FindAfter(a, sep, b);
    assert s[..|a|] == a;
    assert s[|a| + 1..] == b;
  }

  /** Two separators that are the first two occurrences cut the string into the three pieces around them. */
  lemma SplitThreeAt(a: string, sep: char, b: string, c: string)
    requires sep !in a && sep !in b
    ensures Split(a + [sep] + b + [sep] + c, sep, 2) == [a, b, c]
  {
    var rest := b + [sep] + c;
    Regroup(a + [sep], b, [sep], c);
    SplitAt(a, sep, rest, 2);
    SplitAt(b, sep, c, 1);
    assert Split(c, sep, 0) == [c];
    ConsThree(Split(a + [sep] + rest, sep, 2), Split(rest, sep, 1), a, b, c);
  }

  lemma Regroup(a: string, b: string, c: string, d: string)
    ensures a + b + c + d == a + (b + c + d)
  {
  }

  lemma ConsThree(x: seq<string>, y: seq<string>, a: string, b: string, c: string)
    requires x == [a] + y && y == [b] + [c]
    ensures x == [a, b, c]
  {
  }

  /** A first separator cuts `split(sep, 1)` into the two pieces around it. */
  lemma SplitTwoAt(a: string, sep: char, b: string)
    requires sep !in a
    ensures Split(a + [sep] + b, sep, 1) == [a, b]
  {
    SplitAt(a, sep, b, 1);
    assert Split(b, sep, 0) == [b];
  }

  /** Where a split into three pieces cuts: at the first separator, then at the first one after it. */
  lemma SplitThreeCuts(s: string, sep: char) returns (i: nat, j: nat)
    requires |Split(s, sep, 2)| == 3
    ensures i < |s| && s[i] == sep && j < |s[i + 1..]| && s[i + 1..][j] == sep
    ensures Split(s, sep, 2) == [s[..i], s[i + 1..][..j], s[i + 1..][j + 1..]]
  {
    i := Find(s, sep).value;
    j := Find(s[i + 1..], sep).value;
  }

  lemma CutTwiceRejoins(s: string, i: nat, j: nat)
    requires i < |s| && j < |s[i + 1..]|
    ensures s[..i] + [s[i]] + s[i + 1..][..j] + [s[i + 1..][j]] + s[i + 1..][j + 1..] == s
  {
    var t := s[i + 1..];
    assert t[..j] + [t[j]] + t[j + 1..] == t;
    assert s[..i] + [s[i]] + t == s;
  }

  /** A split into three pieces: the pieces and the two separators between them spell the input. */
  lemma SplitThreeRejoins(s: string, sep: char)
    requires |Split(s, sep, 2)| == 3
    ensures var parts := Split(s, sep, 2); parts[0] + [sep] + parts[1] + [sep] + parts[2] == s
  {
    var i, j := SplitThreeCuts(s, sep);
    CutTwiceRejoins(s, i, j);
  }

  /** A string with at most one separator splits into fewer than three pieces. */
  lemma SplitFewer(s: string, sep: char)
    requires forall i, j :: 0 <= i < j < |s| && s[i] == sep ==> s[j] != sep
    ensures |Split(s, sep, 2)| < 3
  {
    match Find(s, sep)
    case None =>
    case Some(i) =>
      var rest := s[i + 1..];
      forall j | 0 <= j < |rest|
        ensures rest[j] != sep
      {
        assert rest[j] == s[i + 1 + j];
      }
  }

  /** Trailing whitespace after a string that ends in something else is what `rstrip()` drops. */
  lemma {:induction false} TrimRightPadded(s: string, w: string)
    requires s == [] || !IsSpace(s[|s| - 1])
    requires forall i :: 0 <= i < |w| ==> IsSpace(w[i])
    ensures TrimRight(s + w) == s
    decreases |w|
  {
    if w == [] {
      assert s + w == s;
    } else {
      var w' := w[..|w| - 1];
      assert (s + w)[..|s + w| - 1] == s + w';
      TrimRightPadded(s, w');
    }
  }

  /** Leading whitespace before a string that starts with something else is what `lstrip()` drops. */
  lemma {:induction false} TrimLeftPadded(w: string, s: string)
    requires s == [] || !IsSpace(s[0])
    requires forall i :: 0 <= i < |w| ==> IsSpace(w[i])
    ensures TrimLeft(w + s) == s
    decreases |w|
  {
    if w == [] {
      assert w + s == s;
    } else {
      assert (w + s)[1..] == w[1..] + s;
      TrimLeftPadded(w[1..], s);
    }
  }

  /** `(w1 + s + w2).strip() == s` for whitespace `w1`, `w2` and `s` without whitespace at its ends. */
  lemma StripPadded(w1: string, s: string, w2: string)
    requires s == [] || (!IsSpace(s[0]) && !IsSpace(s[|s| - 1]))
    requires forall i :: 0 <= i < |w1| ==> IsSpace(w1[i])
    requires forall i :: 0 <= i < |w2| ==> IsSpace(w2[i])
    ensures Strip(w1 + s + w2) == s
  {
    if s == [] {
      assert w1 + s + w2 == w1 + w2;
      TrimLeftPadded(w1 + w2, []);
      assert w1 + w2 + [] == w1 + w2;
    } else {
      assert w1 + s + w2 == w1 + (s + w2);
      TrimLeftPadded(w1, s + w2);
      TrimRightPadded(s, w2);
    }
  }

  /** `s.lower().lower() == s.lower()` */
  lemma LowerIdempotent(s: string)
    ensures Lower(Lower(s)) == Lower(s)
  {
  }

  /** `sep.join(parts)` */
  function Join(parts: seq<string>, sep: string): string
  {
    if parts == [] then []
    else if |parts| == 1 then parts[0]
    else parts[0] + sep + Join(parts[1..], sep)
  }

  function IsPrefix(p: string, s: string): bool
  {
    |p| <= |s| && s[..|p|] == p
  }

  predicate OccursAt(hay: string, needle: string, i: int)
  {
    0 <= i <= |hay| - |needle| && hay[i..i + |needle|] == needle
  }

  lemma OccursAtTail(hay: string, needle: string)
    requires hay != [] && !IsPrefix(needle, hay)
    ensures (exists i :: OccursAt(hay, needle, i)) <==> (exists j :: OccursAt(hay[1..], needle, j))
  {
    forall i | OccursAt(hay, needle, i) ensures OccursAt(hay[1..], needle, i - 1) {
      assert i != 0;
      assert hay[1..][i - 1..i - 1 + |needle|] == hay[i..i + |needle|];
    }
    forall j | OccursAt(hay[1..], needle, j) ensures OccursAt(hay, needle, j + 1) {
      assert hay[1..][j..j + |needle|] == hay[j + 1..j + 1 + |needle|];
    }
  }

  /** `needle in hay` on strings. */
  function Contains(hay: string, needle: string): (r: bool)
    ensures r <==> exists i :: OccursAt(hay, needle, i)
    decreases |hay|
  {
    if IsPrefix(needle, hay) then
      assert OccursAt(hay, needle, 0);
      true
    else if hay == [] then
      assert forall i :: !OccursAt(hay, needle, i);
      false
    else
      var r := Contains(hay[1..], needle);
      OccursAtTail(hay, needle);
      r
  }

  // ---------------------------------------------------------------------------
  // int(s) and str(n), base 10
  // ---------------------------------------------------------------------------

  predicate IsDigit(c: char) { '0' <= c <= '9' }

  /** Decimal digits with single underscores between digits, as `int()` accepts them. */
  predicate IsDigitRun(t: string)
  {
    |t| > 0 && IsDigit(t[0]) && IsDigit(t[|t| - 1]) &&
    forall i :: 0 <= i < |t| ==> (IsDigit(t[i]) || (t[i] == '_' && 0 < i < |t| - 1 && IsDigit(t[i + 1])))
  }

  /** The value of a run of digits, underscores skipped. */
  function DigitsValue(t: string): nat
  {
    if t == [] then 0
    else if IsDigit(t[|t| - 1]) then DigitsValue(t[..|t| - 1]) * 10 + (t[|t| - 1] as int - '0' as int)
    else DigitsValue(t[..|t| - 1])
  }

  /** `int(s)` for base-10 text; None when Python raises ValueError. */
  function ParseInt(s: string): Option<int>
  {
    var t := Strip(s);
    if |t| > 0 && (t[0] == '+' || t[0] == '-') then
      var v: int := DigitsValue(t[1..]);
      if IsDigitRun(t[1..]) then Some(if t[0] == '-' then -v else v)
      else None
    else if IsDigitRun(t) then Some(DigitsValue(t))
    else None
  }

  function DigitChar(d: nat): char
    requires d < 10
  {
    ('0' as int + d) as char
  }

  /** `str(n)` for a natural number. */
  function NatToString(n: nat): (r: string)
    ensures |r| > 0 && forall i :: 0 <= i < |r| ==> IsDigit(r[i])
  {
    if n < 10 then [DigitChar(n)] else NatToString(n / 10) + [DigitChar(n % 10)]
  }

  /** `str(n)` for an integer. */
  function IntToString(n: int): string
  {
    if n < 0 then "-" + NatToString(-n) else NatToString(n)
  }

  lemma {:induction false} DigitsValueNatToString(n: nat)
    ensures DigitsValue(NatToString(n)) == n
  {
    var r := NatToString(n);
    if n >= 10 {
      DigitsValueNatToString(n / 10);
      assert r[..|r| - 1] == NatToString(n / 10);
    }
  }

  /** `int(str(n)) == n`: the Content-Length text a response carries reads back as its value. */
  lemma ParseIntNatToString(n: nat)
    ensures ParseInt(NatToString(n)) == Some(n)
  {
    var r := NatToString(n);
    StripUnchanged(r);
    DigitsValueNatToString(n);
  }
}
