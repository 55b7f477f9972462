/**
 * Python's insertion-ordered `dict`, as a sequence of (key, value) pairs.
 * Assigning to a present key keeps its position; a new key goes last;
 * `del` removes the entry. `ToMap` forgets the order.
 */
module Dicts {
  import opened Wrappers

  type Dict<K, V> = seq<(K, V)>

  /** `list(d.keys())` */
  function Keys<K, V>(d: Dict<K, V>): (ks: seq<K>)
    ensures |ks| == |d| && forall i :: 0 <= i < |d| ==> ks[i] == d[i].0
  {
    if d == [] then [] else [d[0].0] + Keys(d[1..])
  }

  /** `list(d.values())` */
  function Values<K, V>(d: Dict<K, V>): (vs: seq<V>)
    ensures |vs| == |d| && forall i :: 0 <= i < |d| ==> vs[i] == d[i].1
  {
    if d == [] then [] else [d[0].1] + Values(d[1..])
  }

  /** No element occurs twice. */
  predicate Distinct<K(==)>(s: seq<K>)
  {
    s == [] || (s[0] !in s[1..] && Distinct(s[1..]))
  }

  /** The invariant of every Python dict: each key occurs once. */
  ghost predicate NoDupKeys<K, V>(d: Dict<K, V>)
  {
    Distinct(Keys(d))
  }

  /** `d.get(k)`: the value of the first entry for `k`. */
  function Get<K(==), V>(d: Dict<K, V>, k: K): (r: Option<V>)
    ensures r.None? <==> k !in Keys(d)
  {
    if d == [] then None
    else if d[0].0 == k then Some(d[0].1)
    else Get(d[1..], k)
  }

  /** `d[k] = v` */
  function Put<K(==), V>(d: Dict<K, V>, k: K, v: V): (r: Dict<K, V>)
    ensures Get(r, k) == Some(v)
  {
    if d == [] then [(k, v)]
    else if d[0].0 == k then [(k, v)] + d[1..]
    else [d[0]] + Put(d[1..], k, v)
  }

  /** Position of the first entry for `k`. */
  function IndexOf<K(==), V>(d: Dict<K, V>, k: K): (r: Option<nat>)
    ensures r.None? <==> k !in Keys(d)
    ensures r.Some? ==> r.value < |d| && d[r.value].0 == k
  {
    if d == [] then None
    else if d[0].0 == k then Some(0)
    else
      match IndexOf(d[1..], k)
      case None => None
      case Some(i) => Some(i + 1)
  }

  /** `del d[k]`: the first entry for `k` is cut out. */
  function Remove<K(==), V>(d: Dict<K, V>, k: K): (r: Dict<K, V>)
  {
    if d == [] then []
    else if d[0].0 == k then d[1..]
    else [d[0]] + Remove(d[1..], k)
  }

  /** `d.update(e)`: every entry of `e`, in order, assigned into `d`. */
  function Update<K(==), V>(d: Dict<K, V>, e: Dict<K, V>): Dict<K, V>
    decreases |e|
  {
    if e == [] then d else Update(Put(d, e[0].0, e[0].1), e[1..])
  }

  /** The dict as a map: what each key looks up to. */
  function ToMap<K(==), V>(d: Dict<K, V>): map<K, V>
  {
    if d == [] then map[] else ToMap(d[1..])[d[0].0 := d[0].1]
  }

  // ---------------------------------------------------------------------------
  // Lemmas: what assignment, deletion and update do to lookups, keys and order
  // ---------------------------------------------------------------------------

  /** A dict and its map agree on every lookup. */
  lemma {:induction false} GetIsMapLookup<K, V>(d: Dict<K, V>, k: K)
    ensures Get(d, k) == if k in ToMap(d) then Some(ToMap(d)[k]) else None
  {
    if d != [] && d[0].0 != k {
      GetIsMapLookup(d[1..], k);
    }
  }

  /** `d[k] = v` leaves every other key's lookup alone. */
  lemma {:induction false} PutOther<K, V>(d: Dict<K, V>, k: K, v: V, k': K)
    requires k' != k
    ensures Get(Put(d, k, v), k') == Get(d, k')
  {
    if d != [] && d[0].0 != k {
      PutOther(d[1..], k, v, k');
    }
  }

  /** `d[k] = v` keeps the key order, adding `k` last when it is new. */
  lemma {:induction false} PutKeys<K, V>(d: Dict<K, V>, k: K, v: V)
    ensures Keys(Put(d, k, v)) == if k in Keys(d) then Keys(d) else Keys(d) + [k]
  {
    if d != [] && d[0].0 != k {
      PutKeys(d[1..], k, v);
      assert Keys(d) == [d[0].0] + Keys(d[1..]);
    }
  }

  /** `d[k] = v` changes the map at `k` only. */
  lemma PutIsMapUpdate<K, V>(d: Dict<K, V>, k: K, v: V)
    ensures ToMap(Put(d, k, v)) == ToMap(d)[k := v]
  {
    var r := Put(d, k, v);
    forall k' ensures (k' in ToMap(r)) == (k' in ToMap(d)[k := v]) &&
                      (k' in ToMap(r) ==> ToMap(r)[k'] == ToMap(d)[k := v][k'])
    {
      GetIsMapLookup(r, k');
      GetIsMapLookup(d, k');
      if k' != k { PutOther(d, k, v, k'); }
    }
  }

  /** Assigning a new key appends an entry. */
  lemma {:induction false} PutAppends<K, V>(d: Dict<K, V>, k: K, v: V)
    requires k !in Keys(d)
    ensures Put(d, k, v) == d + [(k, v)]
  {
    if d != [] {
      KeysCons(d);
      PutAppends(d[1..], k, v);
      AppendCons([], d);
    }
  }

  lemma KeysCons<K, V>(d: Dict<K, V>)
    requires d != []
    ensures Keys(d) == [d[0].0] + Keys(d[1..])
  {
  }

  /** `d[k] = v` keeps every key unique. */
  lemma PutNoDup<K, V>(d: Dict<K, V>, k: K, v: V)
    requires NoDupKeys(d)
    ensures NoDupKeys(Put(d, k, v))
  {
    PutKeys(d, k, v);
    DistinctAppend(Keys(d), [k]);
  }

  /** `del d[k]` cuts out the entry at the first position of `k` and keeps the others in order. */
  lemma {:induction false} RemoveSplice<K, V>(d: Dict<K, V>, k: K, i: nat)
    requires IndexOf(d, k) == Some(i)
    ensures Remove(d, k) == d[..i] + d[i + 1..]
  {
    if d[0].0 == k {
      assert d[..0] + d[1..] == d[1..];
    } else {
      var j := IndexOf(d[1..], k).value;
      RemoveSplice(d[1..], k, j);
      SpliceCons(d, j);
    }
  }

  /** `del d[k]` of an absent key (a KeyError in Python) would leave the dict as it is. */
  lemma {:induction false} RemoveAbsent<K, V>(d: Dict<K, V>, k: K)
    requires k !in Keys(d)
    ensures Remove(d, k) == d
  {
    if d != [] {
      KeysCons(d);
      RemoveAbsent(d[1..], k);
      AppendCons([], d);
    }
  }

  lemma SpliceCons<T>(s: seq<T>, i: nat)
    requires i + 1 < |s|
    ensures [s[0]] + (s[1..][..i] + s[1..][i + 1..]) == s[..i + 1] + s[i + 2..]
  {
    assert s[..i + 1] == [s[0]] + s[1..][..i];
    assert s[i + 2..] == s[1..][i + 1..];
  }

  /** On a dict with unique keys, after `del d[k]` nothing looks up under `k`, and every other key as before. */
  lemma {:induction false} RemoveGet<K, V>(d: Dict<K, V>, k: K, k': K)
    requires NoDupKeys(d)
    ensures Get(Remove(d, k), k') == if k' == k then None else Get(d, k')
  {
    if d != [] {
      assert Keys(d) == [d[0].0] + Keys(d[1..]);
      DistinctCons(d[0].0, Keys(d[1..]));
      if d[0].0 != k {
        RemoveGet(d[1..], k, k');
      }
    }
  }

  /** On a dict with unique keys, `del d[k]` removes `k` from the map and nothing else. */
  lemma RemoveIsMapRemove<K, V>(d: Dict<K, V>, k: K)
    requires NoDupKeys(d)
    ensures ToMap(Remove(d, k)) == ToMap(d) - {k}
  {
    var r := Remove(d, k);
    forall k' ensures (k' in ToMap(r)) == (k' in ToMap(d) - {k}) &&
                      (k' in ToMap(r) ==> ToMap(r)[k'] == ToMap(d)[k'])
    {
      GetIsMapLookup(r, k');
      GetIsMapLookup(d, k');
      RemoveGet(d, k, k');
    }
  }

  lemma DistinctCons<K>(a: K, s: seq<K>)
    ensures Distinct([a] + s) <==> a !in s && Distinct(s)
  {
    assert ([a] + s)[1..] == s;
  }

  /** A concatenation is free of repeats exactly when both parts are and they share nothing. */
  lemma {:induction false} DistinctAppend<K>(a: seq<K>, b: seq<K>)
    ensures Distinct(a + b) <==> Distinct(a) && Distinct(b) && forall x :: x in a ==> x !in b
  {
    if a == [] {
      assert a + b == b;
    } else {
      DistinctAppend(a[1..], b);
      assert (a + b)[1..] == a[1..] + b;
      assert a == [a[0]] + a[1..];
    }
  }

  lemma KeysAppend<K, V>(d: Dict<K, V>, e: Dict<K, V>)
    ensures Keys(d + e) == Keys(d) + Keys(e)
  {
  }

  /** `del d[k]` adds no key. */
  lemma {:induction false} RemoveKeys<K, V>(d: Dict<K, V>, k: K, x: K)
    requires x in Keys(Remove(d, k))
    ensures x in Keys(d)
  {
    if d != [] && d[0].0 != k {
      assert Keys(Remove(d, k)) == [d[0].0] + Keys(Remove(d[1..], k));
      if x != d[0].0 {
        RemoveKeys(d[1..], k, x);
      }
    }
  }

  /** `del d[k]` keeps every key unique. */
  lemma {:induction false} RemoveNoDup<K, V>(d: Dict<K, V>, k: K)
    requires NoDupKeys(d)
    ensures NoDupKeys(Remove(d, k))
  {
    if d != [] {
      assert Keys(d) == [d[0].0] + Keys(d[1..]);
      DistinctCons(d[0].0, Keys(d[1..]));
      if d[0].0 != k {
        RemoveNoDup(d[1..], k);
        var rest := Keys(Remove(d[1..], k));
        assert Keys(Remove(d, k)) == [d[0].0] + rest;
        if d[0].0 in rest {
          RemoveKeys(d[1..], k, d[0].0);
        }
        DistinctCons(d[0].0, rest);
      }
    }
  }

  lemma DistinctShift<K>(a: seq<K>, x: K, b: seq<K>)
    requires Distinct(a + ([x] + b))
    ensures x !in a && Distinct((a + [x]) + b)
  {
    DistinctAppend(a, [x] + b);
    assert x in [x] + b;
    assert a + ([x] + b) == (a + [x]) + b;
  }

  lemma UpdateAppendsStep<K, V>(d: Dict<K, V>, e: Dict<K, V>)
    requires e != [] && Distinct(Keys(d) + Keys(e))
    ensures e[0].0 !in Keys(d) && Distinct(Keys(d + [e[0]]) + Keys(e[1..]))
  {
    assert Keys(e) == [e[0].0] + Keys(e[1..]);
    KeysAppend(d, [e[0]]);
    assert Keys(d + [e[0]]) == Keys(d) + [e[0].0];
    DistinctShift(Keys(d), e[0].0, Keys(e[1..]));
  }

  lemma UpdateStep<K, V>(d: Dict<K, V>, e: Dict<K, V>)
    requires e != []
    ensures Update(d, e) == Update(Put(d, e[0].0, e[0].1), e[1..])
  {
  }

  lemma AppendCons<T>(a: seq<T>, b: seq<T>)
    requires b != []
    ensures a + [b[0]] + b[1..] == a + b
  {
    assert b == [b[0]] + b[1..];
  }

  lemma {:induction false} UpdateAppends<K, V>(d: Dict<K, V>, e: Dict<K, V>)
    requires Distinct(Keys(d) + Keys(e))
    ensures Update(d, e) == d + e
    decreases |e|
  {
    if e == [] {
      assert d + e == d;
    } else {
      UpdateAppendsStep(d, e);
      UpdateStep(d, e);
      PutAppends(d, e[0].0, e[0].1);
      UpdateAppends(d + [e[0]], e[1..]);
      AppendCons(d, e);
    }
  }

  /** `d.update(e)` with `e` free of repeats: keys of `e` look up to their value in `e`, others as before. */
  lemma {:induction false} UpdateGet<K, V>(d: Dict<K, V>, e: Dict<K, V>, k: K)
    requires NoDupKeys(e)
    ensures Get(Update(d, e), k) == if k in Keys(e) then Get(e, k) else Get(d, k)
    decreases |e|
  {
    if e != [] {
      KeysCons(e);
      DistinctCons(e[0].0, Keys(e[1..]));
      var d' := Put(d, e[0].0, e[0].1);
      UpdateGet(d', e[1..], k);
      if k != e[0].0 {
        PutOther(d, e[0].0, e[0].1, k);
      }
    }
  }

  /** `a` is how `b` begins. */
  ghost predicate PrefixOf<K>(a: seq<K>, b: seq<K>)
  {
    |a| <= |b| && b[..|a|] == a
  }

  lemma PrefixTrans<K>(a: seq<K>, b: seq<K>, c: seq<K>)
    requires PrefixOf(a, b) && PrefixOf(b, c)
    ensures PrefixOf(a, c)
  {
    assert c[..|a|] == c[..|b|][..|a|];
  }

  lemma PutPrefix<K, V>(d: Dict<K, V>, k: K, v: V)
    ensures PrefixOf(Keys(d), Keys(Put(d, k, v)))
  {
    PutKeys(d, k, v);
    assert (Keys(d) + [k])[..|Keys(d)|] == Keys(d);
  }

  /** `d.update(e)` keeps the keys of `d` in front, in order. */
  lemma {:induction false} UpdateKeys<K, V>(d: Dict<K, V>, e: Dict<K, V>)
    ensures PrefixOf(Keys(d), Keys(Update(d, e)))
    decreases |e|
  {
    if e == [] {
      assert Keys(d)[..|Keys(d)|] == Keys(d);
    } else {
      var d' := Put(d, e[0].0, e[0].1);
      PutPrefix(d, e[0].0, e[0].1);
      UpdateKeys(d', e[1..]);
      PrefixTrans(Keys(d), Keys(d'), Keys(Update(d', e[1..])));
    }
  }

  /** `d.update(e)` adds only keys of `e`. */
  lemma {:induction false} UpdateNewKeys<K, V>(d: Dict<K, V>, e: Dict<K, V>, x: K)
    requires x in Keys(Update(d, e))
    ensures x in Keys(d) || x in Keys(e)
    decreases |e|
  {
    if e != [] {
      var d' := Put(d, e[0].0, e[0].1);
      UpdateNewKeys(d', e[1..], x);
      PutKeys(d, e[0].0, e[0].1);
      KeysCons(e);
    }
  }

  /** `d.update(e)` keeps every key unique. */
  lemma {:induction false} UpdateNoDup<K, V>(d: Dict<K, V>, e: Dict<K, V>)
    requires NoDupKeys(d)
    ensures NoDupKeys(Update(d, e))
    decreases |e|
  {
    if e != [] {
      PutNoDup(d, e[0].0, e[0].1);
      UpdateNoDup(Put(d, e[0].0, e[0].1), e[1..]);
    }
  }

  /** Assigning a key the value it already has changes nothing. */
  lemma {:induction false} PutSame<K, V>(d: Dict<K, V>, k: K)
    requires k in Keys(d)
    ensures Put(d, k, Get(d, k).value) == d
  {
    KeysCons(d);
    if d[0].0 != k {
      PutSame(d[1..], k);
    }
  }

  /** Every entry after `d[k] = v` is `(k, v)` or an entry of `d`. */
  lemma {:induction false} PutEntries<K, V>(d: Dict<K, V>, k: K, v: V, x: (K, V))
    requires x in Put(d, k, v)
    ensures x == (k, v) || x in d
  {
    if d != [] && d[0].0 != k && x != d[0] {
      PutEntries(d[1..], k, v, x);
    }
  }

  /** Every entry after `del d[k]` is an entry of `d`. */
  lemma {:induction false} RemoveEntries<K, V>(d: Dict<K, V>, k: K, x: (K, V))
    requires x in Remove(d, k)
    ensures x in d
  {
    if d != [] && d[0].0 != k && x != d[0] {
      RemoveEntries(d[1..], k, x);
    }
  }

  /** The length of a dict with unique keys is its number of keys. */
  lemma {:induction false} LengthIsKeyCount<K, V>(d: Dict<K, V>)
    requires NoDupKeys(d)
    ensures |ToMap(d)| == |d|
  {
    if d != [] {
      assert Keys(d) == [d[0].0] + Keys(d[1..]);
      DistinctCons(d[0].0, Keys(d[1..]));
      LengthIsKeyCount(d[1..]);
      GetIsMapLookup(d[1..], d[0].0);
    }
  }

  /** A present key looks up to the value of one of the entries. */
  lemma {:induction false} GetEntry<K, V>(d: Dict<K, V>, k: K)
    requires k in Keys(d)
    ensures (k, Get(d, k).value) in d
  {
    KeysCons(d);
    if d[0].0 != k {
      GetEntry(d[1..], k);
    }
  }

  /** Lookups in a dict with one more entry at the end. */
  lemma {:induction false} GetSnoc<K, V>(d: Dict<K, V>, x: (K, V), k: K)
    ensures Get(d + [x], k) == if k in Keys(d) then Get(d, k) else if k == x.0 then Some(x.1) else None
  {
    if d != [] {
      KeysCons(d);
      assert (d + [x])[1..] == d[1..] + [x];
      GetSnoc(d[1..], x, k);
    }
  }

  lemma PrefixIn<K>(a: seq<K>, b: seq<K>, x: K)
    requires PrefixOf(a, b) && x in a
    ensures x in b
  {
    var i :| 0 <= i < |a| && a[i] == x;
    assert b[i] == b[..|a|][i];
  }
}
