/**
 * The parameter bag every request view is built on: a PHP array with string
 * keys. PHP arrays keep insertion order, so the bag is an association list in
 * which each key occurs once; `ToMap` is its meaning as a plain map. Setting an
 * existing key overwrites it in place, a new key is appended, removing an
 * absent key does nothing.
 */
module Parameters {
  import opened Wrappers
  import opened Php

  datatype Bag<V> = Bag(entries: seq<(string, V)>)

  /** The keys of an entry list, in order. */
  function KeysOf<V>(es: seq<(string, V)>): (ks: seq<string>)
    ensures |ks| == |es|
    ensures forall i :: 0 <= i < |es| ==> ks[i] == es[i].0
  {
    if es == [] then [] else [es[0].0] + KeysOf(es[1..])
  }

  predicate Distinct(ks: seq<string>) {
    forall i, j :: 0 <= i < j < |ks| ==> ks[i] != ks[j]
  }

  /** What every PHP array satisfies: no key twice. */
  predicate Valid<V>(b: Bag<V>) {
    Distinct(KeysOf(b.entries))
  }

  /** The map an entry list denotes. */
  function MapOf<V>(es: seq<(string, V)>): (m: map<string, V>)
    ensures forall k :: k in m <==> k in KeysOf(es)
  {
    if es == [] then map[] else MapOf(es[1..])[es[0].0 := es[0].1]
  }

  function ToMap<V>(b: Bag<V>): map<string, V> {
    MapOf(b.entries)
  }

  /** `ks` with every occurrence of `k` dropped, the rest in order. */
  function Without(ks: seq<string>, k: string): (r: seq<string>)
    ensures k !in r
    ensures forall x :: x != k ==> (x in r <==> x in ks)
  {
    if ks == [] then [] else if ks[0] == k then Without(ks[1..], k) else [ks[0]] + Without(ks[1..], k)
  }

  // ---------------------------------------------------------------------------
  // Entry-list algorithms
  // ---------------------------------------------------------------------------

  function Find<V>(es: seq<(string, V)>, k: string): (r: Option<V>)
    ensures r == if k in MapOf(es) then Some(MapOf(es)[k]) else None
  {
    if es == [] then None else if es[0].0 == k then Some(es[0].1) else Find(es[1..], k)
  }

  /** `$a[$k] = $v`: overwrite in place, or append a new entry. */
  function Put<V>(es: seq<(string, V)>, k: string, v: V): (r: seq<(string, V)>)
    ensures MapOf(r) == MapOf(es)[k := v]
  {
    if es == [] then [(k, v)]
    else if es[0].0 == k then
      var r := [(k, v)] + es[1..];
      assert r[0] == (k, v) && r[1..] == es[1..];
      WriteTwice(MapOf(es[1..]), k, es[0].1, v);
      r
    else
      var rest := Put(es[1..], k, v);
      var r := [es[0]] + rest;
      assert r[0] == es[0] && r[1..] == rest;
      WritesCommute(MapOf(es[1..]), k, v, es[0].0, es[0].1);
      r
  }

  /** The later of two writes to one key wins. */
  lemma WriteTwice<V>(m: map<string, V>, k: string, v0: V, v: V)
    ensures m[k := v0][k := v] == m[k := v]
  {
  }

  /** Writes to different keys commute. */
  lemma WritesCommute<V>(m: map<string, V>, k: string, v: V, h: string, w: V)
    requires h != k
    ensures m[k := v][h := w] == m[h := w][k := v]
  {
  }

  /** `unset($a[$k])`. */
  function Drop<V>(es: seq<(string, V)>, k: string): (r: seq<(string, V)>)
    ensures MapOf(r) == MapOf(es) - {k}
  {
    if es == [] then []
    else
      var rest := Drop(es[1..], k);
      if es[0].0 == k then
        DropHead(MapOf(es[1..]), k, es[0].1);
        rest
      else
        var r := [es[0]] + rest;
        assert r[0] == es[0] && r[1..] == rest;
        DropOther(MapOf(es[1..]), k, es[0].0, es[0].1);
        r
  }

  /** Removing a key just written forgets the write. */
  lemma DropHead<V>(m: map<string, V>, k: string, v: V)
    ensures m[k := v] - {k} == m - {k}
  {
  }

  /** Writing another key commutes with removing k. */
  lemma DropOther<V>(m: map<string, V>, k: string, h: string, v: V)
    requires h != k
    ensures (m - {k})[h := v] == m[h := v] - {k}
  {
  }

  /** Overwriting keeps every key where it was; a new key goes last. */
  lemma {:induction false} PutKeys<V>(es: seq<(string, V)>, k: string, v: V)
    ensures KeysOf(Put(es, k, v)) == if k in KeysOf(es) then KeysOf(es) else KeysOf(es) + [k]
  {
    if es == [] {
      assert KeysOf(Put(es, k, v)) == [k];
    } else if es[0].0 == k {
      var r := [(k, v)] + es[1..];
      assert r[1..] == es[1..];
      assert KeysOf(r) == [k] + KeysOf(es[1..]);
      assert KeysOf(es) == [es[0].0] + KeysOf(es[1..]);
      assert k in KeysOf(es);
    } else {
      PutKeys(es[1..], k, v);
      var rest := Put(es[1..], k, v);
      assert KeysOf([es[0]] + rest) == [es[0].0] + KeysOf(rest) by {
        assert ([es[0]] + rest)[1..] == rest;
      }
      assert KeysOf(es) == [es[0].0] + KeysOf(es[1..]);
      assert (k in KeysOf(es)) == (k in KeysOf(es[1..]));
      if k !in KeysOf(es[1..]) {
        assert [es[0].0] + (KeysOf(es[1..]) + [k]) == KeysOf(es) + [k];
      }
    }
  }

  /** Removing a key keeps the other keys in their order. */
  lemma {:induction false} DropKeys<V>(es: seq<(string, V)>, k: string)
    ensures KeysOf(Drop(es, k)) == Without(KeysOf(es), k)
  {
    if es != [] {
      DropKeys(es[1..], k);
      assert KeysOf(es)[1..] == KeysOf(es[1..]);
      if es[0].0 != k {
        var rest := Drop(es[1..], k);
        assert KeysOf([es[0]] + rest) == [es[0].0] + KeysOf(rest);
      }
    }
  }

  lemma {:induction false} WithoutAbsent(ks: seq<string>, k: string)
    ensures k !in ks ==> Without(ks, k) == ks
  {
    if ks != [] && k !in ks {
      WithoutAbsent(ks[1..], k);
    }
  }

  lemma {:induction false} WithoutKeepsDistinct(ks: seq<string>, k: string)
    requires Distinct(ks)
    ensures Distinct(Without(ks, k))
  {
    if ks != [] {
      WithoutKeepsDistinct(ks[1..], k);
      var rest := Without(ks[1..], k);
      if ks[0] != k {
        assert ks[0] !in ks[1..];
        assert ks[0] !in rest;
        var r := [ks[0]] + rest;
        forall i, j | 0 <= i < j < |r| ensures r[i] != r[j] {
          if i == 0 {
            assert r[j] in rest;
          }
        }
      }
    }
  }

  /** A list with distinct keys has as many entries as its map has keys. */
  lemma {:induction false} DistinctCount<V>(es: seq<(string, V)>)
    requires Distinct(KeysOf(es))
    ensures |MapOf(es)| == |es|
  {
    if es != [] {
      var ks := KeysOf(es);
      assert KeysOf(es[1..]) == ks[1..];
      DistinctCount(es[1..]);
      assert es[0].0 !in KeysOf(es[1..]);
    }
  }

  // ---------------------------------------------------------------------------
  // The bag's operations
  // ---------------------------------------------------------------------------

  /** The constructor: stores the initial array as given. */
  function New<V>(parameters: seq<(string, V)>): (b: Bag<V>)
    requires Distinct(KeysOf(parameters))
    ensures Valid(b)
    ensures forall k :: k in ToMap(b) <==> k in KeysOf(parameters)
  {
    Bag(parameters)
  }

  function Set<V>(b: Bag<V>, k: string, v: V): (r: Bag<V>)
    requires Valid(b)
    ensures Valid(r)
    ensures ToMap(r) == ToMap(b)[k := v]
    ensures KeysOf(r.entries) == if k in ToMap(b) then KeysOf(b.entries) else KeysOf(b.entries) + [k]
  {
    PutKeys(b.entries, k, v);
    if k in ToMap(b) then
      Bag(Put(b.entries, k, v))
    else
      DistinctAppend(KeysOf(b.entries), k);
      Bag(Put(b.entries, k, v))
  }

  lemma DistinctAppend(ks: seq<string>, k: string)
    requires Distinct(ks) && k !in ks
    ensures Distinct(ks + [k])
  {
  }

  /** `array_key_exists`: a key stored with a null value is present. */
  predicate Has<V>(b: Bag<V>, k: string)
    ensures Has(b, k) <==> k in ToMap(b)
  {
    Find(b.entries, k).Some?
  }

  /** The stored value when the key is present (even a null one), the default otherwise. */
  function Get<V>(b: Bag<V>, k: string, default: V): (r: V)
    ensures k in ToMap(b) ==> r == ToMap(b)[k]
    ensures k !in ToMap(b) ==> r == default
  {
    match Find(b.entries, k)
    case Some(v) => v
    case None => default
  }

  function Remove<V>(b: Bag<V>, k: string): (r: Bag<V>)
    requires Valid(b)
    ensures Valid(r)
    ensures ToMap(r) == ToMap(b) - {k}
    ensures KeysOf(r.entries) == Without(KeysOf(b.entries), k)
    ensures k !in ToMap(b) ==> KeysOf(r.entries) == KeysOf(b.entries)
  {
    WithoutKeepsDistinct(KeysOf(b.entries), k);
    WithoutAbsent(KeysOf(b.entries), k);
    DropKeys(b.entries, k);
    Bag(Drop(b.entries, k))
  }

  /** `es` lists every pair the bag holds exactly once, and nothing else. */
  ghost predicate ListsExactly<V>(b: Bag<V>, es: seq<(string, V)>) {
    && |es| == |ToMap(b)|
    && Distinct(KeysOf(es))
    && forall i :: 0 <= i < |es| ==> es[i].0 in ToMap(b) && ToMap(b)[es[i].0] == es[i].1
  }

  /** `all`: the stored array, in insertion order. */
  function All<V>(b: Bag<V>): (r: seq<(string, V)>)
    ensures Valid(b) ==> ListsExactly(b, r)
  {
    if Valid(b) then
      DistinctCount(b.entries);
      assert forall i :: 0 <= i < |b.entries| ==> Find(b.entries, b.entries[i].0) == Some(b.entries[i].1) by {
        forall i | 0 <= i < |b.entries| ensures Find(b.entries, b.entries[i].0) == Some(b.entries[i].1) {
          FindPosition(b.entries, i);
        }
      }
      b.entries
    else
      b.entries
  }

  function Count<V>(b: Bag<V>): (n: nat)
    requires Valid(b)
    ensures n == |ToMap(b)|
  {
    DistinctCount(b.entries);
    |b.entries|
  }

  // ---------------------------------------------------------------------------
  // Properties
  // ---------------------------------------------------------------------------

  /** After `set(k, v)`, `get(k)` is v whatever the default, and every other key reads as before. */
  lemma SetThenGet<V>(b: Bag<V>, k: string, v: V, other: string, default: V)
    requires Valid(b)
    ensures Get(Set(b, k, v), k, default) == v
    ensures other != k ==> Get(Set(b, k, v), other, default) == Get(b, other, default)
    ensures other != k ==> (Has(Set(b, k, v), other) <==> Has(b, other))
  {
    var m := ToMap(Set(b, k, v));
    assert m == ToMap(b)[k := v];
    assert k in m && m[k] == v;
    if other != k {
      assert (other in m) == (other in ToMap(b));
    }
  }

  /** A new key adds one entry; overwriting a key keeps the count. */
  lemma SetCount<V>(b: Bag<V>, k: string, v: V)
    requires Valid(b)
    ensures Count(Set(b, k, v)) == if Has(b, k) then Count(b) else Count(b) + 1
  {
  }

  /** After `remove(k)` the key is gone, other keys are untouched, and removing an absent key changes nothing. */
  lemma RemoveThenHas<V>(b: Bag<V>, k: string, other: string, default: V)
    requires Valid(b)
    ensures !Has(Remove(b, k), k)
    ensures Get(Remove(b, k), k, default) == default
    ensures other != k ==> Get(Remove(b, k), other, default) == Get(b, other, default)
    ensures !Has(b, k) ==> Remove(b, k) == b
  {
    if !Has(b, k) {
      DropAbsent(b.entries, k);
    }
  }

  lemma {:induction false} DropAbsent<V>(es: seq<(string, V)>, k: string)
    requires k !in KeysOf(es)
    ensures Drop(es, k) == es
  {
    if es != [] {
      assert KeysOf(es[1..]) == KeysOf(es)[1..];
      DropAbsent(es[1..], k);
    }
  }

  /** A stored null is present: `has` holds and `get` returns the null, not the default. */
  lemma StoredNullIsReturned(b: Bag<Value>, k: string, default: Value)
    requires Valid(b)
    ensures Has(Set(b, k, Null), k)
    ensures Get(Set(b, k, Null), k, default) == Null
  {
  }

  /** The constructor stores its argument verbatim: `all()` gives it back and every key reads its value. */
  lemma ConstructThenAll<V>(parameters: seq<(string, V)>, i: nat, default: V)
    requires Distinct(KeysOf(parameters))
    requires i < |parameters|
    ensures All(New(parameters)) == parameters
    ensures Get(New(parameters), parameters[i].0, default) == parameters[i].1
  {
    FindPosition(parameters, i);
    GetFound(New(parameters), parameters[i].0, parameters[i].1, default);
  }

  /** What `Find` locates is what `get` returns. */
  lemma GetFound<V>(b: Bag<V>, k: string, v: V, default: V)
    requires Find(b.entries, k) == Some(v)
    ensures Get(b, k, default) == v
  {
  }

  lemma {:induction false} FindPosition<V>(es: seq<(string, V)>, i: nat)
    requires Distinct(KeysOf(es))
    requires i < |es|
    ensures Find(es, es[i].0) == Some(es[i].1)
  {
    if i > 0 {
      assert KeysOf(es[1..]) == KeysOf(es)[1..];
      assert KeysOf(es)[0] != KeysOf(es)[i];
      FindPosition(es[1..], i - 1);
    }
  }
}
