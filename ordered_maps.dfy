/**
 * java.util.LinkedHashMap<String, V> as a value: the keys in insertion
 * order beside a map from key to value.  put keeps a key that is put
 * again at its first position and stores the last value; remove drops a
 * key and keeps the others in order.
 */
module OrderedMaps {

  datatype OrderedMap<V> = OrderedMap(keys: seq<string>, values: map<string, V>)

  predicate Distinct(s: seq<string>) {
    forall i, j :: 0 <= i < j < |s| ==> s[i] != s[j]
  }

  /** The key list has no repetition and lists exactly the keys of the value map. */
  ghost predicate Valid<V>(m: OrderedMap<V>) {
    Distinct(m.keys) && forall k :: k in m.values <==> k in m.keys
  }

  /** new LinkedHashMap<>() */
  function Empty<V>(): (m: OrderedMap<V>)
    ensures Valid(m) && |m.keys| == 0
  {
    OrderedMap([], map[])
  }

  /** map.put(k, v): the value is replaced; a new key goes last, an old key keeps its place. */
  function Put<V>(m: OrderedMap<V>, k: string, v: V): (r: OrderedMap<V>)
    requires Valid(m)
    ensures Valid(r)
    ensures r.values == m.values[k := v]
    ensures k in m.values ==> r.keys == m.keys
    ensures k !in m.values ==> r.keys == m.keys + [k]
  {
    if k in m.values then OrderedMap(m.keys, m.values[k := v])
    else OrderedMap(m.keys + [k], m.values[k := v])
  }

  /** s without the elements that are in ks, in the same order. */
  function FilterOut(s: seq<string>, ks: set<string>): (r: seq<string>)
    ensures forall x :: x in r <==> x in s && x !in ks
    ensures |r| <= |s|
  {
    if s == [] then [] else (if s[0] in ks then [] else [s[0]]) + FilterOut(s[1..], ks)
  }

  /** The map without the keys in ks (a series of map.remove calls). */
  function Without<V>(m: OrderedMap<V>, ks: set<string>): (r: OrderedMap<V>)
    requires Valid(m)
    ensures Valid(r)
    ensures forall k :: k in r.values <==> k in m.values && k !in ks
    ensures forall k :: k in r.values ==> r.values[k] == m.values[k]
  {
    FilterOutDistinct(m.keys, ks);
    OrderedMap(FilterOut(m.keys, ks), m.values - ks)
  }

  /** map.remove(k) */
  function Remove<V>(m: OrderedMap<V>, k: string): (r: OrderedMap<V>)
    requires Valid(m)
    ensures Valid(r) && k !in r.values
    ensures forall k' :: k' != k ==> (k' in r.values <==> k' in m.values)
    ensures forall k' :: k' in r.values ==> r.values[k'] == m.values[k']
    ensures r.keys == FilterOut(m.keys, {k})
  {
    Without(m, {k})
  }

  /** The values in key order, as map.forEach visits them. */
  function Values<V>(m: OrderedMap<V>): (vs: seq<V>)
    requires Valid(m)
    ensures |vs| == |m.keys|
  {
    seq(|m.keys|, i requires 0 <= i < |m.keys| => m.values[m.keys[i]])
  }

  /** The keys of a sequence of (key, value) pairs. */
  function KeysOf<V>(ps: seq<(string, V)>): (ks: seq<string>)
    ensures |ks| == |ps|
  {
    seq(|ps|, i requires 0 <= i < |ps| => ps[i].0)
  }

  /** A fresh map after put(k, v) for every pair, in order. */
  function PutAll<V>(ps: seq<(string, V)>): (r: OrderedMap<V>)
    ensures Valid(r)
    decreases |ps|
  {
    if ps == [] then Empty() else
      var last := ps[|ps| - 1];
      Put(PutAll(ps[..|ps| - 1]), last.0, last.1)
  }

  /** Putting one more pair is one more put. */
  lemma PutAllSnoc<V>(ps: seq<(string, V)>, p: (string, V))
    ensures PutAll(ps + [p]) == Put(PutAll(ps), p.0, p.1)
  {
    assert (ps + [p])[..|ps|] == ps;
  }

  /** The position of the first occurrence of k in s. */
  function FirstIndex(s: seq<string>, k: string): (i: nat)
    requires k in s
    ensures i < |s| && s[i] == k
    ensures forall j :: 0 <= j < i ==> s[j] != k
  {
    if s[0] == k then 0 else 1 + FirstIndex(s[1..], k)
  }

  /** The position of the last pair whose key is k. */
  function LastIndex<V>(ps: seq<(string, V)>, k: string): (i: nat)
    requires k in KeysOf(ps)
    ensures i < |ps| && ps[i].0 == k
    ensures forall j :: i < j < |ps| ==> ps[j].0 != k
    decreases |ps|
  {
    var n := |ps| - 1;
    if ps[n].0 == k then n else
      assert KeysOf(ps) == KeysOf(ps[..n]) + [ps[n].0];
      LastIndex(ps[..n], k)
  }

  lemma FilterOutDistinct(s: seq<string>, ks: set<string>)
    requires Distinct(s)
    ensures Distinct(FilterOut(s, ks))
  {
    if s != [] {
      FilterOutDistinct(s[1..], ks);
    }
  }

  /** Filtering commutes with appending one more element. */
  lemma {:induction false} FilterOutSnoc(s: seq<string>, x: string, ks: set<string>)
    ensures FilterOut(s + [x], ks) == FilterOut(s, ks) + (if x in ks then [] else [x])
  {
    if s == [] {
      assert [x][1..] == [];
    } else {
      assert (s + [x])[1..] == s[1..] + [x];
      FilterOutSnoc(s[1..], x, ks);
    }
  }

  /** Filtering keeps the relative order of what it keeps. */
  lemma {:induction false} FilterOutOrder(s: seq<string>, ks: set<string>)
    requires Distinct(s)
    ensures forall a, b :: 0 <= a < b < |FilterOut(s, ks)| ==>
      FirstIndex(s, FilterOut(s, ks)[a]) < FirstIndex(s, FilterOut(s, ks)[b])
  {
    if s != [] {
      var t := FilterOut(s[1..], ks);
      FilterOutOrder(s[1..], ks);
      forall x | x in t ensures FirstIndex(s, x) == 1 + FirstIndex(s[1..], x) {
        assert x != s[0];
      }
      FilterOutDistinct(s[1..], ks);
    }
  }

  /** Every key that was put is in the map, and nothing else. */
  lemma {:induction false} PutAllKeys<V>(ps: seq<(string, V)>)
    ensures forall k :: k in PutAll(ps).values <==> k in KeysOf(ps)
    decreases |ps|
  {
    if ps != [] {
      var n := |ps| - 1;
      PutAllKeys(ps[..n]);
      assert KeysOf(ps) == KeysOf(ps[..n]) + [ps[n].0];
    }
  }

  /** Each key holds the value of the last pair that put it. */
  lemma {:induction false} PutAllLastValue<V>(ps: seq<(string, V)>, k: string)
    requires k in KeysOf(ps)
    ensures k in PutAll(ps).values && PutAll(ps).values[k] == ps[LastIndex(ps, k)].1
    decreases |ps|
  {
    var n := |ps| - 1;
    assert KeysOf(ps) == KeysOf(ps[..n]) + [ps[n].0];
    if ps[n].0 != k {
      PutAllLastValue(ps[..n], k);
    }
  }

  /** Keys are ordered by their first occurrence among the pairs. */
  lemma {:induction false} PutAllOrder<V>(ps: seq<(string, V)>)
    ensures forall k :: k in PutAll(ps).keys <==> k in KeysOf(ps)
    ensures forall a, b :: 0 <= a < b < |PutAll(ps).keys| ==>
      FirstIndex(KeysOf(ps), PutAll(ps).keys[a]) < FirstIndex(KeysOf(ps), PutAll(ps).keys[b])
    decreases |ps|
  {
    PutAllKeys(ps);
    if ps != [] {
      var n := |ps| - 1;
      var k := ps[n].0;
      var prev := PutAll(ps[..n]);
      var pk := KeysOf(ps[..n]);
      var r := PutAll(ps);
      PutAllOrder(ps[..n]);
      assert KeysOf(ps) == pk + [k];
      assert r == Put(prev, k, ps[n].1);
      forall a, b | 0 <= a < b < |r.keys|
        ensures FirstIndex(KeysOf(ps), r.keys[a]) < FirstIndex(KeysOf(ps), r.keys[b])
      {
        var x, y := r.keys[a], r.keys[b];
        assert x == prev.keys[a];
        assert x in pk;
        FirstIndexSnoc(pk, k, x);
        FirstIndexSnoc(pk, k, y);
        if b < |prev.keys| {
          assert y == prev.keys[b];
        }
      }
    }
  }

  lemma {:induction false} FirstIndexSnoc(s: seq<string>, x: string, k: string)
    requires k in s + [x]
    ensures k in s ==> FirstIndex(s + [x], k) == FirstIndex(s, k)
    ensures k !in s ==> FirstIndex(s + [x], k) == |s|
  {
    if s != [] && s[0] != k {
      assert (s + [x])[1..] == s[1..] + [x];
      FirstIndexSnoc(s[1..], x, k);
    }
  }

  /** The set of the elements of a sequence of keys. */
  function KeySet(s: seq<string>): (ks: set<string>)
    ensures forall k :: k in ks <==> k in s
  {
    set k | k in s
  }

  lemma {:induction false} FilterOutTwice(s: seq<string>, a: set<string>, b: set<string>)
    ensures FilterOut(FilterOut(s, a), b) == FilterOut(s, a + b)
  {
    if s != [] {
      var rest := FilterOut(s[1..], a);
      FilterOutTwice(s[1..], a, b);
      var t := FilterOut(s, a);
      if s[0] in a {
        assert t == [] + rest == rest;
        assert FilterOut(s, a + b) == [] + FilterOut(s[1..], a + b);
      } else {
        assert t == [s[0]] + rest;
        assert t != [] && t[0] == s[0] && t[1..] == rest;
        var head := if s[0] in b then [] else [s[0]];
        assert FilterOut(t, b) == head + FilterOut(rest, b);
        assert FilterOut(s, a + b) == head + FilterOut(s[1..], a + b);
      }
    }
  }

  /** Removing one key after a set of keys is removing both at once. */
  lemma WithoutThenRemove<V>(m: OrderedMap<V>, ks: set<string>, k: string)
    requires Valid(m)
    ensures Remove(Without(m, ks), k) == Without(m, ks + {k})
  {
    FilterOutTwice(m.keys, ks, {k});
    assert m.values - ks - {k} == m.values - (ks + {k});
  }

  /** Removing no key changes nothing. */
  lemma WithoutNothing<V>(m: OrderedMap<V>)
    requires Valid(m)
    ensures Without(m, {}) == m
  {
    FilterOutNothing(m.keys);
    assert m.values - {} == m.values;
  }

  lemma {:induction false} FilterOutNothing(s: seq<string>)
    ensures FilterOut(s, {}) == s
  {
    if s != [] {
      FilterOutNothing(s[1..]);
    }
  }

  /**
   * What is left of a map built by put after removing the keys in drop:
   * exactly the keys put and not dropped, each once, ordered by first
   * occurrence, each with the value of its last put.
   */
  lemma SurvivorsOfPutAll<V>(ps: seq<(string, V)>, drop: set<string>)
    ensures forall k :: k in Without(PutAll(ps), drop).keys <==> k in KeysOf(ps) && k !in drop
    ensures Distinct(Without(PutAll(ps), drop).keys)
    ensures forall i :: 0 <= i < |Without(PutAll(ps), drop).keys| ==>
      Without(PutAll(ps), drop).keys[i] in KeysOf(ps) &&
      Values(Without(PutAll(ps), drop))[i] == ps[LastIndex(ps, Without(PutAll(ps), drop).keys[i])].1
    ensures forall a, b :: 0 <= a < b < |Without(PutAll(ps), drop).keys| ==>
      FirstIndex(KeysOf(ps), Without(PutAll(ps), drop).keys[a]) <
      FirstIndex(KeysOf(ps), Without(PutAll(ps), drop).keys[b])
  {
    var m := PutAll(ps);
    var r := Without(m, drop);
    PutAllOrder(ps);
    PutAllKeys(ps);
    FilterOutOrder(m.keys, drop);
    forall i | 0 <= i < |r.keys|
      ensures r.keys[i] in KeysOf(ps) && Values(r)[i] == ps[LastIndex(ps, r.keys[i])].1
    {
      PutAllLastValue(ps, r.keys[i]);
    }
    forall a, b | 0 <= a < b < |r.keys|
      ensures FirstIndex(KeysOf(ps), r.keys[a]) < FirstIndex(KeysOf(ps), r.keys[b])
    {
      var pa, pb := FirstIndex(m.keys, r.keys[a]), FirstIndex(m.keys, r.keys[b]);
      assert pa < pb;
    }
  }

  /**
   * vs lists, once each and ordered by where they were first put, the
   * values of every key put by ps and not in drop, each the value of the
   * last pair with its key; key reads a value's key.
   */
  ghost predicate IsSurvivorList<V>(vs: seq<V>, key: V -> string, ps: seq<(string, V)>, drop: set<string>) {
    (forall k :: (exists i :: 0 <= i < |vs| && key(vs[i]) == k) <==> k in KeysOf(ps) && k !in drop) &&
    (forall i, j :: 0 <= i < j < |vs| ==> key(vs[i]) != key(vs[j])) &&
    (forall i :: 0 <= i < |vs| ==> key(vs[i]) in KeysOf(ps) && vs[i] == ps[LastIndex(ps, key(vs[i]))].1) &&
    (forall a, b :: 0 <= a < b < |vs| ==> FirstIndex(KeysOf(ps), key(vs[a])) < FirstIndex(KeysOf(ps), key(vs[b])))
  }

  /** When every pair's key is the key of its value, the map's values left after removing drop are such a list. */
  lemma SurvivorValues<V>(ps: seq<(string, V)>, drop: set<string>, key: V -> string)
    requires forall j :: 0 <= j < |ps| ==> ps[j].0 == key(ps[j].1)
    ensures IsSurvivorList(Values(Without(PutAll(ps), drop)), key, ps, drop)
  {
    SurvivorsOfPutAll(ps, drop);
    ValuesKeyed(Without(PutAll(ps), drop), key, ps);
    SurvivorListOf(Without(PutAll(ps), drop), key, ps, drop);
  }

  lemma SurvivorListOf<V>(r: OrderedMap<V>, key: V -> string, ps: seq<(string, V)>, drop: set<string>)
    requires Valid(r) && forall i :: 0 <= i < |r.keys| ==> key(Values(r)[i]) == r.keys[i]
    requires forall k :: k in r.keys <==> k in KeysOf(ps) && k !in drop
    requires Distinct(r.keys)
    requires forall i :: 0 <= i < |r.keys| ==>
      r.keys[i] in KeysOf(ps) && Values(r)[i] == ps[LastIndex(ps, r.keys[i])].1
    requires forall a, b :: 0 <= a < b < |r.keys| ==>
      FirstIndex(KeysOf(ps), r.keys[a]) < FirstIndex(KeysOf(ps), r.keys[b])
    ensures IsSurvivorList(Values(r), key, ps, drop)
  {
    var vs := Values(r);
    KeyedValuesIff(r, key);
    assert forall i, j :: 0 <= i < j < |vs| ==> key(vs[i]) != key(vs[j]);
    assert forall i :: 0 <= i < |vs| ==> key(vs[i]) in KeysOf(ps) && vs[i] == ps[LastIndex(ps, key(vs[i]))].1;
    assert forall a, b :: 0 <= a < b < |vs| ==> FirstIndex(KeysOf(ps), key(vs[a])) < FirstIndex(KeysOf(ps), key(vs[b]));
  }

  /** When each value carries its key, a value has key k exactly when k is a key. */
  lemma KeyedValuesIff<V>(r: OrderedMap<V>, key: V -> string)
    requires Valid(r) && forall i :: 0 <= i < |r.keys| ==> key(Values(r)[i]) == r.keys[i]
    ensures forall k :: (exists i :: 0 <= i < |Values(r)| && key(Values(r)[i]) == k) <==> k in r.keys
  {
    var vs := Values(r);
    forall k | k in r.keys
      ensures exists i :: 0 <= i < |vs| && key(vs[i]) == k
    {
      var i :| 0 <= i < |r.keys| && r.keys[i] == k;
      assert key(vs[i]) == k;
    }
  }

  /** Each value is the last put under its key, so it carries that key. */
  lemma ValuesKeyed<V>(r: OrderedMap<V>, key: V -> string, ps: seq<(string, V)>)
    requires Valid(r) && forall j :: 0 <= j < |ps| ==> ps[j].0 == key(ps[j].1)
    requires forall i :: 0 <= i < |r.keys| ==>
      r.keys[i] in KeysOf(ps) && Values(r)[i] == ps[LastIndex(ps, r.keys[i])].1
    ensures forall i :: 0 <= i < |r.keys| ==> key(Values(r)[i]) == r.keys[i]
  {
    forall i | 0 <= i < |r.keys|
      ensures key(Values(r)[i]) == r.keys[i]
    {
      var j := LastIndex(ps, r.keys[i]);
      assert ps[j].0 == key(ps[j].1);
    }
  }

  /** Removing every key of a map leaves nothing. */
  lemma WithoutAll<V>(m: OrderedMap<V>, ks: set<string>)
    requires Valid(m) && m.values.Keys <= ks
    ensures Values(Without(m, ks)) == []
  {
    FilterOutAll(m.keys, ks);
  }

  lemma {:induction false} FilterOutAll(s: seq<string>, ks: set<string>)
    requires forall x :: x in s ==> x in ks
    ensures FilterOut(s, ks) == []
  {
    if s != [] {
      FilterOutAll(s[1..], ks);
    }
  }

  /** When exactly one key is put and not dropped, the survivor list is the last value put under it. */
  lemma SingleSurvivor<V>(vs: seq<V>, key: V -> string, ps: seq<(string, V)>, drop: set<string>, k: string)
    requires IsSurvivorList(vs, key, ps, drop)
    requires k in KeysOf(ps) && k !in drop
    requires forall x :: x in KeysOf(ps) && x !in drop ==> x == k
    ensures vs == [ps[LastIndex(ps, k)].1]
  {
    var i :| 0 <= i < |vs| && key(vs[i]) == k;
    DistinctKeysBound(vs, key, {k});
    assert i == 0;
  }

  /** Values with distinct keys, all drawn from ks, number at most |ks|. */
  lemma {:induction false} DistinctKeysBound<V>(vs: seq<V>, key: V -> string, ks: set<string>)
    requires forall i, j :: 0 <= i < j < |vs| ==> key(vs[i]) != key(vs[j])
    requires forall i :: 0 <= i < |vs| ==> key(vs[i]) in ks
    ensures |vs| <= |ks|
  {
    if vs != [] {
      var n := |vs| - 1;
      var rest := ks - {key(vs[n])};
      forall i | 0 <= i < n
        ensures key(vs[..n][i]) in rest
      {
        assert key(vs[i]) != key(vs[n]);
      }
      DistinctKeysBound(vs[..n], key, rest);
    }
  }
}
