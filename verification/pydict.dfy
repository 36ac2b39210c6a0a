/**
 * Python dicts whose iteration order is observable, as association lists:
 * a sequence of (key, value) pairs with pairwise distinct keys, in insertion
 * order. Assigning to an existing key keeps its position; a new key goes last.
 */
module PyDict {
  import opened Wrappers

  type Dict<K, V> = seq<(K, V)>

  /** The keys, in insertion order. */
  function Keys<K, V>(d: Dict<K, V>): (ks: seq<K>)
    ensures |ks| == |d|
    ensures forall i :: 0 <= i < |d| ==> ks[i] == d[i].0
  {
    seq(|d|, i requires 0 <= i < |d| => d[i].0)
  }

  function Values<K, V>(d: Dict<K, V>): (vs: seq<V>)
    ensures |vs| == |d|
    ensures forall i :: 0 <= i < |d| ==> vs[i] == d[i].1
  {
    seq(|d|, i requires 0 <= i < |d| => d[i].1)
  }

  /** `k in d`. */
  predicate HasKey<K(==), V>(d: Dict<K, V>, k: K)
  {
    d != [] && (d[0].0 == k || HasKey(d[1..], k))
  }

  lemma {:induction false} HasKeyIndex<K, V>(d: Dict<K, V>, k: K)
    ensures HasKey(d, k) <==> exists i :: 0 <= i < |d| && d[i].0 == k
  {
    if d != [] {
      HasKeyIndex(d[1..], k);
      if exists i :: 0 <= i < |d| && d[i].0 == k {
        var i :| 0 <= i < |d| && d[i].0 == k;
        if i > 0 { assert d[1..][i - 1].0 == k; }
      }
    }
  }

  /** The key at any position is in the dictionary. */
  lemma HasKeyAt<K, V>(d: Dict<K, V>, i: nat)
    requires i < |d|
    ensures HasKey(d, d[i].0)
  {
    HasKeyIndex(d, d[i].0);
  }

  /** A key is present iff it is among the keys. */
  lemma KeysHasKey<K, V>(d: Dict<K, V>, k: K)
    ensures HasKey(d, k) <==> k in Keys(d)
  {
    HasKeyIndex(d, k);
    if HasKey(d, k) {
      var i :| 0 <= i < |d| && d[i].0 == k;
      assert Keys(d)[i] == k;
    }
  }

  ghost predicate UniqueKeys<K, V>(d: Dict<K, V>)
  {
    forall i, j :: 0 <= i < j < |d| ==> d[i].0 != d[j].0
  }

  /** Position of key `k`, if present. */
  function IndexOf<K(==), V>(d: Dict<K, V>, k: K): (r: Option<nat>)
    ensures r.Some? <==> HasKey(d, k)
    ensures r.Some? ==> r.value < |d| && d[r.value].0 == k
    ensures r.Some? ==> forall i :: 0 <= i < r.value ==> d[i].0 != k
  {
    if d == [] then None
    else if d[0].0 == k then Some(0)
    else match IndexOf(d[1..], k)
      case None => None
      case Some(i) => Some(i + 1)
  }

  /** `d[k]`: the value stored under `k` (Python raises KeyError otherwise). */
  function Get<K(==), V>(d: Dict<K, V>, k: K): (v: V)
    requires HasKey(d, k)
    ensures exists i :: 0 <= i < |d| && d[i] == (k, v)
  {
    d[IndexOf(d, k).value].1
  }

  /** `d[k] = v`. */
  function Put<K(==), V>(d: Dict<K, V>, k: K, v: V): (r: Dict<K, V>)
    ensures !HasKey(d, k) ==> r == d + [(k, v)]
    ensures HasKey(d, k) ==> |r| == |d|
  {
    match IndexOf(d, k)
    case None => d + [(k, v)]
    case Some(i) => d[i := (k, v)]
  }

  /** After `d[k] = v`, `k` maps to `v`, the key order is kept, and the other entries stay. */
  lemma PutFacts<K, V>(d: Dict<K, V>, k: K, v: V)
    ensures HasKey(Put(d, k, v), k) && Get(Put(d, k, v), k) == v
    ensures HasKey(d, k) ==> Keys(Put(d, k, v)) == Keys(d)
    ensures !HasKey(d, k) ==> Keys(Put(d, k, v)) == Keys(d) + [k]
    ensures forall i :: 0 <= i < |d| && d[i].0 != k ==> Put(d, k, v)[i] == d[i]
  {
    PutGet(d, k, v);
    PutKeys(d, k, v);
  }

  lemma PutGet<K, V>(d: Dict<K, V>, k: K, v: V)
    ensures HasKey(Put(d, k, v), k) && Get(Put(d, k, v), k) == v
  {
    var r := Put(d, k, v);
    HasKeyIndex(d, k);
    match IndexOf(d, k)
    case None =>
      assert r[|d|].0 == k;
      HasKeyAt(r, |d|);
      assert forall j :: 0 <= j < |d| ==> r[j].0 != k;
      IndexOfIs(r, k, |d|);
    case Some(i) =>
      assert r[i].0 == k;
      HasKeyAt(r, i);
      IndexOfIs(r, k, i);
  }

  lemma PutKeys<K, V>(d: Dict<K, V>, k: K, v: V)
    ensures HasKey(d, k) ==> Keys(Put(d, k, v)) == Keys(d)
    ensures !HasKey(d, k) ==> Keys(Put(d, k, v)) == Keys(d) + [k]
  {
    var r := Put(d, k, v);
    match IndexOf(d, k)
    case None =>
      assert Keys(r) == Keys(d) + [k];
    case Some(i) =>
      assert Keys(r) == Keys(d);
  }

  /** The first position holding `k` is what `IndexOf` finds. */
  lemma {:induction false} IndexOfIs<K, V>(d: Dict<K, V>, k: K, i: nat)
    requires i < |d| && d[i].0 == k
    requires forall j :: 0 <= j < i ==> d[j].0 != k
    ensures IndexOf(d, k) == Some(i)
  {
    if i > 0 {
      assert d[0].0 != k;
      IndexOfIs(d[1..], k, i - 1);
    }
  }

  /** With distinct keys, `d[k] = v` keeps them distinct and touches only the entry for `k`. */
  lemma PutEntries<K, V>(d: Dict<K, V>, k: K, v: V)
    requires UniqueKeys(d)
    ensures UniqueKeys(Put(d, k, v))
    ensures forall i :: 0 <= i < |Put(d, k, v)| ==>
      if Put(d, k, v)[i].0 == k then Put(d, k, v)[i].1 == v else i < |d| && Put(d, k, v)[i] == d[i]
  {
    HasKeyIndex(d, k);
  }

  lemma PutUnique<K, V>(d: Dict<K, V>, k: K, v: V)
    requires UniqueKeys(d)
    ensures UniqueKeys(Put(d, k, v))
  {
    PutEntries(d, k, v);
  }

  /** `d[k] = v` draws its values from those of `d` and `v`. */
  lemma PutValuesIn<K, V>(d: Dict<K, V>, k: K, v: V, vs: set<V>)
    requires UniqueKeys(d)
    requires forall i :: 0 <= i < |d| ==> d[i].1 in vs
    ensures forall i :: 0 <= i < |Put(d, k, v)| ==> Put(d, k, v)[i].1 in vs + {v}
  {
    PutEntries(d, k, v);
  }

  lemma GetUnique<K, V>(d: Dict<K, V>, i: nat)
    requires UniqueKeys(d) && i < |d|
    ensures HasKey(d, d[i].0) && Get(d, d[i].0) == d[i].1
  {
    HasKeyAt(d, i);
  }

  /** With distinct keys, `d[k] = v` leaves every other key and its value as they were. */
  lemma PutOther<K, V>(d: Dict<K, V>, k: K, v: V, w: K)
    requires UniqueKeys(d) && w != k
    ensures HasKey(Put(d, k, v), w) <==> HasKey(d, w)
    ensures HasKey(d, w) ==> Get(Put(d, k, v), w) == Get(d, w)
  {
    var r := Put(d, k, v);
    PutEntries(d, k, v);
    PutFacts(d, k, v);
    HasKeyIndex(d, w);
    HasKeyIndex(r, w);
    if HasKey(d, w) {
      var i :| 0 <= i < |d| && d[i].0 == w;
      GetUnique(d, i);
      GetUnique(r, i);
    }
  }
}
