/**
 * A JavaScript object used as a dictionary: its keys in insertion order, each
 * with its value. Reading a key is `Get`, `d[k] = v` and `{...d, [k]: v}` are
 * both `Put`: an existing key keeps its place and takes the new value, a new
 * key goes at the end.
 */
module Assoc {
  import opened Wrappers

  /** The keys of `d`, in order. */
  function Keys<K, V>(d: seq<(K, V)>): seq<K>
  {
    if d == [] then [] else [d[0].0] + Keys(d[1..])
  }

  predicate HasKey<K(==), V>(d: seq<(K, V)>, k: K)
  {
    exists i :: 0 <= i < |d| && d[i].0 == k
  }

  /** No key occurs twice, as in any JavaScript object. */
  predicate DistinctKeys<K(==), V>(d: seq<(K, V)>)
  {
    forall i, j :: 0 <= i < j < |d| ==> d[i].0 != d[j].0
  }

  /** Position of the first entry whose key is `k`. */
  function IndexOf<K(==), V>(d: seq<(K, V)>, k: K): (r: Option<nat>)
    ensures r.Some? ==> r.value < |d| && d[r.value].0 == k
    ensures r.Some? ==> forall j :: 0 <= j < r.value ==> d[j].0 != k
    ensures r.None? <==> !HasKey(d, k)
  {
    if d == [] then None
    else if d[0].0 == k then Some(0)
    else match IndexOf(d[1..], k)
      case Some(i) => Some(i + 1)
      case None => None
  }

  /** `d[k]`, or nothing when the key is absent. */
  function Get<K(==), V>(d: seq<(K, V)>, k: K): (r: Option<V>)
    ensures r.Some? <==> HasKey(d, k)
  {
    match IndexOf(d, k)
    case Some(i) => Some(d[i].1)
    case None => None
  }

  /** `d[k] = v`: replace the value of an existing key in place, or append a new key. */
  function Put<K(==,!new), V>(d: seq<(K, V)>, k: K, v: V): (r: seq<(K, V)>)
    ensures Get(r, k) == Some(v)
    ensures forall k' :: k' != k ==> Get(r, k') == Get(d, k')
    ensures HasKey(d, k) ==> Keys(r) == Keys(d)
    ensures !HasKey(d, k) ==> Keys(r) == Keys(d) + [k]
    ensures DistinctKeys(d) ==> DistinctKeys(r)
  {
    match IndexOf(d, k)
    case Some(i) =>
      var r := d[i := (k, v)];
      KeysUpdate(d, i, k, v);
      FirstIndex(r, k, i);
      forall k' | k' != k ensures Get(r, k') == Get(d, k') {
        FirstIndexAfterUpdate(d, i, k, v, k');
      }
      r
    case None =>
      var r := d + [(k, v)];
      KeysAppend(d, (k, v));
      assert IndexOf(r, k) == Some(|d|) by {
        FirstIndex(r, k, |d|);
      }
      forall k' | k' != k ensures Get(r, k') == Get(d, k') {
        FirstIndexAfterAppend(d, (k, v), k');
      }
      r
  }

  /** An occurrence with no earlier equal key is the one `IndexOf` finds. */
  lemma FirstIndex<K, V>(d: seq<(K, V)>, k: K, i: nat)
    requires i < |d| && d[i].0 == k
    requires forall j :: 0 <= j < i ==> d[j].0 != k
    ensures IndexOf(d, k) == Some(i)
  {
  }

  lemma FirstIndexAfterUpdate<K, V>(d: seq<(K, V)>, i: nat, k: K, v: V, k': K)
    requires i < |d| && d[i].0 == k && k' != k
    ensures IndexOf(d[i := (k, v)], k') == IndexOf(d, k')
  {
    var r := d[i := (k, v)];
    match IndexOf(d, k')
    case Some(j) => FirstIndex(r, k', j);
    case None =>
  }

  lemma FirstIndexAfterAppend<K, V>(d: seq<(K, V)>, e: (K, V), k': K)
    requires e.0 != k'
    ensures IndexOf(d + [e], k') == IndexOf(d, k')
  {
    var r := d + [e];
    match IndexOf(d, k')
    case Some(j) => FirstIndex(r, k', j);
    case None =>
  }

  lemma {:induction false} KeysLength<K, V>(d: seq<(K, V)>)
    ensures |Keys(d)| == |d|
    ensures forall i :: 0 <= i < |d| ==> Keys(d)[i] == d[i].0
  {
    if d != [] {
      KeysLength(d[1..]);
    }
  }

  lemma {:induction false} KeysAppend<K, V>(d: seq<(K, V)>, e: (K, V))
    ensures Keys(d + [e]) == Keys(d) + [e.0]
  {
    if d != [] {
      assert (d + [e])[1..] == d[1..] + [e];
      KeysAppend(d[1..], e);
    }
  }

  lemma KeysUpdate<K, V>(d: seq<(K, V)>, i: nat, k: K, v: V)
    requires i < |d| && d[i].0 == k
    ensures Keys(d[i := (k, v)]) == Keys(d)
  {
    KeysLength(d);
    KeysLength(d[i := (k, v)]);
  }

  /** A key is present exactly when it is listed among the keys. */
  lemma HasKeyInKeys<K, V>(d: seq<(K, V)>, k: K)
    ensures HasKey(d, k) <==> k in Keys(d)
  {
    KeysLength(d);
    if k in Keys(d) {
      var i :| 0 <= i < |Keys(d)| && Keys(d)[i] == k;
      assert d[i].0 == k;
    }
  }

  /** Writing a key twice is writing it once, with the second value. */
  lemma PutPut<K(!new), V>(d: seq<(K, V)>, k: K, v1: V, v2: V)
    ensures Put(Put(d, k, v1), k, v2) == Put(d, k, v2)
  {
    match IndexOf(d, k)
    case Some(i) =>
      FirstIndex(Put(d, k, v1), k, i);
    case None =>
      assert IndexOf(Put(d, k, v1), k) == Some(|d|) by {
        FirstIndex(Put(d, k, v1), k, |d|);
      }
  }

  /** The sum of `f` over the values of `d`. */
  function SumOf<K, V>(d: seq<(K, V)>, f: V -> nat): nat
  {
    if d == [] then 0 else f(d[0].1) + SumOf(d[1..], f)
  }

  lemma {:induction false} SumOfAppend<K, V>(d: seq<(K, V)>, e: (K, V), f: V -> nat)
    ensures SumOf(d + [e], f) == SumOf(d, f) + f(e.1)
  {
    if d != [] {
      assert (d + [e])[1..] == d[1..] + [e];
      SumOfAppend(d[1..], e, f);
    }
  }

  lemma {:induction false} SumOfUpdate<K, V>(d: seq<(K, V)>, i: nat, e: (K, V), f: V -> nat)
    requires i < |d|
    ensures SumOf(d[i := e], f) == SumOf(d, f) - f(d[i].1) + f(e.1)
  {
    if i > 0 {
      assert d[i := e][1..] == d[1..][i - 1 := e];
      SumOfUpdate(d[1..], i - 1, e, f);
    }
  }

  /** Putting a value changes the sum by the new value less the one it replaces. */
  lemma SumOfPut<K(!new), V>(d: seq<(K, V)>, k: K, v: V, f: V -> nat)
    ensures SumOf(Put(d, k, v), f) == SumOf(d, f) + f(v) - (match Get(d, k) case Some(o) => f(o) case None => 0)
  {
    match IndexOf(d, k)
    case Some(i) => SumOfUpdate(d, i, (k, v), f);
    case None => SumOfAppend(d, (k, v), f);
  }

  /** The object written key by key: `keys[i]` set to `values[i]`, in order. */
  function Table<K(==,!new), V>(keys: seq<K>, values: seq<V>): seq<(K, V)>
    requires |keys| == |values|
  {
    if keys == [] then []
    else Put(Table(keys[..|keys| - 1], values[..|values| - 1]), keys[|keys| - 1], values[|values| - 1])
  }

  /** A key written last among its equals reads its value. */
  lemma {:induction false} TableGet<K(!new), V>(keys: seq<K>, values: seq<V>, k: nat)
    requires |keys| == |values| && k < |keys|
    requires forall m :: k < m < |keys| ==> keys[m] != keys[k]
    ensures Get(Table(keys, values), keys[k]) == Some(values[k])
  {
    var n := |keys|;
    if k < n - 1 {
      TableGet(keys[..n - 1], values[..n - 1], k);
      assert keys[n - 1] != keys[k];
    }
  }
}
