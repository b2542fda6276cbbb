/**
 A Python dict, kept as the list of its items in insertion order.  Order matters
 to the model because `sorted` is stable: items with equal sort keys come out in
 the order the dict hands them over.
 */
module PyDict {
  import opened Wrappers

  type Dict<K, V> = seq<(K, V)>

  /** No key occurs twice, as in every Python dict. */
  predicate DistinctKeys<K(==), V>(d: Dict<K, V>) {
    forall i, j :: 0 <= i < j < |d| ==> d[i].0 != d[j].0
  }

  /** `d.get(k)`: the value stored under `k`, if any. */
  function Get<K(==), V>(d: Dict<K, V>, k: K): Option<V> {
    if d == [] then None
    else if d[0].0 == k then Some(d[0].1)
    else Get(d[1..], k)
  }

  /** `d.get(k, default)`; also what a `defaultdict` reads for a missing key. */
  function GetOr<K(==), V>(d: Dict<K, V>, k: K, default: V): V {
    match Get(d, k)
    case Some(v) => v
    case None => default
  }

  /**
   `d[k] = v`: a key already present keeps its position and takes the new
   value; a new key is appended at the end.
   */
  function Put<K(==), V>(d: Dict<K, V>, k: K, v: V): (r: Dict<K, V>)
    ensures Get(d, k).Some? ==> |r| == |d|
    ensures Get(d, k).None? ==> r == d + [(k, v)]
  {
    if d == [] then [(k, v)]
    else if d[0].0 == k then [(k, v)] + d[1..]
    else [d[0]] + Put(d[1..], k, v)
  }

  /** Assignment keeps every position's key, and each item is either the old one or the new `(k, v)`. */
  lemma {:induction false} PutItems<K, V>(d: Dict<K, V>, k: K, v: V)
    ensures |Put(d, k, v)| >= |d|
    ensures forall j :: 0 <= j < |d| ==> Put(d, k, v)[j].0 == d[j].0 && (Put(d, k, v)[j] == d[j] || Put(d, k, v)[j] == (k, v))
  {
    if d != [] && d[0].0 != k {
      PutItems(d[1..], k, v);
      var r := Put(d, k, v);
      assert r[1..] == Put(d[1..], k, v);
      forall j | 1 <= j < |d| ensures r[j].0 == d[j].0 && (r[j] == d[j] || r[j] == (k, v)) {
        assert r[j] == Put(d[1..], k, v)[j - 1] && d[j] == d[1..][j - 1];
      }
    }
  }

  /** Assigning one key changes what that key reads and nothing else. */
  lemma {:induction false} GetPut<K, V>(d: Dict<K, V>, k: K, v: V, k': K)
    ensures Get(Put(d, k, v), k') == if k' == k then Some(v) else Get(d, k')
  {
    if d != [] && d[0].0 != k {
      var r := Put(d, k, v);
      assert r[1..] == Put(d[1..], k, v);
      GetPut(d[1..], k, v, k');
    }
  }

  /** A key is absent exactly when no item carries it. */
  lemma {:induction false} GetAbsent<K, V>(d: Dict<K, V>, k: K)
    ensures Get(d, k).None? <==> forall j :: 0 <= j < |d| ==> d[j].0 != k
  {
    if d != [] && d[0].0 != k {
      GetAbsent(d[1..], k);
      assert forall j :: 1 <= j < |d| ==> d[j] == d[1..][j - 1];
    }
  }

  /** What `Get` returns is an item of the dict. */
  lemma {:induction false} GetFound<K, V>(d: Dict<K, V>, k: K)
    ensures Get(d, k).Some? ==> (k, Get(d, k).value) in d
  {
    if d != [] && d[0].0 != k {
      GetFound(d[1..], k);
    }
  }

  /** With distinct keys, every item is what `Get` returns for its key. */
  lemma {:induction false} GetAt<K, V>(d: Dict<K, V>, i: int)
    requires DistinctKeys(d) && 0 <= i < |d|
    ensures Get(d, d[i].0) == Some(d[i].1)
  {
    if i > 0 {
      assert d[1..][i - 1] == d[i];
      GetAt(d[1..], i - 1);
    }
  }

  /** With distinct keys, `Get(d, k) == Some(v)` says exactly that `(k, v)` is an item. */
  lemma GetIsMembership<K, V>(d: Dict<K, V>, k: K, v: V)
    requires DistinctKeys(d)
    ensures Get(d, k) == Some(v) <==> (k, v) in d
  {
    GetFound(d, k);
    if (k, v) in d {
      var i :| 0 <= i < |d| && d[i] == (k, v);
      GetAt(d, i);
    }
  }

  /** Assignment keeps the keys distinct. */
  lemma PutDistinct<K, V>(d: Dict<K, V>, k: K, v: V)
    requires DistinctKeys(d)
    ensures DistinctKeys(Put(d, k, v))
  {
    GetAbsent(d, k);
    PutItems(d, k, v);
  }

  /** Looking up in a dict extended by one item at the end. */
  lemma {:induction false} GetAppend<K, V>(d: Dict<K, V>, e: (K, V), k: K)
    ensures Get(d + [e], k) == if Get(d, k).Some? then Get(d, k) else if e.0 == k then Some(e.1) else None
  {
    if d != [] {
      assert (d + [e])[1..] == d[1..] + [e];
      GetAppend(d[1..], e, k);
    }
  }
}
