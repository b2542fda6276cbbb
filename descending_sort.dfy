/**
 `sorted(items, key=lambda item: -item[1])` over (key, time) items.  Python's
 sort is stable, so items with equal time keep their original relative order;
 the model is an insertion sort that places each item before every later item
 whose time is not larger.
 */
module DescendingSort {
  import opened Wrappers
  import opened PyDict

  /** Times never increase from one item to a later one. */
  predicate NonIncreasing<K>(s: seq<(K, real)>) {
    forall i, j :: 0 <= i < j < |s| ==> s[i].1 >= s[j].1
  }

  /** The items whose time is exactly `t`, in their order in `s`. */
  function WithTime<K>(s: seq<(K, real)>, t: real): seq<(K, real)> {
    if s == [] then []
    else (if s[0].1 == t then [s[0]] else []) + WithTime(s[1..], t)
  }

  function Insert<K>(x: (K, real), s: seq<(K, real)>): seq<(K, real)> {
    if s == [] then [x]
    else if x.1 >= s[0].1 then [x] + s
    else [s[0]] + Insert(x, s[1..])
  }

  function SortByTimeDesc<K>(s: seq<(K, real)>): seq<(K, real)> {
    if s == [] then [] else Insert(s[0], SortByTimeDesc(s[1..]))
  }

  lemma {:induction false} InsertPermutes<K>(x: (K, real), s: seq<(K, real)>)
    ensures multiset(Insert(x, s)) == multiset{x} + multiset(s)
  {
    if s != [] && x.1 < s[0].1 {
      InsertPermutes(x, s[1..]);
      assert s == [s[0]] + s[1..];
    }
  }

  lemma {:induction false} InsertOrdered<K>(x: (K, real), s: seq<(K, real)>)
    requires NonIncreasing(s)
    ensures NonIncreasing(Insert(x, s))
  {
    if s != [] && x.1 < s[0].1 {
      var rest := Insert(x, s[1..]);
      InsertOrdered(x, s[1..]);
      InsertPermutes(x, s[1..]);
      forall e | e in rest ensures s[0].1 >= e.1 {
        assert e in multiset(rest);
        assert e == x || e in multiset(s[1..]);
      }
    }
  }

  lemma {:induction false} InsertStable<K>(x: (K, real), s: seq<(K, real)>, t: real)
    ensures WithTime(Insert(x, s), t) == (if x.1 == t then [x] else []) + WithTime(s, t)
  {
    if s == [] {
      WithTimeCons(x, [], t);
    } else if x.1 >= s[0].1 {
      WithTimeCons(x, s, t);
    } else {
      var rest := Insert(x, s[1..]);
      var tail := WithTime(s[1..], t);
      var mark := if x.1 == t then [x] else [];
      var head := if s[0].1 == t then [s[0]] else [];
      WithTimeCons(s[0], rest, t);
      InsertStable(x, s[1..], t);
      WithTimeCons(s[0], s[1..], t);
      assert [s[0]] + s[1..] == s;
      // Now WithTime(Insert(x, s), t) == head + (mark + tail) and WithTime(s, t) == head + tail.
      if x.1 == t {
        assert head == [];
        assert head + (mark + tail) == mark + (head + tail);
      } else {
        assert mark == [];
        assert head + (mark + tail) == mark + (head + tail);
      }
    }
  }

  /** The items of time `t` in a sequence with one more item in front. */
  lemma WithTimeCons<K>(a: (K, real), s: seq<(K, real)>, t: real)
    ensures WithTime([a] + s, t) == (if a.1 == t then [a] else []) + WithTime(s, t)
  {
    assert ([a] + s)[1..] == s;
  }


  /**
   The sorted items are a permutation of the input, in non-increasing order of
   time, and the items of any one time appear in their input order (stability).
   */
  lemma {:induction false} SortByTimeDescSpec<K>(s: seq<(K, real)>)
    ensures NonIncreasing(SortByTimeDesc(s))
    ensures multiset(SortByTimeDesc(s)) == multiset(s) && |SortByTimeDesc(s)| == |s|
    ensures forall t :: WithTime(SortByTimeDesc(s), t) == WithTime(s, t)
  {
    assert |multiset(SortByTimeDesc(s))| == |SortByTimeDesc(s)|;
    if s != [] {
      var sorted := SortByTimeDesc(s[1..]);
      SortByTimeDescSpec(s[1..]);
      InsertOrdered(s[0], sorted);
      InsertPermutes(s[0], sorted);
      assert s == [s[0]] + s[1..];
      forall t ensures WithTime(SortByTimeDesc(s), t) == WithTime(s, t) {
        InsertStable(s[0], sorted, t);
      }
    }
  }

  lemma {:induction false} InsertDistinct<K>(x: (K, real), s: seq<(K, real)>)
    requires DistinctKeys(s)
    requires forall e :: e in s ==> e.0 != x.0
    ensures DistinctKeys(Insert(x, s))
  {
    if s != [] && x.1 < s[0].1 {
      var rest := Insert(x, s[1..]);
      assert forall e :: e in s[1..] ==> e in s;
      InsertDistinct(x, s[1..]);
      InsertPermutes(x, s[1..]);
      forall j | 0 <= j < |rest| ensures rest[j].0 != s[0].0 {
        assert rest[j] in multiset(rest);
        assert rest[j] == x || rest[j] in s[1..];
      }
    }
  }

  /** Sorting a dict's items keeps its keys distinct and every key's value. */
  lemma {:induction false} SortKeepsItems<K>(s: seq<(K, real)>)
    requires DistinctKeys(s)
    ensures DistinctKeys(SortByTimeDesc(s))
    ensures forall k :: Get(SortByTimeDesc(s), k) == Get(s, k)
  {
    var sorted := SortByTimeDesc(s);
    if s != [] {
      var tail := SortByTimeDesc(s[1..]);
      SortKeepsItems(s[1..]);
      SortByTimeDescSpec(s[1..]);
      forall e | e in tail ensures e.0 != s[0].0 {
        assert e in multiset(tail);
        var j :| 0 <= j < |s[1..]| && s[1..][j] == e;
        assert s[j + 1] == e;
      }
      InsertDistinct(s[0], tail);
    }
    SortByTimeDescSpec(s);
    forall k ensures Get(sorted, k) == Get(s, k) {
      GetFound(s, k);
      GetFound(sorted, k);
      if Get(s, k).Some? {
        var v := Get(s, k).value;
        assert (k, v) in multiset(sorted);
        GetIsMembership(sorted, k, v);
      } else if Get(sorted, k).Some? {
        var v := Get(sorted, k).value;
        assert (k, v) in multiset(s);
        GetIsMembership(s, k, v);
      }
    }
  }
}
