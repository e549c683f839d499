/** A stable sort by an integer key, as a stream `sorted(comparingInt(key))`
    performs it: the result is ordered by key and elements with equal keys
    keep their order. Written as an insertion sort; what it produces does not
    depend on the algorithm, since those two properties determine it. */
module Sorting {
  import opened Common

  predicate SortedBy<T>(s: seq<T>, key: T -> int)
  {
    forall i, j :: 0 <= i < j < |s| ==> key(s[i]) <= key(s[j])
  }

  /** The elements whose key is `k`. */
  function KeyIs<T>(key: T -> int, k: int): T -> bool
  {
    y => key(y) == k
  }

  /** Puts `x` in front of the first element whose key is not smaller. */
  function InsertBy<T>(x: T, s: seq<T>, key: T -> int): (r: seq<T>)
    ensures multiset(r) == multiset(s) + multiset{x}
  {
    if s == [] || key(x) <= key(s[0]) then [x] + s
    else
      assert s == [s[0]] + s[1..];
      [s[0]] + InsertBy(x, s[1..], key)
  }

  function SortBy<T>(s: seq<T>, key: T -> int): (r: seq<T>)
    ensures multiset(r) == multiset(s)
    ensures |r| == |s|
  {
    if s == [] then []
    else
      assert s == [s[0]] + s[1..];
      var r := InsertBy(s[0], SortBy(s[1..], key), key);
      assert |r| == |multiset(r)|;
      r
  }

  /** Every key in `s` is at least `m`. */
  predicate KeysAtLeast<T>(s: seq<T>, key: T -> int, m: int)
  {
    forall i :: 0 <= i < |s| ==> m <= key(s[i])
  }

  lemma {:induction false} InsertKeysAtLeast<T>(x: T, s: seq<T>, key: T -> int, m: int)
    requires KeysAtLeast(s, key, m) && m <= key(x)
    ensures KeysAtLeast(InsertBy(x, s, key), key, m)
  {
    if s != [] && key(x) > key(s[0]) {
      InsertKeysAtLeast(x, s[1..], key, m);
    }
  }

  lemma {:induction false} InsertSorted<T>(x: T, s: seq<T>, key: T -> int)
    requires SortedBy(s, key)
    ensures SortedBy(InsertBy(x, s, key), key)
  {
    if s != [] && key(x) > key(s[0]) {
      InsertSorted(x, s[1..], key);
      InsertKeysAtLeast(x, s[1..], key, key(s[0]));
      var r := InsertBy(x, s, key);
      assert r == [s[0]] + InsertBy(x, s[1..], key);
    }
  }

  /** Inserting into a sorted list places `x` behind nothing of its own key. */
  lemma {:induction false} InsertKeyClass<T(!new)>(x: T, s: seq<T>, key: T -> int, k: int)
    requires SortedBy(s, key)
    ensures Filter(InsertBy(x, s, key), KeyIs(key, k))
         == (if key(x) == k then [x] else []) + Filter(s, KeyIs(key, k))
  {
    var p := KeyIs(key, k);
    if s == [] || key(x) <= key(s[0]) {
      var r := [x] + s;
      assert r[0] == x && r[1..] == s;
    } else {
      var r := [s[0]] + InsertBy(x, s[1..], key);
      assert r[0] == s[0] && r[1..] == InsertBy(x, s[1..], key);
      InsertKeyClass(x, s[1..], key, k);
      assert s == [s[0]] + s[1..];
      assert Filter(s, p) == (if p(s[0]) then [s[0]] else []) + Filter(s[1..], p);
      assert !(p(s[0]) && p(x));
    }
  }

  lemma {:induction false} SortedSortBy<T>(s: seq<T>, key: T -> int)
    ensures SortedBy(SortBy(s, key), key)
  {
    if s != [] {
      SortedSortBy(s[1..], key);
      InsertSorted(s[0], SortBy(s[1..], key), key);
    }
  }

  /** Stability: for every key, the elements with that key appear in the
      sorted list in the order they had. */
  lemma {:induction false} SortByStable<T(!new)>(s: seq<T>, key: T -> int, k: int)
    ensures Filter(SortBy(s, key), KeyIs(key, k)) == Filter(s, KeyIs(key, k))
  {
    if s != [] {
      SortByStable(s[1..], key, k);
      SortedSortBy(s[1..], key);
      InsertKeyClass(s[0], SortBy(s[1..], key), key, k);
    }
  }

  /** No element has key `k` when all keys are above it. */
  lemma {:induction false} FilterKeyNone<T(!new)>(t: seq<T>, key: T -> int, k: int)
    requires KeysAtLeast(t, key, k + 1)
    ensures Filter(t, KeyIs(key, k)) == []
  {
    if t != [] {
      FilterKeyNone(t[1..], key, k);
    }
  }

  /** A list sorted by keys that are all 1, 2 or 3 is its key-1 elements,
      then its key-2 elements, then its key-3 elements. */
  lemma {:induction false} SortedIsBuckets<T(!new)>(r: seq<T>, key: T -> int)
    requires SortedBy(r, key)
    requires forall i :: 0 <= i < |r| ==> 1 <= key(r[i]) <= 3
    ensures r == Filter(r, KeyIs(key, 1)) + Filter(r, KeyIs(key, 2)) + Filter(r, KeyIs(key, 3))
  {
    if r != [] {
      var t := r[1..];
      SortedIsBuckets(t, key);
      assert KeysAtLeast(t, key, key(r[0]));
      BucketsCons(r[0], t, key);
      assert r == [r[0]] + t;
    }
  }

  /** Putting an element in front of a list of larger keys that is already
      grouped by key keeps it grouped. */
  lemma BucketsCons<T(!new)>(x: T, t: seq<T>, key: T -> int)
    requires 1 <= key(x) <= 3 && KeysAtLeast(t, key, key(x))
    requires t == Filter(t, KeyIs(key, 1)) + Filter(t, KeyIs(key, 2)) + Filter(t, KeyIs(key, 3))
    ensures [x] + t == Filter([x] + t, KeyIs(key, 1)) + Filter([x] + t, KeyIs(key, 2)) + Filter([x] + t, KeyIs(key, 3))
  {
    var g1, g2, g3 := Filter(t, KeyIs(key, 1)), Filter(t, KeyIs(key, 2)), Filter(t, KeyIs(key, 3));
    var f1, f2, f3 := Filter([x] + t, KeyIs(key, 1)), Filter([x] + t, KeyIs(key, 2)), Filter([x] + t, KeyIs(key, 3));
    BucketOf(x, t, key, 1);
    BucketOf(x, t, key, 2);
    BucketOf(x, t, key, 3);
    ConsAssoc(x, g1, g2, g3);
    if key(x) == 1 {
      assert f1 == [x] + g1 && f2 == g2 && f3 == g3;
    } else if key(x) == 2 {
      FilterKeyNone(t, key, 1);
      assert f1 == g1 == [] && f2 == [x] + g2 && f3 == g3;
    } else {
      FilterKeyNone(t, key, 1);
      FilterKeyNone(t, key, 2);
      assert f1 == g1 == [] && f2 == g2 == [] && f3 == [x] + g3;
    }
  }

  /** The key-`k` group of `[x] + t`. */
  lemma BucketOf<T(!new)>(x: T, t: seq<T>, key: T -> int, k: int)
    ensures key(x) == k ==> Filter([x] + t, KeyIs(key, k)) == [x] + Filter(t, KeyIs(key, k))
    ensures key(x) != k ==> Filter([x] + t, KeyIs(key, k)) == Filter(t, KeyIs(key, k))
  {
    FilterCons(x, t, KeyIs(key, k));
  }

  lemma FilterCons<T(!new)>(x: T, t: seq<T>, p: T -> bool)
    ensures Filter([x] + t, p) == (if p(x) then [x] else []) + Filter(t, p)
  {
    assert ([x] + t)[0] == x && ([x] + t)[1..] == t;
  }

  lemma ConsAssoc<T>(x: T, a: seq<T>, b: seq<T>, c: seq<T>)
    ensures [x] + (a + b + c) == ([x] + a) + b + c
    ensures a == [] ==> [x] + (a + b + c) == a + ([x] + b) + c
    ensures a == [] && b == [] ==> [x] + (a + b + c) == a + b + ([x] + c)
  {
  }

  /** Reference definition: with keys in 1..3, the stable sort is the
      elements of key 1, then of key 2, then of key 3, each group in its
      original order. */
  lemma SortByIsBuckets<T(!new)>(s: seq<T>, key: T -> int)
    requires forall i :: 0 <= i < |s| ==> 1 <= key(s[i]) <= 3
    ensures SortBy(s, key) == Filter(s, KeyIs(key, 1)) + Filter(s, KeyIs(key, 2)) + Filter(s, KeyIs(key, 3))
  {
    var r := SortBy(s, key);
    SortedSortBy(s, key);
    forall i | 0 <= i < |r|
      ensures 1 <= key(r[i]) <= 3
    {
      assert r[i] in multiset(s);
    }
    SortedIsBuckets(r, key);
    SortByStable(s, key, 1);
    SortByStable(s, key, 2);
    SortByStable(s, key, 3);
  }
}
