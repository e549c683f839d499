/** Shared vocabulary of the rules engine: optional values, the engine's error
    outcomes, the player colours, and a few sequence utilities (order-preserving
    filters, list removal as java.util.List does it, sums). */
module Common {

  /** A reference that may be absent (the engine's `null`). */
  datatype Option<T> = None | Some(value: T)

  /** The ways a step of the engine can fail instead of producing a state. */
  datatype Error =
    | IndexOutOfBounds      // a list lookup past its end
    | NullReference         // a dereference of an absent object
    | UnknownStrategy       // a strategy name that is not Aggressive, Amical or Human
    | NoPlayers             // the winner is asked for with no players
    | UnexpectedDecision    // a decision that the current decision point does not ask for
    | IllegalArgument       // a sub-list whose end lies before its start

  datatype Result<T> = Ok(value: T) | Err(error: Error)

  /** The three player colours, assigned by insertion order; a colour identifies a player. */
  datatype PlayerColor = Blue | Green | Red

  /** The colour given to the `i`-th player added to a game. */
  function ColorAt(i: nat): PlayerColor
    requires i < 3
  {
    if i == 0 then Blue else if i == 1 then Green else Red
  }

  /** Every colour is the colour of exactly one insertion index. */
  lemma ColorAtInjective(i: nat, j: nat)
    requires i < 3 && j < 3
    ensures ColorAt(i) == ColorAt(j) <==> i == j
  {
  }

  // ---------------------------------------------------------------------------
  // Sequences

  /** The elements of `s` satisfying `p`, in their order in `s` (a stream filter). */
  function Filter<T(!new)>(s: seq<T>, p: T -> bool): (r: seq<T>)
    ensures |r| <= |s|
    ensures forall x :: x in r <==> x in s && p(x)
    ensures forall i :: 0 <= i < |r| ==> p(r[i])
  {
    if s == [] then []
    else (if p(s[0]) then [s[0]] else []) + Filter(s[1..], p)
  }

  lemma {:induction false} FilterConcat<T(!new)>(a: seq<T>, b: seq<T>, p: T -> bool)
    ensures Filter(a + b, p) == Filter(a, p) + Filter(b, p)
  {
    if a == [] {
      assert a + b == b;
    } else {
      assert (a + b)[0] == a[0];
      assert (a + b)[1..] == a[1..] + b;
      FilterConcat(a[1..], b, p);
    }
  }

  /** Filtering a list with one element taken out keeps what filtering the
      whole list keeps, less that element. */
  lemma FilterMiddle<T(!new)>(a: seq<T>, x: T, b: seq<T>, p: T -> bool)
    ensures multiset(Filter(a + ([x] + b), p))
         == multiset(Filter(a + b, p)) + (if p(x) then multiset{x} else multiset{})
  {
    var mid := Filter([x], p);
    var fa, fb := Filter(a, p), Filter(b, p);
    FilterConcat(a, [x] + b, p);
    FilterConcat([x], b, p);
    FilterConcat(a, b, p);
    assert multiset(fa + (mid + fb)) == multiset(fa) + multiset(mid) + multiset(fb);
    if p(x) {
      assert mid == [x];
    } else {
      assert mid == [];
    }
  }

  /** Taking the head of `s` out of `s`, and the same element out of a
      rearrangement `t` of `s`, leaves rearrangements of each other. */
  lemma PermutationRemoveHead<T>(s: seq<T>, t: seq<T>, k: nat)
    requires multiset(s) == multiset(t)
    requires k < |t| && s != [] && t[k] == s[0]
    ensures multiset(s[1..]) == multiset(t[..k] + t[k+1..])
    ensures t == t[..k] + ([s[0]] + t[k+1..])
  {
    var x := s[0];
    var a, b := t[..k], t[k+1..];
    assert t[k..] == [x] + b;
    assert t == a + t[k..];
    assert multiset(t) == multiset(a) + multiset{x} + multiset(b);
    assert s == [x] + s[1..];
    assert multiset(s) == multiset{x} + multiset(s[1..]);
    forall y
      ensures multiset(s[1..])[y] == (multiset(a) + multiset(b))[y]
    {
      assert multiset(s)[y] == multiset(t)[y];
      assert multiset(t)[y] == multiset(a)[y] + multiset{x}[y] + multiset(b)[y];
      assert multiset(s)[y] == multiset{x}[y] + multiset(s[1..])[y];
    }
    assert multiset(s[1..]) == multiset(a) + multiset(b);
  }

  /** Filtering keeps the multiset of the kept elements: filtering two
      arrangements of the same elements keeps the same elements. */
  lemma {:induction false} FilterMultiset<T(!new)>(s: seq<T>, t: seq<T>, p: T -> bool)
    requires multiset(s) == multiset(t)
    ensures multiset(Filter(s, p)) == multiset(Filter(t, p))
    ensures |Filter(s, p)| == |Filter(t, p)|
    decreases |s|
  {
    if s == [] {
      assert |t| == |multiset(t)| == 0;
    } else {
      assert s[0] in multiset(t);
      var k :| 0 <= k < |t| && t[k] == s[0];
      PermutationRemoveHead(s, t, k);
      FilterMultiset(s[1..], t[..k] + t[k+1..], p);
      FilterMiddle(t[..k], s[0], t[k+1..], p);
    }
    assert |multiset(Filter(s, p))| == |Filter(s, p)|;
    assert |multiset(Filter(t, p))| == |Filter(t, p)|;
  }

  /** The number of elements of `s` satisfying `p` (a stream `filter(..).count()`). */
  function Count<T(!new)>(s: seq<T>, p: T -> bool): (n: nat)
    ensures n <= |s|
  {
    |Filter(s, p)|
  }

  /** `java.util.List.removeAll`: every occurrence of every element of `xs` goes. */
  function RemoveAll<T(==,!new)>(s: seq<T>, xs: seq<T>): (r: seq<T>)
    ensures forall x :: x in r <==> x in s && x !in xs
    ensures |r| <= |s|
  {
    Filter(s, x => x !in xs)
  }

  /** `java.util.List.remove(Object)`: the first occurrence of `x`, if any, goes. */
  function RemoveFirst<T(==)>(s: seq<T>, x: T): (r: seq<T>)
    ensures x !in s ==> r == s
    ensures x in s ==> |r| == |s| - 1
    ensures multiset(r) == multiset(s) - multiset{x}
    ensures forall y :: y in r ==> y in s
  {
    if s == [] then []
    else
      assert s == [s[0]] + s[1..];
      assert multiset(s) == multiset{s[0]} + multiset(s[1..]);
      if s[0] == x then s[1..]
      else
        var r := RemoveFirst(s[1..], x);
        assert multiset([s[0]] + r) == multiset{s[0]} + multiset(r);
        MultisetConsMinus(s[0], multiset(s[1..]), x);
        [s[0]] + r
  }

  /** Position of the first occurrence of `x` in `s`. */
  function FirstIndex<T(==)>(s: seq<T>, x: T): (i: nat)
    requires x in s
    ensures i < |s| && s[i] == x && x !in s[..i]
  {
    if s[0] == x then 0
    else
      var i := FirstIndex(s[1..], x);
      assert s[..i + 1] == [s[0]] + s[1..][..i];
      i + 1
  }

  /** `RemoveFirst` cuts out exactly the first occurrence: what stands before
      it and what stands after it stay, in order. */
  lemma {:induction false} RemoveFirstAt<T>(s: seq<T>, x: T)
    requires x in s
    ensures RemoveFirst(s, x) == s[..FirstIndex(s, x)] + s[FirstIndex(s, x) + 1..]
  {
    if s[0] != x {
      RemoveFirstAt(s[1..], x);
      var i := FirstIndex(s[1..], x);
      assert s[..i + 1] == [s[0]] + s[1..][..i];
      assert s[i + 2..] == s[1..][i + 1..];
    }
  }

  /** Taking away one `x` commutes with adding an element other than `x`. */
  lemma MultisetConsMinus<T>(a: T, m: multiset<T>, x: T)
    requires a != x
    ensures multiset{a} + (m - multiset{x}) == (multiset{a} + m) - multiset{x}
  {
  }

  predicate Distinct<T(==)>(s: seq<T>)
  {
    forall i, j :: 0 <= i < j < |s| ==> s[i] != s[j]
  }

  lemma DistinctMultiplicity<T>(s: seq<T>, x: T)
    requires Distinct(s)
    ensures multiset(s)[x] == if x in s then 1 else 0
    decreases |s|
  {
    if s != [] {
      assert s == [s[0]] + s[1..];
      DistinctMultiplicity(s[1..], x);
    }
  }

  /** Removing an element from a list without repeats leaves a list
      without repeats that no longer holds it. */
  lemma {:induction false} DistinctRemoveFirst<T>(s: seq<T>, x: T)
    requires Distinct(s)
    ensures Distinct(RemoveFirst(s, x)) && x !in RemoveFirst(s, x)
    decreases |s|
  {
    if s != [] && s[0] != x {
      DistinctRemoveFirst(s[1..], x);
      var r := RemoveFirst(s[1..], x);
      assert s[0] !in r;
      assert RemoveFirst(s, x) == [s[0]] + r;
    }
  }

  /** Removing the distinct elements of `xs` that all occur in the distinct
      list `s` shortens it by exactly `|xs|`. */
  lemma {:induction false} RemoveAllLength<T(!new)>(s: seq<T>, xs: seq<T>)
    requires Distinct(s) && Distinct(xs)
    requires forall x :: x in xs ==> x in s
    ensures |RemoveAll(s, xs)| == |s| - |xs|
  {
    var gone := Filter(s, x => x in xs);
    FilterComplementLength(s, x => x !in xs, x => x in xs);
    DistinctFilter(s, x => x in xs);
    assert (set x | x in gone) == (set x | x in xs);
    DistinctSetCard(gone);
    DistinctSetCard(xs);
  }

  lemma {:induction false} FilterSameOn<T(!new)>(s: seq<T>, p: T -> bool, q: T -> bool)
    requires forall x :: x in s ==> p(x) == q(x)
    ensures Filter(s, p) == Filter(s, q)
  {
    if s != [] {
      FilterSameOn(s[1..], p, q);
    }
  }

  /** What a filter drops is what the complementary filter keeps. */
  lemma {:induction false} FilterComplementLength<T(!new)>(s: seq<T>, p: T -> bool, q: T -> bool)
    requires forall x :: q(x) == !p(x)
    ensures |Filter(s, p)| + |Filter(s, q)| == |s|
  {
    if s != [] {
      FilterComplementLength(s[1..], p, q);
    }
  }

  /** A filter and its complement share out the elements between them. */
  lemma {:induction false} FilterComplementMultiset<T(!new)>(s: seq<T>, p: T -> bool, q: T -> bool)
    requires forall x :: q(x) == !p(x)
    ensures multiset(Filter(s, p)) + multiset(Filter(s, q)) == multiset(s)
  {
    if s != [] {
      FilterComplementMultiset(s[1..], p, q);
      FilterHeadMultiset(s, p);
      FilterHeadMultiset(s, q);
      assert s == [s[0]] + s[1..];
      assert multiset(s) == multiset{s[0]} + multiset(s[1..]);
      assert q(s[0]) == !p(s[0]);
    }
  }

  /** The first element, if kept, and what the filter keeps of the rest. */
  lemma FilterHeadMultiset<T(!new)>(s: seq<T>, p: T -> bool)
    requires s != []
    ensures multiset(Filter(s, p)) == (if p(s[0]) then multiset{s[0]} else multiset{}) + multiset(Filter(s[1..], p))
  {
  }

  /** A filter keeps the order of what it keeps: a relation that holds
      between every earlier and later element still does afterwards. */
  lemma {:induction false} FilterKeepsOrder<T(!new)>(s: seq<T>, p: T -> bool, before: (T, T) -> bool)
    requires forall i, j :: 0 <= i < j < |s| ==> before(s[i], s[j])
    ensures forall i, j :: 0 <= i < j < |Filter(s, p)| ==> before(Filter(s, p)[i], Filter(s, p)[j])
  {
    if s != [] {
      FilterKeepsOrder(s[1..], p, before);
      var rest := Filter(s[1..], p);
      forall j | 0 <= j < |rest|
        ensures before(s[0], rest[j])
      {
        assert rest[j] in s[1..];
        var k :| 0 <= k < |s[1..]| && s[1..][k] == rest[j];
        assert s[k + 1] == rest[j];
      }
    }
  }

  /** A filter that passes everything keeps the whole list. */
  lemma {:induction false} FilterAll<T(!new)>(s: seq<T>, p: T -> bool)
    requires forall x :: x in s ==> p(x)
    ensures Filter(s, p) == s
  {
    if s != [] {
      FilterAll(s[1..], p);
      assert s == [s[0]] + s[1..];
    }
  }

  /** Narrowing a filter by the first `n` elements it keeps drops exactly
      those from its result (the elements must be distinct). */
  lemma {:induction false} FilterDropPrefix<T(!new)>(s: seq<T>, p: T -> bool, q: T -> bool, n: nat)
    requires Distinct(s) && n <= |Filter(s, p)|
    requires forall x :: x in s ==> q(x) == (p(x) && x !in Filter(s, p)[..n])
    ensures Filter(s, q) == Filter(s, p)[n..]
  {
    if s != [] {
      var x := s[0];
      var rest := Filter(s[1..], p);
      DistinctTail(s);
      if p(x) {
        assert Filter(s, p) == [x] + rest;
        if n == 0 {
          FilterSameOn(s, q, p);
        } else {
          FilterDropHead(s, p, q, n);
          var q' := y => p(y) && y !in rest[..n - 1];
          FilterSameOn(s[1..], q, q');
          FilterDropPrefix(s[1..], p, q', n - 1);
        }
      } else {
        assert Filter(s, p) == rest;
        FilterDropPrefix(s[1..], p, q, n);
      }
    }
  }

  /** The first element kept is among the first `n`: the narrowed filter
      drops it, and the tail is narrowed by the other `n - 1`. */
  lemma FilterDropHead<T(!new)>(s: seq<T>, p: T -> bool, q: T -> bool, n: nat)
    requires Distinct(s) && s != [] && p(s[0]) && 0 < n <= |Filter(s, p)|
    requires forall x :: x in s ==> q(x) == (p(x) && x !in Filter(s, p)[..n])
    ensures forall y :: y in s[1..] ==> q(y) == (p(y) && y !in Filter(s[1..], p)[..n - 1])
    ensures Filter(s, q) == Filter(s[1..], q)
    ensures Filter(s, p)[n..] == Filter(s[1..], p)[n - 1..]
  {
    var rest := Filter(s[1..], p);
    var kept := Filter(s, p);
    assert kept == [s[0]] + rest;
    assert kept[..n] == [s[0]] + rest[..n - 1];
    assert kept[n..] == rest[n - 1..];
    DistinctTail(s);
    forall y | y in s[1..]
      ensures q(y) == (p(y) && y !in rest[..n - 1])
    {
      assert y != s[0];
      assert y in kept[..n] <==> y in rest[..n - 1];
    }
    assert Filter(s, q) == Filter(s[1..], q) by {
      assert !q(s[0]) by {
        assert s[0] in kept[..n];
      }
    }
  }

  /** The two parts of a distinct sequence share no element. */
  lemma DistinctParts<T>(s: seq<T>, m: nat)
    requires Distinct(s) && m <= |s|
    ensures forall x :: x in s[m..] ==> x in s && x !in s[..m]
  {
    forall x | x in s[m..]
      ensures x in s && x !in s[..m]
    {
      var j :| 0 <= j < |s| - m && s[m..][j] == x;
      assert s[m + j] == x;
      assert forall i :: 0 <= i < m ==> s[..m][i] != x;
    }
  }

  lemma DistinctTail<T>(s: seq<T>)
    requires Distinct(s) && s != []
    ensures Distinct(s[1..]) && s[0] !in s[1..]
  {
  }

  /** `removeAll` of a distinct list's first `k` elements leaves the rest. */
  lemma {:induction false} RemoveAllPrefix<T(!new)>(s: seq<T>, k: nat)
    requires Distinct(s) && k <= |s|
    ensures RemoveAll(s, s[..k]) == s[k..]
  {
    FilterAll(s, x => true);
    FilterDropPrefix(s, x => true, x => x !in s[..k], k);
  }

  lemma {:induction false} DistinctFilter<T(!new)>(s: seq<T>, p: T -> bool)
    requires Distinct(s)
    ensures Distinct(Filter(s, p))
  {
    if s != [] {
      DistinctFilter(s[1..], p);
      var rest := Filter(s[1..], p);
      assert s[0] !in s[1..];
    }
  }

  lemma {:induction false} DistinctSetCard<T(!new)>(s: seq<T>)
    requires Distinct(s)
    ensures |set x | x in s| == |s|
  {
    if s != [] {
      DistinctSetCard(s[1..]);
      assert (set x | x in s) == {s[0]} + (set x | x in s[1..]);
      assert s[0] !in s[1..];
    }
  }

  function Sum(s: seq<int>): int
  {
    if s == [] then 0 else s[0] + Sum(s[1..])
  }

  function Min(a: int, b: int): int
  {
    if a <= b then a else b
  }
}
