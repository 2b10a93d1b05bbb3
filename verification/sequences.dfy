/** The three list operations the components build on, each with the
    property that makes it what the components rely on:
    - `Filter`: `Array.prototype.filter`, order- and multiplicity-preserving;
    - `SortBy`: `Array.prototype.sort` with a numeric comparator, which the
      language guarantees to be stable;
    - `Distinct`: `Array.from(new Set(xs))`, first occurrences in order;
    - `MapSeq`: `Array.prototype.map`. */
module Sequences {

  /** `r` can be obtained from `s` by deleting elements. */
  ghost predicate IsSubsequence<T(!new)>(r: seq<T>, s: seq<T>)
    decreases |s|
  {
    if |r| == 0 then true
    else if |s| == 0 then false
    else if r[0] == s[0] then IsSubsequence(r[1..], s[1..])
    else IsSubsequence(r, s[1..])
  }

  function Filter<T(!new)>(s: seq<T>, p: T -> bool): (r: seq<T>)
    ensures forall x :: x in r <==> x in s && p(x)
    ensures forall x {:trigger multiset(r)[x]} :: multiset(r)[x] == if p(x) then multiset(s)[x] else 0
    ensures IsSubsequence(r, s)
  {
    if |s| == 0 then []
    else
      assert s == [s[0]] + s[1..];
      if p(s[0]) then [s[0]] + Filter(s[1..], p)
      else Filter(s[1..], p)
  }

  /** `Array.prototype.map`. */
  function MapSeq<A, B>(s: seq<A>, f: A -> B): (r: seq<B>)
    ensures |r| == |s|
    ensures forall i :: 0 <= i < |s| ==> r[i] == f(s[i])
  {
    seq(|s|, i requires 0 <= i < |s| => f(s[i]))
  }

  /** The elements of `s` whose key is `k`, in order. Two sequences with the
      same `WithKey` for every `k` list the elements of each key in the same
      relative order; this is how stability is stated below. */
  function WithKey<T(!new)>(s: seq<T>, key: T -> int, k: int): (r: seq<T>)
    ensures forall x :: x in r <==> x in s && key(x) == k
  {
    if |s| == 0 then []
    else (if key(s[0]) == k then [s[0]] else []) + WithKey(s[1..], key, k)
  }

  ghost predicate SortedBy<T(!new)>(s: seq<T>, key: T -> int) {
    forall i, j :: 0 <= i < j < |s| ==> key(s[i]) <= key(s[j])
  }

  lemma {:induction false} WithKeyAppend<T(!new)>(a: seq<T>, b: seq<T>, key: T -> int, k: int)
    ensures WithKey(a + b, key, k) == WithKey(a, key, k) + WithKey(b, key, k)
  {
    if |a| == 0 {
      assert a + b == b;
    } else {
      assert (a + b)[0] == a[0];
      assert (a + b)[1..] == a[1..] + b;
      WithKeyAppend(a[1..], b, key, k);
    }
  }

  /** The first element of `WithKey(s, key, k)` is the first element of `s`
      whose key is `k`. */
  lemma {:induction false} WithKeyHead<T(!new)>(s: seq<T>, key: T -> int, k: int, i: int)
    requires 0 <= i < |s| && key(s[i]) == k
    requires forall j :: 0 <= j < i ==> key(s[j]) != k
    ensures |WithKey(s, key, k)| > 0 && WithKey(s, key, k)[0] == s[i]
  {
    if i > 0 {
      WithKeyHead(s[1..], key, k, i - 1);
    }
  }

  /** The index of the first element of `s` whose key is `k`. */
  function FirstWithKey<T(!new)>(s: seq<T>, key: T -> int, k: int): (i: nat)
    requires exists j :: 0 <= j < |s| && key(s[j]) == k
    ensures i < |s| && key(s[i]) == k
    ensures forall j :: 0 <= j < i ==> key(s[j]) != k
  {
    if key(s[0]) == k then 0
    else
      assert exists j :: 0 <= j < |s[1..]| && key(s[1..][j]) == k by {
        var j :| 0 <= j < |s| && key(s[j]) == k;
        assert s[1..][j - 1] == s[j];
      }
      1 + FirstWithKey(s[1..], key, k)
  }

  /** Filtering first does not change the elements of key `k` when every
      element of key `k` passes the filter. */
  lemma {:induction false} FilterWithKey<T(!new)>(s: seq<T>, p: T -> bool, key: T -> int, k: int)
    requires forall x :: key(x) == k ==> p(x)
    ensures WithKey(Filter(s, p), key, k) == WithKey(s, key, k)
  {
    if |s| > 0 {
      var tail := s[1..];
      FilterWithKey(tail, p, key, k);
      assert s == [s[0]] + tail;
      WithKeyCons(s[0], tail, key, k);
      if p(s[0]) {
        assert Filter(s, p) == [s[0]] + Filter(tail, p);
        WithKeyCons(s[0], Filter(tail, p), key, k);
      } else {
        assert Filter(s, p) == Filter(tail, p);
      }
    }
  }

  lemma {:induction false} WithKeyEmpty<T(!new)>(s: seq<T>, key: T -> int, k: int)
    requires forall i :: 0 <= i < |s| ==> key(s[i]) != k
    ensures WithKey(s, key, k) == []
  {
    if |s| > 0 {
      WithKeyEmpty(s[1..], key, k);
    }
  }

  /** Inserts `x` into a sorted `s` after every element whose key is not
      greater than `x`'s: the step of a stable insertion sort. */
  function Insert<T(!new)>(s: seq<T>, x: T, key: T -> int): seq<T> {
    if |s| == 0 then [x]
    else if key(x) < key(s[0]) then [x] + s
    else [s[0]] + Insert(s[1..], x, key)
  }

  lemma {:induction false} InsertMultiset<T(!new)>(s: seq<T>, x: T, key: T -> int)
    ensures multiset(Insert(s, x, key)) == multiset(s) + multiset{x}
  {
    if |s| > 0 && key(s[0]) <= key(x) {
      InsertMultiset(s[1..], x, key);
      assert s == [s[0]] + s[1..];
    }
  }

  lemma {:induction false} InsertSorted<T(!new)>(s: seq<T>, x: T, key: T -> int)
    requires SortedBy(s, key)
    ensures SortedBy(Insert(s, x, key), key)
  {
    if |s| > 0 && key(s[0]) <= key(x) {
      var t := Insert(s[1..], x, key);
      InsertSorted(s[1..], x, key);
      InsertMultiset(s[1..], x, key);
      forall j | 0 <= j < |t|
        ensures key(s[0]) <= key(t[j])
      {
        assert t[j] in multiset(t);
        if t[j] != x {
          assert t[j] in multiset(s[1..]);
        }
      }
      var r := [s[0]] + t;
      assert r == Insert(s, x, key);
      assert forall j :: 1 <= j < |r| ==> r[j] == t[j - 1];
    }
  }

  lemma AppendAssoc<T>(a: seq<T>, b: seq<T>, c: seq<T>)
    ensures a + (b + c) == (a + b) + c
  {
  }

  lemma SortedTail<T(!new)>(s: seq<T>, key: T -> int)
    requires |s| > 0 && SortedBy(s, key)
    ensures SortedBy(s[1..], key)
  {
    assert forall i :: 0 <= i < |s| - 1 ==> s[1..][i] == s[i + 1];
  }

  lemma WithKeyCons<T(!new)>(a: T, t: seq<T>, key: T -> int, k: int)
    ensures WithKey([a] + t, key, k) == (if key(a) == k then [a] else []) + WithKey(t, key, k)
  {
    assert ([a] + t)[0] == a && ([a] + t)[1..] == t;
  }

  lemma InsertInFront<T(!new)>(s: seq<T>, x: T, key: T -> int, k: int)
    requires SortedBy(s, key)
    requires |s| > 0 && key(x) < key(s[0])
    ensures WithKey([x] + s, key, k) == WithKey(s, key, k) + (if key(x) == k then [x] else [])
  {
    WithKeyAppend([x], s, key, k);
    assert WithKey([x], key, k) == (if key(x) == k then [x] else []);
    if key(x) == k {
      assert forall i :: 0 <= i < |s| ==> key(s[0]) <= key(s[i]);
      WithKeyEmpty(s, key, k);
    }
  }

  lemma {:induction false} InsertWithKey<T(!new)>(s: seq<T>, x: T, key: T -> int, k: int)
    requires SortedBy(s, key)
    ensures WithKey(Insert(s, x, key), key, k) == WithKey(s, key, k) + (if key(x) == k then [x] else [])
  {
    if |s| == 0 {
    } else if key(x) < key(s[0]) {
      InsertInFront(s, x, key, k);
    } else {
      var tail := s[1..];
      SortedTail(s, key);
      InsertWithKey(tail, x, key, k);
      assert Insert(s, x, key) == [s[0]] + Insert(tail, x, key);
      assert s == [s[0]] + tail;
      WithKeyCons(s[0], Insert(tail, x, key), key, k);
      WithKeyCons(s[0], tail, key, k);
      var head := if key(s[0]) == k then [s[0]] else [];
      var last := if key(x) == k then [x] else [];
      AppendAssoc(head, WithKey(tail, key, k), last);
    }
  }

  lemma {:induction false} SortStep<T(!new)>(s: seq<T>, t: seq<T>, key: T -> int)
    requires |s| > 0
    requires SortedBy(t, key)
    requires multiset(t) == multiset(s[..|s| - 1])
    requires forall k :: WithKey(t, key, k) == WithKey(s[..|s| - 1], key, k)
    ensures SortedBy(Insert(t, s[|s| - 1], key), key)
    ensures multiset(Insert(t, s[|s| - 1], key)) == multiset(s)
    ensures forall k :: WithKey(Insert(t, s[|s| - 1], key), key, k) == WithKey(s, key, k)
  {
    var x := s[|s| - 1];
    InsertSorted(t, x, key);
    InsertMultiset(t, x, key);
    assert s == s[..|s| - 1] + [x];
    forall k
      ensures WithKey(Insert(t, x, key), key, k) == WithKey(s, key, k)
    {
      InsertWithKey(t, x, key, k);
      WithKeyAppend(s[..|s| - 1], [x], key, k);
      assert WithKey([x], key, k) == (if key(x) == k then [x] else []);
    }
  }

  /** Stable sort by an integer key, ascending. */
  function SortBy<T(!new)>(s: seq<T>, key: T -> int): (r: seq<T>)
    ensures SortedBy(r, key)
    ensures multiset(r) == multiset(s)
    ensures forall k :: WithKey(r, key, k) == WithKey(s, key, k)
  {
    if |s| == 0 then []
    else
      var t := SortBy(s[..|s| - 1], key);
      SortStep(s, t, key);
      Insert(t, s[|s| - 1], key)
  }

  lemma SameKeysSameEmptiness<T(!new)>(a: seq<T>, b: seq<T>, key: T -> int)
    requires forall k :: WithKey(a, key, k) == WithKey(b, key, k)
    ensures |a| == 0 <==> |b| == 0
  {
    if |a| > 0 {
      WithKeyHead(a, key, key(a[0]), 0);
    }
    if |b| > 0 {
      WithKeyHead(b, key, key(b[0]), 0);
    }
  }

  /** A sorted sequence is determined by its elements of each key in order:
      two sorted sequences with the same `WithKey` for every key are equal. */
  lemma {:induction false} SortedStableUnique<T(!new)>(a: seq<T>, b: seq<T>, key: T -> int)
    requires SortedBy(a, key) && SortedBy(b, key)
    requires forall k :: WithKey(a, key, k) == WithKey(b, key, k)
    ensures a == b
    decreases |a|
  {
    SameKeysSameEmptiness(a, b, key);
    if |a| > 0 {
      var ka, kb := key(a[0]), key(b[0]);
      assert a[0] in WithKey(a, key, ka);
      assert b[0] in WithKey(b, key, kb);
      assert ka == kb by {
        assert a[0] in WithKey(b, key, ka);
        assert b[0] in WithKey(a, key, kb);
      }
      assert a[0] == b[0] by {
        WithKeyHead(a, key, ka, 0);
        WithKeyHead(b, key, ka, 0);
      }
      forall k
        ensures WithKey(a[1..], key, k) == WithKey(b[1..], key, k)
      {
        var h := if key(a[0]) == k then [a[0]] else [];
        assert WithKey(a, key, k) == h + WithKey(a[1..], key, k);
        assert WithKey(b, key, k) == h + WithKey(b[1..], key, k);
        assert WithKey(a[1..], key, k) == WithKey(a, key, k)[|h|..];
        assert WithKey(b[1..], key, k) == WithKey(b, key, k)[|h|..];
      }
      SortedStableUnique(a[1..], b[1..], key);
      assert a == [a[0]] + a[1..] && b == [b[0]] + b[1..];
    }
  }

  /** The index of the first occurrence of `x` in `s`. */
  function FirstIndex<T(==, !new)>(s: seq<T>, x: T): (i: nat)
    requires x in s
    ensures i < |s| && s[i] == x
    ensures forall j :: 0 <= j < i ==> s[j] != x
  {
    if s[0] == x then 0
    else
      assert x in s[1..];
      1 + FirstIndex(s[1..], x)
  }

  lemma FirstIndexPrefix<T(!new)>(s: seq<T>, m: nat, x: T)
    requires m <= |s| && x in s[..m]
    ensures FirstIndex(s, x) == FirstIndex(s[..m], x)
  {
    var i, i' := FirstIndex(s, x), FirstIndex(s[..m], x);
    assert s[..m][i'] == s[i'];
    assert i < m;
    assert s[..m][i] == s[i];
  }

  ghost predicate NoDuplicates<T(!new)>(s: seq<T>) {
    forall i, j :: 0 <= i < j < |s| ==> s[i] != s[j]
  }

  /** The distinct elements of `s`, each once, in order of first occurrence. */
  function Distinct<T(==, !new)>(s: seq<T>): (r: seq<T>)
    ensures forall x :: x in r <==> x in s
    ensures NoDuplicates(r)
    ensures forall i, j :: 0 <= i < j < |r| ==> FirstIndex(s, r[i]) < FirstIndex(s, r[j])
  {
    if |s| == 0 then []
    else
      var init := s[..|s| - 1];
      var last := s[|s| - 1];
      assert s == init + [last];
      var p := Distinct(init);
      DistinctStep(s, p);
      if last in init then p else p + [last]
  }

  lemma DistinctStep<T(!new)>(s: seq<T>, p: seq<T>)
    requires |s| > 0
    requires forall i :: 0 <= i < |p| ==> p[i] in s[..|s| - 1]
    ensures forall i :: 0 <= i < |p| ==> FirstIndex(s, p[i]) == FirstIndex(s[..|s| - 1], p[i])
    ensures s[|s| - 1] !in s[..|s| - 1] ==> FirstIndex(s, s[|s| - 1]) == |s| - 1
  {
    var init := s[..|s| - 1];
    forall i | 0 <= i < |p|
      ensures FirstIndex(s, p[i]) == FirstIndex(init, p[i])
    {
      FirstIndexPrefix(s, |s| - 1, p[i]);
    }
    var last := s[|s| - 1];
    if last !in init {
      forall j | 0 <= j < |s| - 1
        ensures s[j] != last
      {
        assert init[j] == s[j];
      }
    }
  }
}
