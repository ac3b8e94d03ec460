/**
 * Python's `sorted(xs, key=k)` / `list.sort(key=k)`: a stable sort by a numeric key.
 * `reverse=True` is the stable ascending sort by the negated key, which is how
 * the callers use it.
 */
module Sorting {

  ghost predicate SortedBy<T>(s: seq<T>, key: T -> real) {
    forall i, j :: 0 <= i < j < |s| ==> key(s[i]) <= key(s[j])
  }

  /** Inserts `x` before the first element whose key is not smaller than its own. */
  function Insert<T>(x: T, s: seq<T>, key: T -> real): (r: seq<T>)
    ensures multiset(r) == multiset(s) + multiset{x}
    ensures |r| == |s| + 1
  {
    if s == [] || key(x) <= key(s[0]) then [x] + s
    else
      assert s == [s[0]] + s[1..];
      [s[0]] + Insert(x, s[1..], key)
  }

  lemma {:induction false} InsertSorted<T>(x: T, s: seq<T>, key: T -> real)
    requires SortedBy(s, key)
    ensures SortedBy(Insert(x, s, key), key)
  {
    if s != [] && key(x) > key(s[0]) {
      var tail := s[1..];
      assert SortedBy(tail, key) by {
        forall i, j | 0 <= i < j < |tail| ensures key(tail[i]) <= key(tail[j]) {
          assert tail[i] == s[i + 1] && tail[j] == s[j + 1];
        }
      }
      var rest := Insert(x, tail, key);
      InsertSorted(x, tail, key);
      assert key(s[0]) <= key(rest[0]) by {
        if tail != [] && key(x) > key(tail[0]) {
          assert rest[0] == tail[0] == s[1];
        }
      }
      var r := [s[0]] + rest;
      assert Insert(x, s, key) == r;
      forall i, j | 0 <= i < j < |r| ensures key(r[i]) <= key(r[j]) {
        if i == 0 {
          assert key(rest[0]) <= key(rest[j - 1]);
        }
      }
    }
  }

  /** Stable insertion sort: the result is ordered by `key` and is a permutation of `s`. */
  function SortBy<T>(s: seq<T>, key: T -> real): (r: seq<T>)
    ensures SortedBy(r, key)
    ensures multiset(r) == multiset(s)
    ensures |r| == |s|
  {
    if s == [] then []
    else
      assert s == [s[0]] + s[1..];
      InsertSorted(s[0], SortBy(s[1..], key), key);
      Insert(s[0], SortBy(s[1..], key), key)
  }

  /** Sorting a sequence that is already in order leaves it unchanged. */
  lemma {:induction false} SortSortedIsIdentity<T>(s: seq<T>, key: T -> real)
    requires SortedBy(s, key)
    ensures SortBy(s, key) == s
  {
    if s != [] {
      assert SortedBy(s[1..], key);
      SortSortedIsIdentity(s[1..], key);
      assert s == [s[0]] + s[1..];
    }
  }

  /** In a sorted sequence every element of a prefix has a key no larger than every element after it. */
  lemma {:induction false} PrefixBelowSuffix<T>(s: seq<T>, key: T -> real, n: nat)
    requires SortedBy(s, key) && n <= |s|
    ensures forall x, y :: x in s[..n] && y in s[n..] ==> key(x) <= key(y)
  {
    forall x, y | x in s[..n] && y in s[n..] ensures key(x) <= key(y) {
      var i :| 0 <= i < n && s[i] == x;
      var j :| n <= j < |s| && s[j] == y;
    }
  }

  /**
   * `sorted(s, key=key)[:n]`: the `n` elements of smallest key, in key order.
   * Everything left out has a key no smaller than everything kept.
   */
  function SmallestBy<T>(s: seq<T>, key: T -> real, n: nat): (r: seq<T>)
    ensures |r| == if n < |s| then n else |s|
    ensures SortedBy(r, key)
    ensures multiset(r) <= multiset(s)
    ensures n >= |s| ==> multiset(r) == multiset(s)
    ensures forall x, y :: x in r && y in s && y !in r ==> key(x) <= key(y)
  {
    var sorted := SortBy(s, key);
    var m := if n < |s| then n else |s|;
    TakeOfSorted(sorted, key, m);
    SameMembers(s, sorted);
    assert m == |s| ==> sorted[..m] == sorted;
    sorted[..m]
  }

  lemma SameMembers<T>(a: seq<T>, b: seq<T>)
    requires multiset(a) == multiset(b)
    ensures forall y :: y in a <==> y in b
  {
    forall y ensures y in a <==> y in b {
      assert y in a <==> y in multiset(a);
      assert y in b <==> y in multiset(b);
    }
  }

  lemma TakeOfSorted<T>(sorted: seq<T>, key: T -> real, m: nat)
    requires SortedBy(sorted, key) && m <= |sorted|
    ensures SortedBy(sorted[..m], key)
    ensures multiset(sorted[..m]) <= multiset(sorted)
    ensures forall x, y :: x in sorted[..m] && y in sorted && y !in sorted[..m] ==> key(x) <= key(y)
  {
    PrefixBelowSuffix(sorted, key, m);
    assert sorted == sorted[..m] + sorted[m..];
  }

  /** When an element is left out of `SmallestBy(s, key, n)`, all `n` places are taken. */
  lemma LeftOutMeansFull<T>(s: seq<T>, key: T -> real, n: nat, x: T)
    requires x in s
    ensures x in SmallestBy(s, key, n) || |SmallestBy(s, key, n)| == n
  {
    if n >= |s| {
      assert x in multiset(SmallestBy(s, key, n));
    }
  }
}
