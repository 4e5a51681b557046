/** The ordering that `sort.Slice` establishes. The library sort is not stable,
    so any ordering that is sorted by the key and a permutation of the input is
    a possible outcome; `SortBy` is one of them. */
module Sorting {

  ghost predicate SortedBy<T>(s: seq<T>, key: T -> int)
  {
    forall i, j :: 0 <= i < j < |s| ==> key(s[i]) <= key(s[j])
  }

  function Insert<T>(x: T, s: seq<T>, key: T -> int): (r: seq<T>)
    requires SortedBy(s, key)
    ensures SortedBy(r, key)
    ensures multiset(r) == multiset(s) + multiset{x}
    ensures forall k :: 0 <= k < |r| ==> r[k] == x || r[k] in s
    decreases |s|, 1
  {
    if s == [] then [x]
    else if key(x) <= key(s[0]) then
      HeadFirst(x, s, key);
      [x] + s
    else
      HeadStays(x, s, key);
      assert s == [s[0]] + s[1..];
      [s[0]] + Insert(x, s[1..], key)
  }

  /** A new element no greater than the first goes in front. */
  lemma HeadFirst<T>(x: T, s: seq<T>, key: T -> int)
    requires SortedBy(s, key) && s != [] && key(x) <= key(s[0])
    ensures SortedBy([x] + s, key)
  {
    forall k | 0 <= k < |s| ensures key(x) <= key(s[k]) {
      if k > 0 {
        assert key(s[0]) <= key(s[k]);
      }
    }
    SortedCons(x, s, key);
  }

  /** A new element greater than the first leaves the first in front. */
  lemma HeadStays<T>(x: T, s: seq<T>, key: T -> int)
    requires SortedBy(s, key) && s != [] && key(s[0]) < key(x)
    ensures SortedBy([s[0]] + Insert(x, s[1..], key), key)
    decreases |s|, 0
  {
    var rest := Insert(x, s[1..], key);
    forall k | 0 <= k < |rest|
      ensures key(s[0]) <= key(rest[k])
    {
      if rest[k] != x {
        var m :| 0 <= m < |s[1..]| && s[1..][m] == rest[k];
        assert s[m + 1] == rest[k];
      }
    }
    SortedCons(s[0], rest, key);
  }

  /** A head no greater than any element of a sorted tail keeps it sorted. */
  lemma SortedCons<T>(h: T, t: seq<T>, key: T -> int)
    requires SortedBy(t, key) && forall k :: 0 <= k < |t| ==> key(h) <= key(t[k])
    ensures SortedBy([h] + t, key)
  {
    var r := [h] + t;
    forall i, j | 0 <= i < j < |r|
      ensures key(r[i]) <= key(r[j])
    {
      assert r[j] == t[j - 1];
      if i > 0 {
        assert r[i] == t[i - 1];
      }
    }
  }

  /** Orders `s` by ascending `key`; a descending order is an ascending order of the negated key. */
  function SortBy<T>(s: seq<T>, key: T -> int): (r: seq<T>)
    ensures SortedBy(r, key)
    ensures multiset(r) == multiset(s)
  {
    if s == [] then []
    else
      assert s == [s[0]] + s[1..];
      Insert(s[0], SortBy(s[1..], key), key)
  }

  /** The head of a sorted copy is an element of least key, and sorting keeps
      the length. */
  lemma SortedHeadLeast<T>(s: seq<T>, key: T -> int)
    requires |s| > 0
    ensures var r := SortBy(s, key);
            |r| == |s| && r[0] in s && forall q :: q in s ==> key(r[0]) <= key(q)
  {
    var r := SortBy(s, key);
    assert |r| == |multiset(r)| == |multiset(s)| == |s|;
    assert r[0] in multiset(s);
    forall q | q in s ensures key(r[0]) <= key(q) {
      assert q in multiset(r);
      var k :| 0 <= k < |r| && r[k] == q;
    }
  }
}
