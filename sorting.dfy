/** The stable ordering that Array.prototype.sort gives a comparator of the
    form (a, b) => key(a) - key(b), used by the path search on its open list
    and by the live-faction table. */
module Sorting {

  predicate SortedBy<T>(s: seq<T>, key: T -> int) {
    forall a, b :: 0 <= a < b < |s| ==> key(s[a]) <= key(s[b])
  }

  /** A bound on every key of s and on key(x) bounds every key of a sequence
      holding exactly their elements. */
  lemma BoundedElements<T>(x: T, s: seq<T>, r: seq<T>, key: T -> int, b: int)
    requires multiset(r) == multiset(s) + multiset{x}
    requires b <= key(x) && forall k :: 0 <= k < |s| ==> b <= key(s[k])
    ensures forall k :: 0 <= k < |r| ==> b <= key(r[k])
  {
    forall k | 0 <= k < |r| ensures b <= key(r[k]) {
      assert r[k] in multiset(r);
      if r[k] != x {
        assert r[k] in multiset(s);
        var n :| 0 <= n < |s| && s[n] == r[k];
      }
    }
  }

  /** Places x after every element whose key is at most key(x). */
  function Insert<T>(x: T, s: seq<T>, key: T -> int): (r: seq<T>)
    requires SortedBy(s, key)
    ensures multiset(r) == multiset(s) + multiset{x}
    ensures SortedBy(r, key)
    ensures |r| == |s| + 1
  {
    if s == [] then [x]
    else if key(s[0]) > key(x) then [x] + s
    else
      var rest := Insert(x, s[1..], key);
      assert s == [s[0]] + s[1..];
      BoundedElements(x, s[1..], rest, key, key(s[0]));
      [s[0]] + rest
  }

  /** Stable insertion sort: the elements of s in non-decreasing key order,
      equal keys keeping their original relative order. */
  function SortBy<T>(s: seq<T>, key: T -> int): (r: seq<T>)
    ensures multiset(r) == multiset(s)
    ensures SortedBy(r, key)
    ensures |r| == |s|
  {
    if s == [] then []
    else
      assert s == s[..|s| - 1] + [s[|s| - 1]];
      Insert(s[|s| - 1], SortBy(s[..|s| - 1], key), key)
  }

  lemma {:induction false} SortedHeadIsMinimal<T>(s: seq<T>, key: T -> int)
    requires SortedBy(s, key) && |s| > 0
    ensures forall y :: y in s ==> key(s[0]) <= key(y)
  {
    forall y | y in s ensures key(s[0]) <= key(y) {
      var k :| 0 <= k < |s| && s[k] == y;
      if k > 0 { assert key(s[0]) <= key(s[k]); }
    }
  }
}
