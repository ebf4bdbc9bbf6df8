/** Sorting by a key; stands for the library sort. */
module Sorting {
  import opened BinaryHeap

  ghost predicate SortedBy<T>(key: T -> int, s: seq<T>) {
    forall i, j :: 0 <= i < j < |s| ==> key(s[i]) <= key(s[j])
  }

  /** Appending a largest element keeps a list sorted. */
  lemma AppendSorted<T>(key: T -> int, s: seq<T>, x: T)
    requires SortedBy(key, s) && forall y :: y in s ==> key(y) <= key(x)
    ensures SortedBy(key, s + [x])
  {
    var t := s + [x];
    forall i, j | 0 <= i < j < |t| ensures key(t[i]) <= key(t[j]) {
      assert t[i] == s[i] && s[i] in s;
    }
  }

  method Sort<T>(key: T -> int, s: seq<T>) returns (r: seq<T>)
    ensures SortedBy(key, r) && multiset(r) == multiset(s)
  {
    var h := Init(key, s);
    r := [];
    while |h| > 0
      invariant IsHeap(key, h) && SortedBy(key, r) && multiset(r) + multiset(h) == multiset(s)
      invariant forall x, y :: x in r && y in h ==> key(x) <= key(y)
      decreases |h|
    {
      ghost var h0 := h;
      var x;
      x, h := Pop(key, h);
      MultisetSize(h0, h, x);
      AppendSorted(key, r, x);
      r := r + [x];
      assert forall y :: y in h ==> y in multiset(h);
    }
  }

  lemma MultisetSize<T>(a: seq<T>, b: seq<T>, x: T)
    requires multiset(b) + multiset{x} == multiset(a)
    ensures |b| + 1 == |a|
    ensures forall y :: y in b ==> y in a
    ensures x in a
  {
    assert |multiset(a)| == |a| && |multiset(b)| == |b|;
    forall y | y in b ensures y in a { assert y in multiset(b); assert y in multiset(a); }
    assert x in multiset(a);
  }
}
