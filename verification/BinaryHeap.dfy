/**
  The array heap that both transaction heaps are built on (Go's
  container/heap over a slice), with the least key at the front.
 */
module BinaryHeap {

  function ParentOf(j: nat): (i: nat)
    requires j >= 1
    ensures i < j && (j == 2 * i + 1 || j == 2 * i + 2)
  {
    (j - 1) / 2
  }

  /** Element `j` is not smaller than its parent. */
  predicate Ordered<T>(key: T -> int, h: seq<T>, j: nat)
    requires 1 <= j < |h|
  {
    key(h[ParentOf(j)]) <= key(h[j])
  }

  ghost predicate IsHeap<T>(key: T -> int, h: seq<T>) {
    forall j: nat {:trigger Ordered(key, h, j)} :: 1 <= j < |h| ==> Ordered(key, h, j)
  }

  /** The parent of `j` is not larger than the children of `j`. */
  ghost predicate Bridged<T>(key: T -> int, h: seq<T>, j: nat) {
    1 <= j < |h| ==> forall c: nat {:trigger Ordered(key, h, c)} ::
      1 <= c < |h| && ParentOf(c) == j ==> key(h[ParentOf(j)]) <= key(h[c])
  }

  function Swap<T>(h: seq<T>, i: nat, j: nat): seq<T>
    requires i < |h| && j < |h|
  {
    h[i := h[j]][j := h[i]]
  }

  lemma SwapElements<T>(h: seq<T>, i: nat, j: nat)
    requires i < |h| && j < |h|
    ensures multiset(Swap(h, i, j)) == multiset(h)
  {
  }

  // ---------- moving up ----------

  ghost predicate UpOk<T>(key: T -> int, h: seq<T>, j: nat) {
    && j < |h|
    && (forall k: nat {:trigger Ordered(key, h, k)} :: 1 <= k < |h| && k != j ==> Ordered(key, h, k))
    && Bridged(key, h, j)
  }

  lemma UpStep<T>(key: T -> int, h: seq<T>, j: nat)
    requires UpOk(key, h, j) && j >= 1 && !Ordered(key, h, j)
    ensures UpOk(key, Swap(h, ParentOf(j), j), ParentOf(j))
  {
    var i := ParentOf(j);
    var h' := Swap(h, i, j);
    forall k: nat | 1 <= k < |h'| && k != i
      ensures Ordered(key, h', k)
    {
      if k != j { assert Ordered(key, h, k); }
    }
    if i >= 1 {
      assert Ordered(key, h, i);
      forall c: nat | 1 <= c < |h'| && ParentOf(c) == i
        ensures key(h'[ParentOf(i)]) <= key(h'[c])
      {
        if c != j { assert Ordered(key, h, c); }
      }
    }
  }

  method Up<T>(key: T -> int, h0: seq<T>, j0: nat) returns (h: seq<T>)
    requires UpOk(key, h0, j0)
    ensures IsHeap(key, h) && multiset(h) == multiset(h0) && |h| == |h0|
  {
    h := h0;
    var j := j0;
    while j >= 1 && key(h[j]) < key(h[ParentOf(j)])
      invariant UpOk(key, h, j) && multiset(h) == multiset(h0) && |h| == |h0|
      decreases j
    {
      UpStep(key, h, j);
      SwapElements(h, ParentOf(j), j);
      h := Swap(h, ParentOf(j), j);
      j := ParentOf(j);
    }
    assert j >= 1 ==> Ordered(key, h, j);
  }

  // ---------- moving down ----------

  /** Among the nodes whose parent is `lo` or later, everything is in order
      but `i` against its children, and `i0` against its parent as long as nothing moved. */
  ghost predicate DownOk<T>(key: T -> int, h: seq<T>, lo: nat, i0: nat, i: nat) {
    && i0 <= i < |h|
    && (forall k: nat {:trigger Ordered(key, h, k)} ::
          1 <= k < |h| && ParentOf(k) >= lo && ParentOf(k) != i && (k != i0 || i != i0) ==> Ordered(key, h, k))
    && (i >= 1 && ParentOf(i) >= lo ==> Bridged(key, h, i))
  }

  lemma DownStep<T>(key: T -> int, h: seq<T>, lo: nat, i0: nat, i: nat, j: nat)
    requires DownOk(key, h, lo, i0, i) && lo <= i && 1 <= j < |h| && ParentOf(j) == i && !Ordered(key, h, j)
    requires key(h[j]) <= key(h[2 * i + 1]) && (2 * i + 2 < |h| ==> key(h[j]) <= key(h[2 * i + 2]))
    ensures DownOk(key, Swap(h, i, j), lo, i0, j)
  {
    var h' := Swap(h, i, j);
    forall k: nat | 1 <= k < |h'| && ParentOf(k) >= lo && ParentOf(k) != j
      ensures Ordered(key, h', k)
    {
      if k == i {
        assert !Ordered(key, h, j);
        assert key(h[ParentOf(i)]) <= key(h[j]);
      } else {
        assert ParentOf(k) != i ==> Ordered(key, h, k);
      }
    }
    forall c: nat | 1 <= c < |h'| && ParentOf(c) == j
      ensures key(h'[ParentOf(j)]) <= key(h'[c])
    {
      assert Ordered(key, h, c);
    }
  }

  /** Everything whose parent is `lo` or later is in order. */
  ghost predicate HeapFrom<T>(key: T -> int, h: seq<T>, lo: nat) {
    forall k: nat {:trigger Ordered(key, h, k)} :: 1 <= k < |h| && ParentOf(k) >= lo ==> Ordered(key, h, k)
  }

  /** Moves the element at `i0` down to its place. */
  method Down<T>(key: T -> int, h0: seq<T>, ghost lo: nat, i0: nat) returns (h: seq<T>, moved: bool)
    requires DownOk(key, h0, lo, i0, i0) && lo <= i0
    ensures multiset(h) == multiset(h0) && |h| == |h0|
    ensures moved ==> HeapFrom(key, h, lo)
    ensures !moved ==> h == h0 && forall k: nat :: 1 <= k < |h| && ParentOf(k) >= lo && k != i0 ==> Ordered(key, h, k)
  {
    h := h0;
    var i := i0;
    while 2 * i + 1 < |h|
      invariant i0 <= i && DownOk(key, h, lo, i0, i) && multiset(h) == multiset(h0) && |h| == |h0|
      invariant i == i0 ==> h == h0
      decreases |h| - i
    {
      var j := 2 * i + 1;
      if j + 1 < |h| && key(h[j + 1]) < key(h[j]) {
        j := j + 1;
      }
      if !(key(h[j]) < key(h[i])) {
        forall k: nat | 1 <= k < |h| && ParentOf(k) == i ensures Ordered(key, h, k) { }
        break;
      }
      DownStep(key, h, lo, i0, i, j);
      SwapElements(h, i, j);
      h := Swap(h, i, j);
      i := j;
    }
    moved := i > i0;
  }

  // ---------- the heap operations ----------

  /** The front of a heap has the least key. */
  lemma {:induction false} FrontIsLeast<T>(key: T -> int, h: seq<T>, j: nat)
    requires IsHeap(key, h) && j < |h|
    ensures key(h[0]) <= key(h[j])
  {
    if j > 0 {
      assert Ordered(key, h, j);
      FrontIsLeast(key, h, ParentOf(j));
    }
  }

  method Push<T>(key: T -> int, h0: seq<T>, x: T) returns (h: seq<T>)
    requires IsHeap(key, h0)
    ensures IsHeap(key, h) && multiset(h) == multiset(h0) + multiset{x}
  {
    h := h0 + [x];
    forall k: nat | 1 <= k < |h| && k != |h| - 1 ensures Ordered(key, h, k) { assert Ordered(key, h0, k); }
    forall c: nat | 1 <= c < |h| ensures ParentOf(c) != |h| - 1 { }
    h := Up(key, h, |h| - 1);
  }

  /** Takes an element with the least key off the heap. */
  method Pop<T>(key: T -> int, h0: seq<T>) returns (x: T, h: seq<T>)
    requires IsHeap(key, h0) && |h0| > 0
    ensures x == h0[0] && forall y :: y in h0 ==> key(x) <= key(y)
    ensures IsHeap(key, h) && multiset(h) + multiset{x} == multiset(h0)
  {
    forall y | y in h0 ensures key(h0[0]) <= key(y) {
      var j :| 0 <= j < |h0| && h0[j] == y;
      FrontIsLeast(key, h0, j);
    }
    x, h := RemoveAt(key, h0, 0);
  }

  /** Takes the element at `i` off the heap. */
  method RemoveAt<T>(key: T -> int, h0: seq<T>, i: nat) returns (x: T, h: seq<T>)
    requires IsHeap(key, h0) && i < |h0|
    ensures x == h0[i] && IsHeap(key, h) && multiset(h) + multiset{x} == multiset(h0)
  {
    var n := |h0| - 1;
    x := h0[i];
    LastTo(h0, i);
    h := h0[..n];
    if n != i {
      h := h[i := h0[n]];
      LastToDownOk(key, h0, i);
      var moved;
      h, moved := Down(key, h, 0, i);
      if !moved {
        h := Up(key, h, i);
      }
    } else {
      forall k: nat | 1 <= k < |h| ensures Ordered(key, h, k) { assert Ordered(key, h0, k); }
    }
  }

  lemma LastTo<T>(h: seq<T>, i: nat)
    requires i < |h|
    ensures i == |h| - 1 ==> multiset(h[..|h| - 1]) + multiset{h[i]} == multiset(h)
    ensures i < |h| - 1 ==> multiset(h[..|h| - 1][i := h[|h| - 1]]) + multiset{h[i]} == multiset(h)
  {
    var n := |h| - 1;
    assert h == h[..n] + [h[n]];
  }

  lemma LastToDownOk<T>(key: T -> int, h: seq<T>, i: nat)
    requires IsHeap(key, h) && i < |h| - 1
    ensures var h' := h[..|h| - 1][i := h[|h| - 1]];
            DownOk(key, h', 0, i, i) && Bridged(key, h', i)
  {
    var h' := h[..|h| - 1][i := h[|h| - 1]];
    forall k: nat | 1 <= k < |h'| && ParentOf(k) != i && k != i ensures Ordered(key, h', k) {
      assert Ordered(key, h, k);
    }
    if i >= 1 {
      assert Ordered(key, h, i);
      forall c: nat | 1 <= c < |h'| && ParentOf(c) == i ensures key(h'[ParentOf(i)]) <= key(h'[c]) {
        assert Ordered(key, h, c);
      }
    }
  }

  /** Puts any list in heap order. */
  method Init<T>(key: T -> int, h0: seq<T>) returns (h: seq<T>)
    ensures IsHeap(key, h) && multiset(h) == multiset(h0) && |h| == |h0|
  {
    h := h0;
    var i := |h| / 2;
    while i > 0
      invariant 0 <= i <= |h| / 2 && HeapFrom(key, h, i) && multiset(h) == multiset(h0) && |h| == |h0|
    {
      i := i - 1;
      var moved;
      h, moved := Down(key, h, i, i);
    }
    forall k: nat | 1 <= k < |h| ensures Ordered(key, h, k) { }
  }
}
