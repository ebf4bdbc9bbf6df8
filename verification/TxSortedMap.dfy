/**
  The nonce-sorted transaction map (txSortedMap in core/tx_list.go): a map, a
  heap of its keys and a cache of its sorted contents.
 */
module TxSortedMaps {
  import opened Prelude
  import opened TxContents
  import opened BinaryHeap
  import opened Sorting

  function Id(n: nat): int {
    n
  }

  /** The heap lists every nonce of the map once. */
  ghost predicate Indexed(index: seq<nat>, m: Items) {
    forall n: nat {:trigger IndexedAt(index, m, n)} :: IndexedAt(index, m, n)
  }

  predicate IndexedAt(index: seq<nat>, m: Items, n: nat) {
    multiset(index)[n] == if n in m then 1 else 0
  }

  lemma IndexAdd(index: seq<nat>, index': seq<nat>, m: Items, tx: Tx)
    requires Indexed(index, m) && tx.nonce !in m && multiset(index') == multiset(index) + multiset{tx.nonce}
    ensures Indexed(index', m[tx.nonce := tx])
  {
    var m' := m[tx.nonce := tx];
    forall n: nat ensures IndexedAt(index', m', n) { assert IndexedAt(index, m, n); }
  }

  lemma IndexReplace(index: seq<nat>, m: Items, tx: Tx)
    requires Indexed(index, m) && tx.nonce in m
    ensures Indexed(index, m[tx.nonce := tx])
  {
    var m' := m[tx.nonce := tx];
    forall n: nat ensures IndexedAt(index, m', n) { assert IndexedAt(index, m, n); }
  }

  lemma IndexRemove(index: seq<nat>, index': seq<nat>, m: Items, k: nat)
    requires Indexed(index, m) && multiset(index') + multiset{k} == multiset(index)
    ensures k in m && Indexed(index', Without(m, k))
  {
    assert (multiset(index') + multiset{k})[k] == multiset(index)[k];
    assert IndexedAt(index, m, k);
    forall n: nat ensures IndexedAt(index', Without(m, k), n) {
      assert IndexedAt(index, m, n);
      assert (multiset(index') + multiset{k})[n] == multiset(index)[n];
    }
  }

  lemma InIndex(index: seq<nat>, m: Items, n: nat)
    requires Indexed(index, m)
    ensures n in index <==> n in m
  {
    assert IndexedAt(index, m, n);
    assert n in index <==> n in multiset(index);
  }

  /** The front of the heap is the least nonce. */
  lemma FrontIsLeastNonce(index: seq<nat>, m: Items)
    requires Indexed(index, m) && IsHeap(Id, index) && |index| > 0
    ensures IsLeast(m.Keys, index[0])
  {
    InIndex(index, m, index[0]);
    forall k | k in m.Keys ensures index[0] <= k {
      InIndex(index, m, k);
      var j :| 0 <= j < |index| && index[j] == k;
      FrontIsLeast(Id, index, j);
    }
  }

  lemma EmptyIndex(index: seq<nat>, m: Items)
    requires Indexed(index, m)
    ensures |index| == 0 <==> m == map[]
  {
    if |index| > 0 {
      InIndex(index, m, index[0]);
    }
    if m != map[] {
      var n :| n in m;
      InIndex(index, m, n);
    }
  }

  lemma {:induction false} IndexSize(index: seq<nat>, m: Items)
    requires Indexed(index, m)
    ensures |index| == |m|
    decreases |index|
  {
    EmptyIndex(index, m);
    if |index| > 0 {
      assert index == [index[0]] + index[1..];
      IndexRemove(index, index[1..], m, index[0]);
      WithoutSize(m, index[0]);
      IndexSize(index[1..], Without(m, index[0]));
    }
  }

  lemma IndexPermuted(index: seq<nat>, index': seq<nat>, m: Items)
    requires Indexed(index, m) && multiset(index') == multiset(index)
    ensures Indexed(index', m)
  {
    forall n: nat ensures IndexedAt(index', m, n) { assert IndexedAt(index, m, n); }
  }

  lemma EmptySorted()
    ensures SortedOf(map[]) == []
  {
    SortedIs(map[]);
  }

  /** `removed` lists exactly the transactions of `m` that satisfy the filter, each once. */
  ghost predicate Filtered(removed: seq<Tx>, m: Items, filter: Tx -> bool) {
    forall tx {:trigger multiset(removed)[tx]} ::
      multiset(removed)[tx] == if tx.nonce in m && m[tx.nonce] == tx && filter(tx) then 1 else 0
  }

  function Rest(m: Items, filter: Tx -> bool): Items {
    map n | n in m && !filter(m[n]) :: m[n]
  }

  lemma SortedBelow(m: Items, threshold: nat)
    requires Filed(m)
    ensures forall i :: 0 <= i < |SortedOf(Below(m, threshold))| ==> SortedOf(Below(m, threshold))[i].nonce < threshold
  {
    var low := Below(m, threshold);
    SortedIs(low);
    forall i | 0 <= i < |SortedOf(low)| ensures SortedOf(low)[i].nonce < threshold {
      assert ItemAt(SortedOf(low), low, i);
    }
  }

  class TxSortedMap {
    var items: Items
    var index: seq<nat>
    var cache: Option<seq<Tx>>

    ghost predicate Valid()
      reads this
    {
      && Filed(items) && Indexed(index, items) && IsHeap(Id, index)
      && (cache.Some? ==> cache.value == SortedOf(items))
    }

    constructor ()
      ensures Valid() && items == map[]
    {
      items, index, cache := map[], [], None;
      new;
      forall n: nat ensures IndexedAt([], map[], n) { }
    }

    method Put(tx: Tx)
      requires Valid()
      modifies this
      ensures Valid() && items == old(items)[tx.nonce := tx]
    {
      if tx.nonce !in items {
        ghost var index0 := index;
        index := Push(Id, index, tx.nonce);
        IndexAdd(index0, index, items, tx);
      } else {
        IndexReplace(index, items, tx);
      }
      items := items[tx.nonce := tx];
      cache := None;
    }

    /** Map and heap agree, whatever the cache holds. */
    ghost predicate Shape()
      reads this
    {
      Filed(items) && Indexed(index, items) && IsHeap(Id, index)
    }

    /** Takes the transaction with the least nonce out of map and heap. */
    method PopFront() returns (tx: Tx)
      requires Shape() && |index| > 0
      modifies this`items, this`index
      ensures Shape()
      ensures IsLeast(old(items).Keys, old(index[0])) && tx == old(items)[old(index[0])]
      ensures items == Without(old(items), old(index[0])) && SortedOf(old(items)) == [tx] + SortedOf(items)
    {
      FrontIsLeastNonce(index, items);
      ghost var index0 := index;
      var nonce;
      nonce, index := Pop(Id, index);
      IndexRemove(index0, index, items, nonce);
      SortedFront(items, nonce);
      tx := items[nonce];
      items := Without(items, nonce);
    }

    /** Removes all transactions below the threshold and returns them in nonce order. */
    method Forward(threshold: nat) returns (removed: seq<Tx>)
      requires Valid()
      modifies this
      ensures Valid() && items == From(old(items), threshold)
      ensures removed == SortedOf(Below(old(items), threshold))
      ensures forall n :: n in items <==> n in old(items) && n >= threshold
      ensures forall i :: 0 <= i < |removed| ==> removed[i].nonce < threshold
    {
      SortedBelow(items, threshold);
      removed := PopBelow(threshold);
    }

    method PopBelow(threshold: nat) returns (removed: seq<Tx>)
      requires Valid()
      modifies this
      ensures Valid() && items == From(old(items), threshold)
      ensures removed == SortedOf(Below(old(items), threshold))
    {
      ghost var m := items;
      removed := PopFronts(threshold);
      SortedSplit(m, threshold);
      SamePrefix(removed, SortedOf(Below(m, threshold)), SortedOf(items), SortedOf(m));
      if cache.Some? {
        assert cache.value[|removed|..] == SortedOf(items);
        cache := Some(cache.value[|removed|..]);
      }
    }

    /** The loop that takes the front off while it is below the threshold. */
    method PopFronts(threshold: nat) returns (removed: seq<Tx>)
      requires Shape()
      modifies this`items, this`index
      ensures Shape() && items == From(old(items), threshold)
      ensures removed + SortedOf(items) == SortedOf(old(items))
    {
      ghost var m := items;
      removed := [];
      assert [] + SortedOf(items) == SortedOf(m);
      while |index| > 0 && index[0] < threshold
        invariant Shape()
        invariant removed + SortedOf(items) == SortedOf(m)
        invariant forall n :: n in items ==> n in m && items[n] == m[n]
        invariant forall n :: n in m && n >= threshold ==> n in items
        decreases |index|
      {
        ghost var s, r := SortedOf(items), removed;
        IndexSize(index, items);
        WithoutSizeFront(index, items);
        var tx := PopFront();
        IndexSize(index, items);
        removed := removed + [tx];
        assert r + s == (r + [tx]) + SortedOf(items);
      }
      RestAbove(index, items, threshold);
      assert items == From(m, threshold);
    }

    /** Removes and returns the run of consecutive nonces that starts at the
        least one, provided that is not above `start`. */
    method Ready(start: nat) returns (ready: seq<Tx>)
      requires Valid()
      modifies this
      ensures Valid() && ready + SortedOf(items) == SortedOf(old(items))
      ensures ready == [] <==> old(items) == map[] || forall n :: n in old(items) ==> n > start
      ensures forall i :: 0 <= i < |ready| ==> ready[i].nonce == ready[0].nonce + i
      ensures ready != [] ==> ready[0].nonce <= start && forall n :: n in items ==> n > ready[0].nonce + |ready|
    {
      EmptyIndex(index, items);
      EmptySorted();
      if |index| == 0 || index[0] > start {
        if |index| > 0 { FrontIsLeastNonce(index, items); assert forall n :: n in items ==> n in items.Keys; }
        return [];
      }
      ghost var m, first := items, index[0];
      FrontIsLeastNonce(index, items);
      ready := [];
      var next := index[0];
      while |index| > 0 && index[0] == next
        invariant Shape() && next == first + |ready|
        invariant ready + SortedOf(items) == SortedOf(m)
        invariant forall i :: 0 <= i < |ready| ==> ready[i].nonce == first + i
        invariant forall n :: n in items ==> n >= next
        invariant |ready| == 0 ==> items == m && |index| > 0 && index[0] == next
        decreases |index|
      {
        ghost var s, r := SortedOf(items), ready;
        IndexSize(index, items);
        WithoutSizeFront(index, items);
        var tx := PopFront();
        IndexSize(index, items);
        ready := ready + [tx];
        assert r + s == (r + [tx]) + SortedOf(items);
        next := next + 1;
      }
      cache := None;
      if |index| > 0 { FrontIsLeastNonce(index, items); }
      EmptyIndex(index, items);
      assert forall n :: n in items ==> n in items.Keys;
    }

    /** Keeps the `threshold` least nonces and returns the others, greatest first. */
    method Cap(threshold: nat) returns (drops: seq<Tx>)
      requires Valid()
      modifies this
      ensures Valid() && |items| == if |old(items)| <= threshold then |old(items)| else threshold
      ensures SortedOf(items) + Reverse(drops) == SortedOf(old(items))
      ensures drops == [] <==> |old(items)| <= threshold
    {
      drops := [];
      if |items| <= threshold {
        return;
      }
      ghost var m, index0 := items, index;
      index := Sort(Id, index);
      IndexPermuted(index0, index, items);
      IndexSize(index, items);
      drops := DropBack(threshold);
      index := index[..threshold];
      ghost var index1 := index;
      index := Init(Id, index);
      IndexPermuted(index1, index, items);
      if cache.Some? {
        SortedIs(items);
        SortedIs(m);
        assert cache.value[..|cache.value| - |drops|] == SortedOf(items);
        cache := Some(cache.value[..|cache.value| - |drops|]);
      }
    }

    /** Deletes the greatest nonces of a sorted index until `threshold` are left. */
    method DropBack(threshold: nat) returns (drops: seq<Tx>)
      requires Filed(items) && SortedBy(Id, index) && Indexed(index, items) && threshold <= |items| == |index|
      modifies this`items
      ensures Filed(items) && |items| == threshold && Indexed(index[..threshold], items)
      ensures SortedOf(items) + Reverse(drops) == SortedOf(old(items)) && |drops| == |old(items)| - threshold
    {
      drops := [];
      ghost var m := items;
      var size := |items|;
      assert index[..size] == index;
      while size > threshold
        invariant threshold <= size == |items| <= |index| && |drops| == |m| - size
        invariant Filed(items) && Indexed(index[..size], items)
        invariant SortedOf(items) + Reverse(drops) == SortedOf(m)
      {
        var k := index[size - 1];
        ghost var r := Reverse(drops);
        BackIsGreatest(index, items, size);
        SortedBack(items, k);
        WithoutSize(items, k);
        ReverseAppend(drops, items[k]);
        drops := drops + [items[k]];
        items := Without(items, k);
        size := size - 1;
      }
    }

    /** Deletes a transaction by nonce. */
    method Remove(nonce: nat) returns (found: bool)
      requires Valid()
      modifies this
      ensures Valid() && found == (nonce in old(items)) && items == Without(old(items), nonce)
    {
      if nonce !in items {
        assert Without(items, nonce) == items;
        return false;
      }
      InIndex(index, items, nonce);
      var i := 0;
      while index[i] != nonce
        invariant 0 <= i < |index| && nonce in index[i..]
        decreases |index| - i
      {
        i := i + 1;
      }
      ghost var index0 := index;
      var x;
      x, index := RemoveAt(Id, index, i);
      IndexRemove(index0, index, items, nonce);
      items := Without(items, nonce);
      cache := None;
      return true;
    }

    /** Removes the transactions that satisfy the filter, in any order. */
    method Filter(filter: Tx -> bool) returns (removed: seq<Tx>)
      requires Valid()
      modifies this
      ensures Valid() && items == Rest(old(items), filter)
      ensures Filtered(removed, old(items), filter)
    {
      ghost var m := items;
      removed := [];
      var todo := items.Keys;
      while todo != {}
        invariant todo <= items.Keys && PartOf(m, items) && index == old(index) && cache == old(cache)
        invariant forall n :: n in m ==> (n in items <==> n in todo || !filter(m[n]))
        invariant FilteredSoFar(removed, m, filter, todo)
        decreases todo
      {
        var n :| n in todo;
        todo := todo - {n};
        if filter(items[n]) {
          FilterOne(removed, m, filter, todo, n);
          removed := removed + [items[n]];
          items := Without(items, n);
        } else {
          FilterSkip(removed, m, filter, todo, n);
        }
      }
      FilterEnd(removed, m, filter);
      assert items == Rest(m, filter);
      if |removed| > 0 {
        var list := Keys(items);
        index := Init(Id, list);
        IndexPermuted(list, index, items);
        cache := None;
      } else {
        NothingFiltered(removed, m, filter);
      }
    }

    /** The contents in nonce order; the result is cached. */
    method Flatten() returns (txs: seq<Tx>)
      requires Valid()
      modifies this`cache
      ensures Valid() && txs == SortedOf(items)
    {
      if cache.None? {
        var list := Values(items);
        var sorted := Sort((tx: Tx) => tx.nonce, list);
        SortedList(list, sorted, items);
        cache := Some(sorted);
      }
      return cache.value;
    }
  }

  /** The keys of the map, in any order. */
  method Keys(m: Items) returns (list: seq<nat>)
    ensures Indexed(list, m)
  {
    list := [];
    var todo := m.Keys;
    while todo != {}
      invariant todo <= m.Keys
      invariant forall n: nat :: multiset(list)[n] == if n in m && n !in todo then 1 else 0
      decreases todo
    {
      var n :| n in todo;
      todo := todo - {n};
      list := list + [n];
    }
    forall n: nat ensures IndexedAt(list, m, n) { }
  }

  /** The transactions of the map, in any order. */
  method Values(m: Items) returns (list: seq<Tx>)
    requires Filed(m)
    ensures Filtered(list, m, (tx: Tx) => true)
  {
    list := [];
    var todo := m.Keys;
    ghost var all := (tx: Tx) => true;
    while todo != {}
      invariant todo <= m.Keys && FilteredSoFar(list, m, all, todo)
      decreases todo
    {
      var n :| n in todo;
      todo := todo - {n};
      FilterOne(list, m, all, todo, n);
      list := list + [m[n]];
    }
    FilterEnd(list, m, all);
  }

  // ---------- lemmas for the methods above ----------

  /** `items` is part of `m`. */
  ghost predicate PartOf(m: Items, items: Items) {
    Filed(m) && Filed(items) && forall n :: n in items ==> n in m && items[n] == m[n]
  }

  ghost predicate FilteredSoFar(removed: seq<Tx>, m: Items, filter: Tx -> bool, todo: set<nat>) {
    forall tx {:trigger multiset(removed)[tx]} ::
      multiset(removed)[tx] == if tx.nonce in m && m[tx.nonce] == tx && filter(tx) && tx.nonce !in todo then 1 else 0
  }

  lemma FilterOne(removed: seq<Tx>, m: Items, filter: Tx -> bool, todo: set<nat>, n: nat)
    requires Filed(m) && n in m && n !in todo && filter(m[n]) && FilteredSoFar(removed, m, filter, todo + {n})
    ensures FilteredSoFar(removed + [m[n]], m, filter, todo)
  {
  }

  lemma FilterSkip(removed: seq<Tx>, m: Items, filter: Tx -> bool, todo: set<nat>, n: nat)
    requires Filed(m) && n in m && n !in todo && !filter(m[n]) && FilteredSoFar(removed, m, filter, todo + {n})
    ensures FilteredSoFar(removed, m, filter, todo)
  {
  }

  lemma FilterEnd(removed: seq<Tx>, m: Items, filter: Tx -> bool)
    requires FilteredSoFar(removed, m, filter, {})
    ensures Filtered(removed, m, filter)
  {
  }

  lemma NothingFiltered(removed: seq<Tx>, m: Items, filter: Tx -> bool)
    requires Filed(m) && Filtered(removed, m, filter) && removed == []
    ensures Rest(m, filter) == m
  {
    forall n | n in m ensures !filter(m[n]) {
      assert multiset(removed)[m[n]] == 0;
    }
  }

  lemma BackIsGreatest(index: seq<nat>, m: Items, size: nat)
    requires SortedBy(Id, index) && 1 <= size <= |index| && Indexed(index[..size], m)
    ensures index[size - 1] in m && forall k :: k in m.Keys ==> k <= index[size - 1]
    ensures Indexed(index[..size - 1], Without(m, index[size - 1]))
  {
    var last := index[size - 1];
    assert index[..size] == index[..size - 1] + [last];
    IndexRemove(index[..size], index[..size - 1], m, last);
    forall k | k in m.Keys ensures k <= last {
      InIndex(index[..size], m, k);
      var j :| 0 <= j < size && index[..size][j] == k;
      assert Id(index[j]) <= Id(last);
    }
  }

  /** A sorted list of all transactions is the sorted contents. */
  lemma SortedList(list: seq<Tx>, sorted: seq<Tx>, m: Items)
    requires Filed(m) && Filtered(list, m, (tx: Tx) => true)
    requires multiset(sorted) == multiset(list) && SortedBy((tx: Tx) => tx.nonce, sorted)
    ensures sorted == SortedOf(m)
  {
    forall i: nat | i < |sorted| ensures ItemAt(sorted, m, i) { assert sorted[i] in multiset(sorted); }
    forall i, j | 0 <= i < j < |sorted| ensures sorted[i].nonce < sorted[j].nonce {
      if sorted[i].nonce == sorted[j].nonce {
        assert ItemAt(sorted, m, i) && ItemAt(sorted, m, j);
        TwiceIn(sorted, i, j);
      }
    }
    forall n | n in m ensures HasNonce(sorted, n) {
      assert multiset(sorted)[m[n]] == 1;
      assert m[n] in sorted;
    }
    SortedUnique(sorted, m);
  }

  lemma TwiceIn(s: seq<Tx>, i: nat, j: nat)
    requires i < j < |s| && s[i] == s[j]
    ensures multiset(s)[s[i]] >= 2
  {
    assert s == s[..j] + [s[j]] + s[j + 1..];
    assert s[i] in s[..j];
  }

  lemma WithoutSizeFront(index: seq<nat>, m: Items)
    requires Indexed(index, m) && IsHeap(Id, index) && |index| > 0
    ensures index[0] in m && |Without(m, index[0])| == |m| - 1
  {
    FrontIsLeastNonce(index, m);
    WithoutSize(m, index[0]);
  }

  lemma RestAbove(index: seq<nat>, m: Items, t: nat)
    requires Indexed(index, m) && IsHeap(Id, index) && (|index| > 0 ==> index[0] >= t)
    ensures forall n :: n in m ==> n >= t
  {
    EmptyIndex(index, m);
    if |index| > 0 {
      FrontIsLeastNonce(index, m);
      assert forall n :: n in m ==> n in m.Keys;
    }
  }

  lemma SamePrefix(a: seq<Tx>, b: seq<Tx>, c: seq<Tx>, whole: seq<Tx>)
    requires a + c == whole && b + c == whole
    ensures a == b
  {
    assert |a| == |b|;
    assert a == whole[..|a|] && b == whole[..|b|];
  }
}
