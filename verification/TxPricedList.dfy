/**
  The price heap over all pooled transactions (txPricedList in
  core/tx_list.go). Transactions that left the pool stay in the heap as stale
  entries until they surface.
 */
module TxPricedLists {
  import opened Prelude
  import opened TxContents
  import opened Sorting
  import opened BinaryHeap

  type Pool = map<nat, Tx>

  function Price(tx: Tx): int {
    tx.price
  }

  predicate Live(all: Pool, tx: Tx) {
    tx.hash in all
  }

  predicate Remote(local: set<Address>, tx: Tx) {
    tx.sender !in local
  }

  /** What became of the entries for `tx`: live ones are in the heap, saved or
      dropped; stale ones may have been discarded. */
  ghost predicate EntryAt(all: Pool, before: seq<Tx>, h: seq<Tx>, save: seq<Tx>, drop: seq<Tx>, tx: Tx) {
    if Live(all, tx) then
      multiset(h)[tx] + multiset(save)[tx] + multiset(drop)[tx] == multiset(before)[tx]
    else
      multiset(save)[tx] == 0 && multiset(drop)[tx] == 0 && multiset(h)[tx] <= multiset(before)[tx]
  }

  ghost predicate Entries(all: Pool, before: seq<Tx>, h: seq<Tx>, save: seq<Tx>, drop: seq<Tx>) {
    forall tx {:trigger EntryAt(all, before, h, save, drop, tx)} :: EntryAt(all, before, h, save, drop, tx)
  }

  /** Every dropped entry is live and remote. */
  ghost predicate Droppable(all: Pool, local: set<Address>, drop: seq<Tx>) {
    forall tx :: tx in drop ==> Live(all, tx) && Remote(local, tx)
  }

  ghost predicate AllLocal(local: set<Address>, save: seq<Tx>) {
    forall tx :: tx in save ==> !Remote(local, tx)
  }

  ghost predicate Cheaper(a: seq<Tx>, b: seq<Tx>) {
    forall x, y :: x in a && y in b ==> x.price <= y.price
  }

  predicate Kept(all: Pool, local: set<Address>, tx: Tx) {
    Live(all, tx) && !Remote(local, tx)
  }

  /** What `Discard` promises: at most `count` live remote entries leave, cheapest
      first, and all stale ones on the way; fewer only if nothing but live local
      entries remains; nothing else that is live is lost. */
  ghost predicate Discarded(all: Pool, local: set<Address>, count: nat, before: seq<Tx>, after: seq<Tx>,
                            drop: seq<Tx>) {
    && Entries(all, before, after, [], drop) && Droppable(all, local, drop) && SortedBy(Price, drop)
    && |drop| <= count
    && (|drop| < count ==> forall y :: y in after ==> Kept(all, local, y))
    && forall x, y :: x in drop && y in after ==> Kept(all, local, y) || x.price <= y.price
  }

  /** What `Cap` promises: exactly the live remote entries under the threshold
      leave, and stale ones under it with them. */
  ghost predicate Capped(all: Pool, local: set<Address>, threshold: int, before: seq<Tx>, after: seq<Tx>,
                         drop: seq<Tx>) {
    && Entries(all, before, after, [], drop) && Droppable(all, local, drop) && SortedBy(Price, drop)
    && (forall x :: x in drop ==> x.price < threshold)
    && forall y :: y in after && y.price < threshold ==> Kept(all, local, y)
  }

  /** The heap has live entries and none is cheaper than `tx`. */
  ghost predicate NoneCheaper(all: Pool, items: seq<Tx>, tx: Tx) {
    (exists y :: y in items && Live(all, y)) && forall y :: y in items && Live(all, y) ==> y.price >= tx.price
  }

  class TxPricedList {
    var all: Pool
    var items: seq<Tx>
    var stales: int

    ghost predicate Valid()
      reads this
    {
      IsHeap(Price, items)
    }

    constructor (all: Pool)
      ensures Valid() && this.all == all && items == [] && stales == 0
    {
      this.all, items, stales := all, [], 0;
    }

    method Put(tx: Tx)
      requires Valid()
      modifies this`items
      ensures Valid() && multiset(items) == multiset(old(items)) + multiset{tx}
    {
      items := Push(Price, items, tx);
    }

    /** Counts a stale entry and rebuilds the heap from the pool once more than a
        quarter of the entries are stale. */
    method Removed()
      requires Valid() && Keyed(all)
      modifies this`items, this`stales
      ensures Valid()
      ensures old(stales) + 1 <= |old(items)| / 4 ==> items == old(items) && stales == old(stales) + 1
      ensures old(stales) + 1 > |old(items)| / 4 ==>
        stales == 0 && Tracks(all, items) && forall tx :: tx in items ==> Live(all, tx)
    {
      stales := stales + 1;
      if stales <= |items| / 4 {
        return;
      }
      var list := Values(all);
      stales := 0;
      items := Init(Price, list);
      TracksPermuted(all, list, items);
    }

    /** Takes the cheapest entry off the heap; a stale one is uncounted. */
    method PopEntry() returns (tx: Tx)
      requires Valid() && |items| > 0
      modifies this`items, this`stales
      ensures Valid() && multiset(items) + multiset{tx} == multiset(old(items)) && |items| + 1 == |old(items)|
      ensures stales == old(stales) - if Live(all, tx) then 0 else 1
      ensures tx in old(items) && (forall y :: y in items ==> y in old(items) && tx.price <= y.price)
    {
      ghost var items0 := items;
      tx, items := Pop(Price, items);
      MultisetSize(items0, items, tx);
      assert forall y :: y in items0 ==> Price(tx) <= Price(y);
      if !Live(all, tx) {
        stales := stales - 1;
      }
    }

    method Discard(count: nat, local: set<Address>) returns (drop: seq<Tx>)
      requires Valid()
      modifies this`items, this`stales
      ensures Valid() && Discarded(all, local, count, old(items), items, drop)
      ensures |old(items)| - old(stales) == |items| + |drop| - stales
    {
      ghost var before := items;
      drop := [];
      var save := [];
      StartEntries(all, items);
      while |items| > 0 && |drop| < count
        invariant Valid() && Entries(all, before, items, save, drop) && Droppable(all, local, drop)
        invariant AllLocal(local, save)
        invariant SortedBy(Price, drop) && Cheaper(drop, items) && |drop| <= count
        invariant |before| - old(stales) == |items| + |save| + |drop| - stales
        decreases |items|
      {
        ghost var h := items;
        var tx := PopEntry();
        MoveEntry(all, before, h, items, save, drop, tx);
        if Live(all, tx) {
          if !Remote(local, tx) {
            save := save + [tx];
          } else {
            AppendSorted(Price, drop, tx);
            drop := drop + [tx];
          }
        }
      }
      ghost var h := items;
      items := PushAll(items, save);
      Restored(all, before, h, items, save, drop);
    }

    method Cap(threshold: int, local: set<Address>) returns (drop: seq<Tx>)
      requires Valid()
      modifies this`items, this`stales
      ensures Valid() && Capped(all, local, threshold, old(items), items, drop)
      ensures |old(items)| - old(stales) == |items| + |drop| - stales
    {
      ghost var before := items;
      drop := [];
      var save := [];
      StartEntries(all, items);
      while |items| > 0
        invariant Valid() && Entries(all, before, items, save, drop) && Droppable(all, local, drop)
        invariant SortedBy(Price, drop) && Cheaper(drop, items) && forall x :: x in drop ==> x.price < threshold
        invariant forall y :: y in save ==> !Remote(local, y)
        invariant |before| - old(stales) == |items| + |save| + |drop| - stales
        decreases |items|
      {
        ghost var h := items;
        var tx := PopEntry();
        MoveEntry(all, before, h, items, save, drop, tx);
        if Live(all, tx) {
          if tx.price >= threshold {
            save := save + [tx];
            break;
          }
          if !Remote(local, tx) {
            save := save + [tx];
          } else {
            AppendSorted(Price, drop, tx);
            drop := drop + [tx];
          }
        }
      }
      ghost var h := items;
      items := PushAll(items, save);
      Restored(all, before, h, items, save, drop);
    }

    /** A remote transaction is underpriced when no live entry is cheaper. */
    method Underpriced(tx: Tx, local: set<Address>) returns (under: bool)
      requires Valid()
      modifies this`items, this`stales
      ensures Valid() && Entries(all, old(items), items, [], [])
      ensures under <==> Remote(local, tx) && NoneCheaper(all, old(items), tx)
      ensures Remote(local, tx) ==> items == [] || Live(all, items[0])
      ensures |old(items)| - old(stales) == |items| - stales
    {
      ghost var before := items;
      StartEntries(all, items);
      if !Remote(local, tx) {
        return false;
      }
      while |items| > 0 && !Live(all, items[0])
        invariant Valid() && Entries(all, before, items, [], [])
        invariant |before| - old(stales) == |items| - stales
        decreases |items|
      {
        ghost var h := items;
        var head := PopEntryAt0();
        MoveEntry(all, before, h, items, [], [], head);
      }
      SameLive(all, before, items);
      if |items| == 0 {
        return false;
      }
      forall y | y in items ensures items[0].price <= y.price {
        var j :| 0 <= j < |items| && items[j] == y;
        FrontIsLeast(Price, items, j);
      }
      return items[0].price >= tx.price;
    }

    /** Takes off the front entry. */
    method PopEntryAt0() returns (tx: Tx)
      requires Valid() && |items| > 0
      modifies this`items, this`stales
      ensures Valid() && tx == old(items)[0] && multiset(items) + multiset{tx} == multiset(old(items))
      ensures |items| + 1 == |old(items)| && stales == old(stales) - 1
    {
      ghost var items0 := items;
      stales := stales - 1;
      tx, items := Pop(Price, items);
      MultisetSize(items0, items, tx);
    }
  }

  method PushAll(h0: seq<Tx>, save: seq<Tx>) returns (h: seq<Tx>)
    requires IsHeap(Price, h0)
    ensures IsHeap(Price, h) && multiset(h) == multiset(h0) + multiset(save)
    ensures |h| == |h0| + |save|
  {
    h := h0;
    for i := 0 to |save|
      invariant IsHeap(Price, h) && multiset(h) == multiset(h0) + multiset(save[..i]) && |h| == |h0| + i
    {
      ghost var h1 := h;
      h := Push(Price, h, save[i]);
      MultisetSize(h, h1, save[i]);
      assert save[..i + 1] == save[..i] + [save[i]];
    }
    assert save[..|save|] == save;
  }

  // ---------- entries ----------

  lemma StartEntries(all: Pool, h: seq<Tx>)
    ensures Entries(all, h, h, [], [])
  {
    forall tx ensures EntryAt(all, h, h, [], [], tx) { }
  }

  /** A popped entry may be discarded if stale, saved or dropped if live. */
  lemma MoveEntry(all: Pool, before: seq<Tx>, h: seq<Tx>, h': seq<Tx>, save: seq<Tx>, drop: seq<Tx>, x: Tx)
    requires Entries(all, before, h, save, drop) && multiset(h') + multiset{x} == multiset(h)
    ensures !Live(all, x) ==> Entries(all, before, h', save, drop)
    ensures Live(all, x) ==> Entries(all, before, h', save + [x], drop) && Entries(all, before, h', save, drop + [x])
  {
    forall tx
      ensures !Live(all, x) ==> EntryAt(all, before, h', save, drop, tx)
      ensures Live(all, x) ==>
        EntryAt(all, before, h', save + [x], drop, tx) && EntryAt(all, before, h', save, drop + [x], tx)
    {
      assert EntryAt(all, before, h, save, drop, tx);
      assert (multiset(h') + multiset{x})[tx] == multiset(h)[tx];
    }
  }

  lemma Restored(all: Pool, before: seq<Tx>, h: seq<Tx>, h': seq<Tx>, save: seq<Tx>, drop: seq<Tx>)
    requires Entries(all, before, h, save, drop) && multiset(h') == multiset(h) + multiset(save)
    ensures Entries(all, before, h', [], drop)
    ensures forall y :: y in h' ==> y in h || (y in save && Live(all, y))
  {
    forall tx ensures EntryAt(all, before, h', [], drop, tx) {
      assert EntryAt(all, before, h, save, drop, tx);
    }
    forall y | y in h' ensures y in h || (y in save && Live(all, y)) {
      assert y in multiset(h');
      assert EntryAt(all, before, h, save, drop, y);
    }
  }

  lemma SameLive(all: Pool, before: seq<Tx>, h: seq<Tx>)
    requires Entries(all, before, h, [], [])
    ensures forall y :: Live(all, y) ==> (y in before <==> y in h)
  {
    forall y | Live(all, y) ensures y in before <==> y in h {
      assert EntryAt(all, before, h, [], [], y);
      assert (y in before <==> y in multiset(before)) && (y in h <==> y in multiset(h));
    }
  }

  // ---------- over the whole pool ----------

  ghost predicate Keyed(all: Pool) {
    forall h :: h in all ==> all[h].hash == h
  }

  /** The heap holds every pooled transaction once; it may hold stale entries too. */
  ghost predicate Tracks(all: Pool, items: seq<Tx>) {
    forall tx {:trigger multiset(items)[tx]} ::
      Live(all, tx) ==> multiset(items)[tx] == if all[tx.hash] == tx then 1 else 0
  }

  /** The transactions of the pool, in any order. */
  method Values(all: Pool) returns (list: seq<Tx>)
    requires Keyed(all)
    ensures Tracks(all, list) && forall tx :: tx in list ==> Live(all, tx)
  {
    list := [];
    var todo := all.Keys;
    while todo != {}
      invariant todo <= all.Keys && forall tx :: tx in list ==> Live(all, tx)
      invariant forall tx {:trigger multiset(list)[tx]} ::
        Live(all, tx) ==> multiset(list)[tx] == if all[tx.hash] == tx && tx.hash !in todo then 1 else 0
      decreases todo
    {
      var h :| h in todo;
      todo := todo - {h};
      list := list + [all[h]];
    }
  }

  lemma TracksPermuted(all: Pool, list: seq<Tx>, items: seq<Tx>)
    requires Tracks(all, list) && multiset(items) == multiset(list) && forall tx :: tx in list ==> Live(all, tx)
    ensures Tracks(all, items) && forall tx :: tx in items ==> Live(all, tx)
  {
    forall tx | tx in items ensures Live(all, tx) { assert tx in multiset(items); }
  }

  ghost function RemoteHashes(all: Pool, local: set<Address>): set<nat> {
    set h | h in all && Remote(local, all[h])
  }

  ghost function Hashes(s: seq<Tx>): set<nat> {
    set i | 0 <= i < |s| :: s[i].hash
  }

  ghost predicate Distinct(s: seq<Tx>) {
    forall i, j :: 0 <= i < j < |s| ==> s[i].hash != s[j].hash
  }

  lemma {:induction false} DistinctSize(s: seq<Tx>)
    requires Distinct(s)
    ensures |Hashes(s)| == |s|
  {
    if s != [] {
      var t, last := s[..|s| - 1], s[|s| - 1].hash;
      DistinctSize(t);
      HashesAppend(t, s[|s| - 1]);
      assert s == t + [s[|s| - 1]];
      forall i | 0 <= i < |t| ensures t[i].hash != last { assert s[i].hash != last; }
    }
  }

  lemma HashesAppend(s: seq<Tx>, tx: Tx)
    ensures Hashes(s + [tx]) == Hashes(s) + {tx.hash}
  {
    var t := s + [tx];
    forall h ensures h in Hashes(t) <==> h in Hashes(s) || h == tx.hash {
      if h in Hashes(s) {
        var i :| 0 <= i < |s| && s[i].hash == h;
        assert t[i].hash == h;
      }
      if h == tx.hash {
        assert t[|s|].hash == h;
      }
    }
  }

  lemma TwiceCounted(s: seq<Tx>, i: nat, j: nat)
    requires i < j < |s|
    ensures s[i] == s[j] ==> multiset(s)[s[i]] >= 2
  {
    assert s == s[..j] + [s[j]] + s[j + 1..] && s[i] in s[..j];
  }

  /** Dropped entries are pooled transactions, each dropped once. */
  lemma DroppedDistinct(all: Pool, local: set<Address>, before: seq<Tx>, after: seq<Tx>, drop: seq<Tx>)
    requires Keyed(all) && Tracks(all, before) && Entries(all, before, after, [], drop) && Droppable(all, local, drop)
    ensures Distinct(drop) && Hashes(drop) <= RemoteHashes(all, local)
    ensures forall i :: 0 <= i < |drop| ==> drop[i].hash in all && all[drop[i].hash] == drop[i]
    ensures forall h :: h in RemoteHashes(all, local) && h !in Hashes(drop) ==> all[h] in after
  {
    forall i | 0 <= i < |drop| ensures drop[i].hash in all && all[drop[i].hash] == drop[i] {
      assert drop[i] in drop && EntryAt(all, before, after, [], drop, drop[i]);
      assert multiset(drop)[drop[i]] > 0;
    }
    forall i, j | 0 <= i < j < |drop| ensures drop[i].hash != drop[j].hash {
      assert EntryAt(all, before, after, [], drop, drop[i]) && drop[i] in drop;
      TwiceCounted(drop, i, j);
    }
    forall h | h in RemoteHashes(all, local) && h !in Hashes(drop) ensures all[h] in after {
      assert EntryAt(all, before, after, [], drop, all[h]) && Live(all, all[h]);
      assert multiset(before)[all[h]] == 1;
      assert all[h] !in drop;
      assert all[h] in multiset(after);
    }
  }

  /** `Discard(count)` returns the min(count, available) cheapest remote
      transactions of the pool, given that the heap lists none of them twice. */
  lemma DiscardCheapest(all: Pool, local: set<Address>, count: nat, before: seq<Tx>, after: seq<Tx>, drop: seq<Tx>)
    requires Keyed(all) && Tracks(all, before) && Discarded(all, local, count, before, after, drop)
    ensures var available := |RemoteHashes(all, local)|;
      |Hashes(drop)| == |drop| == if count <= available then count else available
    ensures Hashes(drop) <= RemoteHashes(all, local)
    ensures forall i, h :: 0 <= i < |drop| && h in RemoteHashes(all, local) && h !in Hashes(drop) ==>
      drop[i].price <= all[h].price
  {
    DroppedDistinct(all, local, before, after, drop);
    DistinctSize(drop);
    Subset(Hashes(drop), RemoteHashes(all, local));
    if |drop| < count {
      assert Hashes(drop) == RemoteHashes(all, local);
    }
    forall i, h | 0 <= i < |drop| && h in RemoteHashes(all, local) && h !in Hashes(drop)
      ensures drop[i].price <= all[h].price
    {
      assert drop[i] in drop && all[h] in after && Live(all, all[h]);
    }
  }

  lemma Subset(a: set<nat>, b: set<nat>)
    requires a <= b
    ensures |a| <= |b|
  {
    assert b == a + (b - a);
  }

  /** `Cap(threshold)` returns exactly the remote transactions of the pool under
      the threshold. */
  lemma CapExact(all: Pool, local: set<Address>, threshold: int, before: seq<Tx>, after: seq<Tx>, drop: seq<Tx>)
    requires Keyed(all) && Tracks(all, before) && Capped(all, local, threshold, before, after, drop)
    ensures Hashes(drop) == (set h | h in RemoteHashes(all, local) && all[h].price < threshold)
    ensures |Hashes(drop)| == |drop|
  {
    DroppedDistinct(all, local, before, after, drop);
    DistinctSize(drop);
    forall i | 0 <= i < |drop| ensures drop[i].price < threshold { assert drop[i] in drop; }
  }

  /** The heap keeps tracking the pool once the dropped transactions leave it. */
  lemma StillTracks(all: Pool, local: set<Address>, before: seq<Tx>, after: seq<Tx>, drop: seq<Tx>)
    requires Keyed(all) && Tracks(all, before) && Entries(all, before, after, [], drop) && Droppable(all, local, drop)
    ensures Tracks(all - Hashes(drop), after)
  {
    DroppedDistinct(all, local, before, after, drop);
    var all' := all - Hashes(drop);
    forall tx | Live(all', tx) ensures multiset(after)[tx] == if all'[tx.hash] == tx then 1 else 0 {
      assert EntryAt(all, before, after, [], drop, tx);
      assert multiset(before)[tx] == if all[tx.hash] == tx then 1 else 0;
      assert tx !in drop;
      assert tx !in multiset(drop);
    }
  }

  /** Live entries are those of the pool. */
  ghost predicate Agrees(all: Pool, items: seq<Tx>) {
    forall tx :: tx in items && Live(all, tx) ==> all[tx.hash] == tx
  }

  /** No live remote transaction is listed twice. */
  ghost predicate OnceEach(all: Pool, local: set<Address>, items: seq<Tx>) {
    forall tx {:trigger multiset(items)[tx]} :: Live(all, tx) && Remote(local, tx) ==> multiset(items)[tx] <= 1
  }

  lemma {:induction false} OnceInDistinct(s: seq<Tx>, tx: Tx)
    requires Distinct(s)
    ensures multiset(s)[tx] <= 1
  {
    if s != [] {
      var t := s[..|s| - 1];
      assert s == t + [s[|s| - 1]];
      OnceInDistinct(t, tx);
      if tx == s[|s| - 1] {
        assert tx !in t;
        assert tx !in multiset(t);
      }
    }
  }

  /** A discard of any size returns distinct transactions if none is listed twice. */
  lemma OnceDistinct(all: Pool, local: set<Address>, count: nat, before: seq<Tx>, after: seq<Tx>, drop: seq<Tx>)
    requires Agrees(all, before) && OnceEach(all, local, before) && Discarded(all, local, count, before, after, drop)
    ensures Distinct(drop)
  {
    forall i, j | 0 <= i < j < |drop| ensures drop[i].hash != drop[j].hash {
      DroppedFrom(all, before, after, drop, i);
      DroppedFrom(all, before, after, drop, j);
      assert drop[i] in drop && multiset(before)[drop[i]] <= 1;
      TwiceCounted(drop, i, j);
    }
  }

  ghost predicate AlwaysDistinct(all: Pool, local: set<Address>, before: seq<Tx>) {
    forall count: nat, after, drop {:trigger Discarded(all, local, count, before, after, drop)} ::
      Discarded(all, local, count, before, after, drop) ==> Distinct(drop)
  }

  /** Discards of every size return distinct transactions if and only if the heap
      lists no live remote transaction twice. */
  lemma DistinctIff(all: Pool, local: set<Address>, before: seq<Tx>)
    requires Agrees(all, before)
    ensures AlwaysDistinct(all, local, before) <==> OnceEach(all, local, before)
  {
    if OnceEach(all, local, before) {
      forall count: nat, after, drop | Discarded(all, local, count, before, after, drop) ensures Distinct(drop) {
        OnceDistinct(all, local, count, before, after, drop);
      }
    }
    if AlwaysDistinct(all, local, before) {
      var after, drop := DiscardAll(all, local, before);
      AllDropped(all, local, before, after, drop);
    }
  }

  /** A discard of more than there are returns distinct transactions if and only if
      none is listed twice. */
  lemma AllDropped(all: Pool, local: set<Address>, before: seq<Tx>, after: seq<Tx>, drop: seq<Tx>)
    requires Agrees(all, before) && Discarded(all, local, |before| + 1, before, after, drop)
    ensures Distinct(drop) <==> OnceEach(all, local, before)
  {
    if OnceEach(all, local, before) {
      OnceDistinct(all, local, |before| + 1, before, after, drop);
    }
    if Distinct(drop) {
      DropSize(all, before, after, drop);
      forall tx | Live(all, tx) && Remote(local, tx) ensures multiset(before)[tx] <= 1 {
        assert EntryAt(all, before, after, [], drop, tx);
        OnceInDistinct(drop, tx);
        assert tx !in after;
        assert tx !in multiset(after);
      }
    }
  }

  // ---------- the discard of everything ----------

  ghost function Pick(s: seq<Tx>, f: Tx -> bool): seq<Tx> {
    if s == [] then [] else Pick(s[..|s| - 1], f) + if f(s[|s| - 1]) then [s[|s| - 1]] else []
  }

  lemma {:induction false} PickCount(s: seq<Tx>, f: Tx -> bool, tx: Tx)
    ensures multiset(Pick(s, f))[tx] == if f(tx) then multiset(s)[tx] else 0
  {
    if s != [] {
      PickCount(s[..|s| - 1], f, tx);
      assert s == s[..|s| - 1] + [s[|s| - 1]];
    }
  }

  ghost function InsertByPrice(s: seq<Tx>, x: Tx): seq<Tx> {
    if s == [] || s[|s| - 1].price <= x.price then s + [x]
    else InsertByPrice(s[..|s| - 1], x) + [s[|s| - 1]]
  }

  lemma {:induction false} InsertSorted(s: seq<Tx>, x: Tx)
    requires SortedBy(Price, s)
    ensures SortedBy(Price, InsertByPrice(s, x)) && multiset(InsertByPrice(s, x)) == multiset(s) + multiset{x}
  {
    if s == [] || s[|s| - 1].price <= x.price {
      AppendSorted(Price, s, x);
    } else {
      var init, last := s[..|s| - 1], s[|s| - 1];
      assert s == init + [last];
      InsertSorted(init, x);
      forall y | y in InsertByPrice(init, x) ensures Price(y) <= Price(last) {
        assert y in multiset(InsertByPrice(init, x));
        assert y in init || y == x;
      }
      AppendSorted(Price, InsertByPrice(init, x), last);
    }
  }

  ghost function ByPrice(s: seq<Tx>): seq<Tx> {
    if s == [] then [] else InsertByPrice(ByPrice(s[..|s| - 1]), s[|s| - 1])
  }

  lemma {:induction false} ByPriceSorted(s: seq<Tx>)
    ensures SortedBy(Price, ByPrice(s)) && multiset(ByPrice(s)) == multiset(s)
  {
    if s != [] {
      var init, last := s[..|s| - 1], s[|s| - 1];
      assert s == init + [last];
      ByPriceSorted(init);
      InsertSorted(ByPrice(init), last);
      assert ByPrice(s) == InsertByPrice(ByPrice(init), last);
    }
  }

  /** Asking for more than there are is a possible discard of all live remote entries. */
  lemma DiscardAll(all: Pool, local: set<Address>, before: seq<Tx>) returns (after: seq<Tx>, drop: seq<Tx>)
    ensures Discarded(all, local, |before| + 1, before, after, drop)
    ensures forall y :: y in after ==> Kept(all, local, y)
  {
    var gone := (tx: Tx) => Live(all, tx) && Remote(local, tx);
    var kept := (tx: Tx) => Kept(all, local, tx);
    after, drop := Pick(before, kept), ByPrice(Pick(before, gone));
    ByPriceSorted(Pick(before, gone));
    forall tx
      ensures EntryAt(all, before, after, [], drop, tx) && (tx in drop ==> gone(tx)) && (tx in after ==> kept(tx))
    {
      PickCount(before, gone, tx);
      PickCount(before, kept, tx);
      assert (tx in drop <==> tx in multiset(drop)) && (tx in after <==> tx in multiset(after));
    }
    DropSize(all, before, after, drop);
  }

  lemma DroppedFrom(all: Pool, before: seq<Tx>, after: seq<Tx>, drop: seq<Tx>, i: nat)
    requires Entries(all, before, after, [], drop) && i < |drop|
    ensures Live(all, drop[i]) && drop[i] in before && multiset(drop)[drop[i]] <= multiset(before)[drop[i]]
  {
    assert EntryAt(all, before, after, [], drop, drop[i]);
    assert drop[i] in drop && drop[i] in multiset(drop) && drop[i] in multiset(before);
  }

  lemma DropSize(all: Pool, before: seq<Tx>, after: seq<Tx>, drop: seq<Tx>)
    requires Entries(all, before, after, [], drop)
    ensures |drop| <= |before|
  {
    forall tx ensures multiset(drop)[tx] <= multiset(before)[tx] { assert EntryAt(all, before, after, [], drop, tx); }
    assert multiset(drop) <= multiset(before);
    assert multiset(before) == multiset(drop) + (multiset(before) - multiset(drop));
    assert |multiset(before)| == |before| && |multiset(drop)| == |drop|;
  }

  // ---------- what being underpriced means ----------

  /** A discard of one may return `tx`. */
  ghost predicate MayReturn(all: Pool, items: seq<Tx>, tx: Tx) {
    exists after {:trigger Discarded(all, {}, 1, items, after, [tx])} :: Discarded(all, {}, 1, items, after, [tx])
  }

  /** With live entries in the heap and no local accounts, a transaction is underpriced if and
      only if, once added, it could itself be the one that a discard returns. */
  lemma UnderpricedIff(all: Pool, items: seq<Tx>, items': seq<Tx>, tx: Tx)
    requires tx.hash !in all && HashOf(items, tx) && PutOne(items, items', tx)
    requires exists y :: y in items && Live(all, y)
    ensures NoneCheaper(all, items, tx) <==> MayReturn(all[tx.hash := tx], items', tx)
  {
    var all' := all[tx.hash := tx];
    if NoneCheaper(all, items, tx) {
      var after := Spared(all, items, items', tx);
      assert Discarded(all', {}, 1, items', after, [tx]);
    }
    if MayReturn(all', items', tx) {
      var after :| Discarded(all', {}, 1, items', after, [tx]);
      forall y | y in items && Live(all, y) ensures y.price >= tx.price {
        assert EntryAt(all', items', after, [], [tx], y);
        assert y in multiset(items) && y != tx && (y in after <==> y in multiset(after));
        assert tx in [tx];
      }
    }
  }

  /** The discard of `tx` itself leaves the live entries. */
  lemma Spared(all: Pool, items: seq<Tx>, items': seq<Tx>, tx: Tx) returns (after: seq<Tx>)
    requires tx.hash !in all && HashOf(items, tx) && PutOne(items, items', tx) && NoneCheaper(all, items, tx)
    ensures Discarded(all[tx.hash := tx], {}, 1, items', after, [tx])
  {
    var all' := all[tx.hash := tx];
    var live := (t: Tx) => t.hash in all';
    after := Pick(items, live);
    forall t ensures EntryAt(all', items', after, [], [tx], t) && (t in after ==> t in items && live(t)) {
      PickCount(items, live, t);
      assert (t in after <==> t in multiset(after)) && (t in items <==> t in multiset(items));
      assert multiset(items')[t] == multiset(items)[t] + if t == tx then 1 else 0;
    }
  }

  // ---------- how a transaction comes to be listed twice ----------

  /** The heap has one entry more, for `tx`. */
  ghost predicate PutOne(items: seq<Tx>, items': seq<Tx>, tx: Tx) {
    multiset(items') == multiset(items) + multiset{tx}
  }

  /** Entries with the hash of `tx` are entries for `tx`. */
  ghost predicate HashOf(items: seq<Tx>, tx: Tx) {
    forall t :: t in items && t.hash == tx.hash ==> t == tx
  }

  /** Putting a transaction that is new to the pool keeps the heap in step if and
      only if no stale entry for it is left. */
  lemma PutTracks(all: Pool, items: seq<Tx>, items': seq<Tx>, tx: Tx)
    requires Tracks(all, items) && tx.hash !in all && HashOf(items, tx) && PutOne(items, items', tx)
    ensures Tracks(all[tx.hash := tx], items') <==> tx !in items
  {
    var all' := all[tx.hash := tx];
    assert (multiset(items) + multiset{tx})[tx] == multiset(items)[tx] + 1;
    assert tx in items <==> tx in multiset(items);
    assert Live(all', tx);
    if tx !in items {
      forall t | Live(all', t) ensures multiset(items')[t] == if all'[t.hash] == t then 1 else 0 {
        assert (multiset(items) + multiset{tx})[t] == multiset(items)[t] + if t == tx then 1 else 0;
        assert t in items <==> t in multiset(items);
        assert t.hash != tx.hash ==> Live(all, t);
      }
    }
  }

  /** Putting a remote transaction that is live already, or whose stale entry is
      left, makes it possible to discard it twice. */
  lemma PutAgain(all: Pool, local: set<Address>, items: seq<Tx>, items': seq<Tx>, tx: Tx)
    requires tx in items && PutOne(items, items', tx) && Agrees(all, items')
    requires Live(all, tx) && Remote(local, tx)
    ensures !AlwaysDistinct(all, local, items')
  {
    DistinctIff(all, local, items');
    assert tx in multiset(items) && (multiset(items) + multiset{tx})[tx] >= 2;
    assert multiset(items')[tx] >= 2;
  }

  /** The cheapest remote transaction, listed twice, is discarded twice. */
  lemma TwiceCheapest(all: Pool, before: seq<Tx>, after: seq<Tx>, drop: seq<Tx>, tx: Tx)
    requires Discarded(all, {}, 2, before, after, drop) && Live(all, tx) && multiset(before)[tx] == 2
    requires forall t :: t in before ==> t == tx || tx.price < t.price
    ensures drop == [tx, tx]
  {
    assert EntryAt(all, before, after, [], drop, tx);
    assert (tx in after <==> tx in multiset(after)) && (tx in drop <==> tx in multiset(drop));
    forall i | 0 <= i < |drop| ensures tx in after ==> drop[i] == tx {
      DroppedFrom(all, before, after, drop, i);
      assert drop[i] in drop;
    }
    assert |drop| < 2 ==> tx !in after;
    SmallCount(drop, tx);
  }

  lemma SmallCount(s: seq<Tx>, tx: Tx)
    requires |s| <= 2
    ensures multiset(s)[tx] <= |s| && (multiset(s)[tx] == 2 <==> s == [tx, tx])
  {
    if |s| == 1 {
      assert s == [s[0]];
    } else if |s| == 2 {
      assert s == [s[0], s[1]];
    }
  }
}
