/**
  Runs of the pool over its price heap: how a transaction comes to be listed
  twice when it leaves and comes back, or when it is queued again because one
  before it was removed.
 */
module PricedRuns {
  import opened Prelude
  import opened TxContents
  import opened TxPricedLists
  import opened Sorting

  /** The pooled transactions, the heap and its count of stale entries. */
  datatype Priced = Priced(all: Pool, items: seq<Tx>, stales: int)

  const EMPTY: Priced := Priced(map[], [], 0)

  /** A transaction is pooled and put on the heap, or leaves and is counted as stale. */
  datatype Step = Add(tx: Tx) | Leave(tx: Tx)

  /** What `Removed` promises: up to a quarter of the entries may be stale. */
  ghost predicate Recounted(s: Priced, s': Priced) {
    && s'.all == s.all
    && if s.stales + 1 <= |s.items| / 4 then s'.items == s.items && s'.stales == s.stales + 1
       else s'.stales == 0 && Tracks(s.all, s'.items) && forall tx :: tx in s'.items ==> Live(s.all, tx)
  }

  ghost predicate Does(s: Priced, step: Step, s': Priced) {
    match step
    case Add(tx) => s'.all == s.all[tx.hash := tx] && s'.stales == s.stales && PutOne(s.items, s'.items, tx)
    case Leave(tx) => Recounted(s.(all := s.all - {tx.hash}), s')
  }

  ghost predicate DoesAt(trace: seq<Priced>, steps: seq<Step>, i: nat)
    requires i < |steps| && |trace| == |steps| + 1
  {
    Does(trace[i], steps[i], trace[i + 1])
  }

  /** The states of a run, from before the first step to after the last. */
  ghost predicate Runs(trace: seq<Priced>, steps: seq<Step>) {
    |trace| == |steps| + 1 && forall i: nat :: i < |steps| ==> DoesAt(trace, steps, i)
  }

  ghost function Last(trace: seq<Priced>): Priced
    requires trace != []
  {
    trace[|trace| - 1]
  }

  lemma RunsThen(trace: seq<Priced>, steps: seq<Step>, step: Step, s: Priced)
    requires Runs(trace, steps) && Does(Last(trace), step, s)
    ensures Runs(trace + [s], steps + [step])
  {
    var trace', steps' := trace + [s], steps + [step];
    forall i: nat | i < |steps'| ensures DoesAt(trace', steps', i) {
      if i < |steps| {
        assert DoesAt(trace, steps, i);
      }
    }
  }

  lemma RunsJoin(trace: seq<Priced>, steps: seq<Step>, more: seq<Priced>, next: seq<Step>)
    requires Runs(trace, steps) && Runs(more, next) && more[0] == Last(trace)
    ensures Runs(trace + more[1..], steps + next) && Last(trace + more[1..]) == Last(more)
  {
    var trace', steps' := trace + more[1..], steps + next;
    forall i: nat | i < |steps'| ensures DoesAt(trace', steps', i) {
      if i < |steps| {
        assert DoesAt(trace, steps, i);
      } else {
        assert DoesAt(more, next, i - |steps|);
      }
    }
  }

  ghost function Now(list: TxPricedList): Priced
    reads list
  {
    Priced(list.all, list.items, list.stales)
  }

  /** The pool takes in a transaction. */
  method Join(list: TxPricedList, tx: Tx)
    requires list.Valid() && Keyed(list.all)
    modifies list
    ensures list.Valid() && Keyed(list.all) && Does(old(Now(list)), Add(tx), Now(list))
  {
    list.all := list.all[tx.hash := tx];
    list.Put(tx);
  }

  /** A transaction leaves the pool. */
  method Drop(list: TxPricedList, tx: Tx)
    requires list.Valid() && Keyed(list.all)
    modifies list
    ensures list.Valid() && Keyed(list.all) && Does(old(Now(list)), Leave(tx), Now(list))
  {
    list.all := list.all - {tx.hash};
    list.Removed();
  }

  // ---------- adding many ----------

  function Adds(txs: seq<Tx>): seq<Step> {
    seq(|txs|, i requires 0 <= i < |txs| => Add(txs[i]))
  }

  function Joined(all: Pool, txs: seq<Tx>): Pool {
    if txs == [] then all else Joined(all, txs[..|txs| - 1])[txs[|txs| - 1].hash := txs[|txs| - 1]]
  }

  /** `s'` is `s` with transactions added. */
  ghost predicate Grown(s: Priced, txs: seq<Tx>, s': Priced) {
    && s'.all == Joined(s.all, txs) && s'.stales == s.stales
    && multiset(s'.items) == multiset(s.items) + multiset(txs) && |s'.items| == |s.items| + |txs|
  }

  lemma GrownOne(s: Priced, txs: seq<Tx>, mid: Priced, tx: Tx, s': Priced)
    requires Grown(s, txs, mid) && Does(mid, Add(tx), s')
    ensures Grown(s, txs + [tx], s')
  {
    MultisetSize(s'.items, mid.items, tx);
    assert (txs + [tx])[..|txs|] == txs;
  }

  lemma {:induction false} AddsRun(trace: seq<Priced>, steps: seq<Step>, from: nat, txs: seq<Tx>)
    requires Runs(trace, steps) && from + |txs| <= |steps| && steps[from..from + |txs|] == Adds(txs)
    ensures Grown(trace[from], txs, trace[from + |txs|])
    decreases |txs|
  {
    if txs != [] {
      var init, tx := txs[..|txs| - 1], txs[|txs| - 1];
      var to := from + |init|;
      assert steps[from..from + |txs|][..|init|] == steps[from..to] && Adds(txs)[..|init|] == Adds(init);
      AddsRun(trace, steps, from, init);
      assert steps[to] == Adds(txs)[|init|] == Add(tx) && DoesAt(trace, steps, to);
      GrownOne(trace[from], init, trace[to], tx, trace[to + 1]);
      assert init + [tx] == txs;
    }
  }

  lemma {:induction false} JoinedAt(txs: seq<Tx>, i: nat)
    requires Distinct(txs) && i < |txs|
    ensures txs[i].hash in Joined(map[], txs) && Joined(map[], txs)[txs[i].hash] == txs[i]
  {
    if i < |txs| - 1 {
      JoinedAt(txs[..|txs| - 1], i);
    }
  }

  lemma {:induction false} JoinedIn(txs: seq<Tx>, tx: Tx)
    requires Distinct(txs)
    ensures tx in txs <==> tx.hash in Joined(map[], txs) && Joined(map[], txs)[tx.hash] == tx
  {
    if txs != [] {
      var init, last := txs[..|txs| - 1], txs[|txs| - 1];
      assert txs == init + [last];
      JoinedIn(init, tx);
      if tx in init {
        var i :| 0 <= i < |init| && init[i] == tx;
        assert txs[i].hash != last.hash;
      }
    }
  }

  lemma {:induction false} JoinedKeys(txs: seq<Tx>)
    ensures Joined(map[], txs).Keys == Hashes(txs)
  {
    if txs != [] {
      var init, last := txs[..|txs| - 1], txs[|txs| - 1];
      JoinedKeys(init);
      HashesAppend(init, last);
      assert txs == init + [last];
    }
  }

  /** A heap filled from nothing lists every pooled transaction once. */
  lemma AddedTracks(txs: seq<Tx>, trace: seq<Priced>)
    requires Distinct(txs) && Runs(trace, Adds(txs)) && trace[0] == EMPTY
    ensures Last(trace).all == Joined(map[], txs) && Tracks(Last(trace).all, Last(trace).items)
  {
    assert Adds(txs)[0..0 + |txs|] == Adds(txs);
    AddsRun(trace, Adds(txs), 0, txs);
    var last := Last(trace);
    forall tx | Live(last.all, tx) ensures multiset(last.items)[tx] == if last.all[tx.hash] == tx then 1 else 0 {
      JoinedIn(txs, tx);
      OnceInDistinct(txs, tx);
      assert tx in txs <==> tx in multiset(txs);
    }
  }

  lemma {:induction false} JoinedSame(all: Pool, txs: seq<Tx>)
    requires forall tx :: tx in txs ==> tx.hash in all && all[tx.hash] == tx
    ensures Joined(all, txs) == all
  {
    if txs != [] {
      assert txs[|txs| - 1] in txs;
      JoinedSame(all, txs[..|txs| - 1]);
    }
  }

  // ---------- leaving and coming back ----------

  /** Some transactions are added, the first one leaves and comes back. */
  function ThereAndBack(txs: seq<Tx>): seq<Step>
    requires txs != []
  {
    Adds(txs) + [Leave(txs[0]), Add(txs[0])]
  }

  lemma {:induction false} BackOnHeap(txs: seq<Tx>, trace: seq<Priced>)
    requires txs != [] && Distinct(txs) && Runs(trace, ThereAndBack(txs)) && trace[0] == EMPTY
    ensures var gone, last := trace[|txs| + 1], Last(trace);
      && last.all == Joined(map[], txs) && PutOne(gone.items, last.items, txs[0])
      && if |txs| >= 4 then multiset(gone.items) == multiset(txs)
         else gone.all == last.all - {txs[0].hash} && Tracks(gone.all, gone.items)
              && forall tx :: tx in gone.items ==> Live(gone.all, tx)
  {
    var tx, steps, n := txs[0], ThereAndBack(txs), |txs|;
    assert steps[0..0 + n] == Adds(txs);
    AddsRun(trace, steps, 0, txs);
    assert steps[n] == Leave(tx) && DoesAt(trace, steps, n);
    assert steps[n + 1] == Add(tx) && DoesAt(trace, steps, n + 1);
    JoinedAt(txs, 0);
    assert (trace[n].all - {tx.hash})[tx.hash := tx] == trace[n].all;
  }

  lemma TracksOnce(all: Pool, local: set<Address>, items: seq<Tx>)
    requires Tracks(all, items)
    ensures Agrees(all, items) && OnceEach(all, local, items)
  {
    forall tx | tx in items && Live(all, tx) ensures all[tx.hash] == tx {
      assert tx in multiset(items);
    }
  }

  /** Leaving and coming back is harmless if and only if the heap is so short that
      one stale entry makes it be rebuilt, or the account is local: otherwise the
      transaction is listed twice, and can be discarded twice. */
  lemma ThereAndBackIff(txs: seq<Tx>, local: set<Address>, trace: seq<Priced>)
    requires txs != [] && Distinct(txs) && Runs(trace, ThereAndBack(txs)) && trace[0] == EMPTY
    ensures AlwaysDistinct(Last(trace).all, local, Last(trace).items) <==> |txs| < 4 || !Remote(local, txs[0])
  {
    var tx, gone, last := txs[0], trace[|txs| + 1], Last(trace);
    BackOnHeap(txs, trace);
    JoinedAt(txs, 0);
    if |txs| < 4 {
      PutTracks(gone.all, gone.items, last.items, tx);
      assert gone.all[tx.hash := tx] == last.all;
      TracksOnce(last.all, local, last.items);
    } else {
      ListedTwice(txs, trace);
      if !Remote(local, tx) {
        forall t | Live(last.all, t) && Remote(local, t) ensures multiset(last.items)[t] <= 1 {
          OnceInDistinct(txs, t);
        }
      }
    }
    DistinctIff(last.all, local, last.items);
  }

  lemma ListedTwice(txs: seq<Tx>, trace: seq<Priced>)
    requires |txs| >= 4 && Distinct(txs) && Runs(trace, ThereAndBack(txs)) && trace[0] == EMPTY
    ensures var last := Last(trace);
      && multiset(last.items) == multiset(txs) + multiset{txs[0]} && multiset(last.items)[txs[0]] == 2
      && Live(last.all, txs[0]) && Agrees(last.all, last.items)
  {
    var last := Last(trace);
    BackOnHeap(txs, trace);
    JoinedAt(txs, 0);
    OnceInDistinct(txs, txs[0]);
    assert txs[0] in txs && txs[0] in multiset(txs);
    forall t | t in last.items ensures t.hash in last.all && last.all[t.hash] == t {
      assert t in multiset(last.items) && t in multiset(txs) && t in txs;
      var i :| 0 <= i < |txs| && txs[i] == t;
      JoinedAt(txs, i);
    }
  }

  /** The cheapest of four or more leaves and comes back: every discard of two returns
      it twice. */
  lemma BackTwice(txs: seq<Tx>, trace: seq<Priced>, after: seq<Tx>, drop: seq<Tx>)
    requires |txs| >= 4 && Distinct(txs) && Runs(trace, ThereAndBack(txs)) && trace[0] == EMPTY
    requires forall i :: 0 < i < |txs| ==> txs[0].price < txs[i].price
    requires Discarded(Last(trace).all, {}, 2, Last(trace).items, after, drop)
    ensures drop == [txs[0], txs[0]]
  {
    var last := Last(trace);
    ListedTwice(txs, trace);
    forall t | t in last.items ensures t == txs[0] || txs[0].price < t.price {
      assert t in multiset(last.items) && t in multiset(txs) && t in txs;
    }
    TwiceCheapest(last.all, last.items, after, drop, txs[0]);
  }

  /** Every such run can happen. With the first transaction the cheapest of four or
      more, a discard of two then returns it twice. */
  method LeftAndBack(txs: seq<Tx>) returns (drop: seq<Tx>, after: seq<Tx>, ghost trace: seq<Priced>)
    requires txs != [] && Distinct(txs)
    ensures Runs(trace, ThereAndBack(txs)) && trace[0] == EMPTY
    ensures Discarded(Last(trace).all, {}, 2, Last(trace).items, after, drop)
    ensures |txs| >= 4 && (forall i :: 0 < i < |txs| ==> txs[0].price < txs[i].price) ==> drop == [txs[0], txs[0]]
  {
    var list := new TxPricedList(map[]);
    trace := JoinAll(list, txs);
    Drop(list, txs[0]);
    RunsThen(trace, Adds(txs), Leave(txs[0]), Now(list));
    trace := trace + [Now(list)];
    Join(list, txs[0]);
    RunsThen(trace, Adds(txs) + [Leave(txs[0])], Add(txs[0]), Now(list));
    trace := trace + [Now(list)];
    assert Adds(txs) + [Leave(txs[0])] + [Add(txs[0])] == ThereAndBack(txs);
    drop := list.Discard(2, {});
    after := list.items;
    if |txs| >= 4 && forall i :: 0 < i < |txs| ==> txs[0].price < txs[i].price {
      BackTwice(txs, trace, after, drop);
    }
  }

  method JoinAll(list: TxPricedList, txs: seq<Tx>) returns (ghost trace: seq<Priced>)
    requires list.Valid() && Keyed(list.all)
    modifies list
    ensures list.Valid() && Keyed(list.all)
    ensures Runs(trace, Adds(txs)) && trace[0] == old(Now(list)) && Last(trace) == Now(list)
  {
    trace := [Now(list)];
    for i := 0 to |txs|
      invariant list.Valid() && Keyed(list.all)
      invariant Runs(trace, Adds(txs[..i])) && trace[0] == old(Now(list)) && Last(trace) == Now(list)
    {
      Join(list, txs[i]);
      RunsThen(trace, Adds(txs[..i]), Add(txs[i]), Now(list));
      assert Adds(txs[..i]) + [Add(txs[i])] == Adds(txs[..i + 1]);
      trace := trace + [Now(list)];
    }
    assert txs[..|txs|] == txs;
  }

  // ---------- queueing again ----------

  /** A transaction is removed and those it invalidates are queued again. */
  function Requeue(tx: Tx, invalids: seq<Tx>): seq<Step> {
    [Leave(tx)] + Adds(invalids)
  }

  ghost predicate Pooled(all: Pool, txs: seq<Tx>) {
    forall tx :: tx in txs ==> tx.hash in all && all[tx.hash] == tx
  }

  lemma RequeuedItems(tx: Tx, invalids: seq<Tx>, trace: seq<Priced>)
    requires Runs(trace, Requeue(tx, invalids)) && Tracks(trace[0].all, trace[0].items)
    requires Pooled(trace[0].all - {tx.hash}, invalids)
    ensures Last(trace).all == trace[0].all - {tx.hash} && Tracks(Last(trace).all, trace[1].items)
    ensures multiset(Last(trace).items) == multiset(trace[1].items) + multiset(invalids)
  {
    var steps := Requeue(tx, invalids);
    assert steps[0] == Leave(tx) && DoesAt(trace, steps, 0);
    assert steps[1..1 + |invalids|] == Adds(invalids);
    AddsRun(trace, steps, 1, invalids);
    JoinedSame(trace[1].all, invalids);
  }

  lemma RequeuedCount(tx: Tx, invalids: seq<Tx>, trace: seq<Priced>, t: Tx)
    requires Runs(trace, Requeue(tx, invalids)) && Tracks(trace[0].all, trace[0].items)
    requires Distinct(invalids) && Pooled(trace[0].all - {tx.hash}, invalids)
    ensures var last := Last(trace);
      && (t in invalids ==> Live(last.all, t))
      && (Live(last.all, t) ==>
            multiset(last.items)[t] == if last.all[t.hash] != t then 0 else if t in invalids then 2 else 1)
  {
    RequeuedItems(tx, invalids, trace);
    OnceInDistinct(invalids, t);
    assert t in invalids <==> t in multiset(invalids);
    assert Live(Last(trace).all, t) ==>
      multiset(trace[1].items)[t] == if Last(trace).all[t.hash] == t then 1 else 0;
  }

  /** From a heap in step with the pool, removing a transaction keeps it in step if
      and only if none is invalidated, and lets discards be distinct if and only if
      no remote one is. */
  lemma RequeueIff(tx: Tx, invalids: seq<Tx>, local: set<Address>, trace: seq<Priced>)
    requires Runs(trace, Requeue(tx, invalids)) && Tracks(trace[0].all, trace[0].items)
    requires Distinct(invalids) && Pooled(trace[0].all - {tx.hash}, invalids)
    ensures Tracks(Last(trace).all, Last(trace).items) <==> invalids == []
    ensures Agrees(Last(trace).all, Last(trace).items)
    ensures AlwaysDistinct(Last(trace).all, local, Last(trace).items) <==>
      forall x :: x in invalids ==> !Remote(local, x)
  {
    var last := Last(trace);
    forall t
      ensures t in invalids ==> Live(last.all, t) && multiset(last.items)[t] == 2
      ensures Live(last.all, t) && t !in invalids ==> multiset(last.items)[t] == if last.all[t.hash] == t then 1 else 0
      ensures t in last.items && Live(last.all, t) ==> last.all[t.hash] == t
    {
      RequeuedItems(tx, invalids, trace);
      RequeuedCount(tx, invalids, trace, t);
      assert t in last.items <==> t in multiset(last.items);
    }
    if invalids != [] { assert invalids[0] in invalids; }
    DistinctIff(last.all, local, last.items);
  }
}
