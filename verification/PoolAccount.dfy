/**
  One account's part of the transaction pool: its pending and queued lists beside
  the set and price heap of all pooled transactions (enqueueTx and removeTx in
  core/tx_pool.go). An account without a list is one whose list is empty.
 */
module PoolAccounts {
  import opened Prelude
  import opened TxContents
  import opened TxPricedLists
  import opened PricedRuns
  import TxLists

  ghost predicate InPool(all: Pool, tx: Tx) {
    tx.hash in all && all[tx.hash] == tx
  }

  /** No nonce is both pending and queued. */
  ghost predicate Apart(pending: Items, queue: Items) {
    forall n :: n in pending ==> n !in queue
  }

  /** The pooled transactions of an account are those of its two lists. */
  ghost predicate Held(all: Pool, account: Address, pending: Items, queue: Items) {
    forall tx {:trigger InPool(all, tx)} ::
      InPool(all, tx) && tx.sender == account <==> TxLists.Has(pending, tx) || TxLists.Has(queue, tx)
  }

  /** Nonces above `n` would be left with nothing before them. */
  predicate Strands(pending: Items, n: nat) {
    n in pending && Below(pending, n) == map[] && exists k :: k in pending && k > n
  }

  /** What a strict list gives up above a removed nonce. */
  ghost predicate InvalidAbove(pending: Items, n: nat, invalids: seq<Tx>) {
    && (forall tx {:trigger TxLists.Has(pending, tx)} :: tx in invalids <==> TxLists.Has(pending, tx) && tx.nonce > n)
    && forall i, j :: 0 <= i < j < |invalids| ==> invalids[i].nonce != invalids[j].nonce
  }

  lemma InvalidsAre(m: Items, n: nat, invalids: seq<Tx>)
    requires Filed(m) && n in m && TxLists.Shares([m[n]], invalids, Below(m, n), m)
    ensures InvalidAbove(m, n, invalids)
  {
    forall tx
      ensures tx in invalids <==> TxLists.Has(m, tx) && tx.nonce > n
      ensures multiset(invalids)[tx] <= 1
    {
      assert tx in invalids <==> tx in multiset(invalids);
      assert multiset([m[n]])[tx] == if tx == m[n] then 1 else 0;
      assert TxLists.Has(m, tx) || !TxLists.Has(m, tx);
    }
    forall i, j | 0 <= i < j < |invalids| ensures invalids[i].nonce != invalids[j].nonce {
      TwiceCounted(invalids, i, j);
      assert invalids[i] in invalids && invalids[j] in invalids;
      assert TxLists.Has(m, invalids[i]) && TxLists.Has(m, invalids[j]);
    }
  }

  /** `queue'` holds `txs` beside what `queue` holds. */
  ghost predicate QueuedBeside(queue: Items, txs: seq<Tx>, queue': Items) {
    forall t {:trigger TxLists.Has(queue', t)} ::
      TxLists.Has(queue', t) <==> TxLists.Has(queue, t) || t in txs
  }

  lemma QueuedOne(queue: Items, txs: seq<Tx>, mid: Items, tx: Tx)
    requires QueuedBeside(queue, txs, mid) && tx.nonce !in mid
    ensures QueuedBeside(queue, txs + [tx], mid[tx.nonce := tx])
  {
    var queue' := mid[tx.nonce := tx];
    forall t ensures TxLists.Has(queue', t) <==> TxLists.Has(queue, t) || t in txs + [tx] {
      assert TxLists.Has(queue', t) <==> TxLists.Has(mid, t) || t == tx;
    }
  }

  /** The account's transaction `tx` is about to leave the pool. */
  ghost predicate Leaving(all: Pool, tx: Tx, pending: Items, queue: Items) {
    && InPool(all, tx) && Held(all, tx.sender, pending, queue) && Apart(pending, queue)
    && Filed(pending) && Filed(queue)
  }

  lemma LeftPool(all: Pool, tx: Tx, t: Tx)
    requires InPool(all, tx)
    ensures InPool(all - {tx.hash}, t) <==> InPool(all, t) && t != tx
  {
  }

  /** A pending transaction leaves and all above it move to the queue. */
  lemma HeldRequeued(all: Pool, tx: Tx, pending: Items, queue: Items, invalids: seq<Tx>, queue': Items)
    requires Leaving(all, tx, pending, queue) && tx.nonce in pending
    requires InvalidAbove(pending, tx.nonce, invalids) && QueuedBeside(queue, invalids, queue')
    ensures Held(all - {tx.hash}, tx.sender, Below(pending, tx.nonce), queue')
  {
    var all', rest := all - {tx.hash}, Below(pending, tx.nonce);
    PendingIs(all, tx, pending, queue);
    forall t
      ensures InPool(all', t) && t.sender == tx.sender <==> TxLists.Has(rest, t) || TxLists.Has(queue', t)
    {
      LeftPool(all, tx, t);
      assert TxLists.Has(pending, t) <==> TxLists.Has(rest, t) || t == tx || t in invalids;
      assert TxLists.Has(queue, tx) ==> tx.nonce in queue;
      assert InPool(all, t) || !InPool(all, t);
    }
  }

  lemma PendingIs(all: Pool, tx: Tx, pending: Items, queue: Items)
    requires Leaving(all, tx, pending, queue) && tx.nonce in pending
    ensures pending[tx.nonce] == tx
  {
    assert TxLists.Has(pending, tx) || TxLists.Has(queue, tx);
  }

  /** The first pending transaction leaves and the others are in neither list. */
  lemma HeldStranded(all: Pool, tx: Tx, pending: Items, queue: Items)
    requires Leaving(all, tx, pending, queue) && Below(pending, tx.nonce) == map[] && tx.nonce in pending
    ensures Held(all - {tx.hash}, tx.sender, map[], queue) <==> !Strands(pending, tx.nonce)
  {
    var all' := all - {tx.hash};
    PendingIs(all, tx, pending, queue);
    if Strands(pending, tx.nonce) {
      var k :| k in pending && k > tx.nonce;
      var t := pending[k];
      assert TxLists.Has(pending, t) && InPool(all, t);
      LeftPool(all, tx, t);
      assert InPool(all', t) && !TxLists.Has(queue, t);
    } else {
      forall t ensures InPool(all', t) && t.sender == tx.sender <==> TxLists.Has(map[], t) || TxLists.Has(queue, t) {
        LeftPool(all, tx, t);
        assert InPool(all, t) || !InPool(all, t);
        assert TxLists.Has(pending, t) ==> t.nonce !in Below(pending, tx.nonce);
        assert TxLists.Has(pending, t) ==> t == tx;
      }
    }
  }

  lemma HeldQueued(all: Pool, tx: Tx, pending: Items, queue: Items)
    requires Leaving(all, tx, pending, queue) && tx.nonce !in pending
    ensures Held(all - {tx.hash}, tx.sender, pending, Without(queue, tx.nonce))
  {
    assert TxLists.Has(queue, tx);
    forall t
      ensures InPool(all - {tx.hash}, t) && t.sender == tx.sender <==>
              TxLists.Has(pending, t) || TxLists.Has(Without(queue, tx.nonce), t)
    {
      LeftPool(all, tx, t);
      assert InPool(all, t) || !InPool(all, t);
    }
  }

  /** What queueing does to the pool and the heap. */
  function Enqueueing(queue: Items, tx: Tx, inserted: bool): seq<Step> {
    if !inserted then []
    else if tx.nonce in queue then [Leave(queue[tx.nonce]), Add(tx)]
    else [Add(tx)]
  }

  class Account {
    const list: TxPricedList
    const pending: TxLists.TxList
    const queue: TxLists.TxList
    const priceBump: nat

    ghost predicate Valid()
      reads this, list, pending, pending.txs, queue, queue.txs
    {
      && list.Valid() && Keyed(list.all) && pending.Valid() && queue.Valid()
      && pending.strict && !queue.strict && pending != queue && pending.txs != queue.txs
      && Apart(pending.txs.items, queue.txs.items) && priceBump <= MAX_UINT64
    }

    constructor (priceBump: nat)
      requires priceBump <= MAX_UINT64
      ensures Valid() && fresh(list) && fresh(pending) && fresh(pending.txs) && fresh(queue) && fresh(queue.txs)
      ensures Now(list) == EMPTY && pending.txs.items == map[] == queue.txs.items
    {
      list := new TxPricedList(map[]);
      pending := new TxLists.TxList(true);
      queue := new TxLists.TxList(false);
      this.priceBump := priceBump;
    }

    /** Queues a transaction, which may have to outbid a queued one with its nonce, and
        puts it on the heap whether or not it is there already. */
    method Enqueue(tx: Tx) returns (inserted: bool, ghost trace: seq<Priced>)
      requires Valid() && tx.nonce <= MAX_UINT64 && tx.nonce !in pending.txs.items
      modifies list, queue, queue.txs
      ensures Valid()
      ensures inserted <==> (tx.nonce in old(queue.txs.items) ==>
        var was := old(queue.txs.items)[tx.nonce].price;
        was < tx.price && was * TxLists.Percent(priceBump) < 100 * (tx.price + 1))
      ensures queue.txs.items == if inserted then old(queue.txs.items)[tx.nonce := tx] else old(queue.txs.items)
      ensures Runs(trace, Enqueueing(old(queue.txs.items), tx, inserted))
      ensures trace[0] == old(Now(list)) && Last(trace) == Now(list)
    {
      trace := [Now(list)];
      var replaced;
      inserted, replaced := queue.Add(tx, priceBump);
      if !inserted {
        return;
      }
      ghost var steps: seq<Step> := [];
      if replaced != [] {
        Drop(list, replaced[0]);
        RunsThen(trace, [], Leave(replaced[0]), Now(list));
        trace, steps := trace + [Now(list)], steps + [Leave(replaced[0])];
      }
      Join(list, tx);
      RunsThen(trace, steps, Add(tx), Now(list));
      trace := trace + [Now(list)];
      assert steps + [Add(tx)] == Enqueueing(old(queue.txs.items), tx, true);
    }

    /** Makes a transaction that is new to the pool pending, at a free nonce. */
    method Promote(tx: Tx)
      requires Valid() && tx.nonce <= MAX_UINT64 && tx.hash !in list.all
      requires tx.nonce !in pending.txs.items && tx.nonce !in queue.txs.items
      modifies list, pending, pending.txs
      ensures Valid() && pending.txs.items == old(pending.txs.items)[tx.nonce := tx]
      ensures Does(old(Now(list)), Add(tx), Now(list))
    {
      var added, replaced := pending.Add(tx, priceBump);
      Join(list, tx);
    }

    /** Removes a transaction. Those that a pending one invalidates are queued again,
        unless none is left before it. */
    method RemoveTx(hash: nat) returns (invalids: seq<Tx>, ghost trace: seq<Priced>)
      requires Valid()
      requires hash in list.all ==> Held(list.all, list.all[hash].sender, pending.txs.items, queue.txs.items)
      modifies list, pending.txs, queue, queue.txs
      ensures Valid()
      ensures hash !in old(list.all) ==>
        && Now(list) == old(Now(list)) && pending.txs.items == old(pending.txs.items)
        && queue.txs.items == old(queue.txs.items)
      ensures hash in old(list.all) ==>
        var tx := old(list.all[hash]);
        && trace != [] && trace[0] == old(Now(list)) && Last(trace) == Now(list)
        && (if tx.nonce in old(pending.txs.items) then InvalidAbove(old(pending.txs.items), tx.nonce, invalids)
            else invalids == [])
        && Runs(trace, Requeue(tx, if Strands(old(pending.txs.items), tx.nonce) then [] else invalids))
        && (Held(list.all, tx.sender, pending.txs.items, queue.txs.items) <==>
            !Strands(old(pending.txs.items), tx.nonce))
    {
      invalids, trace := [], [Now(list)];
      if hash !in list.all {
        return;
      }
      var tx := list.all[hash];
      Drop(list, tx);
      RunsThen(trace, [], Leave(tx), Now(list));
      assert [] + [Leave(tx)] == Requeue(tx, []);
      trace := trace + [Now(list)];
      if tx.nonce in pending.txs.items {
        invalids, trace := RemovePending(tx, old(list.all), trace);
        return;
      }
      HeldQueued(old(list.all), tx, pending.txs.items, queue.txs.items);
      assert pending.txs.items == Without(pending.txs.items, tx.nonce);
      var removed, none := pending.Remove(tx);
      removed, none := queue.Remove(tx);
    }

    method RemovePending(tx: Tx, ghost all: Pool, ghost trace0: seq<Priced>)
      returns (invalids: seq<Tx>, ghost trace: seq<Priced>)
      requires Valid() && tx.nonce in pending.txs.items && Leaving(all, tx, pending.txs.items, queue.txs.items)
      requires list.all == all - {tx.hash} && Runs(trace0, Requeue(tx, [])) && Last(trace0) == Now(list)
      modifies list, pending.txs, queue, queue.txs
      ensures Valid() && InvalidAbove(old(pending.txs.items), tx.nonce, invalids)
      ensures trace != [] && trace[0] == trace0[0] && Last(trace) == Now(list)
      ensures Runs(trace, Requeue(tx, if Strands(old(pending.txs.items), tx.nonce) then [] else invalids))
      ensures Held(list.all, tx.sender, pending.txs.items, queue.txs.items) <==>
              !Strands(old(pending.txs.items), tx.nonce)
    {
      ghost var m, q := pending.txs.items, queue.txs.items;
      trace := trace0;
      var removed;
      removed, invalids := pending.Remove(tx);
      PendingIs(all, tx, m, q);
      InvalidsAre(m, tx.nonce, invalids);
      forall x | x in invalids ensures TxLists.Has(m, x) && InPool(list.all, x) {
        assert TxLists.Has(m, x) && InPool(all, x);
        LeftPool(all, tx, x);
      }
      if pending.txs.items != map[] {
        trace := Postpone(invalids, trace, tx);
        JoinedSame(all - {tx.hash}, invalids);
        HeldRequeued(all, tx, m, q, invalids, queue.txs.items);
      } else {
        HeldStranded(all, tx, m, q);
        if invalids != [] { assert invalids[0] in invalids && invalids[0].nonce in m; }
      }
    }

    /** Queues the invalidated transactions one by one. */
    method Postpone(invalids: seq<Tx>, ghost trace0: seq<Priced>, ghost tx: Tx) returns (ghost trace: seq<Priced>)
      requires Valid() && Runs(trace0, Requeue(tx, [])) && Last(trace0) == Now(list)
      requires forall i, j :: 0 <= i < j < |invalids| ==> invalids[i].nonce != invalids[j].nonce
      requires forall x :: x in invalids ==>
        x.nonce <= MAX_UINT64 && x.nonce !in pending.txs.items && x.nonce !in queue.txs.items
      modifies list, queue, queue.txs
      ensures Valid() && Runs(trace, Requeue(tx, invalids)) && trace[0] == trace0[0] && Last(trace) == Now(list)
      ensures list.all == Joined(old(list.all), invalids)
      ensures QueuedBeside(old(queue.txs.items), invalids, queue.txs.items)
    {
      trace := trace0;
      assert invalids[..0] == [];
      for i := 0 to |invalids|
        invariant Valid() && Runs(trace, Requeue(tx, invalids[..i]))
        invariant trace[0] == trace0[0] && Last(trace) == Now(list)
        invariant list.all == Joined(old(list.all), invalids[..i])
        invariant forall n :: n in queue.txs.items ==>
          n in old(queue.txs.items) || exists j :: 0 <= j < i && invalids[j].nonce == n
        invariant QueuedBeside(old(queue.txs.items), invalids[..i], queue.txs.items)
      {
        assert invalids[i] in invalids;
        QueuedOne(old(queue.txs.items), invalids[..i], queue.txs.items, invalids[i]);
        var inserted;
        ghost var put;
        inserted, put := Enqueue(invalids[i]);
        assert DoesAt(put, [Add(invalids[i])], 0);
        RunsThen(trace, Requeue(tx, invalids[..i]), Add(invalids[i]), Now(list));
        trace := trace + [Now(list)];
        assert invalids[..i + 1] == invalids[..i] + [invalids[i]];
        assert Requeue(tx, invalids[..i]) + [Add(invalids[i])] == Requeue(tx, invalids[..i + 1]);
      }
      assert invalids[..|invalids|] == invalids;
    }
  }

  // ---------- removing one of several ----------

  /** Transactions of one account in the order of their nonces. */
  ghost predicate OneAccount(txs: seq<Tx>) {
    && Distinct(txs) && (forall i :: 0 <= i < |txs| ==> txs[i].nonce <= MAX_UINT64)
    && (forall i, j :: 0 <= i < j < |txs| ==> txs[i].nonce < txs[j].nonce)
    && forall i, j :: 0 <= i < |txs| && 0 <= j < |txs| ==> txs[i].sender == txs[j].sender
  }

  /** An account whose transactions have all become pending. */
  method Pend(txs: seq<Tx>) returns (account: Account, ghost trace: seq<Priced>)
    requires OneAccount(txs)
    ensures account.Valid() && fresh(account.list) && fresh(account.pending) && fresh(account.pending.txs)
    ensures fresh(account.queue) && fresh(account.queue.txs)
    ensures QueuedBeside(map[], txs, account.pending.txs.items) && account.queue.txs.items == map[]
    ensures Runs(trace, Adds(txs)) && trace[0] == EMPTY && Last(trace) == Now(account.list)
  {
    account := new Account(10);
    trace := [Now(account.list)];
    for i := 0 to |txs|
      invariant account.Valid() && fresh(account.list) && fresh(account.pending) && fresh(account.pending.txs)
      invariant fresh(account.queue) && fresh(account.queue.txs)
      invariant QueuedBeside(map[], txs[..i], account.pending.txs.items) && account.queue.txs.items == map[]
      invariant Runs(trace, Adds(txs[..i])) && trace[0] == EMPTY && Last(trace) == Now(account.list)
    {
      AddedTracks(txs[..i], trace);
      Fresh(txs, i, account.pending.txs.items);
      QueuedOne(map[], txs[..i], account.pending.txs.items, txs[i]);
      account.Promote(txs[i]);
      RunsThen(trace, Adds(txs[..i]), Add(txs[i]), Now(account.list));
      assert Adds(txs[..i]) + [Add(txs[i])] == Adds(txs[..i + 1]);
      assert txs[..i] + [txs[i]] == txs[..i + 1];
      trace := trace + [Now(account.list)];
    }
    assert txs[..|txs|] == txs;
  }

  /** Hash and nonce of the next transaction are new. */
  lemma Fresh(txs: seq<Tx>, i: nat, pending: Items)
    requires OneAccount(txs) && i < |txs| && Filed(pending) && QueuedBeside(map[], txs[..i], pending)
    ensures txs[i].hash !in Joined(map[], txs[..i]) && txs[i].nonce !in pending
  {
    JoinedKeys(txs[..i]);
    forall t | t in txs[..i] ensures t.nonce != txs[i].nonce { }
    assert txs[i].nonce in pending ==> TxLists.Has(pending, pending[txs[i].nonce]);
  }

  lemma PendedHeld(txs: seq<Tx>, pending: Items, k: nat)
    requires OneAccount(txs) && k < |txs| && QueuedBeside(map[], txs, pending)
    ensures Held(Joined(map[], txs), txs[k].sender, pending, map[]) && TxLists.Has(pending, txs[k])
    ensures InPool(Joined(map[], txs), txs[k])
  {
    assert txs[k] in txs && TxLists.Has(pending, txs[k]);
    JoinedIn(txs, txs[k]);
    forall t
      ensures InPool(Joined(map[], txs), t) && t.sender == txs[k].sender <==>
              TxLists.Has(pending, t) || TxLists.Has(map[], t)
    {
      JoinedIn(txs, t);
      assert TxLists.Has(pending, t) <==> t in txs;
    }
  }

  lemma AboveIs(txs: seq<Tx>, k: nat, t: Tx)
    requires OneAccount(txs) && k < |txs|
    ensures t in txs && t.nonce > txs[k].nonce <==> t in txs[k + 1..]
  {
    if t in txs && t.nonce > txs[k].nonce {
      var i :| 0 <= i < |txs| && txs[i] == t;
      assert i > k;
      assert txs[k + 1..][i - k - 1] == t;
    }
    if t in txs[k + 1..] {
      var i :| 0 <= i < |txs[k + 1..]| && txs[k + 1..][i] == t;
      assert txs[k + 1 + i] == t;
    }
  }

  /** Which ones the removal of `txs[k]` invalidates. */
  lemma PendedAbove(txs: seq<Tx>, pending: Items, k: nat, invalids: seq<Tx>)
    requires OneAccount(txs) && k < |txs| && QueuedBeside(map[], txs, pending)
    requires InvalidAbove(pending, txs[k].nonce, invalids)
    ensures forall t :: t in invalids <==> t in txs[k + 1..]
    ensures Distinct(invalids) && Pooled(Joined(map[], txs) - {txs[k].hash}, invalids)
  {
    forall t ensures t in invalids <==> t in txs[k + 1..] {
      assert TxLists.Has(pending, t) <==> t in txs;
      AboveIs(txs, k, t);
    }
    JoinedIn(txs, txs[k]);
    forall t | t in invalids ensures InPool(Joined(map[], txs) - {txs[k].hash}, t) {
      AboveIs(txs, k, t);
      JoinedIn(txs, t);
    }
    SameHash(Joined(map[], txs) - {txs[k].hash}, invalids);
  }

  lemma SameHash(all: Pool, txs: seq<Tx>)
    requires Pooled(all, txs) && forall i, j :: 0 <= i < j < |txs| ==> txs[i].nonce != txs[j].nonce
    ensures Distinct(txs)
  {
    forall i, j | 0 <= i < j < |txs| ensures txs[i].hash != txs[j].hash {
      assert txs[i] in txs && txs[j] in txs;
    }
  }

  lemma NotStranded(txs: seq<Tx>, pending: Items, k: nat)
    requires OneAccount(txs) && 0 < k < |txs| && QueuedBeside(map[], txs, pending)
    ensures !Strands(pending, txs[k].nonce)
  {
    assert txs[0] in txs && TxLists.Has(pending, txs[0]);
    assert txs[0].nonce in Below(pending, txs[k].nonce);
  }

  /** Discarding everything shows whether one was queued again. */
  lemma DiscardedAgain(txs: seq<Tx>, k: nat, local: set<Address>, invalids: seq<Tx>, trace: seq<Priced>,
                       after: seq<Tx>, drop: seq<Tx>)
    requires OneAccount(txs) && k < |txs| && forall t :: t in invalids <==> t in txs[k + 1..]
    requires Runs(trace, Requeue(txs[k], invalids)) && Tracks(trace[0].all, trace[0].items)
    requires Distinct(invalids) && Pooled(trace[0].all - {txs[k].hash}, invalids)
    requires Discarded(Last(trace).all, local, |Last(trace).items| + 1, Last(trace).items, after, drop)
    ensures Distinct(drop) <==> k == |txs| - 1 || txs[k].sender in local
  {
    var last := Last(trace);
    RequeueIff(txs[k], invalids, local, trace);
    DistinctIff(last.all, local, last.items);
    AllDropped(last.all, local, last.items, after, drop);
    forall x | x in invalids ensures x.sender == txs[k].sender { AboveIs(txs, k, x); }
    if k < |txs| - 1 {
      assert txs[k + 1..][0] in invalids;
    } else {
      assert txs[k + 1..] == [];
    }
  }

  /** A whole run: transactions of one account become pending, one that is not the
      first is removed, and everything is discarded. What comes out is distinct if
      and only if the removed one was the last, or the account is local. */
  method QueuedAgain(txs: seq<Tx>, k: nat, local: set<Address>)
    returns (invalids: seq<Tx>, drop: seq<Tx>, after: seq<Tx>, ghost trace: seq<Priced>)
    requires OneAccount(txs) && 0 < k < |txs|
    ensures forall t :: t in invalids <==> t in txs[k + 1..]
    ensures Runs(trace, Adds(txs) + Requeue(txs[k], invalids)) && trace[0] == EMPTY
    ensures Discarded(Last(trace).all, local, |Last(trace).items| + 1, Last(trace).items, after, drop)
    ensures Distinct(drop) <==> k == |txs| - 1 || txs[k].sender in local
  {
    var account;
    ghost var trace0, trace1;
    account, trace0 := Pend(txs);
    ghost var m := account.pending.txs.items;
    AddedTracks(txs, trace0);
    PendedHeld(txs, m, k);
    invalids, trace1 := account.RemoveTx(txs[k].hash);
    PendedAbove(txs, m, k, invalids);
    NotStranded(txs, m, k);
    RunsJoin(trace0, Adds(txs), trace1, Requeue(txs[k], invalids));
    trace := trace0 + trace1[1..];
    drop := account.list.Discard(|account.list.items| + 1, local);
    after := account.list.items;
    DiscardedAgain(txs, k, local, invalids, trace1, after, drop);
  }
}
