/**
  One account's transactions with their cost and gas caps (txList in
  core/tx_list.go). A strict list holds executable transactions, so its nonces
  must stay consecutive.
 */
module TxLists {
  import opened Prelude
  import opened TxContents
  import opened TxSortedMaps

  /** The conversion of an unsigned 64-bit number to a signed one. */
  function ToInt64(n: nat): int {
    if n <= MAX_UINT64 / 2 then n else n - MAX_UINT64 - 1
  }

  /** The percentage of the old price that a replacement must reach: 100 plus the bump up
      to a multiple of 2^64, as a signed word. */
  function Percent(priceBump: nat): (percent: int)
    requires priceBump <= MAX_UINT64
    ensures -0x8000_0000_0000_0000 <= percent < 0x8000_0000_0000_0000
    ensures percent == 100 + priceBump || percent == 100 + priceBump - 0x1_0000_0000_0000_0000
  {
    var sum := 100 + ToInt64(priceBump);
    if sum > MAX_UINT64 / 2 then sum - MAX_UINT64 - 1 else sum
  }

  /** No nonce is missing between two that are present. */
  ghost predicate Consecutive(m: Items) {
    forall a, b, c {:trigger a in m, b in m, c in m} :: a in m && c in m && a <= b <= c ==> b in m
  }

  /** Too expensive for the balance, or too large for a block. */
  predicate Over(tx: Tx, costLimit: int, gasLimit: int) {
    tx.Cost() > costLimit || tx.gas > gasLimit
  }

  function OverFilter(costLimit: int, gasLimit: int): Tx -> bool {
    (tx: Tx) => Over(tx, costLimit, gasLimit)
  }

  function AboveFilter(nonce: nat): Tx -> bool {
    (tx: Tx) => tx.nonce > nonce
  }

  /** What an unconditional filter leaves: the affordable transactions, on a
      strict list only those before the first unaffordable one. */
  ghost function Affordable(m: Items, strict: bool, costLimit: int, gasLimit: int): Items {
    map n | n in m && !Over(m[n], costLimit, gasLimit) &&
            (strict ==> forall k :: k in m && Over(m[k], costLimit, gasLimit) ==> n < k) :: m[n]
  }

  predicate Has(m: Items, tx: Tx) {
    tx.nonce in m && m[tx.nonce] == tx
  }

  /** Two lists and a map share out the contents of `m`. */
  ghost predicate Shares(a: seq<Tx>, b: seq<Tx>, rest: Items, m: Items) {
    forall tx {:trigger Has(m, tx)} ::
      multiset(a)[tx] + multiset(b)[tx] + (if Has(rest, tx) then 1 else 0) == if Has(m, tx) then 1 else 0
  }

  ghost predicate Capped(m: Items, costcap: int, gascap: int) {
    forall n :: n in m ==> m[n].Cost() <= costcap && m[n].gas <= gascap
  }

  ghost predicate Words(m: Items) {
    forall n :: n in m ==> n <= MAX_UINT64
  }

  class TxList {
    const strict: bool
    const txs: TxSortedMap
    var costcap: int
    var gascap: int

    ghost predicate Valid()
      reads this, txs
    {
      txs.Valid() && Words(txs.items) && Capped(txs.items, costcap, gascap)
    }

    constructor (strict: bool)
      ensures Valid() && fresh(txs) && this.strict == strict && txs.items == map[]
    {
      this.strict, costcap, gascap := strict, 0, 0;
      txs := new TxSortedMap();
    }

    /** A transaction replaces another with its nonce only at a higher price that
        reaches the bumped old price, rounded down. */
    method Add(tx: Tx, priceBump: nat) returns (added: bool, replaced: seq<Tx>)
      requires Valid() && tx.nonce <= MAX_UINT64 && priceBump <= MAX_UINT64
      modifies this, txs
      ensures Valid()
      ensures added <==> (tx.nonce in old(txs.items) ==>
        var was := old(txs.items)[tx.nonce].price;
        was < tx.price && was * Percent(priceBump) < 100 * (tx.price + 1))
      ensures txs.items == if added then old(txs.items)[tx.nonce := tx] else old(txs.items)
      ensures replaced == if added && tx.nonce in old(txs.items) then [old(txs.items)[tx.nonce]] else []
      ensures priceBump <= MAX_UINT64 / 2 - 100 && tx.nonce in old(txs.items) ==>
        var was := old(txs.items)[tx.nonce].price;
        added <==> was < tx.price && was * (100 + priceBump) / 100 <= tx.price
      ensures costcap == if added then Max(old(costcap), tx.price * tx.gas + tx.value) else old(costcap)
      ensures gascap == if added then Max(old(gascap), tx.gas) else old(gascap)
    {
      if tx.nonce in txs.items {
        var was := txs.items[tx.nonce];
        var bumped := was.price * Percent(priceBump);
        Rounded(bumped, tx.price);
        if was.price >= tx.price || bumped / 100 > tx.price {
          return false, [];
        }
        replaced := [was];
      } else {
        replaced := [];
      }
      txs.Put(tx);
      if costcap < tx.Cost() {
        costcap := tx.Cost();
      }
      if gascap < tx.gas {
        gascap := tx.gas;
      }
      added := true;
    }

    /** Removes the nonces below the threshold. */
    method Forward(threshold: nat) returns (removed: seq<Tx>)
      requires Valid()
      modifies txs
      ensures Valid() && txs.items == From(old(txs.items), threshold)
      ensures removed == SortedOf(Below(old(txs.items), threshold))
      ensures Consecutive(old(txs.items)) ==> Consecutive(txs.items)
    {
      removed := txs.Forward(threshold);
    }

    /** The short circuit on the caps never changes the outcome. */
    method Filter(costLimit: int, gasLimit: int) returns (removed: seq<Tx>, invalids: seq<Tx>)
      requires Valid()
      modifies this, txs
      ensures Valid() && txs.items == Affordable(old(txs.items), strict, costLimit, gasLimit)
      ensures Filtered(removed, old(txs.items), OverFilter(costLimit, gasLimit))
      ensures forall n :: n in txs.items ==>
        var tx := txs.items[n]; tx.price * tx.gas + tx.value <= costLimit && tx.gas <= gasLimit
      ensures forall tx :: tx in removed ==> tx.price * tx.gas + tx.value > costLimit || tx.gas > gasLimit
      ensures forall tx :: tx in invalids ==>
        exists k :: k in old(txs.items) && k < tx.nonce && old(txs.items)[k] in removed
      ensures Shares(removed, invalids, txs.items, old(txs.items))
      ensures strict && Consecutive(old(txs.items)) ==> Consecutive(txs.items)
      ensures !strict ==> invalids == []
      ensures if old(costcap) <= costLimit && old(gascap) <= gasLimit
              then costcap == old(costcap) && gascap == old(gascap) else costcap == costLimit && gascap == gasLimit
    {
      ghost var m := txs.items;
      removed, invalids := FilterOver(costLimit, gasLimit);
      Payable(m, strict, costLimit, gasLimit, removed, invalids);
    }

    method FilterOver(costLimit: int, gasLimit: int) returns (removed: seq<Tx>, invalids: seq<Tx>)
      requires Valid()
      modifies this, txs
      ensures Valid() && txs.items == Affordable(old(txs.items), strict, costLimit, gasLimit)
      ensures Filtered(removed, old(txs.items), OverFilter(costLimit, gasLimit))
      ensures Shares(removed, invalids, txs.items, old(txs.items))
      ensures strict && Consecutive(old(txs.items)) ==> Consecutive(txs.items)
      ensures !strict ==> invalids == []
      ensures if old(costcap) <= costLimit && old(gascap) <= gasLimit
              then costcap == old(costcap) && gascap == old(gascap) else costcap == costLimit && gascap == gasLimit
    {
      ghost var m := txs.items;
      removed, invalids := [], [];
      if costcap <= costLimit && gascap <= gasLimit {
        NoneOver(m, strict, costLimit, gasLimit);
        return;
      }
      costcap, gascap := costLimit, gasLimit;
      removed := txs.Filter(OverFilter(costLimit, gasLimit));
      if strict && |removed| > 0 {
        var lowest := Lowest(removed, m, costLimit, gasLimit);
        ghost var rest := txs.items;
        invalids := txs.Filter(AboveFilter(lowest));
        CutIsAffordable(m, rest, lowest, costLimit, gasLimit);
        ShareTwice(removed, invalids, m, rest, OverFilter(costLimit, gasLimit), AboveFilter(lowest));
        CutConsecutive(m, costLimit, gasLimit);
      } else {
        OneCut(removed, m, strict, costLimit, gasLimit);
      }
    }

    /** The nonce of the first removed transaction. */
    method Lowest(removed: seq<Tx>, ghost m: Items, costLimit: int, gasLimit: int) returns (lowest: nat)
      requires Filed(m) && Words(m) && Filtered(removed, m, OverFilter(costLimit, gasLimit)) && |removed| > 0
      ensures lowest in m && Over(m[lowest], costLimit, gasLimit)
      ensures forall k :: k in m && Over(m[k], costLimit, gasLimit) ==> lowest <= k
    {
      forall j | 0 <= j < |removed| ensures Removed(removed, m, j, costLimit, gasLimit) {
        assert multiset(removed)[removed[j]] > 0;
      }
      lowest := MAX_UINT64;
      ghost var at := 0;
      for i := 0 to |removed|
        invariant forall j :: 0 <= j < i ==> lowest <= removed[j].nonce
        invariant if i == 0 then lowest == MAX_UINT64 && at == 0 else 0 <= at < i && lowest == removed[at].nonce
      {
        assert Removed(removed, m, i, costLimit, gasLimit);
        if lowest > removed[i].nonce {
          lowest, at := removed[i].nonce, i;
        }
      }
      assert Removed(removed, m, at, costLimit, gasLimit);
      forall k | k in m && Over(m[k], costLimit, gasLimit) ensures lowest <= k {
        assert multiset(removed)[m[k]] == 1;
        assert m[k] in removed;
      }
    }

    /** Keeps the `threshold` least nonces. */
    method Cap(threshold: nat) returns (drops: seq<Tx>)
      requires Valid()
      modifies txs
      ensures Valid() && |txs.items| == if |old(txs.items)| <= threshold then |old(txs.items)| else threshold
      ensures SortedOf(txs.items) + Reverse(drops) == SortedOf(old(txs.items))
      ensures Consecutive(old(txs.items)) ==> Consecutive(txs.items)
    {
      ghost var m := txs.items;
      drops := txs.Cap(threshold);
      PrefixMap(txs.items, m, Reverse(drops));
    }

    /** Deletes by nonce; on a strict list everything above goes as well. */
    method Remove(tx: Tx) returns (found: bool, invalids: seq<Tx>)
      requires Valid()
      modifies txs
      ensures Valid() && found == (tx.nonce in old(txs.items))
      ensures txs.items ==
        if found && strict then Below(old(txs.items), tx.nonce) else Without(old(txs.items), tx.nonce)
      ensures forall n :: n in txs.items <==>
        n in old(txs.items) && if strict && found then n < tx.nonce else n != tx.nonce
      ensures found ==> Shares([old(txs.items)[tx.nonce]], invalids, txs.items, old(txs.items))
      ensures !found || !strict ==> invalids == []
      ensures strict && Consecutive(old(txs.items)) ==> Consecutive(txs.items)
    {
      ghost var m, nonce := txs.items, tx.nonce;
      found := txs.Remove(tx.nonce);
      invalids := [];
      if found {
        if strict {
          ghost var rest := txs.items;
          invalids := txs.Filter(AboveFilter(tx.nonce));
          assert txs.items == Below(m, nonce);
          RemovedShares(m, nonce, invalids, AboveFilter(nonce));
        } else {
          forall t ensures multiset([m[nonce]])[t] == if t == m[nonce] then 1 else 0 { }
        }
      } else {
        assert txs.items == m;
      }
    }
  }

  // ---------- lemmas for the methods above ----------

  /** Price times gas and the value decide: all that stay can be paid, none that was removed
      can, and the others come after one that was removed. */
  lemma Payable(m: Items, strict: bool, costLimit: int, gasLimit: int, removed: seq<Tx>, invalids: seq<Tx>)
    requires Filed(m) && Filtered(removed, m, OverFilter(costLimit, gasLimit)) && (!strict ==> invalids == [])
    requires Shares(removed, invalids, Affordable(m, strict, costLimit, gasLimit), m)
    ensures forall n :: n in Affordable(m, strict, costLimit, gasLimit) ==>
      m[n].price * m[n].gas + m[n].value <= costLimit && m[n].gas <= gasLimit
    ensures forall tx :: tx in removed ==> tx.price * tx.gas + tx.value > costLimit || tx.gas > gasLimit
    ensures forall tx :: tx in invalids ==> exists k :: k in m && k < tx.nonce && m[k] in removed
  {
    forall tx | tx in removed ensures tx.price * tx.gas + tx.value > costLimit || tx.gas > gasLimit {
      assert multiset(removed)[tx] > 0;
    }
    forall tx | tx in invalids ensures exists k :: k in m && k < tx.nonce && m[k] in removed {
      assert multiset(invalids)[tx] > 0 && Has(m, tx);
      var k: nat :| k in m && Over(m[k], costLimit, gasLimit) && k <= tx.nonce;
      assert multiset(removed)[m[k]] == 1 && m[k] in removed;
    }
  }

  lemma Rounded(bumped: int, price: nat)
    ensures bumped / 100 <= price <==> bumped < 100 * (price + 1)
  {
  }

  predicate Removed(removed: seq<Tx>, m: Items, j: nat, costLimit: int, gasLimit: int)
    requires j < |removed|
  {
    Has(m, removed[j]) && Over(removed[j], costLimit, gasLimit)
  }

  lemma NoneOver(m: Items, strict: bool, costLimit: int, gasLimit: int)
    requires Filed(m) && Capped(m, costLimit, gasLimit)
    ensures Affordable(m, strict, costLimit, gasLimit) == m
    ensures Filtered([], m, OverFilter(costLimit, gasLimit)) && Shares([], [], m, m)
  {
  }

  /** Nothing above the first unaffordable nonce survives. */
  lemma CutIsAffordable(m: Items, rest: Items, lowest: nat, costLimit: int, gasLimit: int)
    requires Filed(m) && rest == Rest(m, OverFilter(costLimit, gasLimit))
    requires lowest in m && Over(m[lowest], costLimit, gasLimit)
    requires forall k :: k in m && Over(m[k], costLimit, gasLimit) ==> lowest <= k
    ensures Rest(rest, AboveFilter(lowest)) == Affordable(m, true, costLimit, gasLimit)
  {
  }

  lemma CutConsecutive(m: Items, costLimit: int, gasLimit: int)
    requires Filed(m)
    ensures Consecutive(m) ==> Consecutive(Affordable(m, true, costLimit, gasLimit))
  {
    var kept := Affordable(m, true, costLimit, gasLimit);
    if Consecutive(m) {
      forall a, b, c | a in kept && c in kept && a <= b <= c ensures b in kept {
        assert a in m && c in m && b in m;
      }
    }
  }

  lemma ShareTwice(a: seq<Tx>, b: seq<Tx>, m: Items, rest: Items, first: Tx -> bool, second: Tx -> bool)
    requires Filed(m) && Filtered(a, m, first) && rest == Rest(m, first) && Filtered(b, rest, second)
    ensures Shares(a, b, Rest(rest, second), m)
  {
  }

  lemma OneCut(removed: seq<Tx>, m: Items, strict: bool, costLimit: int, gasLimit: int)
    requires Filed(m) && Filtered(removed, m, OverFilter(costLimit, gasLimit)) && (strict ==> removed == [])
    ensures Rest(m, OverFilter(costLimit, gasLimit)) == Affordable(m, strict, costLimit, gasLimit)
    ensures Shares(removed, [], Rest(m, OverFilter(costLimit, gasLimit)), m)
    ensures strict ==> Affordable(m, strict, costLimit, gasLimit) == m
  {
    if strict {
      forall n | n in m ensures !Over(m[n], costLimit, gasLimit) {
        assert multiset(removed)[m[n]] == 0;
      }
    }
  }

  lemma RemovedShares(m: Items, nonce: nat, invalids: seq<Tx>, above: Tx -> bool)
    requires Filed(m) && nonce in m && above == AboveFilter(nonce) && Filtered(invalids, Without(m, nonce), above)
    ensures Shares([m[nonce]], invalids, Below(m, nonce), m)
  {
  }

  /** A map whose sorted contents are a prefix of another's holds its lowest part. */
  lemma PrefixMap(part: Items, m: Items, rest: seq<Tx>)
    requires Filed(part) && Filed(m) && SortedOf(part) + rest == SortedOf(m)
    ensures forall n :: n in part ==> n in m && part[n] == m[n]
    ensures forall n, k :: n in m && k in part && n <= k ==> n in part
    ensures Consecutive(m) ==> Consecutive(part)
  {
    SortedIs(part);
    SortedIs(m);
    var s, t := SortedOf(part), SortedOf(m);
    forall n | n in part ensures n in m && part[n] == m[n] {
      assert HasNonce(s, n);
      var i :| 0 <= i < |s| && s[i].nonce == n;
      assert ItemAt(s, part, i) && ItemAt(t, m, i) && t[i] == s[i];
    }
    forall n, k | n in m && k in part && n <= k ensures n in part {
      assert HasNonce(s, k) && HasNonce(t, n);
      var i :| 0 <= i < |s| && s[i].nonce == k;
      var j :| 0 <= j < |t| && t[j].nonce == n;
      assert t[i] == s[i] && !(i < j);
      assert ItemAt(s, part, j) && s[j] == t[j];
    }
  }
}
