/**
  The three walks that look for the point where two chains fork:
  FindCommonAncestor (core/database_util.go), BlockChain.reorg
  (core/blockchain.go) and TxPool.reset (core/tx_pool.go).
 */
module CommonAncestors {
  import opened Prelude
  import opened Ancestry

  // ---------- walks over a store that may have gaps ----------

  /** Headers are stored under their own hash; parents may be missing. */
  ghost predicate Keyed(hash: Header -> Hash, db: map<Hash, Header>) {
    Ideal(hash) && forall h :: h in db ==> hash(db[h]) == h
  }

  /** The database key holds both the hash and the number. */
  function GetHeader(db: map<Hash, Header>, h: Hash, number: int): Option<Header> {
    if h in db && db[h].number == number then Some(db[h]) else None
  }

  /** The ancestor of `a` at height `n`, if the store has every header on the way. */
  function Up(db: map<Hash, Header>, a: Header, n: nat): Option<Header>
    decreases a.number
  {
    if a.number == n then Some(a)
    else if a.number < n then None
    else
      match GetHeader(db, a.parentHash, a.number - 1)
      case None => None
      case Some(p) => Up(db, p, n)
  }

  ghost predicate Meets(db: map<Hash, Header>, a: Header, b: Header, n: nat) {
    Up(db, a, n).Some? && Up(db, a, n) == Up(db, b, n)
  }

  /** The highest header on both walks, or none exactly if the walks never meet. */
  ghost predicate LastCommon(db: map<Hash, Header>, a: Header, b: Header, r: Option<Header>) {
    match r
    case None => forall n: nat :: !Meets(db, a, b, n)
    case Some(c) =>
      && Up(db, a, c.number) == Up(db, b, c.number) == r
      && forall n: nat :: n > c.number ==> !Meets(db, a, b, n)
  }

  lemma {:induction false} UpHeight(db: map<Hash, Header>, a: Header, n: nat)
    ensures Up(db, a, n).Some? ==> Up(db, a, n).value.number == n && n <= a.number
    decreases a.number
  {
    if a.number > n && GetHeader(db, a.parentHash, a.number - 1).Some? {
      UpHeight(db, GetHeader(db, a.parentHash, a.number - 1).value, n);
    }
  }

  /** The last common ancestor of two headers, whatever the store is missing:
      it is found exactly when the two walks meet, and nothing above it is common. */
  method FindCommonAncestor(hash: Header -> Hash, db: map<Hash, Header>, a0: Header, b0: Header)
    returns (r: Option<Header>)
    requires Keyed(hash, db)
    ensures LastCommon(db, a0, b0, r)
  {
    var a, b := a0, b0;
    var bn := b.number;
    while a.number > bn
      invariant a.number >= bn || a == a0
      invariant forall n: nat :: n <= bn ==> Up(db, a, n) == Up(db, a0, n)
      decreases a.number
    {
      match GetHeader(db, a.parentHash, a.number - 1) {
        case None => NoneAbove(db, a0, b0, bn); return None;
        case Some(p) => a := p;
      }
    }
    NoneAbove(db, a0, b0, bn);
    var an := a.number;
    while an < b.number
      invariant b.number >= an
      invariant forall n: nat :: n <= an ==> Up(db, b, n) == Up(db, b0, n)
      decreases b.number
    {
      match GetHeader(db, b.parentHash, b.number - 1) {
        case None => NoneAbove(db, a, b0, an); return None;
        case Some(p) => b := p;
      }
    }
    NoneAbove(db, a, b0, an);
    while hash(a) != hash(b)
      invariant a.number == b.number <= an
      invariant forall n: nat :: n <= a.number ==> Up(db, a, n) == Up(db, a0, n) && Up(db, b, n) == Up(db, b0, n)
      invariant forall n: nat :: n > a.number ==> !Meets(db, a0, b0, n)
      decreases a.number
    {
      assert !Meets(db, a0, b0, a.number);
      var pa := GetHeader(db, a.parentHash, a.number - 1);
      if pa.None? {
        return None;
      }
      var pb := GetHeader(db, b.parentHash, b.number - 1);
      if pb.None? {
        return None;
      }
      a, b := pa.value, pb.value;
    }
    return Some(a);
  }

  lemma NoneAbove(db: map<Hash, Header>, a: Header, b: Header, k: nat)
    ensures a.number <= k || b.number <= k ==> forall n: nat :: n > k ==> !Meets(db, a, b, n)
  {
    forall n: nat | n > k
      ensures a.number <= k || b.number <= k ==> !Meets(db, a, b, n)
    {
      UpHeight(db, a, n);
      UpHeight(db, b, n);
    }
  }

  // ---------- forks in a complete tree ----------

  /** `k` is the height of the last common ancestor of `a` and `b`. */
  ghost predicate ForkAt(t: Tree, a: Hash, b: Hash, k: nat) {
    && t.Has(a, k) && t.Has(b, k)
    && t.Anc(a, k) == t.Anc(b, k)
    && forall n: nat :: k < n && t.Has(a, n) && t.Has(b, n) ==> t.Anc(a, n) != t.Anc(b, n)
  }

  /** Any two headers of a tree fork somewhere, and only at one height. */
  lemma ForkExists(t: Tree, a: Hash, b: Hash) returns (k: nat)
    requires t.Has(a, 0) && t.Has(b, 0)
    ensures ForkAt(t, a, b, k)
  {
    k := if t.store[a].number < t.store[b].number then t.store[a].number else t.store[b].number;
    while t.Anc(a, k) != t.Anc(b, k)
      invariant t.Has(a, k) && t.Has(b, k)
      invariant forall n: nat :: k < n && t.Has(a, n) && t.Has(b, n) ==> t.Anc(a, n) != t.Anc(b, n)
      decreases k
    {
      AncZero(t, a);
      AncZero(t, b);
      k := k - 1;
    }
  }

  /** The headers of `h`'s chain above height `n`, newest first. */
  ghost function Branch(t: Tree, h: Hash, n: nat): seq<Header>
    requires t.Has(h, n)
    decreases t.store[h].number
  {
    if t.store[h].number == n then []
    else
      assert t.Linked(h);
      [t.store[h]] + Branch(t, t.store[h].parentHash, n)
  }

  /** A branch lists the ancestors one after the other. */
  lemma {:induction false} BranchAt(t: Tree, h: Hash, n: nat, i: nat)
    requires t.Has(h, n) && i < t.store[h].number - n
    ensures |Branch(t, h, n)| == t.store[h].number - n
    ensures t.Has(h, t.store[h].number - i) && t.Anc(h, t.store[h].number - i) in t.store
    ensures Branch(t, h, n)[i] == t.store[t.Anc(h, t.store[h].number - i)]
    decreases t.store[h].number
  {
    assert t.Linked(h);
    var p := t.store[h].parentHash;
    if i > 0 {
      BranchAt(t, p, n, i - 1);
    } else if t.store[p].number > n {
      BranchAt(t, p, n, 0);
    }
  }

  /** The walk on a complete tree is the ancestor function. */
  lemma {:induction false} UpIsAnc(t: Tree, h: Hash, n: nat)
    requires t.Has(h, n)
    ensures t.Anc(h, n) in t.store && Up(t.store, t.store[h], n) == Some(t.store[t.Anc(h, n)])
    decreases t.store[h].number
  {
    assert t.Linked(h);
    if n < t.store[h].number {
      UpIsAnc(t, t.store[h].parentHash, n);
    }
  }

  /** On a complete tree FindCommonAncestor always finds the fork. */
  lemma FoundIsFork(t: Tree, a: Hash, b: Hash, r: Option<Header>)
    requires t.Has(a, 0) && t.Has(b, 0)
    requires LastCommon(t.store, t.store[a], t.store[b], r)
    ensures r.Some? && ForkAt(t, a, b, r.value.number)
  {
    UpIsAnc(t, a, 0);
    UpIsAnc(t, b, 0);
    AncZero(t, a);
    AncZero(t, b);
    assert Meets(t.store, t.store[a], t.store[b], 0);
    var k := r.value.number;
    UpHeight(t.store, t.store[a], k);
    UpHeight(t.store, t.store[b], k);
    ForkFromWalk(t, a, b, k);
  }

  lemma ForkFromWalk(t: Tree, a: Hash, b: Hash, k: nat)
    requires t.Has(a, k) && t.Has(b, k) && Meets(t.store, t.store[a], t.store[b], k)
    requires forall n: nat :: n > k ==> !Meets(t.store, t.store[a], t.store[b], n)
    ensures ForkAt(t, a, b, k)
  {
    UpIsAnc(t, a, k);
    UpIsAnc(t, b, k);
    assert t.Linked(t.Anc(a, k)) && t.Linked(t.Anc(b, k));
    forall n: nat | k < n && t.Has(a, n) && t.Has(b, n)
      ensures t.Anc(a, n) != t.Anc(b, n)
    {
      UpIsAnc(t, a, n);
      UpIsAnc(t, b, n);
      assert !Meets(t.store, t.store[a], t.store[b], n);
    }
  }

  // ---------- the walk of a reorganisation ----------

  /** The headers on the walk from `a` above height `n`, newest first, as far as they are stored. */
  function Above(db: map<Hash, Header>, a: Header, n: nat): seq<Header>
    decreases a.number
  {
    if a.number <= n then []
    else
      match GetHeader(db, a.parentHash, a.number - 1)
      case None => [a]
      case Some(p) => [a] + Above(db, p, n)
  }

  /** A walk from `a0` has collected `seen` and is at `a`. */
  ghost predicate Descended(db: map<Hash, Header>, a0: Header, seen: seq<Header>, a: Header) {
    a.number <= a0.number && forall n: nat :: n <= a.number ==> DescendedTo(db, a0, seen, a, n)
  }

  ghost predicate DescendedTo(db: map<Hash, Header>, a0: Header, seen: seq<Header>, a: Header, n: nat) {
    Up(db, a, n) == Up(db, a0, n) && Above(db, a0, n) == seen + Above(db, a, n)
  }

  lemma DescendStart(db: map<Hash, Header>, a: Header)
    ensures Descended(db, a, [], a)
  {
    forall n: nat ensures DescendedTo(db, a, [], a, n) { }
  }

  lemma DescendStep(db: map<Hash, Header>, a0: Header, seen: seq<Header>, a: Header, p: Header)
    requires Descended(db, a0, seen, a) && GetHeader(db, a.parentHash, a.number - 1) == Some(p)
    ensures Descended(db, a0, seen + [a], p) && p.number == a.number - 1
  {
    forall n: nat | n <= p.number ensures DescendedTo(db, a0, seen + [a], p, n) {
      assert DescendedTo(db, a0, seen, a, n);
      assert seen + ([a] + Above(db, p, n)) == (seen + [a]) + Above(db, p, n);
    }
  }

  lemma DescendEnd(db: map<Hash, Header>, a0: Header, seen: seq<Header>, a: Header)
    requires Descended(db, a0, seen, a)
    ensures Up(db, a0, a.number) == Some(a) && seen == Above(db, a0, a.number)
  {
    assert DescendedTo(db, a0, seen, a, a.number);
    assert seen + [] == seen;
  }

  /** A walk that has no parent to go to reaches no lower height. */
  lemma DeadEnd(db: map<Hash, Header>, a0: Header, seen: seq<Header>, a: Header)
    requires Descended(db, a0, seen, a) && GetHeader(db, a.parentHash, a.number - 1).None?
    ensures forall n: nat :: n < a.number ==> Up(db, a0, n).None?
  {
    forall n: nat | n < a.number ensures Up(db, a0, n).None? {
      assert DescendedTo(db, a0, seen, a, n);
    }
  }

  /** Walks down from `a` to height `n`, collecting headers. */
  method WalkTo(db: map<Hash, Header>, ghost a0: Header, seen0: seq<Header>, a: Header, n: nat)
    returns (seen: seq<Header>, cur: Option<Header>)
    requires Descended(db, a0, seen0, a) && n <= a.number
    ensures cur.Some? ==> Descended(db, a0, seen, cur.value) && cur.value.number == n
    ensures cur.None? ==> forall m: nat :: m <= n ==> Up(db, a0, m).None?
  {
    seen := seen0;
    var c := a;
    while c.number != n
      invariant Descended(db, a0, seen, c) && n <= c.number
      decreases c.number
    {
      var p := GetHeader(db, c.parentHash, c.number - 1);
      if p.None? {
        DeadEnd(db, a0, seen, c);
        return seen, None;
      }
      DescendStep(db, a0, seen, c, p.value);
      seen, c := seen + [c], p.value;
    }
    return seen, Some(c);
  }

  /** The walk of BlockChain.reorg over any database: it finds the last common
      block and collects the two walks above it, newest first, or fails exactly
      if the walks never meet. */
  method ReorgWalk(hash: Header -> Hash, db: map<Hash, Header>, old0: Header, new0: Header)
    returns (r: Option<(seq<Header>, seq<Header>, Header)>)
    requires Keyed(hash, db)
    ensures LastCommon(db, old0, new0, if r.Some? then Some(r.value.2) else None)
    ensures r.Some? ==>
      r.value.0 == Above(db, old0, r.value.2.number) && r.value.1 == Above(db, new0, r.value.2.number)
  {
    var oldBlock, newBlock := Some(old0), Some(new0);
    var oldChain: seq<Header>, newChain: seq<Header> := [], [];
    DescendStart(db, old0);
    DescendStart(db, new0);
    if old0.number > new0.number {
      oldChain, oldBlock := WalkTo(db, old0, [], old0, new0.number);
      NoneAbove(db, old0, new0, new0.number);
    } else {
      newChain, newBlock := WalkTo(db, new0, [], new0, old0.number);
      NoneAbove(db, old0, new0, old0.number);
    }
    if oldBlock.None? || newBlock.None? {
      return None;
    }
    r := JointWalk(hash, db, old0, new0, oldChain, newChain, oldBlock.value, newBlock.value);
  }

  /** Both walks go down in step until they meet. */
  method JointWalk(hash: Header -> Hash, db: map<Hash, Header>, ghost old0: Header, ghost new0: Header,
                   oldChain0: seq<Header>, newChain0: seq<Header>, old1: Header, new1: Header)
    returns (r: Option<(seq<Header>, seq<Header>, Header)>)
    requires Keyed(hash, db) && old1.number == new1.number
    requires Descended(db, old0, oldChain0, old1) && Descended(db, new0, newChain0, new1)
    requires forall n: nat :: n > old1.number ==> !Meets(db, old0, new0, n)
    ensures LastCommon(db, old0, new0, if r.Some? then Some(r.value.2) else None)
    ensures r.Some? ==>
      r.value.0 == Above(db, old0, r.value.2.number) && r.value.1 == Above(db, new0, r.value.2.number)
  {
    var oldChain, newChain, oldBlock, newBlock := oldChain0, newChain0, old1, new1;
    while hash(oldBlock) != hash(newBlock)
      invariant oldBlock.number == newBlock.number
      invariant Descended(db, old0, oldChain, oldBlock) && Descended(db, new0, newChain, newBlock)
      invariant forall n: nat :: n > oldBlock.number ==> !Meets(db, old0, new0, n)
      decreases oldBlock.number
    {
      DescendEnd(db, old0, oldChain, oldBlock);
      DescendEnd(db, new0, newChain, newBlock);
      assert !Meets(db, old0, new0, oldBlock.number);
      var p := GetHeader(db, oldBlock.parentHash, oldBlock.number - 1);
      var q := GetHeader(db, newBlock.parentHash, newBlock.number - 1);
      if p.None? {
        DeadEnd(db, old0, oldChain, oldBlock);
        return None;
      }
      if q.None? {
        DeadEnd(db, new0, newChain, newBlock);
        return None;
      }
      DescendStep(db, old0, oldChain, oldBlock, p.value);
      DescendStep(db, new0, newChain, newBlock, q.value);
      oldChain, newChain := oldChain + [oldBlock], newChain + [newBlock];
      oldBlock, newBlock := p.value, q.value;
    }
    DescendEnd(db, old0, oldChain, oldBlock);
    DescendEnd(db, new0, newChain, newBlock);
    return Some((oldChain, newChain, oldBlock));
  }

  // ---------- the walks on a complete tree ----------

  /** The database holds the parent of every block that a walk can reach. */
  lemma ParentStored(t0: Tree, new0: Header, cur: Header)
    requires t0.Rooted() && t0.Attaches(new0) && cur.number >= 1
    requires t0.hash(cur) in t0.Attach(new0).store && t0.Attach(new0).store[t0.hash(cur)] == cur
    ensures cur.parentHash in t0.store
    ensures GetHeader(t0.store, cur.parentHash, cur.number - 1) == Some(t0.store[cur.parentHash])
    ensures cur.parentHash in t0.Attach(new0).store && t0.Attach(new0).store[cur.parentHash] == t0.store[cur.parentHash]
  {
    AttachRooted(t0, new0);
    if t0.hash(cur) in t0.store {
      assert t0.Linked(t0.hash(cur));
    }
    assert t0.Linked(cur.parentHash);
  }

  lemma {:induction false} AboveIsBranch(t: Tree, h: Hash, n: nat)
    requires t.Has(h, n)
    ensures Above(t.store, t.store[h], n) == Branch(t, h, n)
    decreases t.store[h].number
  {
    assert t.Linked(h);
    if n < t.store[h].number {
      AboveIsBranch(t, t.store[h].parentHash, n);
    }
  }

  /** Storing the new block itself makes no difference to a walk. */
  lemma {:induction false} SameWalk(t0: Tree, new0: Header, cur: Header, n: nat)
    requires t0.Rooted() && t0.Attaches(new0)
    requires t0.hash(cur) in t0.Attach(new0).store && t0.Attach(new0).store[t0.hash(cur)] == cur
    ensures Up(t0.store, cur, n) == Up(t0.Attach(new0).store, cur, n)
    ensures Above(t0.store, cur, n) == Above(t0.Attach(new0).store, cur, n)
    decreases cur.number
  {
    if cur.number > n {
      ParentStored(t0, new0, cur);
      var p := t0.store[cur.parentHash];
      assert t0.Linked(cur.parentHash);
      SameWalk(t0, new0, p, n);
    }
  }

  lemma ForkUnique(t: Tree, a: Hash, b: Hash, k: nat, m: nat)
    requires ForkAt(t, a, b, k) && ForkAt(t, a, b, m)
    ensures k == m
  {
  }

  /** On a complete tree, with or without the new block itself, the walks meet at
      the fork and collect exactly the two branches above it. */
  lemma WalkedFork(t0: Tree, old0: Header, new0: Header, k: nat, c: Option<Header>)
    requires t0.Rooted() && t0.Attaches(new0) && t0.hash(old0) in t0.store && t0.store[t0.hash(old0)] == old0
    requires ForkAt(t0.Attach(new0), t0.hash(old0), t0.hash(new0), k) && LastCommon(t0.store, old0, new0, c)
    ensures c.Some? && c.value.number == k
    ensures var t := t0.Attach(new0);
      && Above(t0.store, old0, k) == Branch(t, t0.hash(old0), k)
      && Above(t0.store, new0, k) == Branch(t, t0.hash(new0), k)
  {
    var t, a, b := t0.Attach(new0), t0.hash(old0), t0.hash(new0);
    AttachRooted(t0, new0);
    assert t0.Linked(a) && t.Linked(a) && t.Linked(b);
    forall n: nat ensures Meets(t.store, old0, new0, n) <==> Meets(t0.store, old0, new0, n) {
      SameWalk(t0, new0, old0, n);
      SameWalk(t0, new0, new0, n);
    }
    if c.Some? {
      SameWalk(t0, new0, old0, c.value.number);
      SameWalk(t0, new0, new0, c.value.number);
    }
    FoundIsFork(t, a, b, c);
    ForkUnique(t, a, b, k, c.value.number);
    AboveIsBranch(t, a, k);
    AboveIsBranch(t, b, k);
  }

  /** The walk of BlockChain.reorg over the database of a block chain: it does not
      fail, and collects the two branches above the fork. */
  method ForkWalk(ghost t0: Tree, hash: Header -> Hash, db: map<Hash, Header>, old0: Header, new0: Header, ghost k: nat)
    returns (r: Option<(seq<Header>, seq<Header>, Header)>)
    requires t0.hash == hash && t0.store == db && t0.Rooted() && t0.Attaches(new0)
    requires hash(old0) in db && db[hash(old0)] == old0
    requires ForkAt(t0.Attach(new0), hash(old0), hash(new0), k)
    ensures r.Some? && r.value.2.number == k
    ensures r.value.0 == Branch(t0.Attach(new0), hash(old0), k) && r.value.1 == Branch(t0.Attach(new0), hash(new0), k)
  {
    assert forall h :: h in db ==> t0.Linked(h);
    r := ReorgWalk(hash, db, old0, new0);
    WalkedFork(t0, old0, new0, k, if r.Some? then Some(r.value.2) else None);
  }

  // ---------- the walk of the transaction pool ----------

  function Txs(blocks: seq<Header>): seq<TxHash> {
    if blocks == [] then [] else blocks[0].txs + Txs(blocks[1..])
  }

  lemma {:induction false} TxsAppend(blocks: seq<Header>, b: Header)
    ensures Txs(blocks + [b]) == Txs(blocks) + b.txs
  {
    if blocks == [] {
      assert blocks + [b] == [b];
      assert b.txs + Txs([]) == b.txs;
    } else {
      TxsAppend(blocks[1..], b);
      assert (blocks + [b])[1..] == blocks[1..] + [b];
    }
  }

  /** The transactions of `a` that are not in `b`, in order. */
  function TxDifference(a: seq<TxHash>, b: seq<TxHash>): (keep: seq<TxHash>)
    ensures forall tx :: tx in keep <==> tx in a && tx !in b
  {
    if a == [] then []
    else if a[0] in b then TxDifference(a[1..], b)
    else [a[0]] + TxDifference(a[1..], b)
  }

  /** Order and repetitions are kept: the difference is taken piece by piece. */
  lemma {:induction false} DifferenceConcat(x: seq<TxHash>, y: seq<TxHash>, b: seq<TxHash>)
    ensures TxDifference(x + y, b) == TxDifference(x, b) + TxDifference(y, b)
  {
    if x == [] {
      assert x + y == y && TxDifference(x, b) == [];
      assert [] + TxDifference(y, b) == TxDifference(y, b);
    } else {
      DifferenceConcat(x[1..], y, b);
      DifferenceOne(x, b);
      DifferenceOne(x + y, b);
      assert (x + y)[1..] == x[1..] + y && (x + y)[0] == x[0];
      Regroup(if x[0] in b then [] else [x[0]], TxDifference(x[1..], b), TxDifference(y, b));
    }
  }

  lemma {:induction false} DifferenceOne(x: seq<TxHash>, b: seq<TxHash>)
    requires x != []
    ensures TxDifference(x, b) == (if x[0] in b then [] else [x[0]]) + TxDifference(x[1..], b)
  {
    assert [] + TxDifference(x[1..], b) == TxDifference(x[1..], b);
  }

  lemma Regroup(x: seq<TxHash>, y: seq<TxHash>, z: seq<TxHash>)
    ensures x + (y + z) == (x + y) + z
  {
  }

  /** What the pool re-injects when the walks meet at height `k`. */
  function Reinjected(db: map<Hash, Header>, oldHead: Header, newHead: Header, k: nat): seq<TxHash> {
    TxDifference(Txs(Above(db, oldHead, k)), Txs(Above(db, newHead, k)))
  }

  /** The walk of TxPool.reset between the old and the new head over any database:
      it re-injects what the old walk holds above the last common block and the
      new one does not, and gives up exactly if the walks never meet. */
  method ResetWalk(hash: Header -> Hash, db: map<Hash, Header>, oldHead: Header, newHead: Header)
    returns (reinject: Option<seq<TxHash>>, ghost common: Option<Header>)
    requires Keyed(hash, db)
    ensures LastCommon(db, oldHead, newHead, common)
    ensures reinject == if common.Some? then Some(Reinjected(db, oldHead, newHead, common.value.number)) else None
  {
    var rem, add := Some(oldHead), Some(newHead);
    ghost var sa: seq<Header>, sb: seq<Header> := [], [];
    var discarded: seq<TxHash>, included: seq<TxHash> := [], [];
    DescendStart(db, oldHead);
    DescendStart(db, newHead);
    if oldHead.number > newHead.number {
      NoneAbove(db, oldHead, newHead, newHead.number);
      discarded, rem, sa := DropTo(db, oldHead, newHead.number);
    } else {
      NoneAbove(db, oldHead, newHead, oldHead.number);
      included, add, sb := DropTo(db, newHead, oldHead.number);
    }
    if rem.None? || add.None? {
      return None, None;
    }
    reinject, common := DropBoth(hash, db, oldHead, newHead, sa, sb, discarded, included, rem.value, add.value);
  }

  const MAX_REORG_DEPTH: nat := 64

  /** What TxPool.reset re-injects when the head moves: nothing if there is no old
      head, if that is the parent of the new one or if their heights are too far
      apart; it gives up exactly if it walks and the walks never meet. */
  method Reset(hash: Header -> Hash, db: map<Hash, Header>, oldHead: Option<Header>, newHead: Header)
    returns (reinject: Option<seq<TxHash>>, ghost common: Option<Header>)
    requires Keyed(hash, db)
    ensures oldHead.None? || newHead.parentHash == hash(oldHead.value) ==> reinject == Some([])
    ensures oldHead.Some? && !(newHead.number - 64 <= oldHead.value.number <= newHead.number + 64) ==>
      reinject == Some([])
    ensures oldHead.Some? && newHead.parentHash != hash(oldHead.value)
            && newHead.number - 64 <= oldHead.value.number <= newHead.number + 64 ==>
      && LastCommon(db, oldHead.value, newHead, common)
      && reinject == if common.Some? then Some(Reinjected(db, oldHead.value, newHead, common.value.number)) else None
  {
    reinject, common := Some([]), None;
    if oldHead.Some? && hash(oldHead.value) != newHead.parentHash {
      var oldNum, newNum := oldHead.value.number, newHead.number;
      var depth := if oldNum > newNum then oldNum - newNum else newNum - oldNum;
      if depth <= MAX_REORG_DEPTH {
        reinject, common := ResetWalk(hash, db, oldHead.value, newHead);
      }
    }
  }

  /** Not walking from a parent to its child loses nothing: the walk would re-inject nothing. */
  lemma ExtensionReinjects(db: map<Hash, Header>, oldHead: Header, newHead: Header, c: Option<Header>)
    requires GetHeader(db, newHead.parentHash, newHead.number - 1) == Some(oldHead)
    requires LastCommon(db, oldHead, newHead, c)
    ensures c == Some(oldHead) && Reinjected(db, oldHead, newHead, oldHead.number) == []
  {
    var n := oldHead.number;
    assert Up(db, newHead, n) == Up(db, oldHead, n) == Some(oldHead);
    assert Meets(db, oldHead, newHead, n);
    UpHeight(db, oldHead, c.value.number);
  }

  /** One head goes down to the height of the other. */
  method DropTo(db: map<Hash, Header>, head: Header, n: nat)
    returns (txs: seq<TxHash>, cur: Option<Header>, ghost seen: seq<Header>)
    requires n <= head.number
    ensures cur.Some? ==> Descended(db, head, seen, cur.value) && cur.value.number == n && txs == Txs(seen)
    ensures cur.None? ==> forall m: nat :: m <= n ==> Up(db, head, m).None?
  {
    txs, seen := [], [];
    var c := head;
    DescendStart(db, head);
    while c.number > n
      invariant Descended(db, head, seen, c) && n <= c.number && txs == Txs(seen)
      decreases c.number
    {
      TxsAppend(seen, c);
      txs := txs + c.txs;
      var p := GetHeader(db, c.parentHash, c.number - 1);
      if p.None? {
        DeadEnd(db, head, seen, c);
        cur := None;
        return;
      }
      DescendStep(db, head, seen, c, p.value);
      seen, c := seen + [c], p.value;
    }
    cur := Some(c);
  }

  /** Both heads go down in step until they meet. */
  method DropBoth(hash: Header -> Hash, db: map<Hash, Header>, ghost oldHead: Header, ghost newHead: Header,
                  ghost sa0: seq<Header>, ghost sb0: seq<Header>,
                  discarded0: seq<TxHash>, included0: seq<TxHash>, rem0: Header, add0: Header)
    returns (reinject: Option<seq<TxHash>>, ghost common: Option<Header>)
    requires Keyed(hash, db) && rem0.number == add0.number && discarded0 == Txs(sa0) && included0 == Txs(sb0)
    requires Descended(db, oldHead, sa0, rem0) && Descended(db, newHead, sb0, add0)
    requires forall n: nat :: n > rem0.number ==> !Meets(db, oldHead, newHead, n)
    ensures LastCommon(db, oldHead, newHead, common)
    ensures reinject == if common.Some? then Some(Reinjected(db, oldHead, newHead, common.value.number)) else None
  {
    var discarded, included, rem, add := discarded0, included0, rem0, add0;
    ghost var sa, sb := sa0, sb0;
    while hash(rem) != hash(add)
      invariant rem.number == add.number && discarded == Txs(sa) && included == Txs(sb)
      invariant Descended(db, oldHead, sa, rem) && Descended(db, newHead, sb, add)
      invariant forall n: nat :: n > rem.number ==> !Meets(db, oldHead, newHead, n)
      decreases rem.number
    {
      DescendEnd(db, oldHead, sa, rem);
      DescendEnd(db, newHead, sb, add);
      assert !Meets(db, oldHead, newHead, rem.number);
      TxsAppend(sa, rem);
      TxsAppend(sb, add);
      discarded := discarded + rem.txs;
      var p := GetHeader(db, rem.parentHash, rem.number - 1);
      if p.None? {
        DeadEnd(db, oldHead, sa, rem);
        return None, None;
      }
      included := included + add.txs;
      var q := GetHeader(db, add.parentHash, add.number - 1);
      if q.None? {
        DeadEnd(db, newHead, sb, add);
        return None, None;
      }
      DescendStep(db, oldHead, sa, rem, p.value);
      DescendStep(db, newHead, sb, add, q.value);
      sa, sb := sa + [rem], sb + [add];
      rem, add := p.value, q.value;
    }
    DescendEnd(db, oldHead, sa, rem);
    DescendEnd(db, newHead, sb, add);
    return Some(TxDifference(discarded, included)), Some(rem);
  }

  /** On a complete tree that holds both heads, those are the two branches above the fork. */
  lemma ReinjectedFork(t: Tree, a: Hash, b: Hash, k: nat, c: Option<Header>)
    requires ForkAt(t, a, b, k) && LastCommon(t.store, t.store[a], t.store[b], c)
    ensures c.Some? && c.value.number == k
    ensures Reinjected(t.store, t.store[a], t.store[b], k) == TxDifference(Txs(Branch(t, a, k)), Txs(Branch(t, b, k)))
  {
    assert t.Linked(a) && t.Linked(b);
    FoundIsFork(t, a, b, c);
    ForkUnique(t, a, b, k, c.value.number);
    AboveIsBranch(t, a, k);
    AboveIsBranch(t, b, k);
  }
}
