/**
  The block chain (core/blockchain.go): writing a block, moving the head to
  the heaviest chain and reorganising the canonical and lookup indices.
 */
module BlockChains {
  import opened Prelude
  import opened Ancestry
  import opened TotalDifficulty
  import opened CommonAncestors
  import opened TxLookup
  import opened HeaderChains

  // ---------- the specification ----------

  /** `head` is the head block and `header` the head of the header chain. */
  datatype Blocks = Blocks(tree: Tree, tds: map<Hash, int>, canonical: map<nat, Hash>, head: Hash, lookup: Index,
                           header: Hash)

  /** Up to the head the canonical index is the head's ancestor path. */
  ghost predicate CanonOk(t: Tree, canonical: map<nat, Hash>, head: Hash)
    requires t.Has(head, 0)
  {
    forall n: nat :: n <= t.store[head].number ==> n in canonical && canonical[n] == t.Anc(head, n)
  }

  /** Whatever else the index holds are stored blocks under their own number. */
  ghost predicate IndexStored(t: Tree, canonical: map<nat, Hash>) {
    forall n: nat :: n in canonical ==> canonical[n] in t.store && t.store[canonical[n]].number == n
  }

  ghost predicate BlocksOk(s: Blocks) {
    && s.tree.Has(s.head, 0)
    && TdsOk(s.tree, s.tds) && Heaviest(s.tds, s.head)
    && Distinct(s.tree)
    && CanonOk(s.tree, s.canonical, s.head)
    && IndexStored(s.tree, s.canonical)
    && s.lookup == ChainIndex(s.tree, s.head)
    && s.header in s.tree.store
  }

  /** A block that may be written: known parent one below, no transaction repeated on its chain. */
  ghost predicate Acceptable(t: Tree, b: Header) {
    && t.Attaches(b) && t.Has(b.parentHash, 0)
    && NoDuplicates(b.txs) && TxSet(b.txs) !! ChainTxs(t, b.parentHash)
  }

  /** Heavier wins; equals are split by number and then by the coin. */
  predicate Better(td: int, number: nat, localTd: int, localNumber: nat, coin: bool) {
    td > localTd || (td == localTd && (number < localNumber || (number == localNumber && coin)))
  }

  ghost function ForkOf(t: Tree, a: Hash, b: Hash): (k: nat)
    requires t.Has(a, 0) && t.Has(b, 0)
    ensures ForkAt(t, a, b, k)
  {
    assert exists k: nat :: ForkAt(t, a, b, k) by {
      var k := ForkExists(t, a, b);
    }
    var k: nat :| ForkAt(t, a, b, k);
    k
  }

  /** Inserting blocks one after the other: the header head follows only
      when the canonical index did not already hold the block. */
  function InsertAll(hash: Header -> Hash, canonical: map<nat, Hash>, header: Hash,
                     blocks: seq<Header>): (map<nat, Hash>, Hash)
    decreases |blocks|
  {
    if blocks == [] then (canonical, header)
    else
      var b := blocks[0];
      InsertAll(hash, canonical[b.number := hash(b)],
                if At(canonical, b.number) != hash(b) then hash(b) else header, blocks[1..])
  }

  /** The blocks inserted when `b` becomes the head: the branch above the fork
      if there is a reorganisation, and then the block itself. */
  ghost function Inserted(t: Tree, head: Hash, b: Header): seq<Header>
    requires t.Has(head, 0) && t.Has(t.hash(b), 0)
  {
    NewBranch(t, head, b) + [b]
  }

  ghost function NewBranch(t: Tree, head: Hash, b: Header): seq<Header>
    requires t.Has(head, 0) && t.Has(t.hash(b), 0)
  {
    if b.parentHash != head then Branch(t, t.hash(b), ForkOf(t, head, t.hash(b))) else []
  }

  ghost function WriteBlockSpec(s: Blocks, b: Header, coin: bool): (Blocks, WriteStatus)
    requires BlocksOk(s)
    requires b.parentHash in s.tree.store ==> Acceptable(s.tree, b)
  {
    if b.parentHash !in s.tree.store then (s, NonStatTy)
    else
      AttachRooted(s.tree, b);
      AttachTd(s.tree, s.tds, b);
      HeadKept(s.tree, b, s.head);
      var h, t, td := s.tree.hash(b), s.tree.Attach(b), NewTd(s.tds, b);
      var s' := s.(tree := t, tds := s.tds[h := td]);
      if Better(td, b.number, s.tds[s.head], s.tree.store[s.head].number, coin) then
        (s'.(canonical := s.canonical + Path(t, h), head := h, lookup := ChainIndex(t, h),
             header := InsertAll(t.hash, s.canonical, s.header, Inserted(t, s.head, b)).1), CanonStatTy)
      else (s', SideStatTy)
  }

  lemma HeadKept(t: Tree, b: Header, h: Hash)
    requires t.Rooted() && t.Attaches(b) && h in t.store
    ensures t.Attach(b).Has(h, 0) && t.Attach(b).store[h] == t.store[h]
  {
    AttachRooted(t, b);
    assert t.Linked(h);
  }

  /** The header head is one of the inserted blocks or stays where it was. */
  lemma {:induction false} InsertAllHeader(hash: Header -> Hash, canonical: map<nat, Hash>, header: Hash,
                                           blocks: seq<Header>)
    ensures var r := InsertAll(hash, canonical, header, blocks).1;
            r == header || exists i :: 0 <= i < |blocks| && r == hash(blocks[i])
    decreases |blocks|
  {
    if blocks != [] {
      var b := blocks[0];
      var header' := if At(canonical, b.number) != hash(b) then hash(b) else header;
      InsertAllHeader(hash, canonical[b.number := hash(b)], header', blocks[1..]);
      var r := InsertAll(hash, canonical, header, blocks).1;
      if r != header' {
        var i :| 0 <= i < |blocks[1..]| && r == hash(blocks[1..][i]);
        assert r == hash(blocks[i + 1]);
      } else if header' != header {
        assert r == hash(blocks[0]);
      }
    }
  }

  lemma BranchStored(t: Tree, h: Hash, k: nat)
    requires t.Has(h, k)
    ensures forall i :: 0 <= i < |Branch(t, h, k)| ==> t.hash(Branch(t, h, k)[i]) in t.store
  {
    var n := t.store[h].number;
    if n > k { BranchAt(t, h, k, 0); }
    forall i | 0 <= i < |Branch(t, h, k)| ensures t.hash(Branch(t, h, k)[i]) in t.store {
      BranchAt(t, h, k, i);
      assert t.Linked(t.Anc(h, n - i));
    }
  }

  lemma CanonAfterAttach(t: Tree, canonical: map<nat, Hash>, head: Hash, b: Header)
    requires t.Has(head, 0) && t.Attaches(b) && CanonOk(t, canonical, head)
    ensures t.Attach(b).Has(head, 0) && CanonOk(t.Attach(b), canonical, head)
  {
    HeadKept(t, b, head);
    forall n: nat | n <= t.store[head].number
      ensures canonical[n] == t.Attach(b).Anc(head, n)
    {
      AncAfterAttach(t, b, head, n);
    }
  }

  lemma PathStored(t: Tree, canonical: map<nat, Hash>, h: Hash)
    requires t.Has(h, 0) && IndexStored(t, canonical)
    ensures IndexStored(t, canonical + Path(t, h))
  {
    var c := canonical + Path(t, h);
    forall n: nat | n in c
      ensures c[n] in t.store && t.store[c[n]].number == n
    {
      if n in Path(t, h) { AncIsStored(t, h, n); }
    }
  }

  lemma IndexStoredAfter(t: Tree, canonical: map<nat, Hash>, b: Header)
    requires t.Rooted() && t.Attaches(b) && IndexStored(t, canonical)
    ensures IndexStored(t.Attach(b), canonical)
  {
    forall n: nat | n in canonical
      ensures canonical[n] in t.Attach(b).store && t.Attach(b).store[canonical[n]].number == n
    {
      assert t.Linked(canonical[n]);
    }
  }

  /** Every write keeps: the canonical index is the head's path up to the
      head, the head is the heaviest block, and the lookup index is exactly
      the transactions of the head's chain with their positions. */
  lemma WriteBlockKeeps(s: Blocks, b: Header, coin: bool)
    requires BlocksOk(s)
    requires b.parentHash in s.tree.store ==> Acceptable(s.tree, b)
    ensures BlocksOk(WriteBlockSpec(s, b, coin).0)
    ensures var s' := WriteBlockSpec(s, b, coin).0; s.tds[s.head] <= s'.tds[s'.head]
  {
    if b.parentHash in s.tree.store {
      StoredKeeps(s, b);
      if Better(NewTd(s.tds, b), b.number, s.tds[s.head], s.tree.store[s.head].number, coin) {
        MovedKeeps(s, b, coin);
      } else {
        SideKeeps(s, b, coin);
      }
    }
  }

  lemma MovedKeeps(s: Blocks, b: Header, coin: bool)
    requires BlocksOk(s) && Acceptable(s.tree, b) && b.parentHash in s.tds && s.head in s.tds
    requires Better(NewTd(s.tds, b), b.number, s.tds[s.head], s.tree.store[s.head].number, coin)
    ensures var s' := WriteBlockSpec(s, b, coin).0; BlocksOk(s') && s.tds[s.head] <= s'.tds[s'.head]
  {
    StoredKeeps(s, b);
    HeadMoves(s, b);
  }

  lemma SideKeeps(s: Blocks, b: Header, coin: bool)
    requires BlocksOk(s) && Acceptable(s.tree, b) && b.parentHash in s.tds && s.head in s.tds
    requires !Better(NewTd(s.tds, b), b.number, s.tds[s.head], s.tree.store[s.head].number, coin)
    ensures var s' := WriteBlockSpec(s, b, coin).0; BlocksOk(s') && s.tds[s.head] <= s'.tds[s'.head]
  {
    StoredKeeps(s, b);
    CanonAfterAttach(s.tree, s.canonical, s.head, b);
    IndexAfterAttach(s.tree, b, s.head);
  }

  /** Storing a block and its total difficulty, before the head moves. */
  lemma StoredKeeps(s: Blocks, b: Header)
    requires BlocksOk(s) && Acceptable(s.tree, b)
    ensures s.head in s.tds && b.parentHash in s.tds
    ensures var h, t := s.tree.hash(b), s.tree.Attach(b);
            && t.Has(s.head, 0) && t.Has(h, 0) && t.store[s.head] == s.tree.store[s.head] && s.header in t.store
            && TdsOk(t, s.tds[h := NewTd(s.tds, b)]) && Distinct(t) && IndexStored(t, s.canonical)
            && (h in s.tds ==> s.tds[h] == NewTd(s.tds, b))
  {
    AttachRooted(s.tree, b);
    AttachTd(s.tree, s.tds, b);
    AttachDistinct(s.tree, b);
    HeadKept(s.tree, b, s.head);
    HeadKept(s.tree, b, s.header);
    IndexStoredAfter(s.tree, s.canonical, b);
    assert s.head in s.tds.Keys;
  }

  /** The indices when the head moves to the block. */
  lemma HeadMoves(s: Blocks, b: Header)
    requires BlocksOk(s) && Acceptable(s.tree, b)
    ensures var h, t := s.tree.hash(b), s.tree.Attach(b);
            && t.Has(s.head, 0) && t.Has(h, 0) && CanonOk(t, s.canonical + Path(t, h), h)
            && IndexStored(t, s.canonical + Path(t, h))
            && InsertAll(t.hash, s.canonical, s.header, Inserted(t, s.head, b)).1 in t.store
  {
    var h, t := s.tree.hash(b), s.tree.Attach(b);
    StoredKeeps(s, b);
    PathStored(t, s.canonical, h);
    InsertedStored(t, s.head, b);
    InsertAllHeader(t.hash, s.canonical, s.header, Inserted(t, s.head, b));
  }

  lemma InsertedStored(t: Tree, head: Hash, b: Header)
    requires t.Has(head, 0) && t.Has(t.hash(b), 0)
    ensures forall i :: 0 <= i < |Inserted(t, head, b)| ==> t.hash(Inserted(t, head, b)[i]) in t.store
  {
    BranchStored(t, t.hash(b), ForkOf(t, head, t.hash(b)));
  }

  /** The chain moves to the block: it is the head, and index and lookup follow it. */
  ghost predicate MovedTo(s: Blocks, b: Header, r: (Blocks, WriteStatus)) {
    && r.1 == CanonStatTy && r.0.head == s.tree.hash(b) && r.0.tree.Has(r.0.head, 0)
    && r.0.lookup == ChainIndex(r.0.tree, r.0.head)
  }

  /** The block is stored on the side and nothing else changes. */
  ghost predicate SetAside(s: Blocks, r: (Blocks, WriteStatus)) {
    && r.1 == SideStatTy && r.0.head == s.head && r.0.header == s.header
    && r.0.canonical == s.canonical && r.0.lookup == s.lookup
  }

  /** Which block wins: the heavier one; of two as heavy the lower one; and of two as heavy
      at one height the coin decides. */
  lemma HeadChoice(s: Blocks, b: Header, coin: bool)
    requires BlocksOk(s) && Acceptable(s.tree, b)
    ensures b.parentHash in s.tds && s.head in s.tds
    ensures var total, best, r := s.tds[b.parentHash] + b.difficulty, s.tds[s.head], WriteBlockSpec(s, b, coin);
            var height := s.tree.store[s.head].number;
            && (total > best ==> MovedTo(s, b, r)) && (total < best ==> SetAside(s, r))
            && (total == best && b.number < height ==> MovedTo(s, b, r))
            && (total == best && b.number > height ==> SetAside(s, r))
            && (total == best && b.number == height ==> if coin then MovedTo(s, b, r) else SetAside(s, r))
  {
    StoredKeeps(s, b);
    if WriteBlockSpec(s, b, coin).1 == CanonStatTy { HeadSpec(s, b, coin); } else { SideSpec(s, b, coin); }
  }

  // ---------- runs ----------

  ghost predicate WritesBlocks(first: Blocks, run: seq<(Header, bool)>, last: Blocks)
    decreases |run|
  {
    if run == [] then first == last
    else
      && BlocksOk(first)
      && (run[0].0.parentHash in first.tree.store ==> Acceptable(first.tree, run[0].0))
      && WritesBlocks(WriteBlockSpec(first, run[0].0, run[0].1).0, run[1..], last)
  }

  function GenesisBlocks(hash: Header -> Hash, genesis: Header): Blocks {
    var g := hash(genesis);
    Blocks(Tree(hash, map[g := genesis], g), map[g := genesis.difficulty], map[0 := g], g, map[], g)
  }

  lemma GenesisBlocksOk(hash: Header -> Hash, genesis: Header)
    requires Ideal(hash) && genesis.number == 0 && genesis.parentHash == ZERO_HASH && genesis.txs == []
    ensures BlocksOk(GenesisBlocks(hash, genesis))
  {
    var s := GenesisBlocks(hash, genesis);
    assert s.tree.Rooted() by {
      forall h | h in s.tree.store ensures s.tree.Linked(h) { }
    }
    forall h | h in s.tree.store ensures TdOk(s.tree, s.tds, h) && DistinctAt(s.tree, h) { }
    assert ChainIndex(s.tree, s.head) == map[];
  }

  /** After any run of writes from the genesis block: the canonical index up
      to the head is its ancestor path, the head is a heaviest block, and the
      lookup index is exact. */
  lemma {:induction false} BlockRunKeeps(first: Blocks, run: seq<(Header, bool)>, last: Blocks)
    requires BlocksOk(first) && WritesBlocks(first, run, last)
    ensures BlocksOk(last)
    ensures first.tds[first.head] <= last.tds[last.head]
    decreases |run|
  {
    if run != [] {
      WriteBlockKeeps(first, run[0].0, run[0].1);
      BlockRunKeeps(WriteBlockSpec(first, run[0].0, run[0].1).0, run[1..], last);
    }
  }

  // ---------- what the insertions of a reorganisation amount to ----------

  lemma {:induction false} InsertAppend(hash: Header -> Hash, canonical: map<nat, Hash>, header: Hash,
                                        blocks: seq<Header>, b: Header)
    ensures var r := InsertAll(hash, canonical, header, blocks);
            InsertAll(hash, canonical, header, blocks + [b]) ==
            (r.0[b.number := hash(b)], if At(r.0, b.number) != hash(b) then hash(b) else r.1)
    decreases |blocks|
  {
    if blocks == [] {
      assert blocks + [b] == [b];
    } else {
      var c := blocks[0];
      assert (blocks + [b])[1..] == blocks[1..] + [b];
      InsertAppend(hash, canonical[c.number := hash(c)],
                   if At(canonical, c.number) != hash(c) then hash(c) else header, blocks[1..], b);
    }
  }

  /** Newest first, the branch overwrites its heights; the header head ends at
      the branch's lowest block whenever that one was not canonical before. */
  lemma {:induction false} InsertBranch(t: Tree, canonical: map<nat, Hash>, header: Hash, h: Hash, k: nat)
    requires t.Has(h, k)
    ensures var r := InsertAll(t.hash, canonical, header, Branch(t, h, k));
            && (forall n: nat :: At(r.0, n) == if k < n <= t.store[h].number then t.Anc(h, n) else At(canonical, n))
            && (forall n: nat :: n in r.0 <==> n in canonical || k < n <= t.store[h].number)
            && (k < t.store[h].number && At(canonical, k + 1) != t.Anc(h, k + 1) ==> r.1 == t.Anc(h, k + 1))
    decreases t.store[h].number
  {
    assert t.Linked(h);
    if k < t.store[h].number {
      var b := t.store[h];
      var canonical' := canonical[b.number := h];
      var header' := if At(canonical, b.number) != h then h else header;
      assert Branch(t, h, k)[1..] == Branch(t, b.parentHash, k);
      InsertBranch(t, canonical', header', b.parentHash, k);
    }
  }

  /** The insertions leave the old index with the new head's path on top. */
  lemma InsertedCanonical(t: Tree, canonical: map<nat, Hash>, header: Hash, head: Hash, b: Header)
    requires t.Has(head, 0) && t.Has(t.hash(b), 0) && t.store[t.hash(b)] == b && b.number >= 1
    requires CanonOk(t, canonical, head)
    ensures InsertAll(t.hash, canonical, header, Inserted(t, head, b)).0 == canonical + Path(t, t.hash(b))
  {
    var h := t.hash(b);
    assert t.Linked(h);
    if b.parentHash != head {
      var k := ForkOf(t, head, h);
      InsertAppend(t.hash, canonical, header, Branch(t, h, k), b);
      InsertBranch(t, canonical, header, h, k);
      OverlayPath(t, canonical, InsertAll(t.hash, canonical, header, Branch(t, h, k)).0, head, h, k);
    } else {
      InsertAppend(t.hash, canonical, header, [], b);
      OverlayPath(t, canonical, canonical, head, h, t.store[head].number);
    }
  }

  lemma OverlayPath(t: Tree, canonical: map<nat, Hash>, r: map<nat, Hash>, head: Hash, h: Hash, k: nat)
    requires t.Has(head, k) && t.Has(h, k) && CanonOk(t, canonical, head) && t.Anc(head, k) == t.Anc(h, k)
    requires forall n: nat :: n != t.store[h].number ==>
      At(r, n) == if k < n <= t.store[h].number then t.Anc(h, n) else At(canonical, n)
    requires forall n: nat :: n != t.store[h].number ==> (n in r <==> n in canonical || k < n <= t.store[h].number)
    ensures r[t.store[h].number := h] == canonical + Path(t, h)
  {
    var r', c := r[t.store[h].number := h], canonical + Path(t, h);
    forall n: nat
      ensures (n in r' <==> n in c) && (n in r' ==> r'[n] == c[n])
    {
      if n != t.store[h].number {
        assert At(r, n) == if k < n <= t.store[h].number then t.Anc(h, n) else At(canonical, n);
        if n <= k { SharedBelow(t, head, h, k, n); }
      }
    }
  }

  // ---------- where the header head ends up ----------

  /** Consensus gives every block but the genesis a positive difficulty. */
  ghost predicate Positive(t: Tree) {
    forall h :: h in t.store && h != t.genesis ==> t.store[h].difficulty > 0
  }

  lemma {:induction false} TdGrows(t: Tree, tds: map<Hash, int>, h: Hash, n: nat)
    requires t.Has(h, n) && TdsOk(t, tds) && Positive(t) && n < t.store[h].number
    ensures t.Anc(h, n) in t.store && tds[t.Anc(h, n)] < tds[h]
    decreases t.store[h].number
  {
    assert t.Linked(h) && TdOk(t, tds, h);
    AncIsStored(t, h, n);
    var p := t.store[h].parentHash;
    if n < t.store[p].number { TdGrows(t, tds, p, n); }
  }

  /** The parent of `b` is the head or one of its ancestors. */
  predicate ParentCanonical(s: Blocks, b: Header)
    requires s.head in s.tree.store
  {
    1 <= b.number <= s.tree.store[s.head].number + 1 && At(s.canonical, b.number - 1) == b.parentHash
  }

  /** With positive difficulties a reorganisation drops at least one block:
      the fork is below both the old head and the new one. */
  lemma ForkBelowBoth(s: Blocks, b: Header, coin: bool)
    requires BlocksOk(s) && Acceptable(s.tree, b) && Positive(s.tree) && b.difficulty > 0
    requires s.tree.hash(b) != s.head && b.parentHash != s.head && b.parentHash in s.tds
    requires Better(NewTd(s.tds, b), b.number, s.tds[s.head], s.tree.store[s.head].number, coin)
    ensures s.tree.Attach(b).Has(s.head, 0) && s.tree.Attach(b).Has(s.tree.hash(b), 0)
    ensures var k := ForkOf(s.tree.Attach(b), s.head, s.tree.hash(b)); k < b.number && k < s.tree.store[s.head].number
  {
    var t, h := s.tree.Attach(b), s.tree.hash(b);
    AttachRooted(s.tree, b);
    AttachTd(s.tree, s.tds, b);
    HeadKept(s.tree, b, s.head);
    assert t.Linked(h);
    var k := ForkOf(t, s.head, h);
    var tds := s.tds[h := NewTd(s.tds, b)];
    assert Positive(t);
    AncParent(t, h, b.number - 1);
    if k == b.number {
      // the block is an ancestor of the head
      TdGrows(t, tds, s.head, k);
    } else if k == t.store[s.head].number {
      // the head is an ancestor of the block's parent
      TdGrows(t, tds, b.parentHash, k);
    }
  }

  /** The insertions of a reorganisation leave the header head at the lowest new block. */
  lemma HeaderAfterReorg(t: Tree, canonical: map<nat, Hash>, header: Hash, head: Hash, b: Header)
    requires t.Has(head, 0) && t.Has(t.hash(b), 0) && t.store[t.hash(b)] == b && CanonOk(t, canonical, head)
    requires b.parentHash != head
    requires var k := ForkOf(t, head, t.hash(b)); k < b.number && k < t.store[head].number
    ensures var k := ForkOf(t, head, t.hash(b));
            InsertAll(t.hash, canonical, header, Inserted(t, head, b)).1 == t.Anc(t.hash(b), k + 1)
  {
    var h := t.hash(b);
    var k := ForkOf(t, head, h);
    InsertAppend(t.hash, canonical, header, Branch(t, h, k), b);
    InsertBranch(t, canonical, header, h, k);
    assert t.Anc(head, k + 1) != t.Anc(h, k + 1);
  }

  /** The parent of `b` is on the head's chain exactly when the fork is at the parent. */
  lemma ParentAtFork(t: Tree, canonical: map<nat, Hash>, head: Hash, b: Header, k: nat)
    requires t.Has(head, 0) && t.Has(t.hash(b), 0) && t.store[t.hash(b)] == b && CanonOk(t, canonical, head)
    requires ForkAt(t, head, t.hash(b), k) && k < b.number
    ensures (b.number - 1 <= t.store[head].number && At(canonical, b.number - 1) == b.parentHash) <==> k == b.number - 1
  {
    var h := t.hash(b);
    AncParent(t, h, b.number - 1);
    assert t.Anc(h, b.number - 1) == b.parentHash;
    if b.number - 1 <= t.store[head].number {
      assert At(canonical, b.number - 1) == t.Anc(head, b.number - 1);
    }
  }

  /** A new block on top of the head is not yet canonical, so the header head follows. */
  lemma HeaderAfterExtension(s: Blocks, b: Header)
    requires BlocksOk(s) && Acceptable(s.tree, b) && b.difficulty > 0 && b.parentHash == s.head
    ensures InsertAll(s.tree.hash, s.canonical, s.header, [b]).1 == s.tree.hash(b)
    ensures ParentCanonical(s, b)
  {
    AttachTd(s.tree, s.tds, b);
    assert s.head in s.tds.Keys;
    assert s.tree.hash(b) !in s.tds.Keys;
    InsertAppend(s.tree.hash, s.canonical, s.header, [], b);
    assert [] + [b] == [b];
  }

  lemma BetterUnfolds(s: Blocks, b: Header, coin: bool)
    requires BlocksOk(s) && Acceptable(s.tree, b) && b.parentHash in s.tds && s.head in s.tds
    requires Better(NewTd(s.tds, b), b.number, s.tds[s.head], s.tree.store[s.head].number, coin)
    ensures var t := s.tree.Attach(b);
            && t.Has(s.head, 0) && t.Has(t.hash(b), 0) && t.store[t.hash(b)] == b
            && var s' := WriteBlockSpec(s, b, coin).0;
               && s'.tree == t && s'.head == t.hash(b)
               && s'.header == InsertAll(t.hash, s.canonical, s.header, Inserted(t, s.head, b)).1
  {
    AttachRooted(s.tree, b);
    HeadKept(s.tree, b, s.head);
  }

  /** A block that the chain moves to: heavier than the head, or chosen among equals. */
  ghost predicate Moves(s: Blocks, b: Header, coin: bool) {
    && BlocksOk(s) && Acceptable(s.tree, b) && b.parentHash in s.tds
    && s.tree.hash(b) != s.head
    && Better(NewTd(s.tds, b), b.number, s.tds[s.head], s.tree.store[s.head].number, coin)
  }

  lemma LowestNew(t: Tree, canonical: map<nat, Hash>, header: Hash, head: Hash, b: Header) returns (k: nat)
    requires t.Has(head, 0) && t.Has(t.hash(b), 0) && t.store[t.hash(b)] == b && CanonOk(t, canonical, head)
    requires b.parentHash != head
    requires var k := ForkOf(t, head, t.hash(b)); k < b.number && k < t.store[head].number
    ensures var h := InsertAll(t.hash, canonical, header, Inserted(t, head, b)).1;
            t.Has(t.hash(b), k + 1) && h == t.Anc(t.hash(b), k + 1) && h in t.store && t.store[h].number == k + 1
    ensures (b.number - 1 <= t.store[head].number && At(canonical, b.number - 1) == b.parentHash) <==> k == b.number - 1
  {
    k := ForkOf(t, head, t.hash(b));
    HeaderAfterReorg(t, canonical, header, head, b);
    ParentAtFork(t, canonical, head, b, k);
    AncIsStored(t, t.hash(b), k + 1);
  }

  /** After a reorganisation the header head is an ancestor of the head: the lowest new block. */
  lemma HeaderHeadReorg(s: Blocks, b: Header, coin: bool) returns (k: nat)
    requires Moves(s, b, coin) && Positive(s.tree) && b.difficulty > 0 && b.parentHash != s.head
    ensures var s' := WriteBlockSpec(s, b, coin).0;
            && s'.tree.Has(s'.head, k + 1) && s'.header == s'.tree.Anc(s'.head, k + 1)
            && s'.header in s'.tree.store && s'.tree.store[s'.header].number == k + 1
    ensures k < b.number && (ParentCanonical(s, b) <==> k == b.number - 1)
  {
    BetterUnfolds(s, b, coin);
    k := LowestNewHead(s, b, coin);
  }

  lemma LowestNewHead(s: Blocks, b: Header, coin: bool) returns (k: nat)
    requires Moves(s, b, coin) && Positive(s.tree) && b.difficulty > 0 && b.parentHash != s.head
    ensures var t, h := s.tree.Attach(b), s.tree.hash(b);
            && t.Has(s.head, 0) && t.Has(h, k + 1)
            && var r := InsertAll(t.hash, s.canonical, s.header, Inserted(t, s.head, b)).1;
               r == t.Anc(h, k + 1) && r in t.store && t.store[r].number == k + 1
    ensures k < b.number && (ParentCanonical(s, b) <==> k == b.number - 1)
  {
    StoredKeeps(s, b);
    CanonAfterAttach(s.tree, s.canonical, s.head, b);
    ForkBelowBoth(s, b, coin);
    k := LowestNew(s.tree.Attach(b), s.canonical, s.header, s.head, b);
  }

  /** With positive difficulties, once a new block became the head, the header head is
      that block exactly when its parent was on the canonical chain. */
  lemma HeaderHeadParent(s: Blocks, b: Header, coin: bool)
    requires Moves(s, b, coin) && Positive(s.tree) && b.difficulty > 0
    ensures var s' := WriteBlockSpec(s, b, coin).0;
            s'.head == s.tree.hash(b) && (s'.header == s'.head <==> ParentCanonical(s, b))
  {
    BetterUnfolds(s, b, coin);
    if b.parentHash == s.head {
      HeaderAfterExtension(s, b);
      assert Inserted(s.tree.Attach(b), s.head, b) == [b];
    } else {
      var k := HeaderHeadReorg(s, b, coin);
    }
  }

  // ---------- where the header head ends up, whatever the difficulties ----------

  /** The index holds the ancestors of `h` between the heights `k` and `n`. */
  ghost predicate OnIndex(t: Tree, canonical: map<nat, Hash>, h: Hash, k: nat, n: nat)
    requires t.Has(h, k) && n <= t.store[h].number + 1
  {
    forall i: nat :: k < i < n ==> At(canonical, i) == t.Anc(h, i)
  }

  /** Inserting a branch newest first leaves the header head at the lowest block that the
      index did not hold, or where it was if it held them all. */
  lemma {:induction false} InsertBranchHeader(t: Tree, canonical: map<nat, Hash>, header: Hash, h: Hash, k: nat)
    requires t.Has(h, k)
    ensures var r, top := InsertAll(t.hash, canonical, header, Branch(t, h, k)).1, t.store[h].number;
            if OnIndex(t, canonical, h, k, top + 1) then r == header
            else exists m: nat :: k < m <= top && OnIndex(t, canonical, h, k, m) && At(canonical, m) != t.Anc(h, m)
                                  && r == t.Anc(h, m)
    decreases t.store[h].number
  {
    assert t.Linked(h);
    var top := t.store[h].number;
    if k < top {
      var p := t.store[h].parentHash;
      var canonical' := canonical[top := h];
      var header' := if At(canonical, top) != h then h else header;
      assert Branch(t, h, k)[1..] == Branch(t, p, k);
      InsertBranchHeader(t, canonical', header', p, k);
      forall i: nat | k < i < top ensures At(canonical', i) == At(canonical, i) && t.Anc(p, i) == t.Anc(h, i) { }
      if OnIndex(t, canonical', p, k, top) {
        assert OnIndex(t, canonical, h, k, top);
        if At(canonical, top) != h { assert top <= top && t.Anc(h, top) == h; }
      } else {
        var m: nat :| k < m <= top - 1 && OnIndex(t, canonical', p, k, m) && At(canonical', m) != t.Anc(p, m)
                      && InsertAll(t.hash, canonical', header', Branch(t, p, k)).1 == t.Anc(p, m);
        assert OnIndex(t, canonical, h, k, m);
      }
    }
  }

  lemma BranchHeaderIs(t: Tree, canonical: map<nat, Hash>, header: Hash, h: Hash, k: nat)
    requires t.Has(h, k) && k < t.store[h].number
    ensures InsertAll(t.hash, canonical, header, Branch(t, h, k)).1 == h <==>
            && OnIndex(t, canonical, h, k, t.store[h].number)
            && (At(canonical, t.store[h].number) != h || header == h)
  {
    var top := t.store[h].number;
    InsertBranchHeader(t, canonical, header, h, k);
    assert t.Anc(h, top) == h;
    if !OnIndex(t, canonical, h, k, top + 1) {
      var m: nat :| k < m <= top && OnIndex(t, canonical, h, k, m) && At(canonical, m) != t.Anc(h, m)
                    && InsertAll(t.hash, canonical, header, Branch(t, h, k)).1 == t.Anc(h, m);
      AncIsStored(t, h, m);
    }
  }

  /** All ancestors of `h` are on the index. */
  ghost predicate AncestorsOn(t: Tree, canonical: map<nat, Hash>, h: Hash)
    requires t.Has(h, 0)
  {
    forall n: nat :: n < t.store[h].number ==> At(canonical, n) == t.Anc(h, n)
  }

  /** Below a shared ancestor of the head the index holds the chain of `h`. */
  lemma OnIndexIff(t: Tree, canonical: map<nat, Hash>, head: Hash, h: Hash, k: nat)
    requires t.Has(head, k) && t.Has(h, k) && CanonOk(t, canonical, head) && t.Anc(head, k) == t.Anc(h, k)
    ensures OnIndex(t, canonical, h, k, t.store[h].number) <==> AncestorsOn(t, canonical, h)
  {
    forall n: nat | n <= k ensures At(canonical, n) == t.Anc(h, n) { SharedBelow(t, head, h, k, n); }
  }

  lemma InsertedHeader(t: Tree, canonical: map<nat, Hash>, header: Hash, head: Hash, b: Header)
    requires t.Has(head, 0) && t.Has(t.hash(b), 0) && t.store[t.hash(b)] == b && b.number >= 1
    requires CanonOk(t, canonical, head)
    ensures var h := t.hash(b);
            InsertAll(t.hash, canonical, header, Inserted(t, head, b)).1 == h <==>
            AncestorsOn(t, canonical, h) && (At(canonical, b.number) != h || header == h)
  {
    var h := t.hash(b);
    assert t.Linked(h);
    InsertAppend(t.hash, canonical, header, NewBranch(t, head, b), b);
    if b.parentHash == head {
      OnIndexIff(t, canonical, head, h, t.store[head].number);
    } else {
      var k := ForkOf(t, head, h);
      OnIndexIff(t, canonical, head, h, k);
      if k < b.number {
        InsertBranch(t, canonical, header, h, k);
        assert t.Anc(h, b.number) == h;
        BranchHeaderIs(t, canonical, header, h, k);
      }
    }
  }

  /** Once a block became the head, the header head is that block if and only if the
      index held all its ancestors, and did not hold the block itself unless the header
      head was there already. */
  lemma HeaderHeadAfter(s: Blocks, b: Header, coin: bool)
    requires BlocksOk(s) && Acceptable(s.tree, b) && b.parentHash in s.tds && s.head in s.tds
    requires Better(NewTd(s.tds, b), b.number, s.tds[s.head], s.tree.store[s.head].number, coin)
    ensures var s', h := WriteBlockSpec(s, b, coin).0, s.tree.hash(b);
            && s'.head == h && s'.tree.Has(h, 0)
            && (s'.header == h <==>
                AncestorsOn(s'.tree, s.canonical, h) && (At(s.canonical, b.number) != h || s.header == h))
  {
    BetterUnfolds(s, b, coin);
    CanonAfterAttach(s.tree, s.canonical, s.head, b);
    InsertedHeader(s.tree.Attach(b), s.canonical, s.header, s.head, b);
  }

  // ---------- the implementation ----------

  /** Writes the lookup entries of a block's transactions, in order. */
  method WriteTxLookupEntries(hash: Header -> Hash, db: Index, block: Header) returns (db': Index)
    ensures db' == db + BlockIndex(hash(block), block)
  {
    db' := db;
    for i := 0 to |block.txs|
      invariant db' == db + WrittenUpTo(hash(block), block, i)
    {
      db' := db'[block.txs[i] := Entry(hash(block), block.number, i)];
    }
  }

  method DeleteTxLookupEntries(db: Index, txs: seq<TxHash>) returns (db': Index)
    ensures db' == map tx | tx in db && tx !in txs :: db[tx]
  {
    db' := db;
    for i := 0 to |txs|
      invariant db' == map tx | tx in db && tx !in txs[..i] :: db[tx]
    {
      assert txs[..i + 1] == txs[..i] + [txs[i]];
      db' := map tx | tx in db' && tx != txs[i] :: db'[tx];
    }
    assert txs[..|txs|] == txs;
  }

  class BlockChain {
    const hash: Header -> Hash
    const genesis: Hash
    // the database
    var blocks: map<Hash, Header>
    var tds: map<Hash, int>
    var canonical: map<nat, Hash>
    var lookup: Index
    var headBlockHash: Hash
    var headFastHash: Hash
    var headHeaderHash: Hash
    // the heads in memory
    var currentBlock: Header
    var currentFastBlock: Header
    var currentHeader: Header

    ghost function View(): Blocks
      reads this
    {
      Blocks(Tree(hash, blocks, genesis), tds, canonical, hash(currentBlock), lookup, hash(currentHeader))
    }

    ghost predicate HeadsOk()
      reads this
    {
      && headBlockHash == hash(currentBlock)
      && headFastHash == hash(currentFastBlock) && headHeaderHash == hash(currentHeader)
      && currentFastBlock == currentHeader
    }

    ghost predicate Valid()
      reads this
    {
      BlocksOk(View()) && HeadsOk() && blocks[hash(currentBlock)] == currentBlock
    }

    constructor (hash: Header -> Hash, block: Header)
      requires Ideal(hash) && block.number == 0 && block.parentHash == ZERO_HASH && block.txs == []
      ensures Valid() && View() == GenesisBlocks(hash, block)
    {
      var g := hash(block);
      this.hash := hash;
      genesis := g;
      blocks := map[g := block];
      tds := map[g := block.difficulty];
      canonical := map[0 := g];
      lookup := map[];
      headBlockHash, headFastHash, headHeaderHash := g, g, g;
      currentBlock, currentFastBlock, currentHeader := block, block, block;
      new;
      GenesisBlocksOk(hash, block);
    }

    /** Makes `block` the head block; the other heads follow only if the
        canonical index did not hold it. */
    method Insert(block: Header)
      requires HeadsOk()
      modifies `canonical, `headBlockHash, `headFastHash
      modifies `headHeaderHash, `currentBlock, `currentFastBlock, `currentHeader
      ensures HeadsOk() && currentBlock == block
      ensures canonical == old(canonical)[block.number := hash(block)]
      ensures currentHeader == if At(old(canonical), block.number) != hash(block) then block else old(currentHeader)
    {
      var updateHeads := At(canonical, block.number) != hash(block);
      canonical := canonical[block.number := hash(block)];
      headBlockHash := hash(block);
      currentBlock := block;
      if updateHeads {
        headHeaderHash := hash(block);
        currentHeader := block;
        headFastHash := hash(block);
        currentFastBlock := block;
      }
    }

    /** Moves the canonical chain from the old head to the new block: the
        branch of the new block is inserted and indexed newest first, then
        the transactions that only the old branch had are deleted. */
    method Reorg(oldBlock: Header, newBlock: Header, ghost k: nat) returns (ok: bool)
      requires HeadsOk() && View().tree.Rooted() && View().tree.Attaches(newBlock)
      requires hash(oldBlock) in blocks && blocks[hash(oldBlock)] == oldBlock
      requires ForkAt(View().tree.Attach(newBlock), hash(oldBlock), hash(newBlock), k)
      modifies `canonical, `lookup, `headBlockHash, `headFastHash
      modifies `headHeaderHash, `currentBlock, `currentFastBlock, `currentHeader
      ensures ok && HeadsOk()
      ensures var t := View().tree.Attach(newBlock);
              var newChain := Branch(t, hash(newBlock), k);
              && (canonical, hash(currentHeader)) == InsertAll(hash, old(canonical), old(hash(currentHeader)), newChain)
              && lookup == Reindexed(hash, old(lookup), Branch(t, hash(oldBlock), k), newChain)
    {
      var r := ForkWalk(View().tree, hash, blocks, oldBlock, newBlock, k);
      if r.None? {
        return false;
      }
      var (oldChain, newChain, commonBlock) := r.value;
      Switch(oldChain, newChain);
      return true;
    }

    /** Adopts the new branch and drops the lookup entries that only the old one had. */
    method Switch(oldChain: seq<Header>, newChain: seq<Header>)
      requires HeadsOk()
      modifies `canonical, `lookup, `headBlockHash, `headFastHash
      modifies `headHeaderHash, `currentBlock, `currentFastBlock, `currentHeader
      ensures HeadsOk()
      ensures (canonical, hash(currentHeader)) == InsertAll(hash, old(canonical), old(hash(currentHeader)), newChain)
      ensures lookup == Reindexed(hash, old(lookup), oldChain, newChain)
    {
      var deletedTxs := CollectTxs(oldChain);
      var addedTxs := Adopt(newChain);
      var diff := TxDifference(deletedTxs, addedTxs);
      lookup := DeleteTxLookupEntries(lookup, diff);
    }

    /** Inserts and indexes the blocks of the new branch in the order given. */
    method Adopt(newChain: seq<Header>) returns (addedTxs: seq<TxHash>)
      requires HeadsOk()
      modifies `canonical, `lookup, `headBlockHash, `headFastHash
      modifies `headHeaderHash, `currentBlock, `currentFastBlock, `currentHeader
      ensures HeadsOk() && addedTxs == Txs(newChain)
      ensures (canonical, hash(currentHeader)) == InsertAll(hash, old(canonical), old(hash(currentHeader)), newChain)
      ensures lookup == WriteAll(hash, old(lookup), newChain)
    {
      addedTxs := [];
      var i := 0;
      assert newChain[0..] == newChain;
      while i < |newChain|
        invariant 0 <= i <= |newChain| && HeadsOk()
        invariant InsertAll(hash, canonical, hash(currentHeader), newChain[i..]) ==
                  InsertAll(hash, old(canonical), old(hash(currentHeader)), newChain)
        invariant WriteAll(hash, lookup, newChain[i..]) == WriteAll(hash, old(lookup), newChain)
        invariant addedTxs == Txs(newChain[..i])
      {
        assert newChain[i..][1..] == newChain[i + 1..];
        assert newChain[..i + 1] == newChain[..i] + [newChain[i]];
        TxsAppend(newChain[..i], newChain[i]);
        Insert(newChain[i]);
        lookup := WriteTxLookupEntries(hash, lookup, newChain[i]);
        addedTxs := addedTxs + newChain[i].txs;
        i := i + 1;
      }
      assert newChain[..i] == newChain;
    }

    method CollectTxs(chain: seq<Header>) returns (txs: seq<TxHash>)
      ensures txs == Txs(chain)
    {
      txs := [];
      for i := 0 to |chain|
        invariant txs == Txs(chain[..i])
      {
        assert chain[..i + 1] == chain[..i] + [chain[i]];
        TxsAppend(chain[..i], chain[i]);
        txs := txs + chain[i].txs;
      }
      assert chain[..|chain|] == chain;
    }

    function GetTd(h: Hash, number: int): Option<int>
      reads this
    {
      if h in tds && h in blocks && blocks[h].number == number then Some(tds[h]) else None
    }

    /** Reorganises the chain if the parent of the block is not the head. */
    method ReorgIfNeeded(block: Header, ghost s0: Blocks)
      requires BlocksOk(s0) && Acceptable(s0.tree, block) && HeadsOk()
      requires View() == s0.(tds := tds) && blocks[hash(currentBlock)] == currentBlock
      modifies `canonical, `lookup, `headBlockHash, `headFastHash
      modifies `headHeaderHash, `currentBlock, `currentFastBlock, `currentHeader
      ensures HeadsOk()
      ensures s0.tree.Attach(block).Has(s0.head, 0) && s0.tree.Attach(block).Has(hash(block), 0)
      ensures (canonical, hash(currentHeader)) ==
        InsertAll(hash, s0.canonical, s0.header, NewBranch(s0.tree.Attach(block), s0.head, block))
      ensures lookup ==
        if block.parentHash != s0.head then ChainIndex(s0.tree.Attach(block), hash(block)) else s0.lookup
    {
      HeadKept(s0.tree, block, s0.head);
      if block.parentHash != hash(currentBlock) {
        ReorgLookup(s0, block);
        var ok := Reorg(currentBlock, block, ForkOf(s0.tree.Attach(block), s0.head, hash(block)));
      }
    }

    /** Makes a block whose total difficulty has been written the head:
        reorganise, flush the batch that holds the block and its lookup
        entries, then insert it. */
    method MakeHead(block: Header, ghost s0: Blocks)
      requires BlocksOk(s0) && Acceptable(s0.tree, block) && HeadsOk()
      requires View() == s0.(tds := tds) && blocks[hash(currentBlock)] == currentBlock
      modifies this
      ensures HeadsOk() && tds == old(tds) && blocks == old(blocks)[hash(block) := block] && currentBlock == block
      ensures s0.tree.Attach(block).Has(s0.head, 0) && s0.tree.Attach(block).Has(hash(block), 0)
      ensures (canonical, hash(currentHeader)) ==
        InsertAll(hash, s0.canonical, s0.header, Inserted(s0.tree.Attach(block), s0.head, block))
      ensures lookup == ChainIndex(s0.tree.Attach(block), hash(block))
    {
      ReorgIfNeeded(block, s0);
      InsertAppend(hash, s0.canonical, s0.header, NewBranch(s0.tree.Attach(block), s0.head, block), block);
      HeadLookup(s0, block);
      Flush(block);
    }

    /** Writes the batch with the block and its lookup entries, then inserts the block. */
    method Flush(block: Header)
      requires HeadsOk()
      modifies this
      ensures HeadsOk() && tds == old(tds) && blocks == old(blocks)[hash(block) := block] && currentBlock == block
      ensures canonical == old(canonical)[block.number := hash(block)]
      ensures hash(currentHeader) ==
        if At(old(canonical), block.number) != hash(block) then hash(block) else old(hash(currentHeader))
      ensures lookup == old(lookup) + (map[] + BlockIndex(hash(block), block))
    {
      var batchLookup := WriteTxLookupEntries(hash, map[], block);
      lookup := lookup + batchLookup;
      blocks := blocks[hash(block) := block];
      Insert(block);
    }

    /** Makes a better block the head. */
    method BecomeHead(block: Header, ghost coin: bool, ghost s0: Blocks)
      requires BlocksOk(s0) && Acceptable(s0.tree, block) && HeadsOk()
      requires View() == s0.(tds := tds) && blocks[hash(currentBlock)] == currentBlock
      requires block.parentHash in s0.tds && tds == s0.tds[hash(block) := NewTd(s0.tds, block)]
      requires s0.head in s0.tds
      requires Better(NewTd(s0.tds, block), block.number, s0.tds[s0.head], s0.tree.store[s0.head].number, coin)
      modifies this
      ensures HeadsOk() && hash(currentBlock) in blocks && blocks[hash(currentBlock)] == currentBlock
      ensures WriteBlockSpec(s0, block, coin) == (View(), CanonStatTy)
    {
      MakeHead(block, s0);
      NewCanonical(s0, block);
      HeadSpec(s0, block, coin);
    }

    /** Writes a block on top of a known parent and moves the head if it is better. */
    method WriteOnParent(block: Header, ptd: int, coin: bool) returns (status: WriteStatus)
      requires Valid() && Acceptable(View().tree, block) && block.parentHash in tds && ptd == tds[block.parentHash]
      modifies this
      ensures HeadsOk() && hash(currentBlock) in blocks && blocks[hash(currentBlock)] == currentBlock
      ensures View() == WriteBlockSpec(old(View()), block, coin).0
      ensures status == WriteBlockSpec(old(View()), block, coin).1
    {
      ghost var s0 := View();
      var localTd := GetTd(hash(currentBlock), currentBlock.number);
      var externTd := block.difficulty + ptd;
      tds := tds[hash(block) := externTd];
      HeadKept(s0.tree, block, s0.head);
      if Better(externTd, block.number, localTd.value, currentBlock.number, coin) {
        BecomeHead(block, coin, s0);
        status := CanonStatTy;
      } else {
        SideSpec(s0, block, coin);
        blocks := blocks[hash(block) := block];
        status := SideStatTy;
      }
    }

    /** Writes one block. `coin` is the outcome of the random choice between
        blocks of equal total difficulty and number. */
    method WriteBlockAndState(block: Header, coin: bool) returns (status: WriteStatus)
      requires Valid()
      requires block.parentHash in blocks ==> Acceptable(View().tree, block)
      modifies this
      ensures Valid()
      ensures View() == WriteBlockSpec(old(View()), block, coin).0
      ensures status == WriteBlockSpec(old(View()), block, coin).1
      ensures status == NonStatTy <==> block.parentHash !in old(blocks)
      ensures status == NonStatTy ==> View() == old(View())
      ensures status == SideStatTy ==> SetAside(old(View()), (View(), status))
      ensures status == CanonStatTy ==> MovedTo(old(View()), block, (View(), status)) && currentBlock == block
      ensures block.parentHash in old(blocks) ==>
        var total, best := old(tds)[block.parentHash] + block.difficulty, old(tds)[old(hash(currentBlock))];
        var height := old(currentBlock.number);
        status == CanonStatTy <==>
          if total != best then total > best else if block.number != height then block.number < height else coin
    {
      ghost var s0 := View();
      if block.parentHash in blocks { HeadChoice(s0, block, coin); }
      var ptd := GetTd(block.parentHash, block.number - 1);
      if ptd.None? {
        assert block.parentHash in blocks ==> block.parentHash in tds.Keys;
        return NonStatTy;
      }
      status := WriteOnParent(block, ptd.value, coin);
      WriteBlockKeeps(s0, block, coin);
    }
  }

  lemma HeadSpec(s: Blocks, b: Header, coin: bool)
    requires BlocksOk(s) && Acceptable(s.tree, b) && b.parentHash in s.tds && s.head in s.tds
    requires Better(NewTd(s.tds, b), b.number, s.tds[s.head], s.tree.store[s.head].number, coin)
    ensures var t := s.tree.Attach(b);
            && t.Has(s.head, 0) && t.Has(t.hash(b), 0)
            && WriteBlockSpec(s, b, coin) ==
               (Blocks(t, s.tds[t.hash(b) := NewTd(s.tds, b)], s.canonical + Path(t, t.hash(b)), t.hash(b),
                       ChainIndex(t, t.hash(b)),
                       InsertAll(t.hash, s.canonical, s.header, Inserted(t, s.head, b)).1), CanonStatTy)
  {
    AttachRooted(s.tree, b);
    HeadKept(s.tree, b, s.head);
  }

  lemma SideSpec(s: Blocks, b: Header, coin: bool)
    requires BlocksOk(s) && Acceptable(s.tree, b) && b.parentHash in s.tds && s.head in s.tds
    requires !Better(NewTd(s.tds, b), b.number, s.tds[s.head], s.tree.store[s.head].number, coin)
    ensures WriteBlockSpec(s, b, coin) ==
            (s.(tree := s.tree.Attach(b), tds := s.tds[s.tree.hash(b) := NewTd(s.tds, b)]), SideStatTy)
  {
  }

  lemma NewCanonical(s: Blocks, b: Header)
    requires BlocksOk(s) && Acceptable(s.tree, b)
    ensures var t := s.tree.Attach(b);
            && t.Has(s.head, 0) && t.Has(t.hash(b), 0)
            && InsertAll(t.hash, s.canonical, s.header, Inserted(t, s.head, b)).0 == s.canonical + Path(t, t.hash(b))
  {
    AttachRooted(s.tree, b);
    CanonAfterAttach(s.tree, s.canonical, s.head, b);
    InsertedCanonical(s.tree.Attach(b), s.canonical, s.header, s.head, b);
  }

  /** The lookup index right after a reorganisation is that of the new chain. */
  lemma ReorgLookup(s: Blocks, b: Header)
    requires BlocksOk(s) && Acceptable(s.tree, b)
    ensures var t := s.tree.Attach(b);
            && t.Has(s.head, 0) && t.Has(t.hash(b), 0)
            && var k := ForkOf(t, s.head, t.hash(b));
               Reindexed(t.hash, s.lookup, Branch(t, s.head, k), Branch(t, t.hash(b), k)) == ChainIndex(t, t.hash(b))
  {
    AttachRooted(s.tree, b);
    HeadKept(s.tree, b, s.head);
    AttachDistinct(s.tree, b);
    IndexAfterAttach(s.tree, b, s.head);
    ReorgReindexes(s.tree.Attach(b), s.head, s.tree.hash(b), ForkOf(s.tree.Attach(b), s.head, s.tree.hash(b)));
  }

  /** Writing the new block's entries again, or on top of its parent's chain, gives the index of its chain. */
  lemma HeadLookup(s: Blocks, b: Header)
    requires BlocksOk(s) && Acceptable(s.tree, b)
    ensures var t := s.tree.Attach(b);
            && t.Has(t.hash(b), 0)
            && ChainIndex(t, t.hash(b)) + (map[] + BlockIndex(t.hash(b), b)) == ChainIndex(t, t.hash(b))
            && (b.parentHash == s.head ==> s.lookup + (map[] + BlockIndex(t.hash(b), b)) == ChainIndex(t, t.hash(b)))
  {
    var t, h := s.tree.Attach(b), s.tree.hash(b);
    AttachRooted(s.tree, b);
    assert t.Linked(h);
    IndexAfterAttach(s.tree, b, b.parentHash);
    var base, top := ChainIndex(t, b.parentHash), BlockIndex(h, b);
    assert map[] + top == top;
    assert (base + top) + top == base + top;
  }

  // ---------- the header head can be stranded ----------

  const GENESIS := Header(ZERO_HASH, 0, 1, [], 0)

  function ChildOf(hash: Header -> Hash, parent: Header, difficulty: int, extra: nat): Header {
    Header(hash(parent), parent.number + 1, difficulty, [], extra)
  }

  lemma EmptyAcceptable(s: Blocks, parent: Header, difficulty: int, extra: nat)
    requires BlocksOk(s) && s.tree.hash(parent) in s.tree.store && s.tree.store[s.tree.hash(parent)] == parent
    ensures Acceptable(s.tree, ChildOf(s.tree.hash, parent, difficulty, extra))
  {
  }

  lemma PositiveAttach(t: Tree, b: Header)
    requires Positive(t) && b.difficulty > 0
    ensures Positive(t.Attach(b))
  {
  }

  /** A block on top of the genesis block becomes the head. */
  lemma OneChild(hash: Header -> Hash) returns (s: Blocks)
    requires Ideal(hash)
    ensures var a, s0 := ChildOf(hash, GENESIS, 2, 0), GenesisBlocks(hash, GENESIS);
            && BlocksOk(s0) && Acceptable(s0.tree, a) && s == WriteBlockSpec(s0, a, true).0
            && BlocksOk(s) && s.tree.hash == hash && s.head == hash(a) && Positive(s.tree)
            && s.tree.store == map[hash(GENESIS) := GENESIS, hash(a) := a]
            && s.tds == map[hash(GENESIS) := 1, hash(a) := 3]
  {
    var a, s0 := ChildOf(hash, GENESIS, 2, 0), GenesisBlocks(hash, GENESIS);
    GenesisBlocksOk(hash, GENESIS);
    EmptyAcceptable(s0, GENESIS, 2, 0);
    WriteBlockKeeps(s0, a, true);
    s := WriteBlockSpec(s0, a, true).0;
  }

  /** A heavy block and a light sibling on top of the genesis block. */
  lemma TwoSiblings(hash: Header -> Hash) returns (s: Blocks)
    requires Ideal(hash)
    ensures BlocksOk(s) && s.tree.hash == hash && Positive(s.tree)
    ensures var a, b := ChildOf(hash, GENESIS, 2, 0), ChildOf(hash, GENESIS, 1, 1);
            && WritesBlocks(GenesisBlocks(hash, GENESIS), [(a, true), (b, true)], s)
            && s.head == hash(a) && hash(b) in s.tree.store && s.tree.store[hash(b)] == b
            && s.head in s.tds && hash(b) in s.tds && s.tds[s.head] == 3 && s.tds[hash(b)] == 2
  {
    var a, b := ChildOf(hash, GENESIS, 2, 0), ChildOf(hash, GENESIS, 1, 1);
    var s0 := GenesisBlocks(hash, GENESIS);
    var s1 := OneChild(hash);
    EmptyAcceptable(s1, GENESIS, 1, 1);
    WriteBlockKeeps(s1, b, true);
    s := WriteBlockSpec(s1, b, true).0;
    PositiveAttach(s1.tree, b);
    assert [(a, true), (b, true)][1..] == [(b, true)];
    assert WritesBlocks(s1, [(b, true)], s);
  }

  lemma {:induction false} WritesAppend(first: Blocks, run: seq<(Header, bool)>, mid: Blocks, w: (Header, bool))
    requires WritesBlocks(first, run, mid) && BlocksOk(mid) && Acceptable(mid.tree, w.0)
    ensures WritesBlocks(first, run + [w], WriteBlockSpec(mid, w.0, w.1).0)
    decreases |run|
  {
    if run == [] {
      assert run + [w] == [w];
    } else {
      assert (run + [w])[1..] == run[1..] + [w];
      WritesAppend(WriteBlockSpec(first, run[0].0, run[0].1).0, run[1..], mid, w);
    }
  }

  /** For every hash: three blocks after the genesis block make the header
      head differ from the head block, because their reorganisation inserts
      the new branch from the top down. */
  lemma StrandedHeader(hash: Header -> Hash) returns (last: Blocks)
    requires Ideal(hash)
    ensures var a, b := ChildOf(hash, GENESIS, 2, 0), ChildOf(hash, GENESIS, 1, 1);
            var c := ChildOf(hash, b, 2, 0);
            && WritesBlocks(GenesisBlocks(hash, GENESIS), [(a, true), (b, true)] + [(c, true)], last)
            && last.head == hash(c) && last.header != last.head
  {
    var a, b := ChildOf(hash, GENESIS, 2, 0), ChildOf(hash, GENESIS, 1, 1);
    var c := ChildOf(hash, b, 2, 0);
    var s := TwoSiblings(hash);
    EmptyAcceptable(s, b, 2, 0);
    WritesAppend(GenesisBlocks(hash, GENESIS), [(a, true), (b, true)], s, (c, true));
    assert a != b && hash(a) != hash(b) && hash(c) != hash(a);
    HeadNumber(s, a);
    HeaderHeadParent(s, c, true);
    last := WriteBlockSpec(s, c, true).0;
  }

  lemma HeadNumber(s: Blocks, a: Header)
    requires BlocksOk(s) && s.head == s.tree.hash(a)
    ensures s.tree.store[s.head] == a && At(s.canonical, a.number) == s.head
  {
    assert s.tree.Linked(s.head);
  }
}
