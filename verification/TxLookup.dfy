/**
  The transaction lookup index (core/database_util.go): from a transaction's
  hash to its position on the chain, and what a reorganisation does to it.
 */
module TxLookup {
  import opened Prelude
  import opened Ancestry
  import opened CommonAncestors

  datatype Entry = Entry(blockHash: Hash, number: nat, index: nat)

  type Index = map<TxHash, Entry>

  ghost function TxSet(txs: seq<TxHash>): set<TxHash> {
    set tx | tx in txs
  }

  /** The entries of the first `n` transactions of a block, written in order. */
  function WrittenUpTo(h: Hash, b: Header, n: nat): Index
    requires n <= |b.txs|
  {
    if n == 0 then map[] else WrittenUpTo(h, b, n - 1)[b.txs[n - 1] := Entry(h, b.number, n - 1)]
  }

  function BlockIndex(h: Hash, b: Header): Index {
    WrittenUpTo(h, b, |b.txs|)
  }

  lemma {:induction false} WrittenKeys(h: Hash, b: Header, n: nat)
    requires n <= |b.txs|
    ensures WrittenUpTo(h, b, n).Keys == TxSet(b.txs[..n])
  {
    if n > 0 {
      WrittenKeys(h, b, n - 1);
      assert b.txs[..n] == b.txs[..n - 1] + [b.txs[n - 1]];
    }
  }

  lemma BlockIndexKeys(h: Hash, b: Header)
    ensures BlockIndex(h, b).Keys == TxSet(b.txs)
  {
    WrittenKeys(h, b, |b.txs|);
    assert b.txs[..|b.txs|] == b.txs;
  }

  ghost predicate NoDuplicates(txs: seq<TxHash>) {
    forall i, j :: 0 <= i < j < |txs| ==> txs[i] != txs[j]
  }

  lemma {:induction false} WrittenEntry(h: Hash, b: Header, n: nat, i: nat)
    requires i < n <= |b.txs| && NoDuplicates(b.txs)
    ensures b.txs[i] in WrittenUpTo(h, b, n) && WrittenUpTo(h, b, n)[b.txs[i]] == Entry(h, b.number, i)
  {
    if i < n - 1 { WrittenEntry(h, b, n - 1, i); }
  }

  // ---------- the index of a whole chain ----------

  /** The transactions on the chain that ends in `h`. */
  ghost function ChainTxs(t: Tree, h: Hash): set<TxHash>
    requires t.Has(h, 0)
    decreases t.store[h].number
  {
    if h == t.genesis then TxSet(t.store[h].txs)
    else
      assert t.Linked(h);
      ChainTxs(t, t.store[h].parentHash) + TxSet(t.store[h].txs)
  }

  /** Every transaction of the chain that ends in `h`, with its position. */
  ghost function ChainIndex(t: Tree, h: Hash): Index
    requires t.Has(h, 0)
    decreases t.store[h].number
  {
    if h == t.genesis then BlockIndex(h, t.store[h])
    else
      assert t.Linked(h);
      ChainIndex(t, t.store[h].parentHash) + BlockIndex(h, t.store[h])
  }

  /** Block `h` repeats no transaction, neither its own nor its ancestors'. */
  ghost predicate DistinctAt(t: Tree, h: Hash)
    requires t.Rooted() && h in t.store
  {
    && NoDuplicates(t.store[h].txs)
    && (h != t.genesis ==> t.Linked(h) && TxSet(t.store[h].txs) !! ChainTxs(t, t.store[h].parentHash))
  }

  ghost predicate Distinct(t: Tree) {
    t.Rooted() && forall h {:trigger DistinctAt(t, h)} :: h in t.store ==> DistinctAt(t, h)
  }

  lemma {:induction false} ChainIndexKeys(t: Tree, h: Hash)
    requires t.Has(h, 0)
    ensures ChainIndex(t, h).Keys == ChainTxs(t, h)
    decreases t.store[h].number
  {
    BlockIndexKeys(h, t.store[h]);
    if h != t.genesis {
      assert t.Linked(h);
      ChainIndexKeys(t, t.store[h].parentHash);
    }
  }

  /** `tx` is transaction number `i` of the block at height `n` of `h`'s chain. */
  ghost predicate Positioned(t: Tree, h: Hash, tx: TxHash, n: nat, i: nat) {
    t.Has(h, n) && t.Anc(h, n) in t.store && i < |t.store[t.Anc(h, n)].txs| && t.store[t.Anc(h, n)].txs[i] == tx
  }

  /** The index holds the position of every transaction on the chain. */
  lemma {:induction false} IndexComplete(t: Tree, h: Hash, tx: TxHash, n: nat, i: nat)
    requires Distinct(t) && Positioned(t, h, tx, n, i)
    ensures tx in ChainIndex(t, h) && ChainIndex(t, h)[tx] == Entry(t.Anc(h, n), n, i)
    ensures tx in ChainTxs(t, h)
    decreases t.store[h].number
  {
    assert DistinctAt(t, h);
    ChainIndexKeys(t, h);
    BlockIndexKeys(h, t.store[h]);
    if n == t.store[h].number {
      WrittenEntry(h, t.store[h], |t.store[h].txs|, i);
    } else {
      assert t.Linked(h);
      IndexComplete(t, t.store[h].parentHash, tx, n, i);
    }
  }

  /** The index holds nothing but positions on the chain. */
  lemma {:induction false} IndexSound(t: Tree, h: Hash, tx: TxHash) returns (n: nat, i: nat)
    requires Distinct(t) && t.Has(h, 0) && tx in ChainIndex(t, h)
    ensures Positioned(t, h, tx, n, i) && ChainIndex(t, h)[tx] == Entry(t.Anc(h, n), n, i)
    decreases t.store[h].number
  {
    assert t.Linked(h);
    BlockIndexKeys(h, t.store[h]);
    if tx in t.store[h].txs {
      n := t.store[h].number;
      i :| 0 <= i < |t.store[h].txs| && t.store[h].txs[i] == tx;
      assert Positioned(t, h, tx, n, i);
      IndexComplete(t, h, tx, n, i);
    } else {
      n, i := IndexSound(t, t.store[h].parentHash, tx);
    }
  }

  // ---------- branches ----------

  /** The entries of a branch, newest block first. */
  ghost function BranchIndex(hash: Header -> Hash, blocks: seq<Header>): Index {
    if blocks == [] then map[]
    else BranchIndex(hash, blocks[1..]) + BlockIndex(hash(blocks[0]), blocks[0])
  }

  /** What writing the blocks one by one, in the order given, leaves in the index. */
  function WriteAll(hash: Header -> Hash, idx: Index, blocks: seq<Header>): Index
    decreases |blocks|
  {
    if blocks == [] then idx
    else WriteAll(hash, idx + BlockIndex(hash(blocks[0]), blocks[0]), blocks[1..])
  }

  ghost predicate BranchDistinct(blocks: seq<Header>) {
    blocks != [] ==> TxSet(blocks[0].txs) !! TxSet(Txs(blocks[1..])) && BranchDistinct(blocks[1..])
  }

  lemma {:induction false} BranchIndexKeys(hash: Header -> Hash, blocks: seq<Header>)
    ensures BranchIndex(hash, blocks).Keys == TxSet(Txs(blocks))
  {
    if blocks != [] {
      BranchIndexKeys(hash, blocks[1..]);
      BlockIndexKeys(hash(blocks[0]), blocks[0]);
    }
  }

  lemma MapAssoc(a: Index, b: Index, c: Index)
    ensures (a + b) + c == a + (b + c)
  {
  }

  lemma MapSwap(a: Index, b: Index, c: Index)
    requires b.Keys !! c.Keys
    ensures (a + b) + c == a + (c + b)
  {
  }

  /** On branches that repeat nothing the order of writing does not matter. */
  lemma {:induction false} WriteAllIs(hash: Header -> Hash, idx: Index, blocks: seq<Header>)
    requires BranchDistinct(blocks)
    ensures WriteAll(hash, idx, blocks) == idx + BranchIndex(hash, blocks)
    decreases |blocks|
  {
    if blocks != [] {
      var b0 := BlockIndex(hash(blocks[0]), blocks[0]);
      var rest := BranchIndex(hash, blocks[1..]);
      WriteAllIs(hash, idx + b0, blocks[1..]);
      BranchIndexKeys(hash, blocks[1..]);
      BlockIndexKeys(hash(blocks[0]), blocks[0]);
      MapSwap(idx, b0, rest);
    }
  }

  lemma TxSetConcat(a: seq<TxHash>, b: seq<TxHash>)
    ensures TxSet(a + b) == TxSet(a) + TxSet(b)
  {
  }

  /** A chain is its part up to height `k` and the branch above it. */
  lemma {:induction false} ChainSplits(t: Tree, h: Hash, k: nat)
    requires Distinct(t) && t.Has(h, k)
    ensures t.Has(t.Anc(h, k), 0)
    ensures ChainIndex(t, h) == ChainIndex(t, t.Anc(h, k)) + BranchIndex(t.hash, Branch(t, h, k))
    decreases t.store[h].number
  {
    AncIsStored(t, h, k);
    if k < t.store[h].number {
      assert t.Linked(h);
      var p := t.store[h].parentHash;
      ChainSplits(t, p, k);
      var br, bp := Branch(t, h, k), Branch(t, p, k);
      assert br == [t.store[h]] + bp && br[1..] == bp;
      MapAssoc(ChainIndex(t, t.Anc(h, k)), BranchIndex(t.hash, bp), BlockIndex(h, t.store[h]));
    }
  }

  /** The branch above height `k` repeats nothing, neither its own nor from below. */
  lemma {:induction false} BranchFresh(t: Tree, h: Hash, k: nat)
    requires Distinct(t) && t.Has(h, k)
    ensures t.Has(t.Anc(h, k), 0)
    ensures ChainTxs(t, h) == ChainTxs(t, t.Anc(h, k)) + TxSet(Txs(Branch(t, h, k)))
    ensures ChainTxs(t, t.Anc(h, k)) !! TxSet(Txs(Branch(t, h, k)))
    ensures BranchDistinct(Branch(t, h, k))
    decreases t.store[h].number
  {
    AncIsStored(t, h, k);
    if k < t.store[h].number {
      assert DistinctAt(t, h) && t.Linked(h);
      var p := t.store[h].parentHash;
      BranchFresh(t, p, k);
      var br, bp := Branch(t, h, k), Branch(t, p, k);
      assert br == [t.store[h]] + bp && br[1..] == bp;
      TxSetConcat(t.store[h].txs, Txs(bp));
    }
  }

  /** What a reorganisation leaves in the index: the new branch is written,
      then the transactions that only the old branch had are deleted. */
  function Reindexed(hash: Header -> Hash, idx: Index, oldChain: seq<Header>, newChain: seq<Header>): Index {
    var dropped := TxDifference(Txs(oldChain), Txs(newChain));
    var written := WriteAll(hash, idx, newChain);
    map tx | tx in written && tx !in dropped :: written[tx]
  }

  lemma ReindexMaps(base: Index, oldPart: Index, newPart: Index, dropped: seq<TxHash>)
    requires base.Keys !! oldPart.Keys && base.Keys !! newPart.Keys
    requires forall tx :: tx in dropped <==> tx in oldPart && tx !in newPart
    ensures var written := (base + oldPart) + newPart;
            (map tx | tx in written && tx !in dropped :: written[tx]) == base + newPart
  {
  }

  /** A reorganisation turns the index of the old chain into that of the new chain. */
  lemma ReorgReindexes(t: Tree, a: Hash, b: Hash, k: nat)
    requires Distinct(t) && ForkAt(t, a, b, k)
    ensures Reindexed(t.hash, ChainIndex(t, a), Branch(t, a, k), Branch(t, b, k)) == ChainIndex(t, b)
  {
    ChainSplits(t, a, k);
    ChainSplits(t, b, k);
    BranchFresh(t, a, k);
    BranchFresh(t, b, k);
    var old', new' := Branch(t, a, k), Branch(t, b, k);
    WriteAllIs(t.hash, ChainIndex(t, a), new');
    BranchIndexKeys(t.hash, old');
    BranchIndexKeys(t.hash, new');
    ChainIndexKeys(t, t.Anc(a, k));
    var base, oldPart, newPart := ChainIndex(t, t.Anc(a, k)), BranchIndex(t.hash, old'), BranchIndex(t.hash, new');
    var dropped := TxDifference(Txs(old'), Txs(new'));
    DroppedKeys(oldPart, newPart, old', new', dropped);
    ReindexMaps(base, oldPart, newPart, dropped);
  }

  lemma DroppedKeys(oldPart: Index, newPart: Index, old': seq<Header>, new': seq<Header>, dropped: seq<TxHash>)
    requires oldPart.Keys == TxSet(Txs(old')) && newPart.Keys == TxSet(Txs(new'))
    requires dropped == TxDifference(Txs(old'), Txs(new'))
    ensures forall tx :: tx in dropped <==> tx in oldPart && tx !in newPart
  {
    forall tx
      ensures tx in dropped <==> tx in oldPart && tx !in newPart
    {
      assert tx in oldPart <==> tx in oldPart.Keys;
      assert tx in newPart <==> tx in newPart.Keys;
    }
  }

  /** Adding a block changes neither the index nor the transactions of any other chain. */
  lemma {:induction false} IndexAfterAttach(t: Tree, header: Header, h: Hash)
    requires t.Has(h, 0) && t.Attaches(header)
    ensures t.Attach(header).Has(h, 0)
    ensures ChainIndex(t.Attach(header), h) == ChainIndex(t, h)
    ensures ChainTxs(t.Attach(header), h) == ChainTxs(t, h)
    decreases t.store[h].number
  {
    AttachRooted(t, header);
    assert t.Linked(h);
    if h != t.genesis {
      IndexAfterAttach(t, header, t.store[h].parentHash);
    }
  }

  /** A block that repeats nothing on its chain keeps the tree free of repetitions. */
  lemma AttachDistinct(t: Tree, header: Header)
    requires Distinct(t) && t.Attaches(header)
    requires NoDuplicates(header.txs) && t.Has(header.parentHash, 0)
    requires TxSet(header.txs) !! ChainTxs(t, header.parentHash)
    ensures Distinct(t.Attach(header))
  {
    AttachRooted(t, header);
    var t' := t.Attach(header);
    forall h | h in t'.store
      ensures DistinctAt(t', h)
    {
      assert t'.Linked(h);
      if h == t.hash(header) {
        IndexAfterAttach(t, header, header.parentHash);
      } else {
        assert DistinctAt(t, h) && t.Linked(h);
        if h != t.genesis { IndexAfterAttach(t, header, t.store[h].parentHash); }
      }
    }
  }
}
