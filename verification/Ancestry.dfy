/**
  Trees of headers. A header names its parent by hash; a tree holds headers
  under their own hash and all of them descend from one genesis header.
 */
module Ancestry {
  import opened Prelude

  /** The zero hash stands for "no hash". */
  const ZERO_HASH: Hash := 0

  type TxHash = nat

  /** A header commits to its block's transactions, so a block and its header
      are one value here; `extra` stands for the remaining fields. */
  datatype Header = Header(parentHash: Hash, number: nat, difficulty: int, txs: seq<TxHash>, extra: nat)

  /** An ideal hash: no collisions and never the zero hash. */
  ghost predicate Ideal(hash: Header -> Hash) {
    && (forall a: Header, b: Header {:trigger hash(a), hash(b)} :: hash(a) == hash(b) ==> a == b)
    && (forall a: Header {:trigger hash(a)} :: hash(a) != ZERO_HASH)
  }

  datatype Tree = Tree(hash: Header -> Hash, store: map<Hash, Header>, genesis: Hash) {

    /** Stored under its own hash, and one above a stored parent. */
    ghost predicate Linked(h: Hash)
      requires h in store
    {
      && hash(store[h]) == h
      && (h != genesis ==>
          && store[h].parentHash in store
          && store[h].number == store[store[h].parentHash].number + 1)
    }

    ghost predicate Rooted() {
      && Ideal(hash)
      && genesis in store && store[genesis].number == 0 && store[genesis].parentHash == ZERO_HASH
      && forall h {:trigger Linked(h)} :: h in store ==> Linked(h)
    }

    ghost predicate Has(h: Hash, n: nat) {
      Rooted() && h in store && n <= store[h].number
    }

    /** The ancestor of `h` at height `n`, following parent hashes. */
    ghost function Anc(h: Hash, n: nat): Hash
      requires Has(h, n)
      decreases store[h].number
    {
      if n == store[h].number then h
      else
        assert Linked(h);
        Anc(store[h].parentHash, n)
    }

    /** A header that may be added: its parent is stored, one below it. */
    ghost predicate Attaches(header: Header) {
      header.parentHash in store && header.number == store[header.parentHash].number + 1
    }

    ghost function Attach(header: Header): Tree {
      this.(store := store[hash(header) := header])
    }
  }

  lemma {:induction false} AncIsStored(t: Tree, h: Hash, n: nat)
    requires t.Has(h, n)
    ensures t.Anc(h, n) in t.store && t.store[t.Anc(h, n)].number == n
    decreases t.store[h].number
  {
    if n < t.store[h].number {
      assert t.Linked(h);
      AncIsStored(t, t.store[h].parentHash, n);
    }
  }

  lemma {:induction false} AncOfAnc(t: Tree, h: Hash, n: nat, m: nat)
    requires t.Has(h, n) && m <= n
    ensures t.Has(t.Anc(h, n), m) && t.store[t.Anc(h, n)].number == n
    ensures t.Anc(t.Anc(h, n), m) == t.Anc(h, m)
    decreases t.store[h].number
  {
    AncIsStored(t, h, n);
    if n < t.store[h].number {
      assert t.Linked(h);
      AncOfAnc(t, t.store[h].parentHash, n, m);
    }
  }

  /** Every chain of parents starts at the genesis header. */
  lemma AncZero(t: Tree, h: Hash)
    requires t.Has(h, 0)
    ensures t.Anc(h, 0) == t.genesis
  {
    AncIsStored(t, h, 0);
    assert t.Linked(t.Anc(h, 0));
  }

  /** The parent of the ancestor at height n + 1 is the ancestor at height n. */
  lemma AncParent(t: Tree, h: Hash, n: nat)
    requires t.Has(h, n + 1)
    ensures t.Anc(h, n + 1) in t.store && t.store[t.Anc(h, n + 1)].parentHash == t.Anc(h, n)
  {
    AncOfAnc(t, h, n + 1, n);
    assert t.Linked(t.Anc(h, n + 1));
  }

  /** Two headers that share an ancestor share everything below it. */
  lemma SharedBelow(t: Tree, a: Hash, b: Hash, n: nat, m: nat)
    requires t.Has(a, n) && t.Has(b, n) && m <= n && t.Anc(a, n) == t.Anc(b, n)
    ensures t.Anc(a, m) == t.Anc(b, m)
  {
    AncOfAnc(t, a, n, m);
    AncOfAnc(t, b, n, m);
  }

  lemma AttachRooted(t: Tree, header: Header)
    requires t.Rooted() && t.Attaches(header)
    ensures t.Attach(header).Rooted()
    ensures t.hash(header) in t.store ==> t.Attach(header) == t
  {
    var h := t.hash(header);
    var t' := t.Attach(header);
    if h in t.store {
      assert t.Linked(h);
      assert t'.store == t.store;
    } else {
      forall g | g in t'.store
        ensures t'.Linked(g)
      {
        if g != h { assert t.Linked(g); }
      }
    }
  }

  /** Adding a header changes no ancestor of the headers that were there. */
  lemma {:induction false} AncAfterAttach(t: Tree, header: Header, h: Hash, n: nat)
    requires t.Has(h, n) && t.Attaches(header)
    ensures t.Attach(header).Has(h, n)
    ensures t.Attach(header).Anc(h, n) == t.Anc(h, n)
    decreases t.store[h].number
  {
    AttachRooted(t, header);
    assert t.Linked(h);
    if n < t.store[h].number {
      AncAfterAttach(t, header, t.store[h].parentHash, n);
    }
  }
}
