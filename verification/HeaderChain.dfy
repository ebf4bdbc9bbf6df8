/**
  The header chain (core/headerchain.go): every header that arrives is
  stored, and the canonical index follows the chain of greatest total
  difficulty.
 */
module HeaderChains {
  import opened Prelude
  import opened Ancestry
  import opened TotalDifficulty

  datatype WriteStatus = NonStatTy | CanonStatTy | SideStatTy

  // ---------- the specification ----------

  datatype Chain = Chain(tree: Tree, tds: map<Hash, int>, canonical: map<nat, Hash>, head: Hash)

  /** Number to hash along the ancestors of `h`, and nothing above it. */
  ghost function Path(t: Tree, h: Hash): map<nat, Hash>
    requires t.Has(h, 0)
  {
    map n: nat | n <= t.store[h].number :: t.Anc(h, n)
  }

  ghost predicate ChainOk(c: Chain) {
    && c.tree.Has(c.head, 0)
    && TdsOk(c.tree, c.tds)
    && Heaviest(c.tds, c.head)
    && c.canonical == Path(c.tree, c.head)
  }

  /** What writing a header does to a chain: `coin` decides between equals. */
  ghost function WriteSpec(c: Chain, header: Header, coin: bool): (r: (Chain, WriteStatus))
    requires ChainOk(c)
    requires header.parentHash in c.tree.store ==> c.tree.Attaches(header)
  {
    if header.parentHash !in c.tree.store then (c, NonStatTy)
    else
      AttachRooted(c.tree, header);
      assert header.parentHash in c.tds.Keys;
      var h := c.tree.hash(header);
      var td := NewTd(c.tds, header);
      var c' := c.(tree := c.tree.Attach(header), tds := c.tds[h := td]);
      if td > c.tds[c.head] || (td == c.tds[c.head] && coin) then
        (c'.(canonical := Path(c'.tree, h), head := h), CanonStatTy)
      else (c', SideStatTy)
  }

  lemma PathAfterAttach(t: Tree, header: Header, h: Hash)
    requires t.Has(h, 0) && t.Attaches(header)
    ensures t.Attach(header).Has(h, 0)
    ensures Path(t.Attach(header), h) == Path(t, h)
  {
    AttachRooted(t, header);
    assert t.Linked(h);
    forall n: nat | n <= t.store[h].number
      ensures t.Attach(header).Has(h, n) && t.Attach(header).Anc(h, n) == t.Anc(h, n)
    {
      AncAfterAttach(t, header, h, n);
    }
  }

  /** One write keeps the index exact and the head's total difficulty maximal,
      and the head's total difficulty never falls. */
  lemma WriteKeeps(c: Chain, header: Header, coin: bool)
    requires ChainOk(c)
    requires header.parentHash in c.tree.store ==> c.tree.Attaches(header)
    ensures ChainOk(WriteSpec(c, header, coin).0)
    ensures var c' := WriteSpec(c, header, coin).0;
            c'.tds[c'.head] >= c.tds[c.head] && (forall h :: h in c.tds ==> h in c'.tds && c'.tds[h] == c.tds[h])
  {
    if header.parentHash in c.tree.store {
      AttachRooted(c.tree, header);
      PathAfterAttach(c.tree, header, c.head);
      AttachTd(c.tree, c.tds, header);
    }
  }

  /** The status tells what happened: an orphan leaves everything, a side header leaves
      head and index, and the head moves exactly to a header that is heavier, or as heavy
      and chosen by the coin. */
  lemma StatusTells(c: Chain, header: Header, coin: bool)
    requires ChainOk(c)
    requires header.parentHash in c.tree.store ==> c.tree.Attaches(header)
    ensures var (c', status) := WriteSpec(c, header, coin);
            && (status == NonStatTy <==> header.parentHash !in c.tds) && (status == NonStatTy ==> c' == c)
            && (status == SideStatTy ==> c'.head == c.head && c'.canonical == c.canonical)
            && (status == CanonStatTy ==> c'.head == c.tree.hash(header))
    ensures header.parentHash in c.tds ==>
      (WriteSpec(c, header, coin).1 == CanonStatTy <==>
       var total, best := c.tds[header.parentHash] + header.difficulty, c.tds[c.head];
       if total == best then coin else total > best)
  {
    assert header.parentHash in c.tree.store <==> header.parentHash in c.tds.Keys;
  }

  /** A run of writes, each with its coin flip. */
  ghost predicate Fits(c: Chain, header: Header) {
    header.parentHash in c.tree.store ==> c.tree.Attaches(header)
  }

  ghost predicate Writes(first: Chain, run: seq<(Header, bool)>, last: Chain)
    decreases |run|
  {
    if run == [] then first == last
    else ChainOk(first) && Fits(first, run[0].0) && Writes(WriteSpec(first, run[0].0, run[0].1).0, run[1..], last)
  }

  function GenesisChain(hash: Header -> Hash, genesis: Header): Chain {
    var g := hash(genesis);
    Chain(Tree(hash, map[g := genesis], g), map[g := genesis.difficulty], map[0 := g], g)
  }

  lemma GenesisOk(hash: Header -> Hash, genesis: Header)
    requires Ideal(hash) && genesis.number == 0 && genesis.parentHash == ZERO_HASH
    ensures ChainOk(GenesisChain(hash, genesis))
  {
    var c := GenesisChain(hash, genesis);
    assert c.tree.Rooted() by {
      forall h | h in c.tree.store ensures c.tree.Linked(h) { }
    }
    forall h | h in c.tree.store ensures TdOk(c.tree, c.tds, h) { }
    assert Path(c.tree, c.head) == map[0 := c.head];
  }

  /** After any run of writes from the genesis header: the canonical index is
      the head's ancestor path with nothing above it, and no stored header
      has a greater total difficulty than the head. */
  lemma {:induction false} RunKeeps(first: Chain, run: seq<(Header, bool)>, last: Chain)
    requires ChainOk(first) && Writes(first, run, last)
    ensures ChainOk(last) && last.tree.hash == first.tree.hash && last.tree.genesis == first.tree.genesis
    ensures forall h :: h in first.tds ==> h in last.tds && last.tds[h] == first.tds[h]
    ensures first.tds[first.head] <= last.tds[last.head]
    decreases |run|
  {
    if run != [] {
      WriteKeeps(first, run[0].0, run[0].1);
      RunKeeps(WriteSpec(first, run[0].0, run[0].1).0, run[1..], last);
    }
  }

  // ---------- the implementation ----------

  /** Unsigned 64-bit decrement. */
  function Pred64(n: nat): nat {
    if n == 0 then MAX_UINT64 else n - 1
  }

  // ---------- the canonical index during a rewrite ----------

  function At(m: map<nat, Hash>, n: nat): Hash {
    if n in m then m[n] else ZERO_HASH
  }

  ghost function Below(m: map<nat, Hash>, k: nat): map<nat, Hash> {
    map n | n in m && n < k :: m[n]
  }

  ghost predicate WithinTop(m: map<nat, Hash>, top: nat) {
    forall n :: n in m ==> n <= top
  }

  /** Below `k` the index still follows the old head. */
  ghost predicate Stale(m: map<nat, Hash>, t: Tree, oldHead: Hash, k: nat)
    requires t.Has(oldHead, 0)
  {
    forall n: nat :: n < k ==> At(m, n) == if n <= t.store[oldHead].number then t.Anc(oldHead, n) else ZERO_HASH
  }

  /** From `lo` to `hi` the index follows `h`. */
  ghost predicate Agrees(m: map<nat, Hash>, t: Tree, h: Hash, lo: nat, hi: nat)
    requires t.Has(h, 0) && hi <= t.store[h].number
  {
    forall n: nat :: lo <= n < hi ==> n in m && m[n] == t.Anc(h, n)
  }

  lemma OnPath(t: Tree, h: Hash, n: nat)
    requires t.Has(h, n + 1)
    ensures t.Anc(h, n) in t.store && t.store[t.Anc(h, n)].number == n && t.Anc(h, n) != ZERO_HASH
    ensures t.Anc(h, n + 1) in t.store && t.store[t.Anc(h, n + 1)].parentHash == t.Anc(h, n)
  {
    AncParent(t, h, n);
    AncIsStored(t, h, n);
    assert t.Linked(t.Anc(h, n));
  }

  /** Rewriting one entry; the walk cannot go below the genesis header. */
  lemma RewriteStep(m: map<nat, Hash>, t: Tree, oldHead: Hash, h: Hash, k: nat)
    requires t.Has(oldHead, 0) && t.Has(h, k + 1)
    requires Stale(m, t, oldHead, k + 1) && Agrees(m, t, h, k + 1, t.store[h].number)
    requires At(m, k) != t.Anc(h, k)
    ensures k > 0
    ensures t.Anc(h, k) in t.store && t.store[t.Anc(h, k)].number == k
    ensures t.Anc(h, k - 1) in t.store && t.store[t.Anc(h, k)].parentHash == t.Anc(h, k - 1)
    ensures t.store[t.Anc(h, k - 1)].number == k - 1
    ensures Stale(m[k := t.Anc(h, k)], t, oldHead, k) && Agrees(m[k := t.Anc(h, k)], t, h, k, t.store[h].number)
  {
    AncZero(t, oldHead);
    AncZero(t, h);
    assert At(m, 0) == t.genesis;
    OnPath(t, h, k);
    OnPath(t, h, k - 1);
    var m' := m[k := t.Anc(h, k)];
    forall n: nat | n < k
      ensures At(m', n) == if n <= t.store[oldHead].number then t.Anc(oldHead, n) else ZERO_HASH
    {
      assert At(m', n) == At(m, n);
    }
  }

  /** Where the index meets an ancestor of the new header it agrees all the way down. */
  lemma RewriteDone(m: map<nat, Hash>, t: Tree, oldHead: Hash, h: Hash, k: nat)
    requires t.Has(oldHead, 0) && t.Has(h, k + 1)
    requires Stale(m, t, oldHead, k + 1) && Agrees(m, t, h, k + 1, t.store[h].number)
    requires At(m, k) == t.Anc(h, k)
    ensures Agrees(m, t, h, 0, t.store[h].number)
  {
    OnPath(t, h, k);
    forall n: nat | n <= k
      ensures n in m && m[n] == t.Anc(h, n)
    {
      SharedBelow(t, oldHead, h, k, n);
      OnPath(t, h, n);
      assert At(m, n) != ZERO_HASH;
    }
  }

  lemma AgreesIsPath(m: map<nat, Hash>, t: Tree, h: Hash)
    requires t.Has(h, 0) && Agrees(m, t, h, 0, t.store[h].number) && WithinTop(m, t.store[h].number)
    ensures m[t.store[h].number := h] == Path(t, h)
  {
  }

  /** The index before a reorganisation, seen in the tree that holds the new header. */
  lemma StartRewrite(c: Chain, header: Header)
    requires ChainOk(c) && c.tree.Attaches(header)
    ensures forall n: nat :: n in c.canonical <==> n <= c.tree.store[c.head].number
    ensures forall n: nat :: n in c.canonical ==> c.canonical[n] != ZERO_HASH
    ensures c.tree.Attach(header).Has(c.head, 0)
    ensures Stale(Below(c.canonical, header.number + 1), c.tree.Attach(header), c.head, header.number)
    ensures WithinTop(Below(c.canonical, header.number + 1), header.number)
  {
    PathAfterAttach(c.tree, header, c.head);
    forall n: nat | n in c.canonical
      ensures c.canonical[n] != ZERO_HASH
    {
      AncIsStored(c.tree, c.head, n);
      assert c.tree.Linked(c.canonical[n]);
    }
  }

  class HeaderChain {
    const hash: Header -> Hash
    const genesis: Hash
    // the database
    var headers: map<Hash, Header>
    var tds: map<Hash, int>
    var canonical: map<nat, Hash>
    var headHeaderHash: Hash
    // the head and the caches in memory
    var currentHeader: Header
    var currentHeaderHash: Hash
    var headerCache: map<Hash, Header>
    var tdCache: map<Hash, int>

    ghost function View(): Chain
      reads this
    {
      Chain(Tree(hash, headers, genesis), tds, canonical, currentHeaderHash)
    }

    /** Caches hold nothing but what the database holds. */
    ghost predicate CachesOk()
      reads this
    {
      && (forall h :: h in headerCache ==> h in headers && headerCache[h] == headers[h])
      && (forall h :: h in tdCache ==> h in tds && tdCache[h] == tds[h])
    }

    ghost predicate Valid()
      reads this
    {
      && ChainOk(View())
      && CachesOk()
      && currentHeader == headers[currentHeaderHash]
      && headHeaderHash == currentHeaderHash
    }

    constructor (hash: Header -> Hash, header: Header)
      requires Ideal(hash) && header.number == 0 && header.parentHash == ZERO_HASH
      ensures Valid() && View() == GenesisChain(hash, header)
    {
      var g := hash(header);
      this.hash := hash;
      genesis := g;
      headers := map[g := header];
      tds := map[g := header.difficulty];
      canonical := map[0 := g];
      headHeaderHash := g;
      currentHeader := header;
      currentHeaderHash := g;
      headerCache := map[];
      tdCache := map[];
      new;
      GenesisOk(hash, header);
    }

    /** Adding to a bounded cache may evict any other entry. */
    method CacheTd(h: Hash, td: int)
      modifies `tdCache
      ensures forall g :: g in tdCache ==>
                (g == h && tdCache[g] == td) || (g in old(tdCache) && g != h && tdCache[g] == old(tdCache[g]))
    {
      var keep: set<Hash> := *;
      tdCache := map g | g in tdCache && g in keep :: tdCache[g];
      tdCache := tdCache[h := td];
    }

    method CacheHeader(h: Hash, header: Header)
      modifies `headerCache
      ensures forall g :: g in headerCache ==>
                || (g == h && headerCache[g] == header)
                || (g in old(headerCache) && g != h && headerCache[g] == old(headerCache[g]))
    {
      var keep: set<Hash> := *;
      headerCache := map g | g in headerCache && g in keep :: headerCache[g];
      headerCache := headerCache[h := header];
    }

    method GetTd(h: Hash, number: nat) returns (td: Option<int>)
      requires CachesOk() && tds.Keys == headers.Keys
      modifies `tdCache
      ensures CachesOk()
      ensures td.Some? ==> h in tds && td.value == tds[h]
      ensures h in tds && headers[h].number == number ==> td.Some?
    {
      if h in tdCache {
        return Some(tdCache[h]);
      }
      // the database key holds the number as well as the hash
      if h !in tds || headers[h].number != number {
        return None;
      }
      CacheTd(h, tds[h]);
      return Some(tds[h]);
    }

    method GetHeader(h: Hash, number: nat) returns (header: Option<Header>)
      requires CachesOk()
      modifies `headerCache
      ensures CachesOk()
      ensures header.Some? ==> h in headers && header.value == headers[h]
      ensures h in headers && headers[h].number == number ==> header.Some?
    {
      if h in headerCache {
        return Some(headerCache[h]);
      }
      if h !in headers || headers[h].number != number {
        return None;
      }
      CacheHeader(h, headers[h]);
      return Some(headers[h]);
    }

    function GetCanonicalHash(n: nat): Hash
      reads this
    {
      At(canonical, n)
    }

    /** Deletes the canonical assignments from `number` upwards. */
    method DeleteAbove(number: nat, ghost top: nat)
      requires forall n: nat :: n in canonical ==> n <= top && canonical[n] != ZERO_HASH
      requires forall n: nat :: n <= top ==> n in canonical
      modifies `canonical
      ensures canonical == Below(old(canonical), number)
    {
      var i := number;
      while GetCanonicalHash(i) != ZERO_HASH
        invariant number <= i
        invariant canonical == map n: nat | n in old(canonical) && !(number <= n < i) :: old(canonical)[n]
        invariant i > number ==> i <= top + 1
        decreases top + 1 - i
      {
        canonical := map n | n in canonical && n != i :: canonical[n];
        i := i + 1;
      }
    }

    /** Rewrites stale canonical assignments from the parent of `header` downwards
        until they agree with its ancestors. */
    method RewriteBelow(header: Header, ghost t: Tree, ghost oldHead: Hash)
      requires CachesOk() && t == View().tree && t.Has(oldHead, 0)
      requires hash(header) in headers && headers[hash(header)] == header && header.number >= 1
      requires Stale(canonical, t, oldHead, header.number) && WithinTop(canonical, header.number)
      modifies `canonical, `headerCache
      ensures CachesOk() && WithinTop(canonical, header.number)
      ensures Agrees(canonical, t, hash(header), 0, header.number)
    {
      ghost var h := hash(header);
      assert t.Linked(h);
      var headHash, headNumber := header.parentHash, header.number - 1;
      OnPath(t, h, headNumber);
      var headHeader := GetHeader(headHash, headNumber);
      while GetCanonicalHash(headNumber) != headHash
        invariant CachesOk()
        invariant 0 <= headNumber < header.number && headHash == t.Anc(h, headNumber) && headHash in t.store
        invariant headHeader == Some(t.store[headHash])
        invariant WithinTop(canonical, header.number)
        invariant Agrees(canonical, t, h, headNumber + 1, header.number)
        invariant Stale(canonical, t, oldHead, headNumber + 1)
        decreases headNumber
      {
        RewriteStep(canonical, t, oldHead, h, headNumber);
        canonical := canonical[headNumber := headHash];
        headHash := headHeader.value.parentHash;
        headNumber := headHeader.value.number - 1;
        headHeader := GetHeader(headHash, headNumber);
      }
      RewriteDone(canonical, t, oldHead, h, headNumber);
    }

    /** Points the canonical index at the chain of a header that has just been stored. */
    method Canonicalise(header: Header, ghost c0: Chain)
      requires ChainOk(c0) && c0.tree.Attaches(header) && CachesOk()
      requires View().tree == c0.tree.Attach(header) && canonical == c0.canonical
      modifies this`canonical, this`headerCache, this`headHeaderHash, this`currentHeaderHash, this`currentHeader
      ensures CachesOk()
      ensures View().tree.Has(hash(header), 0) && canonical == Path(View().tree, hash(header))
      ensures currentHeaderHash == headHeaderHash == hash(header) && currentHeader == header
    {
      RewriteIndex(header, c0);
      var h := hash(header);
      headHeaderHash := h;
      currentHeaderHash, currentHeader := h, header;
    }

    /** Deletes the assignments above the header and rewrites those below it. */
    method RewriteIndex(header: Header, ghost c0: Chain)
      requires ChainOk(c0) && c0.tree.Attaches(header) && CachesOk()
      requires View().tree == c0.tree.Attach(header) && canonical == c0.canonical
      modifies this`canonical, this`headerCache
      ensures CachesOk()
      ensures View().tree.Has(hash(header), 0) && canonical == Path(View().tree, hash(header))
    {
      var h, number := hash(header), header.number;
      ghost var t := View().tree;
      AttachRooted(c0.tree, header);
      StartRewrite(c0, header);
      DeleteAbove(number + 1, c0.tree.store[c0.head].number);
      RewriteBelow(header, t, c0.head);
      AgreesIsPath(canonical, t, h);
      canonical := canonical[number := h];
    }

    /** Stores a header and its total difficulty; a header that is known already stays as it is. */
    method StoreHeader(header: Header, td: int)
      requires ChainOk(View()) && CachesOk() && View().tree.Attaches(header)
      requires header.parentHash in tds && td == NewTd(tds, header)
      modifies `tds, `headers, `tdCache
      ensures CachesOk()
      ensures headers == old(headers)[hash(header) := header] && tds == old(tds)[hash(header) := td]
    {
      var h := hash(header);
      AttachTd(View().tree, tds, header);
      tds := tds[h := td];
      CacheTd(h, td);
      headers := headers[h := header];
    }

    /** Stores a header on top of a known parent and moves the head if it is better. */
    method WriteOnParent(header: Header, ptd: int, coin: bool) returns (status: WriteStatus)
      requires Valid() && View().tree.Attaches(header) && header.parentHash in tds && ptd == tds[header.parentHash]
      modifies this
      ensures CachesOk()
      ensures View() == WriteSpec(old(View()), header, coin).0 && status == WriteSpec(old(View()), header, coin).1
      ensures currentHeaderHash in headers && currentHeader == headers[currentHeaderHash]
      ensures headHeaderHash == currentHeaderHash
    {
      ghost var c0 := View();
      var localTd := GetTd(currentHeaderHash, currentHeader.number);
      var externTd := header.difficulty + ptd;
      StoreHeader(header, externTd);
      HeadStays(c0, header);
      if externTd > localTd.value || (externTd == localTd.value && coin) {
        Canonicalise(header, c0);
        status := CanonStatTy;
      } else {
        status := SideStatTy;
      }
    }

    /** Writes one header. `coin` is the outcome of the random choice between
        chains of equal total difficulty. */
    method WriteHeader(header: Header, coin: bool) returns (status: WriteStatus)
      requires Valid()
      requires header.parentHash in headers ==> View().tree.Attaches(header)
      modifies this
      ensures Valid()
      ensures View() == WriteSpec(old(View()), header, coin).0 && status == WriteSpec(old(View()), header, coin).1
      ensures status == NonStatTy <==> header.parentHash !in old(tds)
      ensures status == NonStatTy ==> View() == old(View())
      ensures status == SideStatTy ==> currentHeaderHash == old(currentHeaderHash) && canonical == old(canonical)
      ensures status == CanonStatTy ==> currentHeaderHash == hash(header)
      ensures header.parentHash in old(tds) ==>
        (status == CanonStatTy <==>
         var total, best := old(tds)[header.parentHash] + header.difficulty, old(tds)[old(currentHeaderHash)];
         if total == best then coin else total > best)
    {
      ghost var c0 := View();
      StatusTells(c0, header, coin);
      var ptd := GetTd(header.parentHash, Pred64(header.number));
      if ptd.None? {
        return NonStatTy;
      }
      status := WriteOnParent(header, ptd.value, coin);
      WriteKeeps(c0, header, coin);
      HeaderStored(c0, header, coin);
      CacheHeader(hash(header), header);
    }
  }

  lemma HeaderStored(c: Chain, header: Header, coin: bool)
    requires ChainOk(c) && c.tree.Attaches(header)
    ensures var t := WriteSpec(c, header, coin).0.tree;
            t.hash == c.tree.hash && t.hash(header) in t.store && t.store[t.hash(header)] == header
  {
  }

  lemma HeadStays(c: Chain, header: Header)
    requires ChainOk(c) && c.tree.Attaches(header)
    ensures c.head in c.tree.Attach(header).store && c.tree.Attach(header).store[c.head] == c.tree.store[c.head]
  {
    assert c.tree.Linked(c.head);
  }
}
