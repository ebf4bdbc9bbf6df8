/** Total difficulties over a tree of headers. */
module TotalDifficulty {
  import opened Prelude
  import opened Ancestry

  /** A header's total difficulty is its own difficulty on top of its parent's total. */
  ghost predicate TdOk(t: Tree, tds: map<Hash, int>, h: Hash)
    requires h in t.store && tds.Keys == t.store.Keys
  {
    h != t.genesis ==>
      var p := t.store[h].parentHash;
      p in t.store && tds[h] == t.store[h].difficulty + tds[p]
  }

  ghost predicate TdsOk(t: Tree, tds: map<Hash, int>) {
    && tds.Keys == t.store.Keys
    && forall h {:trigger TdOk(t, tds, h)} :: h in t.store ==> TdOk(t, tds, h)
  }

  /** No header has a greater total difficulty than the head. */
  ghost predicate Heaviest(tds: map<Hash, int>, head: Hash) {
    head in tds && forall h :: h in tds ==> tds[h] <= tds[head]
  }

  function NewTd(tds: map<Hash, int>, header: Header): int
    requires header.parentHash in tds
  {
    header.difficulty + tds[header.parentHash]
  }

  /** Storing a header with its total difficulty disturbs none that is stored
      already, not even when the header itself is known. */
  lemma AttachTd(t: Tree, tds: map<Hash, int>, header: Header)
    requires t.Rooted() && TdsOk(t, tds) && t.Attaches(header)
    ensures header.parentHash in tds
    ensures TdsOk(t.Attach(header), tds[t.hash(header) := NewTd(tds, header)])
    ensures t.hash(header) in tds ==> tds[t.hash(header)] == NewTd(tds, header) && t.store[t.hash(header)] == header
  {
    assert header.parentHash in tds.Keys;
    var h := t.hash(header);
    if h in tds {
      assert h in tds.Keys;
      assert t.Linked(h) && TdOk(t, tds, h);
    }
    var t', tds' := t.Attach(header), tds[h := NewTd(tds, header)];
    forall g | g in t'.store
      ensures TdOk(t', tds', g)
    {
      if g != h { assert TdOk(t, tds, g); }
    }
  }
}
