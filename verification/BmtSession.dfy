/**
  One tree, many chunks: how long a tree from NewTree can be reused, and the
  whole way from a chunk to its hash.
 */
module BmtSession {
  import opened Prelude
  import opened BmtReference
  import opened BmtTree
  import opened BmtHasher
  import opened BmtInvariant
  import opened BmtTheorem
  import opened BmtExact
  import opened BmtSetup

  /** How many chunks a counter can take part in before it is negative. */
  const CHUNKS: nat := 0x4000_0000

  /** Some schedule hashes the job on `tree` and releases it as `tree'`. */
  ghost predicate HashedOn(job: Job, tree: map<Pos, Node>, tree': map<Pos, Node>) {
    exists schedule, last ::
      Executes(job, Start(tree), schedule, last) && last.main.Released? && last.tree == tree'
  }

  ghost predicate Zeroed(depth: nat, tree: map<Pos, Node>) {
    Clean(depth, tree) && forall p :: p in tree ==> tree[p].state == 0
  }

  /** The jobs are hashed one after the other, each on the tree the one before released. */
  ghost predicate Session(depth: nat, jobs: seq<Job>, trees: seq<map<Pos, Node>>) {
    && |trees| == |jobs| + 1 && Zeroed(depth, trees[0])
    && (forall i :: 0 <= i < |jobs| ==> jobs[i].Valid() && jobs[i].depth == depth)
    && forall i: nat :: i < |jobs| ==> HashedAt(jobs, trees, i)
  }

  ghost predicate HashedAt(jobs: seq<Job>, trees: seq<map<Pos, Node>>, i: nat)
    requires i < |jobs| && |trees| == |jobs| + 1
  {
    HashedOn(jobs[i], trees[i], trees[i + 1])
  }

  /** After `n` chunks no counter exceeds `2 * n`. */
  ghost predicate Within(tree: map<Pos, Node>, n: nat) {
    forall p :: p in tree ==> 0 <= tree[p].state <= 2 * n
  }

  lemma HashedGood(job: Job, tree: map<Pos, Node>, tree': map<Pos, Node>)
    requires job.Valid() && Clean(job.depth, tree) && Unwrapped(job, tree) && HashedOn(job, tree, tree')
    ensures Clean(job.depth, tree') && Counted(job, tree, tree')
  {
    var schedule, last :|
      Executes(job, Start(tree), schedule, last) && last.main.Released? && last.tree == tree';
    JobGood(job, tree, schedule, last);
  }

  lemma {:induction false} SessionKeeps(depth: nat, jobs: seq<Job>, trees: seq<map<Pos, Node>>, n: nat)
    requires Session(depth, jobs, trees) && n <= |jobs| && n < CHUNKS
    ensures Clean(depth, trees[n]) && Within(trees[n], n) && trees[n].Keys == trees[0].Keys
  {
    if n > 0 {
      var job, tree, tree' := jobs[n - 1], trees[n - 1], trees[n];
      SessionKeeps(depth, jobs, trees, n - 1);
      assert HashedAt(jobs, trees, n - 1);
      HashedGood(job, tree, tree');
      forall p | p in tree' ensures 0 <= tree'[p].state <= 2 * n { assert p in tree; }
    }
  }

  /** The first 2^30 chunks on one tree are all hashed right, under every schedule,
      and release a clean tree. */
  lemma SessionGood(depth: nat, jobs: seq<Job>, trees: seq<map<Pos, Node>>, n: nat)
    requires Session(depth, jobs, trees) && n < |jobs| && n < CHUNKS
    ensures AlwaysGood(jobs[n], trees[n])
    ensures Clean(depth, trees[n + 1]) && Counted(jobs[n], trees[n], trees[n + 1])
  {
    SessionKeeps(depth, jobs, trees, n);
    HashIff(jobs[n], trees[n]);
    assert HashedAt(jobs, trees, n);
    HashedGood(jobs[n], trees[n], trees[n + 1]);
  }

  lemma {:induction false} SessionCounter(depth: nat, jobs: seq<Job>, trees: seq<map<Pos, Node>>, p: Pos, n: nat)
    requires Session(depth, jobs, trees) && n <= |jobs| && n < CHUNKS && p in trees[0]
    requires forall i :: 0 <= i < n ==> Used(jobs[i], p) && Two(jobs[i], p)
    ensures p in trees[n] && trees[n][p].state == 2 * n
  {
    SessionKeeps(depth, jobs, trees, n);
    if n > 0 {
      SessionCounter(depth, jobs, trees, p, n - 1);
      SessionGood(depth, jobs, trees, n - 1);
    }
  }

  /** The bound is exact: after 2^30 chunks that combine at one node, a further
      chunk that combines there has a schedule that goes wrong. */
  lemma SessionEnds(depth: nat, jobs: seq<Job>, trees: seq<map<Pos, Node>>, p: Pos, job: Job)
    requires Session(depth, jobs, trees) && |jobs| == CHUNKS && p in trees[0]
    requires forall i :: 0 <= i < |jobs| ==> Used(jobs[i], p) && Two(jobs[i], p)
    requires job.Valid() && job.depth == depth && Used(job, p) && Two(job, p)
    ensures Clean(depth, trees[CHUNKS]) && !AlwaysGood(job, trees[CHUNKS])
  {
    SessionCounter(depth, jobs, trees, p, CHUNKS - 1);
    SessionGood(depth, jobs, trees, CHUNKS - 1);
    assert trees[CHUNKS][p].state == AddInt32(AddInt32(MAX_INT32 - 1)) == MIN_INT32;
    HashIff(job, trees[CHUNKS]);
  }

  // ---------- several writes, any schedule ----------

  function Concat(parts: seq<Bytes>): Bytes {
    if parts == [] then [] else Concat(parts[..|parts| - 1]) + parts[|parts| - 1]
  }

  lemma {:induction false} ConcatGrows(parts: seq<Bytes>, i: nat)
    requires i <= |parts|
    ensures |Concat(parts[..i])| <= |Concat(parts)|
    decreases |parts| - i
  {
    if i == |parts| {
      assert parts[..i] == parts;
    } else {
      assert parts[..i + 1][..i] == parts[..i];
      ConcatGrows(parts, i + 1);
    }
  }

  /** The parts are hashed as one chunk: they fit, the number of segments is even, or there is but one. */
  predicate OneChunk(cfg: Config, parts: seq<Bytes>) {
    |Concat(parts)| <= cfg.Capacity() || cfg.count % 2 == 0 || |parts| <= 1
  }

  /** Writing a chunk in parts hands out the double segments of the whole. */
  method WriteParts(hasher: Hasher, parts: seq<Bytes>)
    requires hasher.cfg.Valid() && hasher.HandedOut([[]]) && OneChunk(hasher.cfg, parts)
    modifies hasher
    ensures hasher.HandedOut(Split(Truncate(Concat(parts), hasher.cfg.Capacity()), hasher.cfg.size))
  {
    ghost var cap := hasher.cfg.Capacity();
    ghost var t: Bytes := [];
    for i := 0 to |parts|
      invariant t == Truncate(Concat(parts[..i]), cap) && hasher.HandedOut(Split(t, hasher.cfg.size))
    {
      assert parts[..i + 1][..i] == parts[..i];
      ConcatGrows(parts, i + 1);
      assert Continues(hasher.cfg, t, parts[i]);
      var _ := hasher.Write(parts[i], t);
      assert Truncate(t + parts[i], cap) == Truncate(Concat(parts[..i + 1]), cap);
      t := Truncate(t + parts[i], cap);
    }
    assert parts[..|parts|] == parts;
  }

  /** Sizing, building and writing in parts, and then any schedule: the released hash
      is that of the reference hasher on the same data. */
  method HashChunk(cfg: Config, parts: seq<Bytes>)
    returns (depth: nat, tree: map<Pos, Node>, hasher: Hasher, reference: RefHasher, hash: Bytes, ghost job: Job)
    requires cfg.Valid() && OneChunk(cfg, parts)
    ensures job.Valid() && job.cfg == cfg && job.depth == depth && Clean(depth, tree)
    ensures fresh(hasher) && hasher.HandedOut(job.segs)
    ensures reference.Valid() && reference.cfg == cfg
    ensures hash == RefHash(cfg, Truncate(Concat(parts), cfg.Capacity()), reference.span)
    ensures forall schedule, last {:trigger Executes(job, Start(tree), schedule, last)} ::
      Executes(job, Start(tree), schedule, last) ==>
        && (last.results == [] || last.results == [hash])
        && (last.main.Released? ==> last.main.hash == hash && Clean(depth, last.tree))
        && (!last.main.Released? ==> exists ch :: Enabled(job, last, ch))
  {
    depth := Depth(cfg.count);
    tree := NewTree(depth);
    hasher := new Hasher(cfg, depth);
    WriteParts(hasher, parts);
    var data := Concat(parts);
    reference := new RefHasher(cfg);
    ghost var m, chunk := reference.height, Truncate(data, cfg.Capacity());
    hash := reference.Hash(data);
    job := Job(cfg, depth, Split(chunk, cfg.size));
    assert hasher.HandedOut(job.segs);
    ChunkJobValid(cfg, depth, chunk);
    forall schedule, last | Executes(job, Start(tree), schedule, last)
      ensures last.results == [] || last.results == [hash]
      ensures last.main.Released? ==> last.main.hash == hash && Clean(depth, last.tree)
      ensures !last.main.Released? ==> exists ch :: Enabled(job, last, ch)
    {
      ConcurrentHash(cfg, depth, chunk, m, tree, schedule, last);
    }
  }
}
