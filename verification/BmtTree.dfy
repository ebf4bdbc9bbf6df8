/**
  The value that a complete binary tree over a chunk assigns to each node,
  and the proof that the value at the chunk's root is the reference hash.
 */
module BmtTree {
  import opened Prelude
  import opened BmtReference

  /** Index of the ancestor, `h` levels up, of the data node `j`. */
  function Anc(j: nat, h: nat): nat {
    if h == 0 then j else Anc(j, h - 1) / 2
  }

  /** Height of the lowest node that is leftmost in its row and above data node `c`. */
  function RootHeight(c: nat): nat
    decreases c
  {
    if c == 0 then 0 else RootHeight(c / 2) + 1
  }

  lemma {:induction false} RootHeightIs(c: nat, h: nat)
    ensures h < RootHeight(c) ==> Anc(c, h) > 0
    ensures h >= RootHeight(c) ==> Anc(c, h) == 0
    decreases c
  {
    if c > 0 && h > 0 {
      RootHeightIs(c / 2, h - 1);
      AncShift(c, h - 1);
    } else if h > 0 {
      AncZero(h);
    }
  }

  lemma {:induction false} AncZero(h: nat)
    ensures Anc(0, h) == 0
  {
    if h > 0 { AncZero(h - 1); }
  }

  lemma {:induction false} AncShift(c: nat, h: nat)
    ensures Anc(c, h + 1) == Anc(c / 2, h)
  {
    if h > 0 { AncShift(c, h - 1); }
  }

  lemma {:induction false} AncMonotone(a: nat, b: nat, h: nat)
    requires a <= b
    ensures Anc(a, h) <= Anc(b, h)
  {
    if h > 0 { AncMonotone(a, b, h - 1); }
  }

  /** The double segments a chunk is cut into; all but the last are full. */
  function Split(b: Bytes, size: nat): (r: seq<Bytes>)
    requires size >= 1
    ensures |r| >= 1
  {
    if |b| <= 2 * size then [b] else [b[..2 * size]] + Split(b[2 * size..], size)
  }

  lemma {:induction false} SplitAt(b: Bytes, size: nat, j: nat)
    requires size >= 1 && j < |Split(b, size)|
    ensures 0 <= j * (2 * size) <= |b|
    ensures j < |Split(b, size)| - 1 ==>
              (j + 1) * (2 * size) < |b| && Split(b, size)[j] == b[j * (2 * size)..(j + 1) * (2 * size)]
    ensures j == |Split(b, size)| - 1 ==> |b| <= (j + 1) * (2 * size) && Split(b, size)[j] == b[j * (2 * size)..]
    ensures j > 0 ==> j * (2 * size) < |b|
    decreases |b|
  {
    var w := 2 * size;
    if |b| > w {
      var rest := b[w..];
      if j > 0 {
        SplitAt(rest, size, j - 1);
        assert (j - 1) * w + w == j * w && j * w + w == (j + 1) * w;
        if j < |Split(b, size)| - 1 {
          assert rest[(j - 1) * w..j * w] == b[j * w..(j + 1) * w];
        } else {
          assert rest[(j - 1) * w..] == b[j * w..];
        }
      }
      else {
        SplitAt(rest, size, 0);
      }
    }
  }

  // ---------- node values ----------

  predicate InChunk(segs: seq<Bytes>, h: nat, k: nat) {
    |segs| >= 1 && k <= Anc(|segs| - 1, h)
  }

  /** Both children of the inner node (h, k) cover part of the chunk. */
  predicate TwoSided(segs: seq<Bytes>, h: nat, k: nat) {
    h >= 1 && InChunk(segs, h - 1, 2 * k + 1)
  }

  /** A data node is hashed as soon as it holds more than one segment. */
  predicate Long(cfg: Config, seg: Bytes) {
    |seg| > cfg.size
  }

  /** The bytes that node (h, k) passes to its parent: the hash of both
      children, or the left child's bytes unchanged where there is no right one. */
  function Up(cfg: Config, segs: seq<Bytes>, h: nat, k: nat): Bytes
    requires InChunk(segs, h, k)
  {
    if h == 0 then
      if Long(cfg, segs[k]) then cfg.hash(segs[k]) else segs[k]
    else if TwoSided(segs, h, k) then
      cfg.hash(Up(cfg, segs, h - 1, 2 * k) + Up(cfg, segs, h - 1, 2 * k + 1))
    else
      Up(cfg, segs, h - 1, 2 * k)
  }

  /** The hash of the whole chunk. */
  function ChunkRoot(cfg: Config, segs: seq<Bytes>): Bytes
    requires |segs| >= 1
  {
    if |segs| == 1 then cfg.hash(segs[0]) else Up(cfg, segs, RootHeight(|segs| - 1), 0)
  }

  // ---------- the tree computes the reference hash ----------

  /** Position in the chunk of the first byte below node (h, k). */
  function Offset(size: nat, h: nat, k: nat): nat
    decreases h
  {
    if h == 0 then k * (2 * size) else Offset(size, h - 1, 2 * k)
  }

  lemma {:induction false} OffsetStep(size: nat, h: nat, k: nat)
    ensures Offset(size, h, k) + Width(size, h) == Offset(size, h, k + 1)
    decreases h
  {
    if h > 0 {
      OffsetStep(size, h - 1, 2 * k);
      OffsetStep(size, h - 1, 2 * k + 1);
    }
  }

  lemma {:induction false} OffsetZero(size: nat, h: nat)
    ensures Offset(size, h, 0) == 0
  {
    if h > 0 { OffsetZero(size, h - 1); }
  }

  lemma {:induction false} InChunkIffOffset(data: Bytes, size: nat, h: nat, k: nat)
    requires size >= 1 && |data| >= 1
    ensures InChunk(Split(data, size), h, k) <==> Offset(size, h, k) < |data|
    decreases h
  {
    if h == 0 {
      var c := |Split(data, size)| - 1;
      SplitAt(data, size, c);
      if k <= c {
        MulMonotone(k, c, 2 * size);
      } else {
        MulMonotone(c + 1, k, 2 * size);
      }
    } else {
      InChunkIffOffset(data, size, h - 1, 2 * k);
    }
  }

  /** The part of the chunk below node (h, k). */
  function Covered(data: Bytes, size: nat, h: nat, k: nat): Bytes {
    data[Min(|data|, Offset(size, h, k))..Min(|data|, Offset(size, h, k) + Width(size, h))]
  }

  /** Halving a power-of-two span stops at the largest one below the length. */
  lemma {:induction false} HalveWidth(size: nat, m: nat, h: nat, l: nat)
    requires size >= 1 && h <= m
    requires Width(size, h) < l <= 2 * Width(size, h)
    ensures Width(size, m) >= 1 && l >= 2
    ensures Halve(Width(size, m), l) == Width(size, h)
    decreases m
  {
    WidthPositive(size, h);
    WidthMonotone(size, h, m);
    if h < m {
      WidthMonotone(size, h, m - 1);
      HalveWidth(size, m - 1, h, l);
    }
  }

  lemma {:induction false} WidthMonotone(size: nat, h: nat, m: nat)
    requires h <= m
    ensures Width(size, h) <= Width(size, m)
    decreases m
  {
    if h < m { WidthMonotone(size, h, m - 1); }
  }

  lemma SpanAbove(size: nat, m: nat, h: nat, l: nat)
    requires size >= 1
    requires Width(size, h) < l <= 2 * Width(size, m)
    ensures h <= m
  {
    if m < h {
      WidthMonotone(size, m + 1, h);
    }
  }

  lemma CoveredLeaf(data: Bytes, size: nat, k: nat)
    requires size >= 1 && |data| >= 1 && InChunk(Split(data, size), 0, k)
    ensures Split(data, size)[k] == Covered(data, size, 0, k)
    ensures |Covered(data, size, 0, k)| <= 2 * size
  {
    SplitAt(data, size, k);
  }

  /** What a node covers is what its children cover, one after the other. */
  lemma CoveredChildren(data: Bytes, size: nat, h: nat, k: nat)
    requires size >= 1 && |data| >= 1 && h >= 1 && InChunk(Split(data, size), h, k)
    ensures InChunk(Split(data, size), h - 1, 2 * k)
    ensures Covered(data, size, h, k) == Covered(data, size, h - 1, 2 * k) + Covered(data, size, h - 1, 2 * k + 1)
    ensures TwoSided(Split(data, size), h, k) ==> |Covered(data, size, h - 1, 2 * k)| == Width(size, h - 1)
    ensures TwoSided(Split(data, size), h, k) <==> |Covered(data, size, h - 1, 2 * k + 1)| > 0
    ensures |Covered(data, size, h - 1, 2 * k + 1)| <= Width(size, h - 1)
  {
    WidthPositive(size, h - 1);
    OffsetStep(size, h - 1, 2 * k);
    InChunkIffOffset(data, size, h, k);
    InChunkIffOffset(data, size, h - 1, 2 * k + 1);
  }

  /** What a node covering `d` passes up, by the reference: a lone segment stays raw. */
  function RefValue(cfg: Config, d: Bytes, s: nat): Bytes
    requires cfg.Valid() && s >= 1
  {
    if Long(cfg, d) then RefHash(cfg, d, s) else d
  }

  /** One unfolding of the reference hash of a node with two children. */
  lemma RefHashSplit(cfg: Config, left: Bytes, right: Bytes, m: nat, h: nat)
    requires cfg.Valid()
    requires |left| == Width(cfg.size, h) && 0 < |right| <= Width(cfg.size, h)
    requires |left + right| <= 2 * Width(cfg.size, m)
    ensures Width(cfg.size, m) >= 1 && Width(cfg.size, h) >= 1
    ensures RefValue(cfg, left + right, Width(cfg.size, m)) ==
            cfg.hash(RefValue(cfg, left, Width(cfg.size, h)) + RefValue(cfg, right, Width(cfg.size, h)))
  {
    var d := left + right;
    WidthPositive(cfg.size, m);
    WidthPositive(cfg.size, h);
    SpanAbove(cfg.size, m, h, |d|);
    HalveWidth(cfg.size, m, h, |d|);
    assert d[..|left|] == left && d[|left|..] == right;
  }

  /** Every node's value is the reference's, whatever sufficient power-of-two
      span the reference starts from. */
  lemma {:induction false} UpIsReference(cfg: Config, data: Bytes, h: nat, k: nat, m: nat)
    requires cfg.Valid() && |data| >= 1
    requires InChunk(Split(data, cfg.size), h, k)
    requires |Covered(data, cfg.size, h, k)| <= 2 * Width(cfg.size, m)
    requires Width(cfg.size, m) >= 1
    ensures Up(cfg, Split(data, cfg.size), h, k) == RefValue(cfg, Covered(data, cfg.size, h, k), Width(cfg.size, m))
    decreases h
  {
    if h == 0 {
      CoveredLeaf(data, cfg.size, k);
    } else {
      CoveredChildren(data, cfg.size, h, k);
      WidthPositive(cfg.size, h - 1);
      if TwoSided(Split(data, cfg.size), h, k) {
        TwoSidedIsReference(cfg, data, h, k, m);
      } else {
        assert Covered(data, cfg.size, h, k) == Covered(data, cfg.size, h - 1, 2 * k);
        UpIsReference(cfg, data, h - 1, 2 * k, m);
      }
    }
  }

  lemma {:induction false} TwoSidedIsReference(cfg: Config, data: Bytes, h: nat, k: nat, m: nat)
    requires cfg.Valid() && |data| >= 1
    requires InChunk(Split(data, cfg.size), h, k) && TwoSided(Split(data, cfg.size), h, k)
    requires |Covered(data, cfg.size, h, k)| <= 2 * Width(cfg.size, m)
    requires Width(cfg.size, m) >= 1
    ensures Up(cfg, Split(data, cfg.size), h, k) == RefValue(cfg, Covered(data, cfg.size, h, k), Width(cfg.size, m))
    decreases h, 0
  {
    CoveredChildren(data, cfg.size, h, k);
    WidthPositive(cfg.size, h - 1);
    var left, right := Covered(data, cfg.size, h - 1, 2 * k), Covered(data, cfg.size, h - 1, 2 * k + 1);
    RefHashSplit(cfg, left, right, m, h - 1);
    UpIsReference(cfg, data, h - 1, 2 * k, h - 1);
    UpIsReference(cfg, data, h - 1, 2 * k + 1, h - 1);
  }

  /** The value at the chunk's root is the reference hash, for every chunk
      and every power-of-two span of at least half its length. */
  lemma ChunkRootIsReference(cfg: Config, data: Bytes, m: nat)
    requires cfg.Valid() && |data| <= 2 * Width(cfg.size, m)
    ensures Width(cfg.size, m) >= 1
    ensures ChunkRoot(cfg, Split(data, cfg.size)) == RefHash(cfg, data, Width(cfg.size, m))
  {
    var segs := Split(data, cfg.size);
    WidthPositive(cfg.size, m);
    if |segs| > 1 {
      SplitTwo(data, cfg.size);
      RootHeightIs(|segs| - 1, RootHeight(|segs| - 1));
      CoveredRoot(data, cfg.size, RootHeight(|segs| - 1));
      UpIsReference(cfg, data, RootHeight(|segs| - 1), 0, m);
    }
  }

  lemma SplitTwo(data: Bytes, size: nat)
    requires size >= 1 && |Split(data, size)| > 1
    ensures |data| > 2 * size
  {
  }

  /** The root of the chunk covers all of it. */
  lemma CoveredRoot(data: Bytes, size: nat, r: nat)
    requires size >= 1 && |data| >= 1 && Anc(|Split(data, size)| - 1, r) == 0
    ensures Covered(data, size, r, 0) == data
  {
    InChunkIffOffset(data, size, r, 1);
    OffsetZero(size, r);
    OffsetStep(size, r, 0);
  }
}
