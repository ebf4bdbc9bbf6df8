/**
  The reference implementation of the binary Merkle tree hash (bmt/bmt_r.go)
  and the value the tree assigns to each of its nodes.

  Node positions are counted from the data upwards: height 0 is the row of
  data nodes, each of which covers two segments, and the parent of the node
  (height h, index k) is (h + 1, k / 2).
 */
module BmtReference {
  import opened Prelude

  /** The base hash is any function on byte strings; `size` is the length of
      a segment and `count` the number of segments a chunk may have. */
  datatype Config = Config(size: nat, count: nat, hash: Bytes -> Bytes) {
    ghost predicate Valid() {
      size >= 1 && count >= 1
    }

    function Capacity(): nat {
      size * count
    }
  }

  // ---------- the reference hasher ----------

  /** `s` halved until it is below `l`. */
  function Halve(s: nat, l: nat): (r: nat)
    requires s >= 1 && l >= 2
    ensures 1 <= r < l
  {
    if s >= l then Halve(s / 2, l) else s
  }

  /** What RefHasher.hash computes, as a function. */
  function RefHash(cfg: Config, d: Bytes, s: nat): Bytes
    requires cfg.Valid() && s >= 1
    decreases |d|
  {
    if |d| <= 2 * cfg.size then
      cfg.hash(d)
    else
      var s' := Halve(s, |d|);
      var left := RefHash(cfg, d[..s'], s');
      var right := if |d| - s' > cfg.size then RefHash(cfg, d[s'..], s') else d[s'..];
      cfg.hash(left + right)
  }

  function Truncate(d: Bytes, cap: nat): Bytes {
    if |d| > cap then d[..cap] else d
  }

  /** The number of bytes below a node at height `h`. */
  function Width(size: nat, h: nat): nat {
    if h == 0 then 2 * size else 2 * Width(size, h - 1)
  }

  /** RefHasher, with its hash object's buffer of bytes written since the last reset. */
  class RefHasher {
    const cfg: Config
    const section: nat
    const span: nat
    const cap: nat
    ghost const height: nat
    var written: Bytes

    ghost predicate Valid()
      reads this
    {
      && cfg.Valid()
      && section == 2 * cfg.size
      && cap == cfg.Capacity()
      && span == Width(cfg.size, height)
      && span >= 1
      && cap <= 2 * span
      && written == []
    }

    constructor (cfg: Config)
      requires cfg.Valid()
      ensures Valid() && this.cfg == cfg
    {
      var c := 2;
      ghost var h := 0;
      while c < cfg.count
        invariant c == PowerOfTwo(h + 1)
        decreases cfg.count - c
      {
        c := c * 2;
        h := h + 1;
      }
      MulMonotone(cfg.count, c, cfg.size);
      PowerWidth(cfg.size, h);
      if c > 2 {
        c := c / 2;
        h := h - 1;
        PowerWidth(cfg.size, h);
      }
      WidthPositive(cfg.size, h);
      this.cfg := cfg;
      section := 2 * cfg.size;
      span := c * cfg.size;
      cap := cfg.size * cfg.count;
      height := h;
      written := [];
    }

    /** Hash of the part of `d` that fits in the capacity. */
    method Hash(d: Bytes) returns (r: Bytes)
      requires Valid()
      modifies this
      ensures Valid()
      ensures r == RefHash(cfg, Truncate(d, cap), span)
    {
      var d' := d;
      if |d'| > cap {
        d' := d'[..cap];
      }
      r := HashSpan(d', span);
    }

    method HashSpan(d: Bytes, s0: nat) returns (r: Bytes)
      requires Valid() && s0 >= 1
      modifies this
      ensures Valid()
      ensures r == RefHash(cfg, d, s0)
      decreases |d|
    {
      var l, left, right, s := |d|, d, [], s0;
      if l > section {
        while s >= l
          invariant 1 <= s && Halve(s, l) == Halve(s0, l)
        {
          s := s / 2;
        }
        left := HashSpan(d[..s], s);
        right := d[s..];
        if l - s > section / 2 {
          right := HashSpan(right, s);
        }
      }
      written := written + left;
      written := written + right;
      assert written == left + right;
      assert right == [] ==> left + right == left;
      r := cfg.hash(written);
      written := [];
    }
  }

  function PowerOfTwo(n: nat): (r: nat)
    ensures r >= 1
  {
    if n == 0 then 1 else 2 * PowerOfTwo(n - 1)
  }

  lemma {:induction false} PowerWidth(size: nat, h: nat)
    ensures PowerOfTwo(h + 1) * size == Width(size, h)
  {
    if h > 0 {
      PowerWidth(size, h - 1);
      assert PowerOfTwo(h + 1) * size == 2 * (PowerOfTwo(h) * size);
    }
  }

  lemma MulMonotone(a: nat, b: nat, c: nat)
    requires a <= b
    ensures a * c <= b * c
  {
  }

  lemma WidthPositive(size: nat, h: nat)
    requires size >= 1
    ensures Width(size, h) >= 2 * size >= 2
  {
  }
}
