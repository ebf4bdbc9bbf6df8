/** The sequential parts of the hasher: sizing and building the tree, and cutting the chunk. */
module BmtSetup {
  import opened Prelude
  import opened BmtReference
  import opened BmtTree
  import opened BmtHasher
  import opened BmtTheorem

  /** The smallest tree whose data nodes, two segments each, hold `n` segments. */
  method Depth(n: nat) returns (d: nat)
    requires n >= 1
    ensures DepthFor(n, d)
  {
    d := 0;
    var l := (n - 1) / 2;
    while l > 0
      invariant l * (2 * PowerOfTwo(d)) <= n - 1 < (l + 1) * (2 * PowerOfTwo(d))
      invariant d > 0 ==> PowerOfTwo(d) < n
    {
      HalveStep(l, PowerOfTwo(d), n - 1);
      l := l / 2;
      d := d + 1;
    }
  }

  lemma HalveStep(l: nat, p: nat, x: nat)
    requires l >= 1 && p >= 1
    requires l * (2 * p) <= x < (l + 1) * (2 * p)
    ensures (l / 2) * (2 * (2 * p)) <= x < (l / 2 + 1) * (2 * (2 * p))
    ensures 2 * p < x + 1
  {
    var q := 2 * p;
    MulMonotone(2 * (l / 2), l, q);
    MulMonotone(l + 1, 2 * (l / 2 + 1), q);
    MulMonotone(1, l, q);
    assert (2 * (l / 2)) * q == (l / 2) * (2 * q);
    assert (2 * (l / 2 + 1)) * q == (l / 2 + 1) * (2 * q);
  }

  /** NewTree: rows from the root down, each twice as wide as the one above. */
  method NewTree(depth: nat) returns (tree: map<Pos, Node>)
    ensures Clean(depth, tree) && forall p :: p in tree ==> tree[p].state == 0
  {
    tree := map[Pos(depth, 0) := Node([], [], 0, false, true)];
    var count := 2;
    var d := 1;
    while d <= depth
      invariant 1 <= d <= depth + 1 && count == PowerOfTwo(d)
      invariant forall p :: p in tree <==> InTree(depth, p) && p.h > depth - d
      invariant forall p :: p in tree ==> tree[p].state == 0 && !tree[p].unbalanced && (tree[p].root <==> p.h == depth)
    {
      var i := 0;
      var h := depth - d;
      while i < count
        invariant 0 <= i <= count
        invariant forall p :: p in tree <==> InTree(depth, p) && (p.h > h || (p.h == h && p.k < i))
        invariant forall p :: p in tree ==>
          tree[p].state == 0 && !tree[p].unbalanced && (tree[p].root <==> p.h == depth)
      {
        assert InTree(depth, Pos(h, i));
        tree := tree[Pos(h, i) := Node([], [], 0, false, false)];
        i := i + 1;
      }
      d := d + 1;
      count := count * 2;
    }
  }

  /** The fields of a Hasher that Write works on; `launched` lists the calls
      of writeSegment as (data node, bytes, depth). */
  class Hasher {
    const cfg: Config
    const depth: nat
    var segment: Bytes
    var cur: nat
    var launched: seq<(nat, Bytes, nat)>

    constructor (cfg: Config, depth: nat)
      ensures this.cfg == cfg && this.depth == depth && segment == [] && cur == 0 && launched == []
    {
      this.cfg := cfg;
      this.depth := depth;
      segment := [];
      cur := 0;
      launched := [];
    }

    /** The calls of writeSegment and the open segment are `segs` in order. */
    ghost predicate HandedOut(segs: seq<Bytes>)
      reads this
    {
      && |segs| >= 1 && cur == |segs| - 1 && segment == segs[cur]
      && |launched| == cur
      && forall i :: 0 <= i < cur ==> launched[i] == (i, segs[i], depth)
    }

    /** A write after `t` hands out double segments in order and keeps the last one
        open. They are those of the part of all data that fits, if and only if the data
        fit, the number of segments is even, nothing was written before or the last data
        node is open. */
    method Write(b: Bytes, ghost t: Bytes) returns (l: nat)
      requires cfg.Valid() && |t| <= cfg.Capacity() && HandedOut(Split(t, cfg.size))
      modifies this
      ensures l == |b| && Placed(cfg, t) && HandedOut(Handed(cfg, t, b))
      ensures HandedOut(Split(Truncate(t + b, cfg.Capacity()), cfg.size)) <==> Continues(cfg, t, b)
    {
      HandedIff(cfg, t, b);
      ghost var whole := Split(Truncate(t + b, cfg.Capacity()), cfg.size);
      l := |b|;
      if l <= 0 {
        CurrentSize(cfg, t);
        HandedNone(cfg.size, Leaves(cfg), Room(cfg, cur), Split(t, cfg.size));
        if HandedOut(whole) { OneWay(Handed(cfg, t, b), whole); }
        return;
      }
      WriteAll(b, t);
      if HandedOut(whole) { OneWay(Handed(cfg, t, b), whole); }
    }

    lemma OneWay(a: seq<Bytes>, b: seq<Bytes>)
      requires HandedOut(a) && HandedOut(b)
      ensures a == b
    {
      forall i | 0 <= i < |a| ensures a[i] == b[i] {
        if i < cur { assert launched[i] == (i, a[i], depth) && launched[i] == (i, b[i], depth); }
      }
    }

    /** A write of at least one byte. */
    method WriteAll(b: Bytes, ghost t: Bytes)
      requires cfg.Valid() && |t| <= cfg.Capacity() && HandedOut(Split(t, cfg.size)) && |b| > 0
      modifies this
      ensures Placed(cfg, t) && HandedOut(Handed(cfg, t, b))
    {
      CurrentSize(cfg, t);
      RoomIs(cfg, cur);
      var room := cfg.count * cfg.size - cur * (2 * cfg.size);
      assert room == Room(cfg, cur);
      FillFrom(b, room, Split(t, cfg.size));
    }

    /** Completes the open segment and goes on from there. */
    method FillFrom(b: Bytes, room: nat, ghost segs0: seq<Bytes>)
      requires cfg.Valid() && HandedOut(segs0) && |b| > 0 && cur < Leaves(cfg)
      requires |segment| <= 2 * cfg.size && |segment| <= room
      requires if cur < Leaves(cfg) - 1 then room > 2 * cfg.size else room == cfg.size || room == 2 * cfg.size
      modifies this
      ensures HandedOut(HandedAfter(cfg.size, Leaves(cfg), room, segs0, b))
    {
      ghost var c, v := cur, Truncate(b, room);
      var s, need, size, rest;
      ghost var segs;
      s, need, size, rest, segs := Complete(b, room, v);
      ghost var whole := segs0[..c] + segs;
      Cut(cfg.size, Leaves(cfg) - c, room, segment, b, v, segs);
      assert HandedAfter(cfg.size, Leaves(cfg), room, segs0, b) == whole[..Min(|whole|, Leaves(cfg))];
      assert whole[c + 1..] == segs[1..];
      WriteRest(b, s, need, size, rest, v, whole);
    }

    /** The missing bytes of the open segment: `v` is what there is room for. */
    method Complete(b: Bytes, room: nat, ghost v: Bytes)
      returns (s: Bytes, need: nat, size: nat, rest: nat, ghost segs: seq<Bytes>)
      requires cfg.Valid() && |b| > 0 && cur < Leaves(cfg) && |segment| <= 2 * cfg.size && |segment| <= room
      requires if cur < Leaves(cfg) - 1 then room > 2 * cfg.size else room == cfg.size || room == 2 * cfg.size
      requires v == Truncate(b, room)
      ensures segs == if Leaves(cfg) - cur == 1 then [Truncate(segment + v, room)] else Split(segment + v, cfg.size)
      ensures |segs| >= 1 && s == segs[0] && rest <= |v| && need == |v| - rest && (need == 0 ==> |segs| == 1)
      ensures need > 0 && cur < Leaves(cfg) - 1 ==>
        size == 2 * cfg.size && segs[1..] == Split(v[rest..], cfg.size)
    {
      var l := |b|;
      s, need, size := segment, room, cfg.size;
      if need > size {
        size := size * 2;
      }
      if l < need {
        need := l;
      }
      rest := size - |s|;
      if need < rest {
        rest := need;
      }
      s := s + b[..rest];
      need := need - rest;
      assert b[..rest] == v[..rest] && s == (segment + v)[..|segment| + rest];
      segs := [s];
      if cur == Leaves(cfg) - 1 {
        assert s == Truncate(segment + v, room);
      } else {
        FirstSegment(segment, v, rest, cfg.size);
        segs := Split(segment + v, cfg.size);
      }
    }

    /** The loop of Write: `s0` is the open double segment of `whole` and `rest0` bytes have been read. */
    method WriteRest(b: Bytes, s0: Bytes, need0: int, size0: nat, rest0: nat, ghost v: Bytes, ghost whole: seq<Bytes>)
      requires cfg.Valid() && |launched| == cur < Leaves(cfg) && v <= b && rest0 <= |v| && need0 == |v| - rest0
      requires cur < |whole| && s0 == whole[cur] && (need0 == 0 ==> |whole| == cur + 1)
      requires forall k :: 0 <= k < cur ==> launched[k] == (k, whole[k], depth)
      requires need0 > 0 && cur < Leaves(cfg) - 1 ==>
        size0 == 2 * cfg.size && whole[cur + 1..] == Split(v[rest0..], cfg.size)
      modifies this
      ensures HandedOut(whole[..Min(|whole|, Leaves(cfg))])
    {
      var s, need, size, rest, i := s0, need0, size0, rest0, cur;
      var count := (cfg.count + 1) / 2;
      while need > 0 && i < count - 1
        invariant i < count && i < |whole| && |launched| == i && s == whole[i]
        invariant forall k :: 0 <= k < i ==> launched[k] == (k, whole[k], depth)
        invariant 0 <= rest <= |v|
        invariant need > 0 && i < count - 1 ==>
          need == |v| - rest && size == 2 * cfg.size && whole[i + 1..] == Split(v[rest..], cfg.size)
        invariant need <= 0 ==> i == |whole| - 1
        decreases count - i
      {
        launched := launched + [(i, s, depth)];
        need := need - size;
        if need < 0 {
          size := size + need;
        }
        s := b[rest..rest + size];
        assert s == v[rest..rest + size];
        NextSegment(v, cfg.size, rest, size);
        assert whole[i + 1..][0] == whole[i + 1] && whole[i + 1..][1..] == whole[i + 2..];
        rest := rest + size;
        i := i + 1;
      }
      segment := s;
      cur := i;
    }
  }

  // ---------- what one write hands out ----------

  /** The number of data nodes that segments are written to. */
  function Leaves(cfg: Config): nat {
    (cfg.count + 1) / 2
  }

  /** The room from data node `c` on. */
  function Room(cfg: Config, c: nat): int {
    cfg.count * cfg.size - c * (2 * cfg.size)
  }

  /** The open segment of `t` has its place. */
  ghost predicate Placed(cfg: Config, t: Bytes) {
    && cfg.Valid() && |Split(t, cfg.size)| <= Leaves(cfg)
    && Room(cfg, |Split(t, cfg.size)| - 1) >= 0
  }

  /** The double segments after `b` is written behind `t`: the room left is reckoned
      from the start of the open segment, and the last data node takes what is left. */
  ghost function Handed(cfg: Config, t: Bytes, b: Bytes): seq<Bytes>
    requires Placed(cfg, t)
  {
    var segs := Split(t, cfg.size);
    HandedAfter(cfg.size, Leaves(cfg), Room(cfg, |segs| - 1), segs, b)
  }

  ghost function HandedAfter(size: nat, leaves: nat, room: nat, segs: seq<Bytes>, b: Bytes): seq<Bytes>
    requires size >= 1 && 1 <= |segs| <= leaves
  {
    var c := |segs| - 1;
    segs[..c] + HandedOn(size, leaves - c, room, segs[c], b)
  }

  /** From the open segment `s` on, with `left` data nodes and room for `room` bytes. */
  ghost function HandedOn(size: nat, left: nat, room: nat, s: Bytes, b: Bytes): seq<Bytes>
    requires size >= 1 && left >= 1
  {
    var u := s + Truncate(b, room);
    if left == 1 then [Truncate(u, room)] else Split(u, size)[..Min(|Split(u, size)|, left)]
  }

  lemma Cut(size: nat, left: nat, room: nat, s: Bytes, b: Bytes, v: Bytes, segs: seq<Bytes>)
    requires size >= 1 && left >= 1 && v == Truncate(b, room)
    requires segs == if left == 1 then [Truncate(s + v, room)] else Split(s + v, size)
    ensures HandedOn(size, left, room, s, b) == segs[..Min(|segs|, left)]
  {
  }

  /** When a write behind `t` continues the chunk as one write of all data would. */
  predicate Continues(cfg: Config, t: Bytes, b: Bytes) {
    || |t| + |b| <= cfg.Capacity() || cfg.count % 2 == 0
    || t == [] || |t| > cfg.Capacity() - cfg.size
  }

  /** All data nodes but the last take two segments; the last takes one if their number is odd. */
  lemma RoomIs(cfg: Config, c: nat)
    requires cfg.Valid() && c < Leaves(cfg)
    ensures Room(cfg, c) == (Leaves(cfg) - c) * (2 * cfg.size) - if cfg.count % 2 == 0 then 0 else cfg.size
    ensures Room(cfg, c) == cfg.Capacity() - c * (2 * cfg.size) >= cfg.size
    ensures c == Leaves(cfg) - 1 ==> Room(cfg, c) == if cfg.count % 2 == 0 then 2 * cfg.size else cfg.size
    ensures c < Leaves(cfg) - 1 ==> Room(cfg, c) > 2 * cfg.size
  {
    var n, w := Leaves(cfg), 2 * cfg.size;
    var odd := if cfg.count % 2 == 0 then 0 else 1;
    Times(cfg.count, n, odd, cfg.size);
    assert (n - c) * w == n * w - c * w;
    MulMonotone(1, n - c, w);
    if c < n - 1 { MulMonotone(2, n - c, w); }
  }

  lemma Times(count: nat, n: nat, odd: nat, size: nat)
    requires count == 2 * n - odd
    ensures count * size == size * count == n * (2 * size) - odd * size
  {
    assert (2 * n - odd) * size == 2 * n * size - odd * size;
  }

  /** Where the open segment starts, and that it has its place. */
  lemma CurrentSize(cfg: Config, t: Bytes)
    requires cfg.Valid() && |t| <= cfg.Capacity()
    ensures var segs := Split(t, cfg.size);
      var c := |segs| - 1;
      && c < Leaves(cfg) && |t| == c * (2 * cfg.size) + |segs[c]|
      && |segs[c]| <= 2 * cfg.size && |segs[c]| <= Room(cfg, c) && (segs[c] == [] <==> t == [])
    ensures Placed(cfg, t)
  {
    var n, w := Leaves(cfg), 2 * cfg.size;
    var c := |Split(t, cfg.size)| - 1;
    CapacityFits(cfg.size, cfg.count, n);
    SplitLength(t, cfg.size, n);
    SplitAt(t, cfg.size, c);
    assert (c + 1) * w == c * w + w;
    RoomIs(cfg, c);
  }

  lemma HandedNone(size: nat, leaves: nat, room: nat, segs: seq<Bytes>)
    requires size >= 1 && 1 <= |segs| <= leaves && |segs[|segs| - 1]| <= 2 * size && |segs[|segs| - 1]| <= room
    ensures HandedAfter(size, leaves, room, segs, []) == segs
  {
    var c := |segs| - 1;
    NoneOn(size, leaves - c, room, segs[c]);
    assert segs[..c] + [segs[c]] == segs;
  }

  lemma NoneOn(size: nat, left: nat, room: nat, s: Bytes)
    requires size >= 1 && left >= 1 && |s| <= 2 * size && |s| <= room
    ensures HandedOn(size, left, room, s, []) == [s]
  {
    assert s + [] == s;
  }

  /** The first double segment when `v` continues an open one. */
  lemma FirstSegment(s: Bytes, v: Bytes, rest: nat, size: nat)
    requires size >= 1 && |s| <= 2 * size && rest == Min(2 * size - |s|, |v|)
    ensures var segs := Split(s + v, size);
      && segs[0] == (s + v)[..|s| + rest] && (rest == |v| ==> |segs| == 1)
      && (rest < |v| ==> segs[1..] == Split(v[rest..], size))
  {
    assert (s + v)[|s| + rest..] == v[rest..];
    if rest == |v| {
      assert (s + v)[..|s| + rest] == s + v;
    }
  }

  // ---------- several writes and one ----------

  /** Cutting on from the open segment. */
  lemma {:induction false} SplitOn(t: Bytes, b: Bytes, size: nat)
    requires size >= 1
    ensures var segs := Split(t, size);
      var c := |segs| - 1;
      Split(t + b, size) == segs[..c] + Split(segs[c] + b, size)
    decreases |t|
  {
    var w := 2 * size;
    if |t| > w {
      SplitOn(t[w..], b, size);
      assert (t + b)[..w] == t[..w] && (t + b)[w..] == t[w..] + b;
      var rest := Split(t[w..], size);
      assert Split(t, size)[..|rest|] == [t[..w]] + rest[..|rest| - 1];
    }
  }

  lemma {:induction false} SplitTake(u: Bytes, size: nat, n: nat)
    requires size >= 1 && n >= 1 && n * (2 * size) <= |u|
    ensures |Split(u, size)| >= n && Split(u, size)[..n] == Split(u[..n * (2 * size)], size)
    decreases n
  {
    var w := 2 * size;
    assert n * w == (n - 1) * w + w;
    if n == 1 {
      if |u| == w { assert u[..w] == u; }
    } else {
      MulMonotone(1, n - 1, w);
      SplitTake(u[w..], size, n - 1);
      assert u[..n * w][..w] == u[..w] && u[..n * w][w..] == u[w..][..(n - 1) * w];
    }
  }

  /** A write hands out what one write of all data would, if and only if it continues the chunk. */
  lemma HandedIff(cfg: Config, t: Bytes, b: Bytes)
    requires cfg.Valid() && |t| <= cfg.Capacity()
    ensures Placed(cfg, t)
    ensures Handed(cfg, t, b) == Split(Truncate(t + b, cfg.Capacity()), cfg.size) <==> Continues(cfg, t, b)
  {
    var segs := Split(t, cfg.size);
    var c, cap := |segs| - 1, cfg.Capacity();
    CurrentSize(cfg, t);
    RoomIs(cfg, c);
    if cfg.count % 2 == 1 && t != [] { LastNode(cfg, |t|, c, |segs[c]|); }
    HandedAfterIff(cfg.size, Leaves(cfg), Room(cfg, c), cfg.count % 2 == 0, cap, t, b);
  }

  lemma {:induction false} HandedAfterIff(size: nat, leaves: nat, room: nat, even: bool, cap: nat, t: Bytes, b: Bytes)
    requires size >= 1 && |Split(t, size)| <= leaves && |t| <= cap
    requires var segs := Split(t, size);
      var c := |segs| - 1;
      && |segs[c]| <= 2 * size && |segs[c]| <= room == (leaves - c) * (2 * size) - (if even then 0 else size)
      && cap - |t| == room - |segs[c]| && (segs[c] == [] <==> t == [])
    ensures HandedAfter(size, leaves, room, Split(t, size), b) == Split(Truncate(t + b, cap), size) <==>
      |t| + |b| <= cap || even || t == [] || |Split(t, size)| == leaves
  {
    var segs := Split(t, size);
    var c := |segs| - 1;
    var v := Truncate(b, cap - |t|);
    TruncateOn(t, b, cap);
    SplitOn(t, v, size);
    HandedOnIff(size, leaves - c, room, even, segs[c], b, v);
    SamePrefix(segs[..c], HandedOn(size, leaves - c, room, segs[c], b), Split(segs[c] + v, size));
  }

  lemma TruncateOn(t: Bytes, b: Bytes, cap: nat)
    requires |t| <= cap
    ensures Truncate(t + b, cap) == t + Truncate(b, cap - |t|)
  {
  }

  lemma SamePrefix(p: seq<Bytes>, x: seq<Bytes>, y: seq<Bytes>)
    ensures p + x == p + y <==> x == y
  {
    assert (p + x)[|p|..] == x && (p + y)[|p|..] == y;
  }

  /** The last data node is open when all but one segment's worth has been written. */
  lemma LastNode(cfg: Config, length: nat, c: nat, open: nat)
    requires cfg.Valid() && cfg.count % 2 == 1 && c < Leaves(cfg)
    requires length == c * (2 * cfg.size) + open && 0 < open <= 2 * cfg.size
    ensures c == Leaves(cfg) - 1 <==> length > cfg.Capacity() - cfg.size
  {
    var n, w := Leaves(cfg), 2 * cfg.size;
    RoomIs(cfg, n - 1);
    if c < n - 1 {
      MulMonotone(c + 1, n - 1, w);
      assert (c + 1) * w == c * w + w;
    }
  }

  lemma {:induction false} HandedOnIff(size: nat, left: nat, room: nat, even: bool, s: Bytes, b: Bytes, v: Bytes)
    requires size >= 1 && left >= 1 && |s| <= 2 * size && |s| <= room
    requires room == left * (2 * size) - (if even then 0 else size) && v == Truncate(b, room - |s|)
    ensures HandedOn(size, left, room, s, b) == Split(s + v, size) <==>
      |s| + |b| <= room || even || s == [] || left == 1
  {
    var u := s + Truncate(b, room);
    if left == 1 {
      assert Truncate(u, room) == s + v && Split(s + v, size) == [s + v];
    } else if |s| + |b| <= room || s == [] {
      assert u == s + v;
      SplitLength(u, size, left);
    } else if even {
      assert u[..left * (2 * size)] == s + v;
      SplitTake(u, size, left);
    } else {
      TooLong(u, s + v, size, left);
    }
  }

  /** With an odd number of segments the last data node would take more than one. */
  lemma TooLong(u: Bytes, whole: Bytes, size: nat, n: nat)
    requires size >= 1 && n >= 2 && |u| > |whole| == n * (2 * size) - size
    ensures Split(u, size)[..Min(|Split(u, size)|, n)] != Split(whole, size)
  {
    var w := 2 * size;
    assert n * w == (n - 1) * w + w;
    MulMonotone(1, n - 1, w);
    SplitCount(whole, size, n);
    SplitAt(whole, size, n - 1);
    SplitMore(u, size, n - 1);
    SplitAt(u, size, n - 1);
  }

  /** A chunk that ends inside its n-th double segment has `n` of them. */
  lemma SplitCount(u: Bytes, size: nat, n: nat)
    requires size >= 1 && n >= 1 && (n - 1) * (2 * size) < |u| <= n * (2 * size)
    ensures |Split(u, size)| == n
  {
    SplitLength(u, size, n);
    if n > 1 { SplitMore(u, size, n - 1); }
  }

  lemma SplitMore(u: Bytes, size: nat, n: nat)
    requires size >= 1 && n * (2 * size) < |u|
    ensures |Split(u, size)| > n
  {
    var c := |Split(u, size)| - 1;
    SplitAt(u, size, c);
    if c + 1 <= n { MulMonotone(c + 1, n, 2 * size); }
  }

  /** The first double segment of what is left of the chunk, and the rest. */
  lemma NextSegment(t: Bytes, size: nat, from: nat, len: nat)
    requires size >= 1 && from + len <= |t|
    requires len == 2 * size || (len == |t| - from && len <= 2 * size)
    ensures var left := Split(t[from..], size);
            && left[0] == t[from..from + len]
            && (from + len < |t| ==> left[1..] == Split(t[from + len..], size))
            && (from + len == |t| ==> |left| == 1)
  {
    assert t[from..][..len] == t[from..from + len];
    assert t[from..][len..] == t[from + len..];
  }
}
