/**
  What every step of the concurrent hasher keeps.

  The invariant is stated over the edges of the tree. The edge (h, k) leads
  out of node (h, k); `who` records which goroutine took it. The edge out of
  the chunk's root leads to the result channel.
 */
module BmtInvariant {
  import opened Prelude
  import opened BmtReference
  import opened BmtTree
  import opened BmtHasher

  type Carriers = map<Pos, nat>

  function Root(job: Job): nat
    requires |job.segs| >= 1
  {
    RootHeight(job.Last())
  }

  predicate In(job: Job, p: Pos) {
    InChunk(job.segs, p.h, p.k)
  }

  predicate Two(job: Job, p: Pos) {
    TwoSided(job.segs, p.h, p.k)
  }

  function Left(p: Pos): Pos
    requires p.h >= 1
  {
    Pos(p.h - 1, 2 * p.k)
  }

  function Right(p: Pos): Pos
    requires p.h >= 1
  {
    Pos(p.h - 1, 2 * p.k + 1)
  }

  function Value(job: Job, p: Pos): Bytes
    requires In(job, p)
  {
    Up(job.cfg, job.segs, p.h, p.k)
  }

  /** The edge that the goroutine `j` takes out of height `h`. */
  function Edge(j: nat, h: nat): Pos {
    Pos(h, Anc(j, h))
  }

  /** Where the last goroutine enters the tree: a long last segment skips its data node. */
  function Entry(job: Job): nat
    requires |job.segs| >= 1
  {
    if Long(job.cfg, job.segs[job.Last()]) && job.Last() > 0 && job.depth > 0 then 1 else 0
  }

  predicate OnPath(job: Job, p: Pos)
    requires |job.segs| >= 1
  {
    p == Edge(job.Last(), p.h)
  }

  /** The last segment's path enters height `h` from the left. */
  predicate FromLeft(job: Job, h: nat)
    requires |job.segs| >= 1
  {
    h == 0 || Anc(job.Last(), h - 1) % 2 == 0
  }

  /** How many edges the goroutine has taken. */
  function Level(r: Run): nat {
    if r.stage.Sent? then r.pos.h + 1 else r.pos.h
  }

  predicate Stored(r: Run, h: nat) {
    Level(r) > h || (r.pos.h == h && !r.stage.HashLeaf? && !r.stage.Store?)
  }

  predicate Toggled(r: Run, h: nat) {
    Level(r) > h || (r.pos.h == h && (r.stage.Combine? || r.stage.Deliver? || r.stage.Parked?))
  }

  predicate ParkedAt(r: Run, h: nat) {
    r.pos.h == h && r.stage.Parked?
  }

  ghost predicate HasStored(runs: seq<Run>, who: Carriers, e: Pos) {
    e in who && who[e] < |runs| && Stored(runs[who[e]], e.h + 1)
  }

  ghost predicate HasToggled(runs: seq<Run>, who: Carriers, e: Pos) {
    e in who && who[e] < |runs| && Toggled(runs[who[e]], e.h + 1)
  }

  ghost predicate HasParked(runs: seq<Run>, who: Carriers, e: Pos) {
    e in who && who[e] < |runs| && ParkedAt(runs[who[e]], e.h + 1)
  }

  // ---------- goroutines ----------

  /** The goroutine holds the bytes of the edge it came by. */
  ghost predicate Carrying(job: Job, j: nat, h: nat, isLeft: bool, s: Bytes)
    requires j < |job.segs|
  {
    if h == 0 then
      j == job.Last() && isLeft && s == job.segs[j] && Entry(job) == 0
    else
      In(job, Edge(j, h - 1)) && s == Value(job, Edge(j, h - 1)) && (isLeft <==> Anc(j, h - 1) % 2 == 0)
  }

  /** The bytes that leave a node: the chunk's hash from a lone data node. */
  ghost function Output(job: Job, p: Pos): Bytes
    requires |job.segs| >= 1
  {
    if job.Last() == 0 then ChunkRoot(job.cfg, job.segs)
    else if In(job, p) then Value(job, p) else []
  }

  /** What is known of goroutine `j` when `n` have been launched. */
  ghost predicate RunShape(job: Job, n: nat, j: nat, r: Run)
    requires j < n <= |job.segs|
  {
    && r.pos.h <= Root(job) && r.pos == Edge(j, r.pos.h)
    && (if job.Last() == 0 then r.i == 0 && r.d == 0 else r.i > 0 || r.d > 0)
    && match r.stage
       case HashLeaf => r.pos.h == 0 && r.s == job.segs[j] && Long(job.cfg, r.s) && job.depth > 0
                        && (r.isLeft <==> j % 2 == 0)
       case Store => Carrying(job, j, r.pos.h, r.isLeft, r.s)
       case Check => Carrying(job, j, r.pos.h, r.isLeft, r.s)
       case Toggle => Carrying(job, j, r.pos.h, r.isLeft, r.s) && Two(job, r.pos)
       case Combine => (r.pos.h == 0 ==> j == job.Last() && Entry(job) == 0)
                       && (r.isLeft || Two(job, r.pos))
                       && (OnPath(job, r.pos) ==> n == |job.segs|)
       case Deliver => r.s == Output(job, r.pos)
                       && (r.pos.h == 0 ==> j == job.Last() && Entry(job) == 0)
                       && (OnPath(job, r.pos) ==> n == |job.segs|)
       case Parked => Two(job, r.pos)
       case Sent => r.pos.h == Root(job)
  }

  /** A segment that entered at its data node is there once it is stored. */
  ghost predicate LeafStored(job: Job, tree: map<Pos, Node>, j: nat, r: Run)
    requires j < |job.segs|
  {
    r.pos.h == 0 && (r.stage.Check? || r.stage.Combine?) ==> r.pos in tree && tree[r.pos].left == job.segs[j]
  }

  ghost predicate RunsOk(job: Job, tree: map<Pos, Node>, runs: seq<Run>) {
    && |runs| <= |job.segs|
    && (forall j {:trigger RunShape(job, |runs|, j, runs[j])} :: 0 <= j < |runs| ==> RunShape(job, |runs|, j, runs[j]))
    && (forall j {:trigger LeafStored(job, tree, j, runs[j])} :: 0 <= j < |runs| ==> LeafStored(job, tree, j, runs[j]))
  }

  // ---------- edges ----------

  ghost predicate EdgeOk(job: Job, runs: seq<Run>, who: Carriers, e: Pos)
    requires |job.segs| >= 1 && e in who
  {
    && e.h <= Root(job) && In(job, e)
    && who[e] < |runs|
    && e == Edge(who[e], e.h)
    && Level(runs[who[e]]) > e.h
    && (OnPath(job, e) ==> |runs| == |job.segs|)
  }

  ghost predicate Took(who: Carriers, j: nat, h: nat) {
    Edge(j, h) in who && who[Edge(j, h)] == j
  }

  ghost predicate EdgesOk(job: Job, runs: seq<Run>, who: Carriers)
    requires |job.segs| >= 1
  {
    && (forall e {:trigger EdgeOk(job, runs, who, e)} :: e in who ==> EdgeOk(job, runs, who, e))
    && (forall j, h {:trigger Took(who, j, h)} :: 0 <= j < |runs| && 0 <= h < Level(runs[j]) ==> Took(who, j, h))
  }

  /** An edge is taken only after both sides of the node below it arrived. */
  ghost predicate ClosedAt(job: Job, runs: seq<Run>, who: Carriers, e: Pos) {
    e.h >= 1 ==> HasToggled(runs, who, Left(e)) && (Two(job, e) ==> HasToggled(runs, who, Right(e)))
  }

  ghost predicate Closed(job: Job, runs: seq<Run>, who: Carriers) {
    forall e {:trigger ClosedAt(job, runs, who, e)} :: e in who ==> ClosedAt(job, runs, who, e)
  }

  // ---------- nodes ----------

  function Bump(x: int, a: bool, b: bool): int {
    if a && b then AddInt32(AddInt32(x)) else if a || b then AddInt32(x) else x
  }

  /** The counter of a two-sided node counts the arrivals, and exactly one
      of two arrivals went on. `x` is the counter the node started with. */
  ghost predicate NodeOk(job: Job, runs: seq<Run>, who: Carriers, p: Pos, x: int, n: Node)
    requires p.h >= 1 && In(job, p)
  {
    var l, r := Left(p), Right(p);
    && In(job, l)
    && (HasStored(runs, who, l) ==> n.left == Value(job, l))
    && if Two(job, p) then
         && n.state == Bump(x, HasToggled(runs, who, l), HasToggled(runs, who, r))
         && (HasStored(runs, who, r) ==> n.right == Value(job, r))
         && (HasToggled(runs, who, l) && !HasToggled(runs, who, r) ==> HasParked(runs, who, l))
         && (HasToggled(runs, who, r) && !HasToggled(runs, who, l) ==> HasParked(runs, who, r))
         && (HasToggled(runs, who, l) && HasToggled(runs, who, r) ==>
               (HasParked(runs, who, l) <==> !HasParked(runs, who, r)))
       else
         n.state == x
  }

  /** A node above data, at or below the chunk's root. */
  ghost predicate Used(job: Job, p: Pos)
    requires |job.segs| >= 1
  {
    1 <= p.h <= Root(job) && In(job, p)
  }

  /** No counter that this job will toggle has wrapped round to a negative number. */
  ghost predicate Unwrapped(job: Job, tree: map<Pos, Node>)
    requires |job.segs| >= 1
  {
    forall p {:trigger Used(job, p)} :: Used(job, p) && Two(job, p) && p in tree ==> tree[p].state >= 0
  }

  ghost predicate NodesOk(job: Job, tree0: map<Pos, Node>, tree: map<Pos, Node>, runs: seq<Run>, who: Carriers)
    requires |job.segs| >= 1
  {
    && tree.Keys == tree0.Keys
    && (forall p {:trigger Used(job, p)} :: Used(job, p) ==>
          p in tree && p in tree0 && NodeOk(job, runs, who, p, tree0[p].state, tree[p]))
    && (forall p {:trigger Used(job, p)} :: p in tree && p in tree0 && !Used(job, p) ==>
          tree[p].state == tree0[p].state)
  }

  // ---------- the main thread's flags ----------

  /** Heights [Lo, Hi) of the last segment's path carry their flag. */
  function Lo(job: Job, m: Main): nat
    requires |job.segs| >= 1
  {
    match m
    case Releasing(pos, _) => pos.h
    case Released(_) => job.depth + 1
    case _ => Entry(job)
  }

  function Hi(job: Job, m: Main): nat
    requires |job.segs| >= 1
  {
    match m
    case Writing => 0
    case FinalBalance(pos, _, _) => pos.h
    case FinalRight(pos, _) => pos.h + 1
    case FinalRoot(pos, _) => pos.h + 1
    case _ => Root(job) + 1
  }

  predicate RootSet(job: Job, m: Main)
    requires |job.segs| >= 1
  {
    match m
    case LastSegment(_) => true
    case Waiting => true
    case Releasing(pos, _) => pos.h <= Root(job)
    case _ => false
  }

  predicate RightCleared(m: Main, h: nat) {
    match m
    case FinalBalance(pos, _, _) => h < pos.h
    case FinalRight(pos, _) => h < pos.h
    case FinalRoot(pos, _) => h <= pos.h
    case LastSegment(_) => true
    case Waiting => true
    case _ => false
  }

  predicate Flagged(job: Job, m: Main, h: nat)
    requires |job.segs| >= 1
  {
    Entry(job) <= h && Lo(job, m) <= h < Hi(job, m)
  }

  ghost predicate FlagsAt(job: Job, m: Main, p: Pos, n: Node)
    requires |job.segs| >= 1
  {
    && (n.unbalanced <==> OnPath(job, p) && Flagged(job, m, p.h) && FromLeft(job, p.h))
    && (n.root <==> p.h == job.depth || (p == Pos(Root(job), 0) && RootSet(job, m)))
    && (OnPath(job, p) && FromLeft(job, p.h) && Entry(job) <= p.h <= Root(job) && RightCleared(m, p.h) ==>
          n.right == [])
  }

  ghost predicate FinalPos(job: Job, n: nat, pos: Pos, d: nat)
    requires |job.segs| >= 1
  {
    n == |job.segs| - 1 && Entry(job) <= pos.h <= Root(job) && OnPath(job, pos) && d == pos.h - Entry(job)
  }

  /** Where the main thread is, given how many goroutines it has launched. */
  ghost predicate MainOk(job: Job, m: Main, n: nat, results: seq<Bytes>)
    requires |job.segs| >= 1
  {
    match m
    case Writing => n < |job.segs|
    case FinalBalance(pos, isLeft, d) => FinalPos(job, n, pos, d) && (isLeft <==> FromLeft(job, pos.h))
    case FinalRight(pos, d) => FinalPos(job, n, pos, d)
    case FinalRoot(pos, d) => FinalPos(job, n, pos, d)
    case LastSegment(d) => n == |job.segs| - 1 && d == Root(job) - Entry(job)
    case Waiting => n == |job.segs|
    case Releasing(pos, hash) => n == |job.segs| && pos.h <= job.depth && OnPath(job, pos) && results == [hash]
    case Released(hash) => n == |job.segs| && results == [hash]
  }

  ghost predicate FlagsOk(job: Job, tree: map<Pos, Node>, m: Main)
    requires |job.segs| >= 1
  {
    forall p {:trigger FlagsAt(job, m, p, tree[p])} :: p in tree ==> FlagsAt(job, m, p, tree[p])
  }

  ghost predicate ResultsOk(job: Job, results: seq<Bytes>, who: Carriers)
    requires |job.segs| >= 1
  {
    results == if Pos(Root(job), 0) in who then [ChunkRoot(job.cfg, job.segs)] else []
  }

  /** The part of the invariant about edges and nodes. */
  ghost predicate Core(job: Job, tree0: map<Pos, Node>, tree: map<Pos, Node>, runs: seq<Run>, who: Carriers) {
    && |job.segs| >= 1
    && EdgesOk(job, runs, who)
    && Closed(job, runs, who)
    && NodesOk(job, tree0, tree, runs, who)
  }

  ghost predicate Inv(job: Job, tree0: map<Pos, Node>, st: State, who: Carriers) {
    && job.Valid()
    && Clean(job.depth, tree0)
    && RunsOk(job, st.tree, st.runs)
    && Core(job, tree0, st.tree, st.runs, who)
    && MainOk(job, st.main, |st.runs|, st.results)
    && FlagsOk(job, st.tree, st.main)
    && ResultsOk(job, st.results, who)
  }
}
