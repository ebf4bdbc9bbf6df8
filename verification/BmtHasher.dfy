/**
  The concurrent binary Merkle tree hasher (bmt/bmt.go) as interleaved steps.

  A job hashes one chunk with one tree. The main thread runs Write and then
  Sum; every double segment it hands out is carried up the tree by a
  goroutine. Each step below makes at most one access to shared memory that
  another thread could observe half done.
 */
module BmtHasher {
  import opened Prelude
  import opened BmtReference
  import opened BmtTree

  datatype Pos = Pos(h: nat, k: nat)

  datatype Node = Node(left: Bytes, right: Bytes, state: int, unbalanced: bool, root: bool)

  /** `depth` is the height of the tree, `segs` the chunk cut into double segments. */
  datatype Job = Job(cfg: Config, depth: nat, segs: seq<Bytes>) {
    ghost predicate Valid() {
      && cfg.Valid()
      && 1 <= |segs| <= PowerOfTwo(depth)
      && forall j :: 0 <= j < |segs| - 1 ==> Long(cfg, segs[j])
    }

    /** Index of the last data node in use. */
    function Last(): nat
      requires |segs| >= 1
    {
      |segs| - 1
    }
  }

  // ---------- the toggle ----------

  const MAX_INT32: int := 0x7fff_ffff
  const MIN_INT32: int := -0x8000_0000

  function AddInt32(x: int): int {
    if x == MAX_INT32 then MIN_INT32 else x + 1
  }

  /** The remainder by two truncates towards zero, so it is -1 for odd negative numbers. */
  function TruncMod2(x: int): int {
    if x >= 0 then x % 2 else -((-x) % 2)
  }

  /** The result of Node.toggle on a counter holding `x`. */
  predicate Waits(x: int) {
    TruncMod2(AddInt32(x)) == 1
  }

  // ---------- threads ----------

  /** HashLeaf is the goroutine of writeSegment; the others are the stages of
      one turn of the loop in run. Parked and Sent have returned. */
  datatype Stage = HashLeaf | Store | Check | Toggle | Combine | Deliver | Parked | Sent

  datatype Run = Run(pos: Pos, isLeft: bool, s: Bytes, i: nat, d: nat, stage: Stage) {
    predicate Active() {
      !stage.Parked? && !stage.Sent?
    }
  }

  /** Writing is the loop of Write, the Final stages are the loop of finalise. */
  datatype Main =
    | Writing
    | FinalBalance(pos: Pos, isLeft: bool, d: nat)
    | FinalRight(pos: Pos, d: nat)
    | FinalRoot(pos: Pos, d: nat)
    | LastSegment(d: nat)
    | Waiting
    | Releasing(pos: Pos, hash: Bytes)
    | Released(hash: Bytes)

  datatype State = State(tree: map<Pos, Node>, runs: seq<Run>, results: seq<Bytes>, main: Main)

  datatype Choice = MainThread | Goroutine(j: nat)

  function Parent(p: Pos): Pos {
    Pos(p.h + 1, p.k / 2)
  }

  /** The goroutine started by writeSegment. */
  function Launch(job: Job, j: nat, s: Bytes, d: nat): Run {
    if Long(job.cfg, s) && job.depth > 0 then
      Run(Pos(0, j), j % 2 == 0, s, j, d, HashLeaf)
    else
      Run(Pos(0, j), true, s, 2 * j, d, Store)
  }

  predicate Enabled(job: Job, st: State, ch: Choice) {
    match ch
    case Goroutine(j) => j < |st.runs| && st.runs[j].Active() && st.runs[j].pos in st.tree
    case MainThread =>
      match st.main
      case Writing => |st.runs| < |job.segs|
      case FinalBalance(pos, _, _) => pos in st.tree
      case FinalRight(pos, _) => pos in st.tree
      case FinalRoot(pos, _) => pos in st.tree
      case LastSegment(_) => |job.segs| >= 1
      case Waiting => |st.results| >= 1 && |job.segs| >= 1
      case Releasing(pos, _) => pos in st.tree
      case Released(_) => false
  }

  /** One step of the goroutine `j`. */
  function RunStep(job: Job, st: State, j: nat): State
    requires Enabled(job, st, Goroutine(j))
  {
    var r := st.runs[j];
    var n := st.tree[r.pos];
    match r.stage
    case HashLeaf =>
      var s := job.cfg.hash(r.s);
      if n.root then
        st.(runs := st.runs[j := r.(s := s, stage := Sent)], results := st.results + [s])
      else
        st.(runs := st.runs[j := r.(pos := Parent(r.pos), s := s, stage := Store)])
    case Store =>
      st.(tree := st.tree[r.pos := if r.isLeft then n.(left := r.s) else n.(right := r.s)],
          runs := st.runs[j := r.(stage := Check)])
    case Check =>
      st.(runs := st.runs[j := r.(stage := if n.unbalanced then Combine else Toggle)])
    case Toggle =>
      st.(tree := st.tree[r.pos := n.(state := AddInt32(n.state))],
          runs := st.runs[j := r.(stage := if Waits(n.state) then Parked else Combine)])
    case Combine =>
      var s := if !n.unbalanced || !r.isLeft || (r.i == 0 && r.d == 0)
               then job.cfg.hash(n.left + n.right) else n.left + n.right;
      st.(runs := st.runs[j := r.(s := s, stage := Deliver)])
    case Deliver =>
      if n.root then
        st.(runs := st.runs[j := r.(stage := Sent)], results := st.results + [r.s])
      else
        st.(runs := st.runs[j := r.(pos := Parent(r.pos), isLeft := r.pos.k % 2 == 0, i := r.i + 1, stage := Store)])
    case Parked => st
    case Sent => st
  }

  /** One step of the main thread. */
  function MainStep(job: Job, st: State): State
    requires Enabled(job, st, MainThread)
  {
    match st.main
    case Writing =>
      var j := |st.runs|;
      if j < |job.segs| - 1 then
        st.(runs := st.runs + [Launch(job, j, job.segs[j], job.depth)])
      else if Long(job.cfg, job.segs[j]) && j > 0 && job.depth > 0 then
        st.(main := FinalBalance(Pos(1, j / 2), j % 2 == 0, 0))
      else
        st.(main := FinalBalance(Pos(0, j), true, 0))
    case FinalBalance(pos, isLeft, d) =>
      st.(tree := st.tree[pos := st.tree[pos].(unbalanced := isLeft)], main := FinalRight(pos, d))
    case FinalRight(pos, d) =>
      st.(tree := st.tree[pos := st.tree[pos].(right := [])], main := FinalRoot(pos, d))
    case FinalRoot(pos, d) =>
      if pos.k == 0 then
        st.(tree := st.tree[pos := st.tree[pos].(root := true)], main := LastSegment(d))
      else
        st.(main := FinalBalance(Parent(pos), pos.k % 2 == 0, d + 1))
    case LastSegment(d) =>
      var j := job.Last();
      st.(runs := st.runs + [Launch(job, j, job.segs[j], d)], main := Waiting)
    case Waiting =>
      st.(main := Releasing(Pos(0, job.Last()), st.results[0]))
    case Releasing(pos, hash) =>
      var n := st.tree[pos].(unbalanced := false);
      var hasParent := pos.h < job.depth;
      st.(tree := st.tree[pos := if hasParent then n.(root := false) else n],
          main := if hasParent then Releasing(Parent(pos), hash) else Released(hash))
    case Released(_) => st
  }

  function Next(job: Job, st: State, ch: Choice): State
    requires Enabled(job, st, ch)
  {
    match ch
    case MainThread => MainStep(job, st)
    case Goroutine(j) => RunStep(job, st, j)
  }

  /** `last` is reached from `first` by letting the threads move in the given order. */
  ghost predicate Executes(job: Job, first: State, schedule: seq<Choice>, last: State)
    decreases |schedule|
  {
    if schedule == [] then first == last
    else Enabled(job, first, schedule[0]) && Executes(job, Next(job, first, schedule[0]), schedule[1..], last)
  }

  // ---------- trees ----------

  ghost predicate InTree(depth: nat, p: Pos) {
    p.h <= depth && p.k < PowerOfTwo(depth - p.h)
  }

  /** A tree as NewTree builds it and as releaseTree must leave it. Whatever
      a previous chunk left in `left` and `right` stays there. */
  ghost predicate Clean(depth: nat, tree: map<Pos, Node>) {
    && (forall p :: p in tree <==> InTree(depth, p))
    && (forall p :: p in tree ==> !tree[p].unbalanced && (tree[p].root <==> p.h == depth))
    && (forall p :: p in tree ==> MIN_INT32 <= tree[p].state <= MAX_INT32 && tree[p].state % 2 == 0)
  }

  /** No counter has wrapped round to a negative number. */
  ghost predicate Fresh(tree: map<Pos, Node>) {
    forall p :: p in tree ==> tree[p].state >= 0
  }

  function Start(tree: map<Pos, Node>): State {
    State(tree, [], [], Writing)
  }
}
