/**
  The concurrent hasher gives the reference hash under every schedule, always
  finishes, and leaves its tree ready for the next chunk.
 */
module BmtTheorem {
  import opened Prelude
  import opened BmtReference
  import opened BmtTree
  import opened BmtHasher
  import opened BmtInvariant
  import opened BmtSteps
  import opened BmtMoves

  /** The main thread keeps the invariant. */
  lemma MainStepKeeps(job: Job, tree0: map<Pos, Node>, st: State, who: Carriers)
    requires Inv(job, tree0, st, who) && Enabled(job, st, MainThread)
    ensures Inv(job, tree0, MainStep(job, st), who)
  {
    if (st.main.Writing? && |st.runs| < |job.segs| - 1) || st.main.LastSegment? {
      LaunchKeeps(job, tree0, st, who);
    } else if st.main.Writing? || st.main.Waiting? || (st.main.FinalRoot? && st.main.pos.k > 0) {
      JumpKeeps(job, tree0, st, who);
    } else {
      MarkKeeps(job, tree0, st, who);
    }
  }

  lemma StartInv(job: Job, tree0: map<Pos, Node>)
    requires job.Valid() && Clean(job.depth, tree0)
    ensures Inv(job, tree0, Start(tree0), map[])
  {
    RootInTree(job);
    forall p | Used(job, p)
      ensures p in tree0 && NodeOk(job, [], map[], p, tree0[p].state, tree0[p])
    {
      InIsInTree(job, p);
      PathOrTwo(job, p);
    }
    forall p | p in tree0
      ensures FlagsAt(job, Writing, p, tree0[p])
    {
    }
  }

  lemma {:induction false} ExecutesKeeps(job: Job, tree0: map<Pos, Node>, st: State, who: Carriers,
                                         schedule: seq<Choice>, last: State)
    returns (who': Carriers)
    requires Inv(job, tree0, st, who) && Unwrapped(job, tree0) && Executes(job, st, schedule, last)
    ensures Inv(job, tree0, last, who')
    decreases |schedule|
  {
    who' := who;
    if schedule != [] {
      match schedule[0] {
        case MainThread => MainStepKeeps(job, tree0, st, who);
        case Goroutine(j) => who' := RunStepKeeps(job, tree0, st, who, j);
      }
      who' := ExecutesKeeps(job, tree0, Next(job, st, schedule[0]), who', schedule[1..], last);
    }
  }

  // ---------- progress ----------

  /** When every goroutine has returned, every edge below the root has been taken. */
  lemma {:induction false} QuietTaken(job: Job, tree0: map<Pos, Node>, st: State, who: Carriers, e: Pos)
    requires Core(job, tree0, st.tree, st.runs, who) && RunsOk(job, st.tree, st.runs) && |st.runs| == |job.segs|
    requires forall j :: 0 <= j < |st.runs| ==> !st.runs[j].Active()
    requires e.h <= Root(job) && In(job, e)
    ensures e in who
    decreases e.h
  {
    if e.h == 0 {
      assert RunShape(job, |st.runs|, e.k, st.runs[e.k]);
      RootHeightIs(job.Last(), 0);
      TookBelow(job, st.runs, who, e.k, 0);
    } else {
      PathOrTwo(job, e);
      QuietTaken(job, tree0, st, who, Left(e));
      QuietAt(job, st, who, Left(e));
      assert Used(job, e);
      var j := who[Left(e)];
      if Two(job, e) {
        QuietTaken(job, tree0, st, who, Right(e));
        QuietAt(job, st, who, Right(e));
        j := if HasParked(st.runs, who, Left(e)) then who[Right(e)] else who[Left(e)];
      }
      QuietUp(job, st.runs, who, e, j, tree0[e].state, st.tree[e]);
    }
  }

  /** A goroutine that took an edge and has returned was counted at the node above. */
  lemma QuietAt(job: Job, st: State, who: Carriers, e: Pos)
    requires |job.segs| >= 1 && EdgesOk(job, st.runs, who) && RunsOk(job, st.tree, st.runs) && e in who
    requires e.h < Root(job)
    requires forall j :: 0 <= j < |st.runs| ==> !st.runs[j].Active()
    ensures who[e] < |st.runs| <= |job.segs| && RunShape(job, |st.runs|, who[e], st.runs[who[e]])
    ensures e == Edge(who[e], e.h)
    ensures HasToggled(st.runs, who, e)
    ensures !HasParked(st.runs, who, e) ==> Level(st.runs[who[e]]) > e.h + 1
    ensures HasParked(st.runs, who, e) ==> Two(job, Edge(who[e], e.h + 1))
  {
    EdgeOwner(job, st.runs, who, e);
    assert RunShape(job, |st.runs|, who[e], st.runs[who[e]]);
  }

  lemma QuietUp(job: Job, runs: seq<Run>, who: Carriers, e: Pos, j: nat, x: int, n: Node)
    requires |job.segs| >= 1 && EdgesOk(job, runs, who) && e.h >= 1 && In(job, e) && NodeOk(job, runs, who, e, x, n)
    requires Left(e) in who && Left(e) == Edge(who[Left(e)], e.h - 1) && who[Left(e)] < |runs|
    requires HasToggled(runs, who, Left(e))
    requires HasParked(runs, who, Left(e)) ==> Two(job, e)
    requires !HasParked(runs, who, Left(e)) ==> Level(runs[who[Left(e)]]) > e.h
    requires Two(job, e) ==>
      && Right(e) in who && Right(e) == Edge(who[Right(e)], e.h - 1)
      && who[Right(e)] < |runs| && HasToggled(runs, who, Right(e))
    requires Two(job, e) && !HasParked(runs, who, Right(e)) ==> Level(runs[who[Right(e)]]) > e.h
    requires j == if Two(job, e) && HasParked(runs, who, Left(e)) then who[Right(e)] else who[Left(e)]
    ensures e in who
  {
    assert Edge(j, e.h) == e;
    TookBelow(job, runs, who, j, e.h);
  }

  /** No schedule can get stuck: until the tree is released some thread can move. */
  lemma NeverStuck(job: Job, tree0: map<Pos, Node>, st: State, who: Carriers)
    requires Inv(job, tree0, st, who)
    ensures st.main.Released? || exists ch :: Enabled(job, st, ch)
  {
    RootInTree(job);
    if st.main.Waiting? && st.results == [] {
      if j :| 0 <= j < |st.runs| && st.runs[j].Active() {
        ActiveInTree(job, tree0, st, who, j);
        assert Enabled(job, st, Goroutine(j));
      } else {
        QuietTaken(job, tree0, st, who, Pos(Root(job), 0));
      }
    } else if !st.main.Released? {
      if st.main.FinalBalance? || st.main.FinalRight? || st.main.FinalRoot? || st.main.Releasing? {
        AncInTree(job.depth, job.Last(), st.main.pos.h);
      }
      assert Enabled(job, st, MainThread);
    }
  }

  /** A goroutine at work is always at a node of the tree. */
  lemma ActiveInTree(job: Job, tree0: map<Pos, Node>, st: State, who: Carriers, j: nat)
    requires Inv(job, tree0, st, who) && j < |st.runs| && st.runs[j].Active()
    ensures Enabled(job, st, Goroutine(j))
  {
    assert RunShape(job, |st.runs|, j, st.runs[j]);
    RootInTree(job);
    AncInTree(job.depth, j, st.runs[j].pos.h);
  }

  // ---------- termination ----------

  function StageRank(stage: Stage): nat {
    match stage
    case HashLeaf => 6
    case Store => 5
    case Check => 4
    case Toggle => 3
    case Combine => 2
    case Deliver => 1
    case _ => 0
  }

  function Rank(root: nat, r: Run): nat {
    if r.Active() then 5 * (if r.pos.h <= root then root - r.pos.h else 0) + StageRank(r.stage) else 0
  }

  function RankSum(root: nat, runs: seq<Run>): nat {
    if runs == [] then 0 else Rank(root, runs[0]) + RankSum(root, runs[1..])
  }

  lemma {:induction false} RankSumUpdate(root: nat, runs: seq<Run>, j: nat, r: Run)
    requires j < |runs|
    ensures RankSum(root, runs[j := r]) == RankSum(root, runs) - Rank(root, runs[j]) + Rank(root, r)
  {
    if j == 0 {
      assert runs[j := r][1..] == runs[1..];
    } else {
      RankSumUpdate(root, runs[1..], j - 1, r);
      assert runs[j := r][1..] == runs[1..][j - 1 := r];
    }
  }

  lemma {:induction false} RankSumAppend(root: nat, runs: seq<Run>, r: Run)
    ensures RankSum(root, runs + [r]) == RankSum(root, runs) + Rank(root, r)
  {
    if runs != [] {
      RankSumAppend(root, runs[1..], r);
      assert (runs + [r])[1..] == runs[1..] + [r];
    } else {
      assert runs + [r] == [r];
    }
  }

  function Cost(n: nat, each: nat): nat {
    if n == 0 then 0 else each + Cost(n - 1, each)
  }

  /** Steps the main thread can still make, counting the launches at their full cost. */
  function MainRank(job: Job, st: State): int
    requires |job.segs| >= 1
  {
    var launch := 5 * Root(job) + 7;
    match st.main
    case Writing =>
      Cost(if |st.runs| <= |job.segs| then |job.segs| - |st.runs| else 0, launch) + 3 * Root(job) + job.depth + 9
    case FinalBalance(pos, _, _) => launch + 3 * (Root(job) - pos.h) + job.depth + 8
    case FinalRight(pos, _) => launch + 3 * (Root(job) - pos.h) + job.depth + 7
    case FinalRoot(pos, _) => launch + 3 * (Root(job) - pos.h) + job.depth + 6
    case LastSegment(_) => launch + job.depth + 4
    case Waiting => job.depth + 3
    case Releasing(pos, _) => job.depth - pos.h + 1
    case Released(_) => 0
  }

  function Measure(job: Job, st: State): int
    requires |job.segs| >= 1
  {
    MainRank(job, st) + RankSum(Root(job), st.runs)
  }

  lemma MeasureNonNegative(job: Job, st: State)
    requires job.Valid() && MainOk(job, st.main, |st.runs|, st.results)
    ensures Measure(job, st) >= 0
  {
    RootInTree(job);
  }

  lemma RankDecreases(job: Job, tree0: map<Pos, Node>, st: State, who: Carriers, j: nat)
    requires Inv(job, tree0, st, who) && Enabled(job, st, Goroutine(j))
    ensures j < |RunStep(job, st, j).runs|
    ensures Rank(Root(job), RunStep(job, st, j).runs[j]) < Rank(Root(job), st.runs[j])
  {
    assert RunShape(job, |st.runs|, j, st.runs[j]);
    if st.runs[j].stage.HashLeaf? || st.runs[j].stage.Deliver? {
      LeaveRun(job, tree0, st, who, j);
    }
  }

  lemma GoroutineDecreases(job: Job, st: State, j: nat)
    requires |job.segs| >= 1 && Enabled(job, st, Goroutine(j))
    requires Rank(Root(job), RunStep(job, st, j).runs[j]) < Rank(Root(job), st.runs[j])
    ensures Measure(job, RunStep(job, st, j)) < Measure(job, st)
  {
    var st' := RunStep(job, st, j);
    RankSumUpdate(Root(job), st.runs, j, st'.runs[j]);
    assert st'.runs == st.runs[j := st'.runs[j]] && st'.main == st.main;
  }

  lemma MainDecreases(job: Job, st: State)
    requires job.Valid() && MainOk(job, st.main, |st.runs|, st.results) && Enabled(job, st, MainThread)
    ensures Measure(job, MainStep(job, st)) < Measure(job, st)
  {
    var st' := MainStep(job, st);
    RootInTree(job);
    if st.main.FinalRoot? { RootHeightIs(job.Last(), st.main.pos.h); }
    if (st.main.Writing? && |st.runs| < |job.segs| - 1) || st.main.LastSegment? {
      RankSumAppend(Root(job), st.runs, st'.runs[|st.runs|]);
    }
  }

  /** Every schedule is at most as long as the initial measure. */
  lemma {:induction false} ScheduleBound(job: Job, tree0: map<Pos, Node>, st: State, who: Carriers,
                                         schedule: seq<Choice>, last: State)
    requires Inv(job, tree0, st, who) && Unwrapped(job, tree0) && Executes(job, st, schedule, last)
    ensures |schedule| <= Measure(job, st)
    decreases |schedule|
  {
    MeasureNonNegative(job, st);
    if schedule != [] {
      var who' := who;
      match schedule[0] {
        case MainThread =>
          MainStepKeeps(job, tree0, st, who);
          MainDecreases(job, st);
        case Goroutine(j) =>
          who' := RunStepKeeps(job, tree0, st, who, j);
          RankDecreases(job, tree0, st, who, j);
          GoroutineDecreases(job, st, j);
      }
      ScheduleBound(job, tree0, Next(job, st, schedule[0]), who', schedule[1..], last);
    }
  }

  // ---------- the result ----------

  /** What a release leaves in the counter of a node. */
  function CounterAfter(job: Job, p: Pos, x: int): int
    requires |job.segs| >= 1
  {
    if 1 <= p.h <= Root(job) && In(job, p) && Two(job, p) then AddInt32(AddInt32(x)) else x
  }

  lemma ReleasedNode(job: Job, tree0: map<Pos, Node>, st: State, who: Carriers, p: Pos)
    requires Inv(job, tree0, st, who) && st.main.Released? && p in st.tree
    ensures p in tree0 && st.tree[p].state == CounterAfter(job, p, tree0[p].state)
    ensures !st.tree[p].unbalanced && (st.tree[p].root <==> p.h == job.depth)
  {
    assert FlagsAt(job, st.main, p, st.tree[p]);
    if Used(job, p) {
      AllTaken(job, st.runs, who, p);
      assert ClosedAt(job, st.runs, who, p);
    }
  }

  lemma AddTwice(x: int)
    requires MIN_INT32 <= x <= MAX_INT32 && x % 2 == 0
    ensures MIN_INT32 <= AddInt32(AddInt32(x)) <= MAX_INT32 && AddInt32(AddInt32(x)) % 2 == 0
  {
  }

  /** Releasing leaves a clean tree; every node with two sides counted two arrivals. */
  lemma ReleasedTree(job: Job, tree0: map<Pos, Node>, st: State, who: Carriers)
    requires Inv(job, tree0, st, who) && st.main.Released?
    ensures Clean(job.depth, st.tree)
    ensures forall p :: p in st.tree ==> p in tree0 && st.tree[p].state == CounterAfter(job, p, tree0[p].state)
    ensures st.main.hash == ChunkRoot(job.cfg, job.segs)
  {
    assert st.tree.Keys == tree0.Keys;
    forall p | p in st.tree
      ensures p in tree0 && st.tree[p].state == CounterAfter(job, p, tree0[p].state)
      ensures !st.tree[p].unbalanced && (st.tree[p].root <==> p.h == job.depth)
      ensures MIN_INT32 <= st.tree[p].state <= MAX_INT32 && st.tree[p].state % 2 == 0
    {
      ReleasedNode(job, tree0, st, who, p);
      AddTwice(tree0[p].state);
    }
    assert forall p :: p in st.tree <==> InTree(job.depth, p);
  }

  /** A job for a chunk that fits: `depth` is what the depth function gives for the segment count. */
  ghost predicate DepthFor(n: nat, d: nat) {
    n <= 2 * PowerOfTwo(d) && (d > 0 ==> PowerOfTwo(d) < n)
  }

  lemma {:induction false} SplitLength(data: Bytes, size: nat, n: nat)
    requires size >= 1 && |data| <= n * (2 * size) && n >= 1
    ensures |Split(data, size)| <= n
  {
    var c := |Split(data, size)| - 1;
    SplitAt(data, size, c);
    if c >= n {
      MulMonotone(n, c, 2 * size);
    }
  }

  lemma CapacityFits(size: nat, count: nat, leaves: nat)
    requires count <= 2 * leaves
    ensures size * count <= leaves * (2 * size)
  {
    MulMonotone(count, 2 * leaves, size);
    assert (2 * leaves) * size == leaves * (2 * size);
    assert count * size == size * count;
  }

  lemma ChunkJobValid(cfg: Config, depth: nat, data: Bytes)
    requires cfg.Valid() && DepthFor(cfg.count, depth) && |data| <= cfg.Capacity()
    ensures Job(cfg, depth, Split(data, cfg.size)).Valid()
  {
    var segs := Split(data, cfg.size);
    CapacityFits(cfg.size, cfg.count, PowerOfTwo(depth));
    SplitLength(data, cfg.size, PowerOfTwo(depth));
    forall j | 0 <= j < |segs| - 1
      ensures Long(cfg, segs[j])
    {
      SplitAt(data, cfg.size, j);
      assert (j + 1) * (2 * cfg.size) - j * (2 * cfg.size) == 2 * cfg.size;
    }
  }

  /** At most one result, the right one, and a clean tree once it is released. */
  ghost predicate Good(job: Job, st: State)
    requires |job.segs| >= 1
  {
    && (st.results == [] || st.results == [ChunkRoot(job.cfg, job.segs)])
    && (st.main.Released? ==> st.main.hash == ChunkRoot(job.cfg, job.segs) && Clean(job.depth, st.tree))
  }

  ghost predicate Counted(job: Job, tree0: map<Pos, Node>, tree: map<Pos, Node>)
    requires |job.segs| >= 1
  {
    tree.Keys == tree0.Keys && forall p :: p in tree ==> tree[p].state == CounterAfter(job, p, tree0[p].state)
  }

  /** Every schedule of a job whose counters have not wrapped round. */
  lemma JobGood(job: Job, tree0: map<Pos, Node>, schedule: seq<Choice>, last: State)
    requires job.Valid() && Clean(job.depth, tree0) && Unwrapped(job, tree0)
    requires Executes(job, Start(tree0), schedule, last)
    ensures Good(job, last)
    ensures last.main.Released? ==> Counted(job, tree0, last.tree)
    ensures !last.main.Released? ==> exists ch :: Enabled(job, last, ch)
    ensures |schedule| <= Measure(job, Start(tree0))
  {
    StartInv(job, tree0);
    var who := ExecutesKeeps(job, tree0, Start(tree0), map[], schedule, last);
    ScheduleBound(job, tree0, Start(tree0), map[], schedule, last);
    NeverStuck(job, tree0, last, who);
    if last.main.Released? {
      ReleasedTree(job, tree0, last, who);
      assert last.tree.Keys == tree0.Keys;
    }
  }

  /** For every segment count, every chunk that fits and every schedule of the
      goroutines: at most one result is sent and it is the reference hash; the
      schedule is bounded and never stuck before the tree is released; and the
      released tree is clean again, each counter up by two where it was used. */
  lemma ConcurrentHash(cfg: Config, depth: nat, data: Bytes, m: nat, tree0: map<Pos, Node>,
                       schedule: seq<Choice>, last: State)
    requires cfg.Valid() && DepthFor(cfg.count, depth)
    requires |data| <= cfg.Capacity() <= 2 * Width(cfg.size, m)
    requires Clean(depth, tree0) && Unwrapped(Job(cfg, depth, Split(data, cfg.size)), tree0)
    requires Executes(Job(cfg, depth, Split(data, cfg.size)), Start(tree0), schedule, last)
    ensures Width(cfg.size, m) >= 1
    ensures last.results == [] || last.results == [RefHash(cfg, data, Width(cfg.size, m))]
    ensures last.main.Released? ==>
      && last.main.hash == RefHash(cfg, data, Width(cfg.size, m)) && Clean(depth, last.tree)
      && Counted(Job(cfg, depth, Split(data, cfg.size)), tree0, last.tree)
    ensures !last.main.Released? ==> exists ch :: Enabled(Job(cfg, depth, Split(data, cfg.size)), last, ch)
    ensures |schedule| <= Measure(Job(cfg, depth, Split(data, cfg.size)), Start(tree0))
  {
    ChunkJobValid(cfg, depth, data);
    ChunkRootIsReference(cfg, data, m);
    JobGood(Job(cfg, depth, Split(data, cfg.size)), tree0, schedule, last);
  }

  /** A job leaves no counter negative if and only if none that it uses was at its last even value. */
  lemma FreshAfter(job: Job, tree0: map<Pos, Node>, tree: map<Pos, Node>)
    requires job.Valid() && Clean(job.depth, tree0) && Fresh(tree0) && Counted(job, tree0, tree)
    ensures Fresh(tree) <==> forall p :: Used(job, p) && Two(job, p) && p in tree0 ==> tree0[p].state < MAX_INT32 - 1
  {
    forall p | p in tree
      ensures tree[p].state >= 0 <==> (Used(job, p) && Two(job, p) ==> tree0[p].state < MAX_INT32 - 1)
    {
      assert p in tree0;
    }
  }

  /** The toggle is a two-state switch exactly on counters that have not
      wrapped round: a counter that went negative lets the first arrival pass. */
  lemma ToggleAlternates(x: int)
    requires MIN_INT32 <= x <= MAX_INT32 && x % 2 == 0
    ensures (Waits(x) && !Waits(AddInt32(x))) <==> x >= 0
    ensures x < 0 ==> !Waits(x)
    ensures AddInt32(AddInt32(x)) % 2 == 0
  {
  }
}
