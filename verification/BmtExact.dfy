/**
  The exact condition under which the concurrent hasher is right: no counter
  that the job toggles may be negative. For the failing half all goroutines are
  launched first; counting those that leave each node then shows that one result
  and even counters are possible only if every toggle saw two arrivals and a
  counter that was not negative.
 */
module BmtExact {
  import opened BmtReference
  import opened BmtTree
  import opened BmtHasher
  import opened BmtInvariant
  import opened BmtSteps
  import opened BmtTheorem

  // ---------- many arrivals at one counter ----------

  function AddN(x: int, a: nat): int {
    if a == 0 then x else AddInt32(AddN(x, a - 1))
  }

  /** How many of `a` arrivals at a counter holding `x` wait. */
  function WaitsN(x: int, a: nat): nat {
    if a == 0 then 0 else WaitsN(x, a - 1) + if Waits(AddN(x, a - 1)) then 1 else 0
  }

  ghost predicate Even32(x: int) {
    MIN_INT32 <= x <= MAX_INT32 && x % 2 == 0
  }

  lemma {:induction false} AddNParity(x: int, a: nat)
    requires Even32(x)
    ensures MIN_INT32 <= AddN(x, a) <= MAX_INT32 && AddN(x, a) % 2 == a % 2
  {
    if a > 0 {
      AddNParity(x, a - 1);
    }
  }

  lemma OddPasses(y: int)
    requires MIN_INT32 <= y <= MAX_INT32 && y % 2 == 1
    ensures !Waits(y)
  {
  }

  /** Of every two arrivals at least one goes on. */
  lemma {:induction false} WaitsHalf(x: int, a: nat)
    requires Even32(x)
    ensures if a % 2 == 0 then 2 * WaitsN(x, a) <= a else 2 * WaitsN(x, a) <= a + 1
  {
    if a > 0 {
      WaitsHalf(x, a - 1);
      AddNParity(x, a - 1);
      if a % 2 == 0 {
        OddPasses(AddN(x, a - 1));
      }
    }
  }

  /** An even number of arrivals of which exactly one goes on. */
  lemma OnePass(x: int, a: nat)
    requires Even32(x) && a % 2 == 0 && a >= 2 && a - WaitsN(x, a) == 1
    ensures a == 2 && x >= 0
  {
    WaitsHalf(x, a);
    ToggleAlternates(x);
    assert AddN(x, 1) == AddInt32(x) && WaitsN(x, 1) == if Waits(x) then 1 else 0;
    AddNParity(x, 1);
    OddPasses(AddN(x, 1));
  }

  // ---------- who has been where ----------

  /** The goroutines that left node `p`. */
  ghost function Out(runs: seq<Run>, p: Pos): set<nat> {
    set j: nat | j < |runs| && Edge(j, p.h) == p && Level(runs[j]) > p.h
  }

  /** The goroutines that passed the toggle of node `p` or wait there. */
  ghost function Arrived(runs: seq<Run>, p: Pos): set<nat> {
    set j: nat | j < |runs| && Edge(j, p.h) == p && Toggled(runs[j], p.h)
  }

  ghost function Waiters(runs: seq<Run>, p: Pos): set<nat> {
    set j: nat | j < |runs| && Edge(j, p.h) == p && ParkedAt(runs[j], p.h)
  }

  lemma SetsSame(runs: seq<Run>, runs': seq<Run>, j: nat, p: Pos)
    requires j < |runs| == |runs'| && runs' == runs[j := runs'[j]]
    requires Edge(j, p.h) == p ==>
      (Toggled(runs'[j], p.h) <==> Toggled(runs[j], p.h)) && (ParkedAt(runs'[j], p.h) <==> ParkedAt(runs[j], p.h))
    ensures Arrived(runs', p) == Arrived(runs, p) && Waiters(runs', p) == Waiters(runs, p)
  {
  }

  lemma SetsToggle(runs: seq<Run>, runs': seq<Run>, j: nat, p: Pos)
    requires j < |runs| == |runs'| && runs' == runs[j := runs'[j]] && Edge(j, p.h) == p
    requires !Toggled(runs[j], p.h) && !ParkedAt(runs[j], p.h) && Toggled(runs'[j], p.h)
    ensures |Arrived(runs', p)| == |Arrived(runs, p)| + 1
    ensures |Waiters(runs', p)| == |Waiters(runs, p)| + if ParkedAt(runs'[j], p.h) then 1 else 0
  {
    assert j !in Arrived(runs, p) && j !in Waiters(runs, p);
    assert Arrived(runs', p) == Arrived(runs, p) + {j};
    assert Waiters(runs', p) == if ParkedAt(runs'[j], p.h) then Waiters(runs, p) + {j} else Waiters(runs, p);
  }

  // ---------- the goroutines alone ----------

  ghost predicate LooseShape(job: Job, j: nat, r: Run)
    requires |job.segs| >= 1
  {
    && r.pos.h <= Root(job) && r.pos == Edge(j, r.pos.h)
    && (r.stage.HashLeaf? ==> r.pos.h == 0)
    && (r.pos.h == 0 && !r.stage.HashLeaf? && !r.stage.Sent? ==> j == job.Last() && Entry(job) == 0)
    && (r.stage.Toggle? || r.stage.Parked? ==> Two(job, r.pos))
    && (r.stage.Sent? ==> r.pos.h == Root(job))
  }

  ghost predicate LooseFlags(job: Job, p: Pos, n: Node)
    requires |job.segs| >= 1
  {
    && (n.unbalanced <==> OnPath(job, p) && Entry(job) <= p.h <= Root(job) && FromLeft(job, p.h))
    && (n.root <==> p.h == job.depth || p == Pos(Root(job), 0))
  }

  /** The counter and the waiting goroutines follow from the number of arrivals. */
  ghost predicate CountAt(runs: seq<Run>, p: Pos, x: int, state: int) {
    var a := |Arrived(runs, p)|;
    state == AddN(x, a) && |Waiters(runs, p)| == WaitsN(x, a)
  }

  ghost predicate CountsOk(job: Job, tree0: map<Pos, Node>, tree: map<Pos, Node>, runs: seq<Run>)
    requires |job.segs| >= 1
  {
    forall p {:trigger Used(job, p)} :: Used(job, p) && Two(job, p) ==>
      p in tree && p in tree0 && CountAt(runs, p, tree0[p].state, tree[p].state)
  }

  /** What holds, whatever the counters, while Sum waits and goroutines move. */
  ghost predicate Loose(job: Job, tree0: map<Pos, Node>, st: State) {
    && job.Valid() && Clean(job.depth, tree0) && st.main == Waiting && |st.runs| == |job.segs|
    && st.tree.Keys == tree0.Keys
    && (forall p {:trigger LooseFlags(job, p, st.tree[p])} :: p in st.tree ==> LooseFlags(job, p, st.tree[p]))
    && (forall j: nat {:trigger LooseShape(job, j, st.runs[j])} :: j < |st.runs| ==> LooseShape(job, j, st.runs[j]))
    && CountsOk(job, tree0, st.tree, st.runs)
    && |st.results| == |Out(st.runs, Pos(Root(job), 0))|
  }

  /** Goroutines stay at nodes of the tree. */
  lemma LooseInTree(job: Job, tree0: map<Pos, Node>, st: State, j: nat)
    requires Loose(job, tree0, st) && j < |st.runs|
    ensures LooseShape(job, j, st.runs[j]) && st.runs[j].pos in st.tree && In(job, st.runs[j].pos)
    ensures LooseFlags(job, st.runs[j].pos, st.tree[st.runs[j].pos])
  {
    var p := st.runs[j].pos;
    assert LooseShape(job, j, st.runs[j]);
    EdgeIn(job, j, p.h);
    InIsInTree(job, p);
    assert p in tree0;
    assert LooseFlags(job, p, st.tree[p]);
  }

  /** One-sided nodes are flagged, and only the chunk's root delivers. */
  lemma LooseNode(job: Job, tree0: map<Pos, Node>, st: State, j: nat)
    requires Loose(job, tree0, st) && j < |st.runs|
    ensures LooseShape(job, j, st.runs[j]) && st.runs[j].pos in st.tree
    ensures var p, n := st.runs[j].pos, st.tree[st.runs[j].pos];
      && (n.root <==> p.h == Root(job)) && Parent(p) == Edge(j, p.h + 1)
      && (st.runs[j].stage.Check? ==> (n.unbalanced <==> !Two(job, p)))
  {
    var p := st.runs[j].pos;
    LooseInTree(job, tree0, st, j);
    RootInTree(job);
    AncMonotone(j, job.Last(), Root(job));
    if p.h >= 1 {
      PathOrTwo(job, p);
    }
  }

  /** A goroutine's next shape, and its rank. */
  lemma LooseRun(job: Job, tree0: map<Pos, Node>, st: State, j: nat)
    requires Loose(job, tree0, st) && Enabled(job, st, Goroutine(j))
    ensures LooseShape(job, j, RunStep(job, st, j).runs[j])
    ensures Rank(Root(job), RunStep(job, st, j).runs[j]) < Rank(Root(job), st.runs[j])
    ensures RunStep(job, st, j).runs == st.runs[j := RunStep(job, st, j).runs[j]]
  {
    LooseNode(job, tree0, st, j);
    RootInTree(job);
  }

  /** Only a toggle at the node itself changes who arrived there. */
  lemma LooseSets(job: Job, tree0: map<Pos, Node>, st: State, j: nat, p: Pos)
    requires Loose(job, tree0, st) && Enabled(job, st, Goroutine(j)) && Used(job, p) && Two(job, p)
    requires !(st.runs[j].stage.Toggle? && st.runs[j].pos == p)
    ensures var runs' := RunStep(job, st, j).runs;
      Arrived(runs', p) == Arrived(st.runs, p) && Waiters(runs', p) == Waiters(st.runs, p)
  {
    LooseNode(job, tree0, st, j);
    LooseRun(job, tree0, st, j);
    SetsSame(st.runs, RunStep(job, st, j).runs, j, p);
  }

  lemma LooseCounts(job: Job, tree0: map<Pos, Node>, st: State, j: nat)
    requires Loose(job, tree0, st) && Enabled(job, st, Goroutine(j))
    ensures CountsOk(job, tree0, RunStep(job, st, j).tree, RunStep(job, st, j).runs)
  {
    var st' := RunStep(job, st, j);
    LooseInTree(job, tree0, st, j);
    LooseRun(job, tree0, st, j);
    forall p | Used(job, p) && Two(job, p)
      ensures p in st'.tree && p in tree0 && CountAt(st'.runs, p, tree0[p].state, st'.tree[p].state)
    {
      if st.runs[j].stage.Toggle? && st.runs[j].pos == p {
        SetsToggle(st.runs, st'.runs, j, p);
      } else {
        LooseSets(job, tree0, st, j, p);
      }
    }
  }

  /** A result is sent exactly when a goroutine leaves the chunk's root. */
  lemma LooseResults(job: Job, tree0: map<Pos, Node>, st: State, j: nat)
    requires Loose(job, tree0, st) && Enabled(job, st, Goroutine(j))
    ensures |RunStep(job, st, j).results| == |Out(RunStep(job, st, j).runs, Pos(Root(job), 0))|
  {
    var st', root := RunStep(job, st, j), Pos(Root(job), 0);
    LooseNode(job, tree0, st, j);
    LooseRun(job, tree0, st, j);
    RootInTree(job);
    AncMonotone(j, job.Last(), Root(job));
    if st'.runs[j].stage.Sent? {
      assert j !in Out(st.runs, root);
      assert Out(st'.runs, root) == Out(st.runs, root) + {j};
    } else {
      assert Out(st'.runs, root) == Out(st.runs, root);
    }
  }

  lemma LooseStep(job: Job, tree0: map<Pos, Node>, st: State, j: nat)
    requires Loose(job, tree0, st) && Enabled(job, st, Goroutine(j))
    ensures Loose(job, tree0, RunStep(job, st, j))
  {
    var st' := RunStep(job, st, j);
    LooseInTree(job, tree0, st, j);
    LooseRun(job, tree0, st, j);
    LooseCounts(job, tree0, st, j);
    LooseResults(job, tree0, st, j);
    forall p | p in st'.tree ensures LooseFlags(job, p, st'.tree[p]) { assert LooseFlags(job, p, st.tree[p]); }
    forall i: nat | i < |st'.runs| ensures LooseShape(job, i, st'.runs[i]) {
      assert i != j ==> LooseShape(job, i, st.runs[i]);
    }
  }

  // ---------- a schedule to the end ----------

  lemma {:induction false} Then(job: Job, first: State, schedule: seq<Choice>, mid: State, ch: Choice)
    requires Executes(job, first, schedule, mid) && Enabled(job, mid, ch)
    ensures Executes(job, first, schedule + [ch], Next(job, mid, ch))
    decreases |schedule|
  {
    if schedule == [] {
      assert [ch][1..] == [];
    } else {
      assert (schedule + [ch])[1..] == schedule[1..] + [ch];
      Then(job, Next(job, first, schedule[0]), schedule[1..], mid, ch);
    }
  }

  /** The main thread alone launches every goroutine. */
  lemma {:induction false} LaunchAll(job: Job, tree0: map<Pos, Node>, schedule: seq<Choice>, st: State)
    returns (schedule': seq<Choice>, st': State)
    requires Executes(job, Start(tree0), schedule, st) && Inv(job, tree0, st, map[])
    ensures Executes(job, Start(tree0), schedule', st') && Inv(job, tree0, st', map[]) && st'.main.Waiting?
    decreases if job.Valid() then Measure(job, st) else 0
  {
    if st.main.Waiting? {
      return schedule, st;
    }
    MeasureNonNegative(job, st);
    MainCanMove(job, tree0, st);
    Then(job, Start(tree0), schedule, st, MainThread);
    MainStepKeeps(job, tree0, st, map[]);
    MainDecreases(job, st);
    MeasureNonNegative(job, MainStep(job, st));
    schedule', st' := LaunchAll(job, tree0, schedule + [MainThread], MainStep(job, st));
  }

  lemma MainCanMove(job: Job, tree0: map<Pos, Node>, st: State)
    requires Inv(job, tree0, st, map[]) && !st.main.Waiting?
    ensures Enabled(job, st, MainThread)
  {
    RootInTree(job);
    match st.main {
      case FinalBalance(pos, _, _) => AncInTree(job.depth, job.Last(), pos.h);
      case FinalRight(pos, _) => AncInTree(job.depth, job.Last(), pos.h);
      case FinalRoot(pos, _) => AncInTree(job.depth, job.Last(), pos.h);
      case _ =>
    }
  }

  /** Launched goroutines have not counted anywhere yet. */
  lemma LaunchedLoose(job: Job, tree0: map<Pos, Node>, st: State)
    requires Inv(job, tree0, st, map[]) && st.main.Waiting?
    ensures Loose(job, tree0, st)
  {
    var runs := st.runs;
    forall j: nat | j < |runs| ensures LooseShape(job, j, runs[j]) && Level(runs[j]) == 0 {
      assert RunShape(job, |runs|, j, runs[j]);
      assert Level(runs[j]) > 0 ==> Took(map[], j, 0);
    }
    forall p | Used(job, p) && Two(job, p)
      ensures p in st.tree && p in tree0 && CountAt(runs, p, tree0[p].state, st.tree[p].state)
    {
      assert Arrived(runs, p) == {} && Waiters(runs, p) == {};
    }
    forall p | p in st.tree ensures LooseFlags(job, p, st.tree[p]) { assert FlagsAt(job, st.main, p, st.tree[p]); }
    assert Out(runs, Pos(Root(job), 0)) == {};
  }

  ghost predicate Quiet(st: State) {
    forall j: nat :: j < |st.runs| ==> !st.runs[j].Active()
  }

  /** The goroutines move until every one has returned. */
  lemma {:induction false} Settle(job: Job, tree0: map<Pos, Node>, first: State, schedule: seq<Choice>, st: State)
    returns (schedule': seq<Choice>, st': State)
    requires Executes(job, first, schedule, st) && Loose(job, tree0, st)
    ensures Executes(job, first, schedule', st') && Loose(job, tree0, st') && Quiet(st')
    decreases if |job.segs| >= 1 then RankSum(Root(job), st.runs) else 0
  {
    if Quiet(st) {
      return schedule, st;
    }
    var j: nat :| j < |st.runs| && st.runs[j].Active();
    LooseInTree(job, tree0, st, j);
    LooseRun(job, tree0, st, j);
    LooseStep(job, tree0, st, j);
    RankSumUpdate(Root(job), st.runs, j, RunStep(job, st, j).runs[j]);
    Then(job, first, schedule, st, Goroutine(j));
    schedule', st' := Settle(job, tree0, first, schedule + [Goroutine(j)], RunStep(job, st, j));
  }

  // ---------- counting when every goroutine has returned ----------

  lemma Disjoint(a: set<nat>, b: set<nat>)
    requires a !! b
    ensures |a + b| == |a| + |b|
  {
  }

  /** Whoever arrived at a node left it or waits there. */
  lemma QuietSplit(job: Job, tree0: map<Pos, Node>, st: State, p: Pos)
    requires Loose(job, tree0, st) && Quiet(st) && Used(job, p)
    ensures |Arrived(st.runs, p)| == |Out(st.runs, p)| + |Waiters(st.runs, p)|
    ensures !Two(job, p) ==> Waiters(st.runs, p) == {}
  {
    forall j: nat | j < |st.runs| ensures LooseShape(job, j, st.runs[j]) && !st.runs[j].Active() { }
    assert Arrived(st.runs, p) == Out(st.runs, p) + Waiters(st.runs, p);
    Disjoint(Out(st.runs, p), Waiters(st.runs, p));
  }

  /** Whoever left a child arrived at the node. */
  lemma QuietChild(job: Job, p: Pos, runs: seq<Run>, j: nat)
    requires |job.segs| >= 1 && Used(job, p) && j < |runs| == |job.segs|
    requires LooseShape(job, j, runs[j]) && !runs[j].Active()
    ensures j in Arrived(runs, p) <==> j in Out(runs, Left(p)) || j in Out(runs, Right(p))
    ensures j in Out(runs, Right(p)) ==> j !in Out(runs, Left(p)) && Two(job, p)
  {
    EdgeIn(job, j, p.h - 1);
    assert Edge(j, p.h) == p <==> Edge(j, p.h - 1) == Left(p) || Edge(j, p.h - 1) == Right(p);
  }

  lemma QuietChildren(job: Job, tree0: map<Pos, Node>, st: State, p: Pos)
    requires Loose(job, tree0, st) && Quiet(st) && Used(job, p)
    ensures |Arrived(st.runs, p)| == |Out(st.runs, Left(p))| + |Out(st.runs, Right(p))|
    ensures !Two(job, p) ==> Out(st.runs, Right(p)) == {}
  {
    var arrived, left, right := Arrived(st.runs, p), Out(st.runs, Left(p)), Out(st.runs, Right(p));
    forall j: nat
      ensures j in arrived <==> j in left || j in right
      ensures j in right ==> j !in left && Two(job, p)
    {
      if j < |st.runs| {
        assert LooseShape(job, j, st.runs[j]);
        QuietChild(job, p, st.runs, j);
      }
    }
    assert arrived == left + right;
    Disjoint(left, right);
  }

  /** Every segment leaves its data node once. */
  lemma QuietLeaf(job: Job, tree0: map<Pos, Node>, st: State, p: Pos)
    requires Loose(job, tree0, st) && Quiet(st) && p.h == 0 && In(job, p)
    ensures Out(st.runs, p) == {p.k}
  {
    assert LooseShape(job, p.k, st.runs[p.k]) && !st.runs[p.k].Active();
  }

  /** Every node is left at least once. */
  lemma {:induction false} QuietLeft(job: Job, tree0: map<Pos, Node>, st: State, p: Pos)
    requires Loose(job, tree0, st) && Quiet(st) && p.h <= Root(job) && In(job, p)
    ensures |Out(st.runs, p)| >= 1
    decreases p.h
  {
    if p.h == 0 {
      QuietLeaf(job, tree0, st, p);
    } else {
      assert Used(job, p);
      PathOrTwo(job, p);
      QuietSplit(job, tree0, st, p);
      QuietChildren(job, tree0, st, p);
      QuietLeft(job, tree0, st, Left(p));
      if Two(job, p) {
        QuietLeft(job, tree0, st, Right(p));
        WaitsHalf(tree0[p].state, |Arrived(st.runs, p)|);
      }
    }
  }

  ghost predicate EvenCounters(job: Job, tree: map<Pos, Node>)
    requires |job.segs| >= 1
  {
    forall p {:trigger Used(job, p)} :: Used(job, p) && Two(job, p) && p in tree ==> tree[p].state % 2 == 0
  }

  /** A node left once, with an even counter, saw two arrivals and a counter that was not negative. */
  lemma OnceBelow(job: Job, tree0: map<Pos, Node>, st: State, p: Pos)
    requires Loose(job, tree0, st) && Quiet(st) && Used(job, p) && |Out(st.runs, p)| == 1 && EvenCounters(job, st.tree)
    ensures In(job, Left(p)) && |Out(st.runs, Left(p))| == 1
    ensures Two(job, p) ==> |Out(st.runs, Right(p))| == 1 && p in tree0 && tree0[p].state >= 0
  {
    PathOrTwo(job, p);
    QuietSplit(job, tree0, st, p);
    QuietChildren(job, tree0, st, p);
    QuietLeft(job, tree0, st, Left(p));
    if Two(job, p) {
      QuietLeft(job, tree0, st, Right(p));
      AddNParity(tree0[p].state, |Arrived(st.runs, p)|);
      OnePass(tree0[p].state, |Arrived(st.runs, p)|);
    }
  }

  /** One result and even counters: every node was left once. */
  lemma {:induction false} OnceEverywhere(job: Job, tree0: map<Pos, Node>, st: State, p: Pos)
    requires Loose(job, tree0, st) && Quiet(st) && |st.results| == 1 && EvenCounters(job, st.tree)
    requires p.h <= Root(job) && In(job, p)
    ensures |Out(st.runs, p)| == 1
    decreases Root(job) - p.h
  {
    if p.h == Root(job) {
      RootInTree(job);
    } else {
      var q := Parent(p);
      assert In(job, q) && Used(job, q);
      OnceEverywhere(job, tree0, st, q);
      OnceBelow(job, tree0, st, q);
      assert p == Left(q) || (p == Right(q) && Two(job, q));
    }
  }

  /** One result and even counters are possible only without negative counters. */
  lemma OnceUnwrapped(job: Job, tree0: map<Pos, Node>, st: State)
    requires Loose(job, tree0, st) && Quiet(st) && |st.results| == 1 && EvenCounters(job, st.tree)
    ensures Unwrapped(job, tree0)
  {
    forall p | Used(job, p) && Two(job, p) && p in tree0 ensures tree0[p].state >= 0 {
      OnceEverywhere(job, tree0, st, p);
      OnceBelow(job, tree0, st, p);
    }
  }

  // ---------- the exact condition ----------

  ghost predicate SameCounters(tree: map<Pos, Node>, tree': map<Pos, Node>) {
    tree'.Keys == tree.Keys && forall p :: p in tree ==> tree'[p].state == tree[p].state
  }

  /** Once there is a result the main thread can release the tree, counters as they are. */
  lemma {:induction false} ReleaseAll(job: Job, first: State, schedule: seq<Choice>, st: State)
    returns (schedule': seq<Choice>, st': State)
    requires Executes(job, first, schedule, st) && job.Valid() && st.main.Releasing?
    requires forall p :: p in st.tree <==> InTree(job.depth, p)
    requires st.main.pos.h <= job.depth && st.main.pos == Edge(job.Last(), st.main.pos.h)
    ensures Executes(job, first, schedule', st') && st'.main.Released? && SameCounters(st.tree, st'.tree)
    decreases job.depth - st.main.pos.h
  {
    var pos := st.main.pos;
    AncInTree(job.depth, job.Last(), pos.h);
    Then(job, first, schedule, st, MainThread);
    schedule', st' := schedule + [MainThread], MainStep(job, st);
    if pos.h < job.depth {
      var mid := st';
      schedule', st' := ReleaseAll(job, first, schedule', st');
      assert SameCounters(mid.tree, st'.tree) && SameCounters(st.tree, mid.tree);
    }
  }

  ghost predicate AlwaysGood(job: Job, tree0: map<Pos, Node>)
    requires |job.segs| >= 1
  {
    forall schedule, last {:trigger Executes(job, Start(tree0), schedule, last)} ::
      Executes(job, Start(tree0), schedule, last) ==> Good(job, last)
  }

  /** All goroutines launched first, and then run to their end. */
  lemma LaunchedAndSettled(job: Job, tree0: map<Pos, Node>) returns (schedule: seq<Choice>, st: State)
    requires job.Valid() && Clean(job.depth, tree0)
    ensures Executes(job, Start(tree0), schedule, st) && Loose(job, tree0, st) && Quiet(st)
  {
    StartInv(job, tree0);
    schedule, st := LaunchAll(job, tree0, [], Start(tree0));
    LaunchedLoose(job, tree0, st);
    schedule, st := Settle(job, tree0, Start(tree0), schedule, st);
  }

  /** If no schedule goes wrong, no counter that the job toggles is negative. */
  lemma GoodUnwrapped(job: Job, tree0: map<Pos, Node>)
    requires job.Valid() && Clean(job.depth, tree0) && AlwaysGood(job, tree0)
    ensures Unwrapped(job, tree0)
  {
    var schedule, st := LaunchedAndSettled(job, tree0);
    RootInTree(job);
    QuietLeft(job, tree0, st, Pos(Root(job), 0));
    assert Good(job, st);
    Then(job, Start(tree0), schedule, st, MainThread);
    var _, st' := ReleaseAll(job, Start(tree0), schedule + [MainThread], MainStep(job, st));
    assert Good(job, st');
    OnceUnwrapped(job, tree0, st);
  }

  /** For every job and every clean tree: all schedules give at most one result,
      the right one, and a clean released tree, if and only if no counter that the
      job toggles is negative. */
  lemma HashIff(job: Job, tree0: map<Pos, Node>)
    requires job.Valid() && Clean(job.depth, tree0)
    ensures AlwaysGood(job, tree0) <==> Unwrapped(job, tree0)
  {
    if Unwrapped(job, tree0) {
      forall schedule, last | Executes(job, Start(tree0), schedule, last) ensures Good(job, last) {
        JobGood(job, tree0, schedule, last);
      }
    }
    if AlwaysGood(job, tree0) {
      GoodUnwrapped(job, tree0);
    }
  }

  /** With two segments a negative counter gives two results. */
  lemma WrappedCounter(job: Job, tree0: map<Pos, Node>) returns (schedule: seq<Choice>, last: State)
    requires job.Valid() && |job.segs| == 2 && Clean(job.depth, tree0)
    requires Pos(1, 0) in tree0 && tree0[Pos(1, 0)].state < 0
    ensures Executes(job, Start(tree0), schedule, last) && |last.results| == 2
  {
    var p, x := Pos(1, 0), tree0[Pos(1, 0)].state;
    schedule, last := LaunchedAndSettled(job, tree0);
    PairRoot(job);
    QuietSplit(job, tree0, last, p);
    QuietChildren(job, tree0, last, p);
    QuietLeaf(job, tree0, last, Left(p));
    QuietLeaf(job, tree0, last, Right(p));
    BothPass(x);
    assert CountAt(last.runs, p, x, last.tree[p].state);
  }

  lemma PairRoot(job: Job)
    requires |job.segs| == 2
    ensures var p := Pos(1, 0); Root(job) == 1 && Used(job, p) && Two(job, p) && In(job, Left(p)) && In(job, Right(p))
  {
    RootHeightIs(1, 1);
    RootHeightIs(1, 0);
  }

  lemma BothPass(x: int)
    requires Even32(x) && x < 0
    ensures WaitsN(x, 2) == 0
  {
    ToggleAlternates(x);
    AddNParity(x, 1);
    OddPasses(AddN(x, 1));
    assert WaitsN(x, 1) == 0;
  }
}
