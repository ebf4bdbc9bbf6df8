/** Every step of every thread keeps the hasher's invariant. */
module BmtSteps {
  import opened Prelude
  import opened BmtReference
  import opened BmtTree
  import opened BmtHasher
  import opened BmtInvariant

  // ---------- positions ----------

  lemma {:induction false} AncInTree(depth: nat, j: nat, h: nat)
    requires j < PowerOfTwo(depth) && h <= depth
    ensures InTree(depth, Edge(j, h))
  {
    if h > 0 {
      AncInTree(depth, j, h - 1);
      assert PowerOfTwo(depth - (h - 1)) == 2 * PowerOfTwo(depth - h);
    }
  }

  lemma RootInTree(job: Job)
    requires job.Valid()
    ensures Root(job) <= job.depth
    ensures Root(job) == 0 <==> job.Last() == 0
    ensures Anc(job.Last(), Root(job)) == 0
  {
    AncInTree(job.depth, job.Last(), job.depth);
    RootHeightIs(job.Last(), job.depth);
    RootHeightIs(job.Last(), Root(job));
  }

  /** Positions above data, at or below the chunk's root, are nodes of the tree. */
  lemma {:induction false} InIsInTree(job: Job, p: Pos)
    requires job.Valid() && In(job, p) && p.h <= Root(job)
    ensures InTree(job.depth, p)
  {
    RootInTree(job);
    AncInTree(job.depth, job.Last(), p.h);
  }

  lemma EdgeIn(job: Job, j: nat, h: nat)
    requires j < |job.segs|
    ensures In(job, Edge(j, h))
  {
    AncMonotone(j, job.Last(), h);
  }

  /** A used node lies on the last segment's path or has two sides. */
  lemma PathOrTwo(job: Job, p: Pos)
    requires |job.segs| >= 1 && p.h >= 1 && In(job, p)
    ensures In(job, Left(p))
    ensures p != Edge(job.Last(), p.h) ==> Two(job, p)
    ensures p == Edge(job.Last(), p.h) ==> (Two(job, p) <==> !FromLeft(job, p.h))
    ensures p == Edge(job.Last(), p.h) && Two(job, p) ==> Right(p) == Edge(job.Last(), p.h - 1)
    ensures p == Edge(job.Last(), p.h) && !Two(job, p) ==> Left(p) == Edge(job.Last(), p.h - 1)
  {
  }

  /** An edge into a node comes from its left or its right child. */
  lemma ChildEdge(job: Job, j: nat, h: nat)
    requires h >= 1 && j < |job.segs|
    ensures In(job, Edge(j, h)) && In(job, Edge(j, h - 1))
    ensures Anc(j, h - 1) % 2 == 0 ==> Edge(j, h - 1) == Left(Edge(j, h))
    ensures Anc(j, h - 1) % 2 == 1 ==> Edge(j, h - 1) == Right(Edge(j, h)) && Two(job, Edge(j, h))
  {
    EdgeIn(job, j, h);
    EdgeIn(job, j, h - 1);
  }

  // ---------- consequences of the invariant ----------

  lemma TookBelow(job: Job, runs: seq<Run>, who: Carriers, j: nat, h: nat)
    requires |job.segs| >= 1 && EdgesOk(job, runs, who) && j < |runs| && h < Level(runs[j])
    ensures Edge(j, h) in who && who[Edge(j, h)] == j
  {
    assert Took(who, j, h);
  }

  /** Two goroutines cannot both go on from the same node. */
  lemma OneWinner(job: Job, tree0: map<Pos, Node>, tree: map<Pos, Node>, runs: seq<Run>, who: Carriers, j1: nat,
                  j2: nat, h: nat)
    requires Core(job, tree0, tree, runs, who)
    requires j1 < |runs| <= |job.segs| && j2 < |runs| && 1 <= h <= Root(job)
    requires Edge(j1, h) == Edge(j2, h)
    requires Level(runs[j1]) >= h && Toggled(runs[j1], h) && !ParkedAt(runs[j1], h)
    requires Level(runs[j2]) >= h && Toggled(runs[j2], h) && !ParkedAt(runs[j2], h)
    ensures j1 == j2
  {
    if j1 != j2 {
      var p, e1, e2 := Edge(j1, h), Edge(j1, h - 1), Edge(j2, h - 1);
      ChildEdge(job, j1, h);
      ChildEdge(job, j2, h);
      TookBelow(job, runs, who, j1, h - 1);
      TookBelow(job, runs, who, j2, h - 1);
      assert Used(job, p);
      OneWinnerAt(job, runs, who, p, tree0[p].state, tree[p], e1, e2);
    }
  }

  lemma OneWinnerAt(job: Job, runs: seq<Run>, who: Carriers, p: Pos, x: int, n: Node, e1: Pos, e2: Pos)
    requires p.h >= 1 && In(job, p) && NodeOk(job, runs, who, p, x, n)
    requires In(job, e1) && In(job, e2) && e1 != e2
    requires e1 == Left(p) || e1 == Right(p)
    requires e2 == Left(p) || e2 == Right(p)
    requires HasToggled(runs, who, e1) && HasToggled(runs, who, e2)
    ensures HasParked(runs, who, e1) || HasParked(runs, who, e2)
  {
    assert Two(job, p);
  }

  /** Once the chunk's root has been left, every edge has been taken. */
  lemma {:induction false} AllTaken(job: Job, runs: seq<Run>, who: Carriers, e: Pos)
    requires |job.segs| >= 1 && Closed(job, runs, who) && Pos(Root(job), 0) in who
    requires e.h <= Root(job) && In(job, e)
    ensures e in who
    decreases Root(job) - e.h
  {
    if e.h < Root(job) {
      var p := Parent(e);
      assert In(job, p);
      AllTaken(job, runs, who, p);
      assert ClosedAt(job, runs, who, p);
      if e.k % 2 == 0 {
        assert e == Left(p);
      } else {
        assert e == Right(p);
      }
    } else {
      RootHeightIs(job.Last(), Root(job));
    }
  }

  /** A goroutine whose node has been left by another one has returned. */
  lemma Overtaken(job: Job, tree0: map<Pos, Node>, tree: map<Pos, Node>, runs: seq<Run>, who: Carriers, j: nat)
    requires Core(job, tree0, tree, runs, who)
    requires j < |runs| <= |job.segs|
    requires !runs[j].stage.Sent? && 1 <= runs[j].pos.h <= Root(job) && runs[j].pos == Edge(j, runs[j].pos.h)
    requires runs[j].pos in who
    ensures runs[j].stage.Parked?
  {
    var p := runs[j].pos;
    var j2 := who[p];
    assert EdgeOk(job, runs, who, p) && ClosedAt(job, runs, who, p);
    TookBelow(job, runs, who, j, p.h - 1);
    ChildEdge(job, j, p.h);
    if !runs[j].stage.Parked? {
      OneWinner(job, tree0, tree, runs, who, j, j2, p.h);
    }
  }

  /** After the result is sent no goroutine is at work. */
  lemma NoneActive(job: Job, tree0: map<Pos, Node>, st: State, who: Carriers, j: nat)
    requires Core(job, tree0, st.tree, st.runs, who) && Pos(Root(job), 0) in who && j < |st.runs| <= |job.segs|
    requires RunShape(job, |st.runs|, j, st.runs[j])
    ensures !st.runs[j].Active()
  {
    var p := st.runs[j].pos;
    EdgeIn(job, j, p.h);
    AllTaken(job, st.runs, who, p);
    assert EdgeOk(job, st.runs, who, p);
    if !st.runs[j].stage.Sent? {
      if p.h > 0 {
        Overtaken(job, tree0, st.tree, st.runs, who, j);
      }
    }
  }

  // ---------- steps that stay at a node ----------

  /** Goroutine `j` changes its stage and stays where it is. */
  ghost predicate Stays(runs: seq<Run>, runs': seq<Run>, j: nat) {
    && j < |runs| == |runs'|
    && var r, r' := runs[j], runs'[j];
       && runs' == runs[j := r']
       && r'.pos == r.pos && Level(r') == Level(r) == r.pos.h
       && (Stored(r, r.pos.h) ==> Stored(r', r.pos.h))
       && (Toggled(r, r.pos.h) ==> Toggled(r', r.pos.h))
       && r.pos == Edge(j, r.pos.h)
  }

  lemma StaysEdges(job: Job, runs: seq<Run>, runs': seq<Run>, who: Carriers, j: nat)
    requires |job.segs| >= 1 && Stays(runs, runs', j)
    requires EdgesOk(job, runs, who) && Closed(job, runs, who)
    ensures EdgesOk(job, runs', who) && Closed(job, runs', who)
  {
    forall e | e in who
      ensures EdgeOk(job, runs', who, e) && ClosedAt(job, runs', who, e)
    {
      assert EdgeOk(job, runs, who, e) && ClosedAt(job, runs, who, e);
    }
    forall i, h | 0 <= i < |runs'| && 0 <= h < Level(runs'[i])
      ensures Took(who, i, h)
    {
    }
  }

  lemma StaysOtherEdge(runs: seq<Run>, runs': seq<Run>, who: Carriers, j: nat, e: Pos)
    requires Stays(runs, runs', j)
    requires e in who ==> e == Edge(who[e], e.h)
    requires Parent(e) != runs[j].pos
    ensures HasStored(runs', who, e) <==> HasStored(runs, who, e)
    ensures HasToggled(runs', who, e) <==> HasToggled(runs, who, e)
    ensures HasParked(runs', who, e) <==> HasParked(runs, who, e)
  {
    if e in who && who[e] == j {
      assert Parent(e) == Edge(j, e.h + 1);
    }
  }

  /** An edge that some goroutine took is that goroutine's own. */
  lemma EdgeOwner(job: Job, runs: seq<Run>, who: Carriers, e: Pos)
    requires |job.segs| >= 1 && EdgesOk(job, runs, who) && e in who
    ensures e == Edge(who[e], e.h) && who[e] < |runs| && Level(runs[who[e]]) > e.h
  {
    assert EdgeOk(job, runs, who, e);
  }

  lemma StaysOtherNode(job: Job, runs: seq<Run>, runs': seq<Run>, who: Carriers, j: nat, p: Pos, x: int, n: Node)
    requires |job.segs| >= 1 && Stays(runs, runs', j) && EdgesOk(job, runs, who)
    requires p.h >= 1 && In(job, p) && p != runs[j].pos
    requires NodeOk(job, runs, who, p, x, n)
    ensures NodeOk(job, runs', who, p, x, n)
  {
    if Left(p) in who { EdgeOwner(job, runs, who, Left(p)); }
    if Right(p) in who { EdgeOwner(job, runs, who, Right(p)); }
    StaysOtherEdge(runs, runs', who, j, Left(p));
    StaysOtherEdge(runs, runs', who, j, Right(p));
  }

  lemma StaysNodes(job: Job, tree0: map<Pos, Node>, tree: map<Pos, Node>, n: Node, runs: seq<Run>, runs': seq<Run>,
                   who: Carriers, j: nat)
    requires |job.segs| >= 1 && Stays(runs, runs', j) && EdgesOk(job, runs, who) && NodesOk(job, tree0, tree, runs, who)
    requires runs[j].pos in tree
    requires Used(job, runs[j].pos) ==>
      runs[j].pos in tree0 && NodeOk(job, runs', who, runs[j].pos, tree0[runs[j].pos].state, n)
    requires !Used(job, runs[j].pos) ==> n.state == tree[runs[j].pos].state
    ensures NodesOk(job, tree0, tree[runs[j].pos := n], runs', who)
  {
    var tree' := tree[runs[j].pos := n];
    forall p | Used(job, p)
      ensures p in tree' && p in tree0 && NodeOk(job, runs', who, p, tree0[p].state, tree'[p])
    {
      if p != runs[j].pos {
        StaysOtherNode(job, runs, runs', who, j, p, tree0[p].state, tree[p]);
      }
    }
  }

  lemma StaysRuns(job: Job, tree: map<Pos, Node>, n: Node, runs: seq<Run>, runs': seq<Run>, j: nat)
    requires |job.segs| >= 1 && Stays(runs, runs', j) && RunsOk(job, tree, runs)
    requires runs[j].pos.h == 0 ==> j == job.Last()
    requires RunShape(job, |runs|, j, runs'[j])
    requires LeafStored(job, tree[runs[j].pos := n], j, runs'[j])
    ensures RunsOk(job, tree[runs[j].pos := n], runs')
  {
    var tree' := tree[runs[j].pos := n];
    forall i | 0 <= i < |runs'|
      ensures RunShape(job, |runs'|, i, runs'[i]) && LeafStored(job, tree', i, runs'[i])
    {
      if i != j {
        assert RunShape(job, |runs|, i, runs[i]) && LeafStored(job, tree, i, runs[i]);
        StaysLeaf(job, tree, n, runs, j, i);
      }
    }
  }

  lemma StaysLeaf(job: Job, tree: map<Pos, Node>, n: Node, runs: seq<Run>, j: nat, i: nat)
    requires j < |runs| <= |job.segs| && i < |runs| && i != j
    requires runs[j].pos.h == 0 ==> j == job.Last()
    requires RunShape(job, |runs|, i, runs[i]) && LeafStored(job, tree, i, runs[i])
    ensures LeafStored(job, tree[runs[j].pos := n], i, runs[i])
  {
  }

  lemma StaysFlags(job: Job, tree: map<Pos, Node>, m: Main, p: Pos, n: Node)
    requires |job.segs| >= 1 && FlagsOk(job, tree, m) && p in tree
    requires n.unbalanced == tree[p].unbalanced && n.root == tree[p].root
    requires n.right == tree[p].right || !OnPath(job, p) || !FromLeft(job, p.h)
    ensures FlagsOk(job, tree[p := n], m)
  {
    var tree' := tree[p := n];
    forall q | q in tree'
      ensures FlagsAt(job, m, q, tree'[q])
    {
      assert FlagsAt(job, m, q, tree[q]);
    }
  }

  // ---------- the node a goroutine is at ----------

  /** While a goroutine is at work after the last launch, Sum is waiting. */
  lemma AtWorkWaiting(job: Job, tree0: map<Pos, Node>, st: State, who: Carriers, j: nat)
    requires Inv(job, tree0, st, who) && j < |st.runs| == |job.segs| && st.runs[j].Active()
    ensures st.main.Waiting?
  {
    if Pos(Root(job), 0) in who {
      assert RunShape(job, |st.runs|, j, st.runs[j]);
      NoneActive(job, tree0, st, who, j);
    }
  }

  /** Only the last segment's path has nodes with one side. */
  lemma OneSidedPath(job: Job, runs: seq<Run>, who: Carriers, j: nat)
    requires |job.segs| >= 1 && EdgesOk(job, runs, who) && j < |runs| <= |job.segs|
    requires runs[j].pos == Edge(j, runs[j].pos.h) && (runs[j].pos.h == 0 ==> j == job.Last())
    ensures In(job, runs[j].pos)
    ensures !Two(job, runs[j].pos) ==> |runs| == |job.segs| && OnPath(job, runs[j].pos) && FromLeft(job, runs[j].pos.h)
    ensures Two(job, runs[j].pos) && OnPath(job, runs[j].pos) ==> !FromLeft(job, runs[j].pos.h)
  {
    var p := runs[j].pos;
    EdgeIn(job, j, p.h);
    if p.h >= 1 {
      PathOrTwo(job, p);
      TookBelow(job, runs, who, j, p.h - 1);
      ChildEdge(job, j, p.h);
      assert EdgeOk(job, runs, who, Edge(j, p.h - 1));
    }
  }

  /** The flag of a node that an active goroutine has reached. */
  lemma FlagAtWork(job: Job, tree0: map<Pos, Node>, st: State, who: Carriers, j: nat)
    requires Inv(job, tree0, st, who) && j < |st.runs| && st.runs[j].Active() && st.runs[j].pos in st.tree
    requires RunShape(job, |st.runs|, j, st.runs[j]) && Entry(job) <= st.runs[j].pos.h
    requires st.runs[j].pos.h == 0 ==> j == job.Last()
    ensures var p := st.runs[j].pos;
            && st.tree[p].unbalanced == !Two(job, p)
            && (!Two(job, p) ==> |st.runs| == |job.segs| && OnPath(job, p) && st.tree[p].right == [])
  {
    var p := st.runs[j].pos;
    OneSidedPath(job, st.runs, who, j);
    assert FlagsAt(job, st.main, p, st.tree[p]);
    if !Two(job, p) {
      AtWorkWaiting(job, tree0, st, who, j);
    }
  }

  /** The side of its node that goroutine `j` came by. */
  function Own(j: nat, p: Pos): Pos
    requires p.h >= 1
  {
    Edge(j, p.h - 1)
  }

  function Other(j: nat, p: Pos): Pos
    requires p.h >= 1
  {
    if Own(j, p) == Left(p) then Right(p) else Left(p)
  }

  lemma OwnSide(job: Job, runs: seq<Run>, who: Carriers, j: nat)
    requires |job.segs| >= 1 && EdgesOk(job, runs, who) && j < |runs| <= |job.segs|
    requires runs[j].pos.h >= 1 && runs[j].pos == Edge(j, runs[j].pos.h)
    ensures var p := runs[j].pos;
            && In(job, p) && In(job, Left(p)) && In(job, Own(j, p))
            && Own(j, p) in who && who[Own(j, p)] == j && (Other(j, p) in who ==> who[Other(j, p)] != j)
            && (Own(j, p) == Left(p) <==> Anc(j, p.h - 1) % 2 == 0)
            && (Own(j, p) == Left(p) || (Own(j, p) == Right(p) && Two(job, p)))
  {
    var p := runs[j].pos;
    TookBelow(job, runs, who, j, p.h - 1);
    ChildEdge(job, j, p.h);
    PathOrTwo(job, p);
    if Other(j, p) in who { EdgeOwner(job, runs, who, Other(j, p)); }
  }

  /** The node part of the invariant at the goroutine's own node. */
  lemma OwnNode(job: Job, tree0: map<Pos, Node>, st: State, who: Carriers, j: nat)
    requires Inv(job, tree0, st, who) && j < |st.runs| && st.runs[j].pos.h >= 1
    ensures RunShape(job, |st.runs|, j, st.runs[j])
    ensures Used(job, st.runs[j].pos)
    ensures st.runs[j].pos in tree0 && st.runs[j].pos in st.tree
    ensures NodeOk(job, st.runs, who, st.runs[j].pos, tree0[st.runs[j].pos].state, st.tree[st.runs[j].pos])
    ensures tree0[st.runs[j].pos].state % 2 == 0 && tree0[st.runs[j].pos].state <= MAX_INT32
  {
    assert RunShape(job, |st.runs|, j, st.runs[j]);
    EdgeIn(job, j, st.runs[j].pos.h);
    assert Used(job, st.runs[j].pos);
  }

  /** What the two sides of a node know of a goroutine that stays there. */
  lemma SidesAfter(runs: seq<Run>, runs': seq<Run>, who: Carriers, j: nat, p: Pos)
    requires Stays(runs, runs', j) && p == runs[j].pos && p.h >= 1
    requires Own(j, p) in who && who[Own(j, p)] == j && (Other(j, p) in who ==> who[Other(j, p)] != j)
    ensures HasStored(runs', who, Other(j, p)) <==> HasStored(runs, who, Other(j, p))
    ensures HasToggled(runs', who, Other(j, p)) <==> HasToggled(runs, who, Other(j, p))
    ensures HasParked(runs', who, Other(j, p)) <==> HasParked(runs, who, Other(j, p))
    ensures HasStored(runs', who, Own(j, p)) <==> Stored(runs'[j], p.h)
    ensures HasToggled(runs', who, Own(j, p)) <==> Toggled(runs'[j], p.h)
    ensures HasParked(runs', who, Own(j, p)) <==> ParkedAt(runs'[j], p.h)
    ensures HasStored(runs, who, Own(j, p)) <==> Stored(runs[j], p.h)
    ensures HasToggled(runs, who, Own(j, p)) <==> Toggled(runs[j], p.h)
    ensures HasParked(runs, who, Own(j, p)) <==> ParkedAt(runs[j], p.h)
  {
  }

  // ---------- the stages ----------

  /** Storing writes the value that belongs to the goroutine's side. */
  lemma StoreNode(job: Job, runs: seq<Run>, runs': seq<Run>, who: Carriers, j: nat, p: Pos, x: int, n: Node)
    requires j < |job.segs| && Stays(runs, runs', j) && p == runs[j].pos && p.h >= 1 && In(job, p)
    requires runs[j].stage.Store? && runs'[j].stage.Check? && Carrying(job, j, p.h, runs[j].isLeft, runs[j].s)
    requires Own(j, p) in who && who[Own(j, p)] == j && (Other(j, p) in who ==> who[Other(j, p)] != j)
    requires Own(j, p) == Left(p) <==> Anc(j, p.h - 1) % 2 == 0
    requires Own(j, p) == Left(p) || (Own(j, p) == Right(p) && Two(job, p))
    requires NodeOk(job, runs, who, p, x, n)
    ensures NodeOk(job, runs', who, p, x, if runs[j].isLeft then n.(left := runs[j].s) else n.(right := runs[j].s))
  {
    SidesAfter(runs, runs', who, j, p);
  }

  lemma StoreKeeps(job: Job, tree0: map<Pos, Node>, st: State, who: Carriers, j: nat)
    requires Inv(job, tree0, st, who) && Enabled(job, st, Goroutine(j)) && st.runs[j].stage.Store?
    ensures Inv(job, tree0, RunStep(job, st, j), who)
  {
    var st' := RunStep(job, st, j);
    var p := st.runs[j].pos;
    var n := st'.tree[p];
    assert RunShape(job, |st.runs|, j, st.runs[j]);
    assert Stays(st.runs, st'.runs, j);
    StaysEdges(job, st.runs, st'.runs, who, j);
    NextShape(job, |st.runs|, j, st.runs[j], Check);
    StaysRuns(job, st.tree, n, st.runs, st'.runs, j);
    if p.h >= 1 {
      OwnNode(job, tree0, st, who, j);
      OwnSide(job, st.runs, who, j);
      StoreNode(job, st.runs, st'.runs, who, j, p, tree0[p].state, st.tree[p]);
      PathOrTwo(job, p);
    }
    StaysNodes(job, tree0, st.tree, n, st.runs, st'.runs, who, j);
    StaysFlags(job, st.tree, st.main, p, n);
  }

  /** Which stage may follow which, as far as the goroutine itself is concerned. */
  lemma NextShape(job: Job, n: nat, j: nat, r: Run, stage: Stage)
    requires j < n <= |job.segs| && RunShape(job, n, j, r)
    requires || (r.stage.Store? && stage.Check?)
             || (r.stage.Check? && stage.Toggle? && Two(job, r.pos))
             || (r.stage.Check? && stage.Combine? && n == |job.segs| && r.isLeft)
    ensures RunShape(job, n, j, r.(stage := stage))
  {
  }

  lemma CheckRun(job: Job, tree0: map<Pos, Node>, st: State, who: Carriers, j: nat)
    requires Inv(job, tree0, st, who) && Enabled(job, st, Goroutine(j)) && st.runs[j].stage.Check?
    ensures RunShape(job, |st.runs|, j, RunStep(job, st, j).runs[j])
    ensures RunStep(job, st, j).runs[j].stage == if Two(job, st.runs[j].pos) then Toggle else Combine
  {
    assert RunShape(job, |st.runs|, j, st.runs[j]);
    FlagAtWork(job, tree0, st, who, j);
    if st.runs[j].pos.h >= 1 {
      OwnSide(job, st.runs, who, j);
    }
    NextShape(job, |st.runs|, j, st.runs[j], if Two(job, st.runs[j].pos) then Toggle else Combine);
  }

  /** A step that changes nothing but the goroutine's stage. */
  lemma StageKeeps(job: Job, tree0: map<Pos, Node>, st: State, who: Carriers, j: nat)
    requires Inv(job, tree0, st, who) && Enabled(job, st, Goroutine(j))
    requires st.runs[j].stage.Check? || st.runs[j].stage.Combine?
    requires RunShape(job, |st.runs|, j, RunStep(job, st, j).runs[j])
    requires st.runs[j].stage.Check? ==>
      RunStep(job, st, j).runs[j].stage == if Two(job, st.runs[j].pos) then Toggle else Combine
    ensures Inv(job, tree0, RunStep(job, st, j), who)
  {
    var st' := RunStep(job, st, j);
    var p := st.runs[j].pos;
    assert RunShape(job, |st.runs|, j, st.runs[j]);
    assert LeafStored(job, st.tree, j, st.runs[j]);
    assert Stays(st.runs, st'.runs, j);
    assert st.tree == st.tree[p := st.tree[p]];
    StaysEdges(job, st.runs, st'.runs, who, j);
    StaysRuns(job, st.tree, st.tree[p], st.runs, st'.runs, j);
    if p.h >= 1 {
      OwnNode(job, tree0, st, who, j);
      OwnSide(job, st.runs, who, j);
      StageNode(job, st.runs, st'.runs, who, j, p, tree0[p].state, st.tree[p]);
    }
    StaysNodes(job, tree0, st.tree, st.tree[p], st.runs, st'.runs, who, j);
  }

  lemma StageNode(job: Job, runs: seq<Run>, runs': seq<Run>, who: Carriers, j: nat, p: Pos, x: int, n: Node)
    requires j < |job.segs| && Stays(runs, runs', j) && p == runs[j].pos && p.h >= 1 && In(job, p)
    requires Own(j, p) in who && who[Own(j, p)] == j && (Other(j, p) in who ==> who[Other(j, p)] != j)
    requires Own(j, p) == Left(p) || (Own(j, p) == Right(p) && Two(job, p))
    requires (runs[j].stage.Check? && runs'[j].stage == if Two(job, p) then Toggle else Combine)
          || (runs[j].stage.Combine? && runs'[j].stage.Deliver?)
    requires NodeOk(job, runs, who, p, x, n)
    ensures NodeOk(job, runs', who, p, x, n)
  {
    SidesAfter(runs, runs', who, j, p);
  }

  lemma CheckKeeps(job: Job, tree0: map<Pos, Node>, st: State, who: Carriers, j: nat)
    requires Inv(job, tree0, st, who) && Enabled(job, st, Goroutine(j)) && st.runs[j].stage.Check?
    ensures Inv(job, tree0, RunStep(job, st, j), who)
  {
    CheckRun(job, tree0, st, who, j);
    StageKeeps(job, tree0, st, who, j);
  }

  /** The second arrival, and only the second, goes on. */
  lemma ToggleNode(job: Job, runs: seq<Run>, runs': seq<Run>, who: Carriers, j: nat, p: Pos, x: int, n: Node)
    requires j < |job.segs| && Stays(runs, runs', j) && p == runs[j].pos && p.h >= 1 && In(job, p) && Two(job, p)
    requires runs[j].stage.Toggle? && runs'[j].stage == if Waits(n.state) then Parked else Combine
    requires Own(j, p) in who && who[Own(j, p)] == j && (Other(j, p) in who ==> who[Other(j, p)] != j)
    requires Own(j, p) == Left(p) || Own(j, p) == Right(p)
    requires NodeOk(job, runs, who, p, x, n)
    requires x % 2 == 0 && 0 <= x <= MAX_INT32
    ensures NodeOk(job, runs', who, p, x, n.(state := AddInt32(n.state)))
    ensures runs'[j].stage.Combine? ==> Other(j, p) in who
  {
    SidesAfter(runs, runs', who, j, p);
    assert !HasToggled(runs, who, Own(j, p));
    assert n.state == if HasToggled(runs, who, Other(j, p)) then AddInt32(x) else x;
  }

  lemma ToggleRun(job: Job, st: State, who: Carriers, j: nat)
    requires |job.segs| >= 1 && EdgesOk(job, st.runs, who) && Enabled(job, st, Goroutine(j)) && |st.runs| <= |job.segs|
    requires RunShape(job, |st.runs|, j, st.runs[j]) && st.runs[j].stage.Toggle? && st.runs[j].pos.h >= 1
    requires RunStep(job, st, j).runs[j].stage.Combine? ==> Right(st.runs[j].pos) in who
    ensures RunShape(job, |st.runs|, j, RunStep(job, st, j).runs[j])
  {
    var p := st.runs[j].pos;
    EdgeIn(job, j, p.h);
    PathOrTwo(job, p);
    if Right(p) in who { assert EdgeOk(job, st.runs, who, Right(p)); }
  }

  lemma ToggleKeeps(job: Job, tree0: map<Pos, Node>, st: State, who: Carriers, j: nat)
    requires Inv(job, tree0, st, who) && Unwrapped(job, tree0)
    requires Enabled(job, st, Goroutine(j)) && st.runs[j].stage.Toggle?
    ensures Inv(job, tree0, RunStep(job, st, j), who)
  {
    var st' := RunStep(job, st, j);
    var p := st.runs[j].pos;
    var n := st'.tree[p];
    assert RunShape(job, |st.runs|, j, st.runs[j]);
    assert Stays(st.runs, st'.runs, j);
    StaysEdges(job, st.runs, st'.runs, who, j);
    OwnNode(job, tree0, st, who, j);
    OwnSide(job, st.runs, who, j);
    ToggleNode(job, st.runs, st'.runs, who, j, p, tree0[p].state, st.tree[p]);
    ToggleRun(job, st, who, j);
    StaysRuns(job, st.tree, n, st.runs, st'.runs, j);
    StaysNodes(job, tree0, st.tree, n, st.runs, st'.runs, who, j);
    StaysFlags(job, st.tree, st.main, p, n);
  }

  /** Both sides are in place when a goroutine goes on from a node. */
  lemma SidesReady(job: Job, runs: seq<Run>, who: Carriers, j: nat, p: Pos, x: int, n: Node)
    requires j < |runs| && p == runs[j].pos && p.h >= 1 && In(job, p)
    requires runs[j].stage.Combine? || runs[j].stage.Deliver?
    requires Own(j, p) in who && who[Own(j, p)] == j
    requires Own(j, p) == Left(p) || (Own(j, p) == Right(p) && Two(job, p))
    requires NodeOk(job, runs, who, p, x, n)
    ensures HasToggled(runs, who, Left(p)) && In(job, Left(p)) && n.left == Value(job, Left(p))
    ensures Two(job, p) ==> HasToggled(runs, who, Right(p)) && n.right == Value(job, Right(p))
  {
  }

  /** Combining gives the bytes that belong to the node. */
  lemma CombineOutput(job: Job, tree0: map<Pos, Node>, st: State, who: Carriers, j: nat)
    requires Inv(job, tree0, st, who) && Enabled(job, st, Goroutine(j)) && st.runs[j].stage.Combine?
    ensures RunStep(job, st, j).runs[j].s == Output(job, st.runs[j].pos)
  {
    var r := st.runs[j];
    var n := st.tree[r.pos];
    assert RunShape(job, |st.runs|, j, r);
    FlagAtWork(job, tree0, st, who, j);
    RootInTree(job);
    if r.pos.h >= 1 {
      OwnNode(job, tree0, st, who, j);
      OwnSide(job, st.runs, who, j);
      SidesReady(job, st.runs, who, j, r.pos, tree0[r.pos].state, n);
      InnerOutput(job, r, n);
    } else {
      assert LeafStored(job, st.tree, j, r);
      LeafOutput(job, j, r, n);
    }
  }

  function Combined(job: Job, r: Run, n: Node): Bytes {
    if !n.unbalanced || !r.isLeft || (r.i == 0 && r.d == 0) then job.cfg.hash(n.left + n.right) else n.left + n.right
  }

  lemma InnerOutput(job: Job, r: Run, n: Node)
    requires job.Valid() && r.pos.h >= 1 && In(job, r.pos) && In(job, Left(r.pos)) && job.Last() > 0
    requires n.unbalanced == !Two(job, r.pos) && n.left == Value(job, Left(r.pos))
    requires Two(job, r.pos) ==> n.right == Value(job, Right(r.pos))
    requires !Two(job, r.pos) ==> n.right == [] && r.isLeft
    requires r.i > 0 || r.d > 0
    ensures Combined(job, r, n) == Output(job, r.pos)
  {
    assert n.right == [] ==> n.left + n.right == n.left;
  }

  lemma LeafOutput(job: Job, j: nat, r: Run, n: Node)
    requires job.Valid() && j == job.Last() && r.pos == Pos(0, j) && Entry(job) == 0
    requires n.unbalanced && n.left == job.segs[j] && n.right == [] && r.isLeft
    requires if job.Last() == 0 then r.i == 0 && r.d == 0 else r.i > 0 || r.d > 0
    ensures Combined(job, r, n) == Output(job, r.pos)
  {
    assert n.left + n.right == n.left;
    if job.Last() > 0 { DepthPositive(job); }
  }

  lemma DepthPositive(job: Job)
    requires job.Valid() && |job.segs| >= 2
    ensures job.depth > 0
  {
  }

  lemma CombineKeeps(job: Job, tree0: map<Pos, Node>, st: State, who: Carriers, j: nat)
    requires Inv(job, tree0, st, who) && Enabled(job, st, Goroutine(j)) && st.runs[j].stage.Combine?
    ensures Inv(job, tree0, RunStep(job, st, j), who)
  {
    assert RunShape(job, |st.runs|, j, st.runs[j]);
    CombineOutput(job, tree0, st, who, j);
    StageKeeps(job, tree0, st, who, j);
  }
}
