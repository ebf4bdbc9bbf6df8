/** The steps by which a goroutine leaves a node, and the main thread's steps, keep the invariant. */
module BmtMoves {
  import opened BmtReference
  import opened BmtTree
  import opened BmtHasher
  import opened BmtInvariant
  import opened BmtSteps

  /** Goroutine `j` takes the edge out of its node. */
  ghost predicate Leaves(runs: seq<Run>, runs': seq<Run>, j: nat) {
    && j < |runs| == |runs'|
    && var r, r' := runs[j], runs'[j];
       && runs' == runs[j := r']
       && (r.stage.HashLeaf? || r.stage.Deliver?) && (r.stage.HashLeaf? ==> r.pos.h == 0)
       && (r'.stage.Sent? || r'.stage.Store?)
       && Level(r') == r.pos.h + 1
       && r.pos == Edge(j, r.pos.h)
  }

  lemma NotYetTaken(job: Job, tree0: map<Pos, Node>, tree: map<Pos, Node>, runs: seq<Run>, who: Carriers, j: nat)
    requires Core(job, tree0, tree, runs, who)
    requires j < |runs| <= |job.segs| && runs[j].Active()
    requires runs[j].pos.h <= Root(job) && runs[j].pos == Edge(j, runs[j].pos.h)
    ensures runs[j].pos !in who
  {
    var p := runs[j].pos;
    if p in who {
      EdgeOwner(job, runs, who, p);
      if p.h >= 1 {
        Overtaken(job, tree0, tree, runs, who, j);
      }
    }
  }

  lemma LeavesSame(runs: seq<Run>, runs': seq<Run>, who: Carriers, j: nat, e: Pos)
    requires Leaves(runs, runs', j) && runs[j].pos !in who
    requires e in who ==> e == Edge(who[e], e.h) && who[e] < |runs| && Level(runs[who[e]]) > e.h
    ensures var who' := who[runs[j].pos := j];
            && (HasStored(runs', who', e) <==> HasStored(runs, who, e))
            && (HasToggled(runs', who', e) <==> HasToggled(runs, who, e))
            && (HasParked(runs', who', e) <==> HasParked(runs, who, e))
  {
  }

  lemma LeavesEdges(job: Job, runs: seq<Run>, runs': seq<Run>, who: Carriers, j: nat)
    requires |job.segs| >= 1 && Leaves(runs, runs', j) && EdgesOk(job, runs, who) && |runs| <= |job.segs|
    requires runs[j].pos !in who && runs[j].pos.h <= Root(job)
    requires OnPath(job, runs[j].pos) ==> |runs| == |job.segs|
    ensures EdgesOk(job, runs', who[runs[j].pos := j])
  {
    var p := runs[j].pos;
    var who' := who[p := j];
    EdgeIn(job, j, p.h);
    forall e | e in who'
      ensures EdgeOk(job, runs', who', e)
    {
      if e != p { assert EdgeOk(job, runs, who, e); }
    }
    forall i, h | 0 <= i < |runs'| && 0 <= h < Level(runs'[i])
      ensures Took(who', i, h)
    {
      if i != j || h < p.h {
        assert Took(who, i, h);
      }
    }
  }

  lemma LeavesClosed(job: Job, runs: seq<Run>, runs': seq<Run>, who: Carriers, j: nat, x: int, n: Node)
    requires |job.segs| >= 1 && Leaves(runs, runs', j) && EdgesOk(job, runs, who) && Closed(job, runs, who)
    requires |runs| <= |job.segs|
    requires runs[j].pos !in who
    requires runs[j].pos.h >= 1 ==> In(job, runs[j].pos) && NodeOk(job, runs, who, runs[j].pos, x, n)
    ensures Closed(job, runs', who[runs[j].pos := j])
  {
    var p := runs[j].pos;
    var who' := who[p := j];
    forall e | e in who'
      ensures ClosedAt(job, runs', who', e)
    {
      if e.h >= 1 {
        if e == p {
          OwnSide(job, runs, who, j);
          SidesReady(job, runs, who, j, p, x, n);
        } else {
          assert ClosedAt(job, runs, who, e);
        }
        LeavesSides(job, runs, runs', who, j, e);
      }
    }
  }

  lemma LeavesSides(job: Job, runs: seq<Run>, runs': seq<Run>, who: Carriers, j: nat, p: Pos)
    requires |job.segs| >= 1 && Leaves(runs, runs', j) && EdgesOk(job, runs, who) && runs[j].pos !in who && p.h >= 1
    ensures var who' := who[runs[j].pos := j];
            && (HasStored(runs', who', Left(p)) <==> HasStored(runs, who, Left(p)))
            && (HasToggled(runs', who', Left(p)) <==> HasToggled(runs, who, Left(p)))
            && (HasParked(runs', who', Left(p)) <==> HasParked(runs, who, Left(p)))
            && (HasStored(runs', who', Right(p)) <==> HasStored(runs, who, Right(p)))
            && (HasToggled(runs', who', Right(p)) <==> HasToggled(runs, who, Right(p)))
            && (HasParked(runs', who', Right(p)) <==> HasParked(runs, who, Right(p)))
  {
    if Left(p) in who { EdgeOwner(job, runs, who, Left(p)); }
    if Right(p) in who { EdgeOwner(job, runs, who, Right(p)); }
    LeavesSame(runs, runs', who, j, Left(p));
    LeavesSame(runs, runs', who, j, Right(p));
  }

  lemma LeavesNodes(job: Job, tree0: map<Pos, Node>, tree: map<Pos, Node>, runs: seq<Run>, runs': seq<Run>,
                    who: Carriers, j: nat)
    requires |job.segs| >= 1 && Leaves(runs, runs', j) && EdgesOk(job, runs, who)
    requires NodesOk(job, tree0, tree, runs, who)
    requires runs[j].pos !in who
    ensures NodesOk(job, tree0, tree, runs', who[runs[j].pos := j])
  {
    var who' := who[runs[j].pos := j];
    forall p | Used(job, p)
      ensures p in tree && p in tree0 && NodeOk(job, runs', who', p, tree0[p].state, tree[p])
    {
      LeavesSides(job, runs, runs', who, j, p);
    }
  }

  lemma LeavesRuns(job: Job, tree: map<Pos, Node>, runs: seq<Run>, runs': seq<Run>, j: nat)
    requires |job.segs| >= 1 && Leaves(runs, runs', j) && RunsOk(job, tree, runs)
    requires RunShape(job, |runs|, j, runs'[j])
    ensures RunsOk(job, tree, runs')
  {
    forall i | 0 <= i < |runs'|
      ensures RunShape(job, |runs'|, i, runs'[i]) && LeafStored(job, tree, i, runs'[i])
    {
      if i != j {
        assert RunShape(job, |runs|, i, runs[i]) && LeafStored(job, tree, i, runs[i]);
      }
    }
  }

  /** A goroutine that is ready to leave a node finds the root flag set
      exactly at the chunk's root. */
  lemma RootFlag(job: Job, tree0: map<Pos, Node>, st: State, who: Carriers, j: nat)
    requires Inv(job, tree0, st, who) && Enabled(job, st, Goroutine(j))
    requires st.runs[j].stage.HashLeaf? || st.runs[j].stage.Deliver?
    ensures RunShape(job, |st.runs|, j, st.runs[j])
    ensures OnPath(job, st.runs[j].pos) ==> |st.runs| == |job.segs|
    ensures st.tree[st.runs[j].pos].root <==> st.runs[j].pos.h == Root(job)
    ensures st.runs[j].pos.h == Root(job) ==> st.runs[j].pos == Pos(Root(job), 0)
  {
    var p := st.runs[j].pos;
    assert RunShape(job, |st.runs|, j, st.runs[j]);
    RootInTree(job);
    EdgeIn(job, j, p.h);
    assert FlagsAt(job, st.main, p, st.tree[p]);
    if p.h == Root(job) {
      AtWorkWaiting(job, tree0, st, who, j);
    }
  }

  /** What a goroutine holds after it has taken an edge below the root. */
  lemma MovedShape(job: Job, n: nat, j: nat, r: Run)
    requires j < n <= |job.segs| && job.Last() > 0 && RunShape(job, n, j, r) && r.pos.h < Root(job)
    requires r.stage.HashLeaf? || r.stage.Deliver?
    ensures r.stage.HashLeaf? ==> RunShape(job, n, j, r.(pos := Parent(r.pos), s := job.cfg.hash(r.s), stage := Store))
    ensures r.stage.Deliver? ==>
              RunShape(job, n, j, r.(pos := Parent(r.pos), isLeft := r.pos.k % 2 == 0, i := r.i + 1, stage := Store))
  {
    EdgeIn(job, j, r.pos.h);
    assert Parent(r.pos) == Edge(j, r.pos.h + 1);
  }

  lemma LeaveRun(job: Job, tree0: map<Pos, Node>, st: State, who: Carriers, j: nat)
    requires Inv(job, tree0, st, who) && Enabled(job, st, Goroutine(j))
    requires st.runs[j].stage.HashLeaf? || st.runs[j].stage.Deliver?
    ensures RunShape(job, |st.runs|, j, RunStep(job, st, j).runs[j])
    ensures Leaves(st.runs, RunStep(job, st, j).runs, j)
    ensures RunStep(job, st, j).results ==
            if st.runs[j].pos.h == Root(job) then st.results + [ChunkRoot(job.cfg, job.segs)] else st.results
  {
    RootFlag(job, tree0, st, who, j);
    RootInTree(job);
    if st.runs[j].pos.h < Root(job) {
      MovedShape(job, |st.runs|, j, st.runs[j]);
    }
  }

  lemma LeaveKeeps(job: Job, tree0: map<Pos, Node>, st: State, who: Carriers, j: nat)
    requires Inv(job, tree0, st, who) && Enabled(job, st, Goroutine(j))
    requires st.runs[j].stage.HashLeaf? || st.runs[j].stage.Deliver?
    ensures Inv(job, tree0, RunStep(job, st, j), who[st.runs[j].pos := j])
  {
    var st' := RunStep(job, st, j);
    var p := st.runs[j].pos;
    RootFlag(job, tree0, st, who, j);
    NotYetTaken(job, tree0, st.tree, st.runs, who, j);
    LeaveRun(job, tree0, st, who, j);
    LeavesRuns(job, st.tree, st.runs, st'.runs, j);
    LeavesEdges(job, st.runs, st'.runs, who, j);
    if p.h >= 1 { OwnNode(job, tree0, st, who, j); }
    LeavesClosed(job, st.runs, st'.runs, who, j, if p in tree0 then tree0[p].state else 0, st.tree[p]);
    LeavesNodes(job, tree0, st.tree, st.runs, st'.runs, who, j);
    if |st.runs| == |job.segs| { AtWorkWaiting(job, tree0, st, who, j); }
  }

  /** Every goroutine step keeps the invariant. */
  lemma RunStepKeeps(job: Job, tree0: map<Pos, Node>, st: State, who: Carriers, j: nat) returns (who': Carriers)
    requires Inv(job, tree0, st, who) && Unwrapped(job, tree0) && Enabled(job, st, Goroutine(j))
    ensures Inv(job, tree0, RunStep(job, st, j), who')
  {
    who' := who;
    if st.runs[j].stage.Store? {
      StoreKeeps(job, tree0, st, who, j);
    } else if st.runs[j].stage.Check? {
      CheckKeeps(job, tree0, st, who, j);
    } else if st.runs[j].stage.Toggle? {
      ToggleKeeps(job, tree0, st, who, j);
    } else if st.runs[j].stage.Combine? {
      CombineKeeps(job, tree0, st, who, j);
    } else {
      who' := who[st.runs[j].pos := j];
      LeaveKeeps(job, tree0, st, who, j);
    }
  }

  // ---------- the main thread ----------

  lemma LaunchesSame(runs: seq<Run>, who: Carriers, r: Run, e: Pos)
    requires e in who ==> who[e] < |runs|
    ensures HasStored(runs + [r], who, e) <==> HasStored(runs, who, e)
    ensures HasToggled(runs + [r], who, e) <==> HasToggled(runs, who, e)
    ensures HasParked(runs + [r], who, e) <==> HasParked(runs, who, e)
  {
  }

  lemma LaunchesSides(job: Job, runs: seq<Run>, who: Carriers, r: Run, p: Pos)
    requires |job.segs| >= 1 && EdgesOk(job, runs, who) && p.h >= 1
    ensures HasStored(runs + [r], who, Left(p)) <==> HasStored(runs, who, Left(p))
    ensures HasToggled(runs + [r], who, Left(p)) <==> HasToggled(runs, who, Left(p))
    ensures HasParked(runs + [r], who, Left(p)) <==> HasParked(runs, who, Left(p))
    ensures HasStored(runs + [r], who, Right(p)) <==> HasStored(runs, who, Right(p))
    ensures HasToggled(runs + [r], who, Right(p)) <==> HasToggled(runs, who, Right(p))
    ensures HasParked(runs + [r], who, Right(p)) <==> HasParked(runs, who, Right(p))
  {
    if Left(p) in who { EdgeOwner(job, runs, who, Left(p)); }
    if Right(p) in who { EdgeOwner(job, runs, who, Right(p)); }
    LaunchesSame(runs, who, r, Left(p));
    LaunchesSame(runs, who, r, Right(p));
  }

  /** A launch adds a goroutine that has taken no edge yet. */
  lemma LaunchesCore(job: Job, tree0: map<Pos, Node>, tree: map<Pos, Node>, runs: seq<Run>, who: Carriers, r: Run)
    requires Core(job, tree0, tree, runs, who) && |runs| < |job.segs| && Level(r) == 0
    ensures Core(job, tree0, tree, runs + [r], who)
  {
    var runs' := runs + [r];
    forall e | e in who
      ensures EdgeOk(job, runs', who, e) && ClosedAt(job, runs', who, e)
    {
      assert EdgeOk(job, runs, who, e) && ClosedAt(job, runs, who, e);
      if e.h >= 1 { LaunchesSides(job, runs, who, r, e); }
    }
    forall i, h | 0 <= i < |runs'| && 0 <= h < Level(runs'[i])
      ensures Took(who, i, h)
    {
      assert i < |runs| && runs'[i] == runs[i];
    }
    forall p | Used(job, p)
      ensures p in tree && p in tree0 && NodeOk(job, runs', who, p, tree0[p].state, tree[p])
    {
      LaunchesSides(job, runs, who, r, p);
    }
  }

  /** What is known of a goroutine stays true as more are launched. */
  lemma ShapeLater(job: Job, n: nat, j: nat, r: Run)
    requires j < n < |job.segs| && RunShape(job, n, j, r)
    ensures RunShape(job, n + 1, j, r)
  {
  }

  lemma LaunchesRuns(job: Job, tree: map<Pos, Node>, runs: seq<Run>, r: Run)
    requires RunsOk(job, tree, runs) && |runs| < |job.segs|
    requires RunShape(job, |runs| + 1, |runs|, r) && LeafStored(job, tree, |runs|, r)
    ensures RunsOk(job, tree, runs + [r])
  {
    var runs' := runs + [r];
    forall i | 0 <= i < |runs'|
      ensures RunShape(job, |runs'|, i, runs'[i]) && LeafStored(job, tree, i, runs'[i])
    {
      if i < |runs| {
        assert RunShape(job, |runs|, i, runs[i]) && LeafStored(job, tree, i, runs[i]);
        ShapeLater(job, |runs|, i, runs[i]);
      }
    }
  }

  /** Flags depend on the main thread's position only through these. */
  ghost predicate SameFlags(job: Job, m: Main, m': Main, h: nat)
    requires |job.segs| >= 1
  {
    && (Flagged(job, m, h) <==> Flagged(job, m', h))
    && (RightCleared(m', h) && Entry(job) <= h <= Root(job) ==> RightCleared(m, h))
    && (h == Root(job) ==> (RootSet(job, m) <==> RootSet(job, m')))
  }

  /** Marking one node of the path, and moving on, keeps the flags right. */
  lemma MarksFlags(job: Job, tree: map<Pos, Node>, m: Main, m': Main, pos: Pos, n: Node)
    requires |job.segs| >= 1 && FlagsOk(job, tree, m) && pos in tree && OnPath(job, pos)
    requires FlagsAt(job, m', pos, n)
    requires Anc(job.Last(), Root(job)) == 0
    requires forall h: nat {:trigger SameFlags(job, m, m', h)} :: h != pos.h ==> SameFlags(job, m, m', h)
    ensures FlagsOk(job, tree[pos := n], m')
  {
    var tree' := tree[pos := n];
    forall p | p in tree'
      ensures FlagsAt(job, m', p, tree'[p])
    {
      if p != pos {
        assert FlagsAt(job, m, p, tree[p]);
        if p.h != pos.h {
          assert SameFlags(job, m, m', p.h);
        }
      }
    }
  }

  lemma SameFlagsEverywhere(job: Job, tree: map<Pos, Node>, m: Main, m': Main)
    requires |job.segs| >= 1 && FlagsOk(job, tree, m)
    requires forall h: nat {:trigger SameFlags(job, m, m', h)} :: SameFlags(job, m, m', h)
    ensures FlagsOk(job, tree, m')
  {
    forall p | p in tree
      ensures FlagsAt(job, m', p, tree[p])
    {
      assert FlagsAt(job, m, p, tree[p]) && SameFlags(job, m, m', p.h);
    }
  }

  lemma LaunchKeeps(job: Job, tree0: map<Pos, Node>, st: State, who: Carriers)
    requires Inv(job, tree0, st, who) && Enabled(job, st, MainThread)
    requires (st.main.Writing? && |st.runs| < |job.segs| - 1) || st.main.LastSegment?
    ensures Inv(job, tree0, MainStep(job, st), who)
  {
    var st' := MainStep(job, st);
    var j := |st.runs|;
    var r := st'.runs[j];
    if |job.segs| >= 2 { DepthPositive(job); }
    RootInTree(job);
    assert RunShape(job, j + 1, j, r);
    LaunchesRuns(job, st.tree, st.runs, r);
    LaunchesCore(job, tree0, st.tree, st.runs, who, r);
    SameFlagsEverywhere(job, st.tree, st.main, st'.main);
  }

  /** Marking a node of the last segment's path does not disturb the goroutines. */
  lemma MarksNodes(job: Job, tree0: map<Pos, Node>, tree: map<Pos, Node>, runs: seq<Run>, who: Carriers, pos: Pos,
                   n: Node)
    requires |job.segs| >= 1 && EdgesOk(job, runs, who) && NodesOk(job, tree0, tree, runs, who)
    requires pos in tree && OnPath(job, pos) && n.left == tree[pos].left && n.state == tree[pos].state
    requires |runs| == |job.segs| ==> n.right == tree[pos].right
    ensures NodesOk(job, tree0, tree[pos := n], runs, who)
  {
    var tree' := tree[pos := n];
    forall p | Used(job, p)
      ensures p in tree' && p in tree0 && NodeOk(job, runs, who, p, tree0[p].state, tree'[p])
    {
      if p == pos && Two(job, p) {
        PathOrTwo(job, p);
        if Right(p) in who { assert EdgeOk(job, runs, who, Right(p)); }
      }
    }
  }

  lemma MarksRuns(job: Job, tree: map<Pos, Node>, runs: seq<Run>, pos: Pos, n: Node)
    requires RunsOk(job, tree, runs) && pos in tree && n.left == tree[pos].left
    ensures RunsOk(job, tree[pos := n], runs)
  {
    forall i | 0 <= i < |runs|
      ensures LeafStored(job, tree[pos := n], i, runs[i])
    {
      assert LeafStored(job, tree, i, runs[i]);
    }
  }

  predicate Marking(m: Main) {
    m.FinalBalance? || m.FinalRight? || (m.FinalRoot? && m.pos.k == 0) || m.Releasing?
  }

  /** The flags after the main thread has marked a node. */
  lemma MarkFlags(job: Job, st: State)
    requires job.Valid() && FlagsOk(job, st.tree, st.main) && Enabled(job, st, MainThread) && Marking(st.main)
    requires MainOk(job, st.main, |st.runs|, st.results)
    ensures FlagsOk(job, MainStep(job, st).tree, MainStep(job, st).main)
    ensures MainOk(job, MainStep(job, st).main, |st.runs|, st.results)
  {
    var st' := MainStep(job, st);
    var pos := st.main.pos;
    assert FlagsAt(job, st.main, pos, st.tree[pos]);
    RootInTree(job);
    RootHeightIs(job.Last(), pos.h);
    assert FlagsAt(job, st'.main, pos, st'.tree[pos]);
    MarksFlags(job, st.tree, st.main, st'.main, pos, st'.tree[pos]);
  }

  lemma MarkKeeps(job: Job, tree0: map<Pos, Node>, st: State, who: Carriers)
    requires Inv(job, tree0, st, who) && Enabled(job, st, MainThread) && Marking(st.main)
    ensures Inv(job, tree0, MainStep(job, st), who)
  {
    var pos := st.main.pos;
    var n := MainStep(job, st).tree[pos];
    MarkFlags(job, st);
    MarksRuns(job, st.tree, st.runs, pos, n);
    MarksNodes(job, tree0, st.tree, st.runs, who, pos, n);
  }

  /** Control moves without touching the tree. */
  lemma JumpKeeps(job: Job, tree0: map<Pos, Node>, st: State, who: Carriers)
    requires Inv(job, tree0, st, who) && Enabled(job, st, MainThread)
    requires || (st.main.Writing? && |st.runs| == |job.segs| - 1)
             || (st.main.FinalRoot? && st.main.pos.k > 0) || st.main.Waiting?
    ensures Inv(job, tree0, MainStep(job, st), who)
  {
    var st' := MainStep(job, st);
    RootInTree(job);
    if |job.segs| >= 2 { DepthPositive(job); }
    if st.main.FinalRoot? {
      RootHeightIs(job.Last(), st.main.pos.h);
      assert Parent(st.main.pos) == Edge(job.Last(), st.main.pos.h + 1);
    }
    assert Anc(job.Last(), 1) == Anc(job.Last(), 0) / 2;
    SameFlagsEverywhere(job, st.tree, st.main, st'.main);
  }
}
