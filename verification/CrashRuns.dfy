/** Runs with more than one crash: what the second one takes, what it brings back twice, and what a crash does to the
    order of a column. */
module CrashRuns {
  import opened Aggregation
  import opened TreeStore
  import opened Column
  import opened Recovery
  import opened Closing
  import opened NBTree
  import opened Crashes
  import opened Sessions
  import AggregateQuery
  import Scan
  import Summaries

  // ---- A second crash ----------------------------------------------------------------------------

  /** Only points were added to the open leaf. */
  ghost predicate LeafOnly(a: Col, b: Col)
  {
    && b.st == a.st && b.rp == a.rp && |b.ext| == |a.ext| > 0
    && a.ext[0].LeafExtent? && b.ext[0].LeafExtent? && BackLink(b.ext[0]) == BackLink(a.ext[0])
    && b.ext[0 := NewLeafExtent()] == a.ext[0 := NewLeafExtent()]
  }

  /** Append points that fit into the open leaf. */
  method FillLeaf(list: ExtentsList, pts: seq<Point>)
    requires list.Ready() && list.initialized && list.extents != [] && OpenPoints(list.extents) == []
    requires FitsOneLeaf(list.accepts, pts) && Sorted(pts) && (pts != [] ==> list.last <= pts[0].ts)
    modifies list, list.bstore
    ensures list.Ready() && list.initialized && LeafOnly(old(list.Snap()), list.Snap())
    ensures OpenPoints(list.extents) == pts && list.Held() == old(list.Held()) + pts &&
            list.Saved() == old(list.Saved())
    ensures list.last == if pts == [] then old(list.last) else pts[|pts| - 1].ts
    ensures old(list.CrashSafe()) ==> list.CrashSafe()
    decreases |pts|
  {
    hide ColOk, Busy, Rescuable, Contents, Recovered, AlignedFrom, Untouched, Startable, FlushedAt, AfterCommit,
        LeafOnly, AddedTo, IsClosed;
    ghost var a := list.Snap();
    LeafOnlySame(a);
    if pts != [] {
      var n := |pts| - 1;
      FillLeaf(list, pts[..n]);
      assert pts == pts[..n] + [pts[n]];
      ghost var b := list.Snap();
      var result := list.Append(pts[n].ts, pts[n].x, true);
      LeafOnlyMore(a, b, list.Snap(), pts[n]);
    }
  }

  lemma LeafOnlySame(a: Col)
    requires ColOk(a) && a.ext != []
    ensures LeafOnly(a, a)
  {
    assert ExtentOk(a.st, a.ext[0], 0);
  }

  lemma LeafOnlyMore(a: Col, b: Col, c: Col, p: Point)
    requires LeafOnly(a, b) && AddedTo(Begun(b), c, p)
    ensures LeafOnly(a, c) && OpenPoints(c.ext) == OpenPoints(b.ext) + [p] && c.ext != []
  {
    assert c.ext[0 := NewLeafExtent()] == b.ext[0 := NewLeafExtent()];
  }

  lemma LeafOnlyKeeps(a: Col, b: Col)
    requires LeafOnly(a, b)
    ensures IsRepaired(a) ==> IsRepaired(b)
    ensures IsReopenedWith(a) ==> IsReopenedWith(b)
    ensures b.st == a.st && b.rp == a.rp
  {
  }

  /** The points that the next commit puts out of reach, if the column crashes now and is started again. */
  ghost function NextLoss(st: seq<Block>, rp: seq<LogicAddr>): seq<Point>
  {
    if rp == [] || IsClosed(rp) then [] else FirstPartial(st, rp, 0)
  }

  lemma {:induction false} PaddedPartial(st: seq<Block>, rp: seq<LogicAddr>, i: nat)
    ensures FirstPartial(st, Padded(rp), i) == FirstPartial(st, rp, i)
    decreases |rp| - i
  {
    if i < |rp| {
      PaddedPartial(st, rp, i + 1);
    } else if i == |rp| && !TopEmpty(rp) {
      NoPoints(st);
    }
  }

  /** A crash, a new start, and the points of one leaf up to its commit; `d` is the column just before the commit. */
  method RestartAndFlush(list: ExtentsList, pts: seq<Point>, p: Point) returns (mid: ExtentsList, ghost d: Col)
    requires list.Ready() && list.initialized && list.extents != []
    requires pts != [] && FitsOneLeaf(list.accepts, pts) && !list.accepts(pts, p) && Sorted(pts + [p])
    requires IsClosed(list.rescuePoints) ==> LastTimestamp(list.Saved()) <= pts[0].ts
    modifies list.bstore
    ensures fresh(mid) && mid.bstore == list.bstore && mid.Ready() && mid.initialized
    ensures ColOk(d) && d.ext != [] && d.st == old(list.bstore.blocks) && OpenPoints(d.ext) == pts
    ensures Contents(d) == old(list.Saved()) + pts && mid.Saved() == AfterCommit(d, 0)
    ensures list.rescuePoints != [] && AtRestart(d, list.rescuePoints)
    ensures SafeStart(d.st, list.rescuePoints) ==> mid.Saved() == old(list.Saved()) + pts
  {
    hide ColOk, Busy, Rescuable, Contents, Recovered, AlignedFrom, Untouched, Startable, FlushedAt, AfterCommit,
        LeafOnly, AddedTo,
         AtRestart, FitsOneLeaf, Sorted, IsClosed, IsRepaired, IsReopenedWith, SafeStart;
    ghost var saved := list.Saved();
    SameLength(list.Snap());
    mid := CrashAndRecover(list);
    ghost var c := mid.Snap();
    SortedParts(pts, p);
    FillLeaf(mid, pts);
    d := mid.Snap();
    RestartKept(c, d, list.rescuePoints);
    var result := mid.Append(p.ts, p.x, true);
    FlushedOpen(d, mid.Snap(), p);
    if mid.CrashSafe() {
      SafeCrash(mid);
      Regroup(mid.Saved(), saved + pts, [p]);
    }
  }

  /** Apart from the points in its open leaf, the column is as a start from `rp` left it. */
  ghost predicate AtRestart(d: Col, rp: seq<LogicAddr>)
  {
    if !IsClosed(rp) then IsRepaired(d) && d.rp == Padded(rp) else |rp| >= 2 ==> IsReopenedWith(d)
  }

  lemma RestartKept(c: Col, d: Col, rp: seq<LogicAddr>)
    requires Restarted(c, rp) && rp != [] && LeafOnly(c, d)
    ensures AtRestart(d, rp) && c.st == d.st
  {
    hide IsRepaired, IsReopenedWith, LeafOnly;
    LeafOnlyKeeps(c, d);
  }

  /** A crash, a new start, the points of one leaf, its commit, another crash: exactly the first chain that was not full
      at the first crash is gone. Everything else that the first recovery brought back is still there, and so is the
      new leaf. So nothing is lost if and only if the chain was empty, which the rescue points tell. */
  method CrashTwice(list: ExtentsList, pts: seq<Point>, p: Point)
    returns (again: ExtentsList, ghost kept: seq<Point>, ghost later: seq<Point>)
    requires list.Ready() && list.initialized && list.extents != []
    requires pts != [] && FitsOneLeaf(list.accepts, pts) && !list.accepts(pts, p) && Sorted(pts + [p])
    requires IsClosed(list.rescuePoints) ==> LastTimestamp(list.Saved()) <= pts[0].ts
    modifies list.bstore
    ensures fresh(again) && again.Ready() && again.initialized
    ensures old(list.Saved()) == kept + old(NextLoss(list.bstore.blocks, list.rescuePoints)) + later
    ensures again.Held() == kept + later + pts
    ensures again.Held() == old(list.Saved()) + pts <==> old(NextLoss(list.bstore.blocks, list.rescuePoints)) == []
  {
    hide ColOk, Contents, Recovered, AfterCommit, AtRestart, NextLoss, IsClosed, SafeStart, Sorted, FitsOneLeaf;
    ghost var rp, saved := list.rescuePoints, list.Saved();
    var mid;
    ghost var d;
    mid, d := RestartAndFlush(list, pts, p);
    again := CrashAndRecover(mid);
    kept, later := TwiceCrashed(d, rp, saved, pts, again.Held());
  }

  lemma SortedParts(pts: seq<Point>, p: Point)
    requires Sorted(pts + [p]) && pts != []
    ensures Sorted(pts) && pts[|pts| - 1].ts <= p.ts
  {
    assert (pts + [p])[..|pts|] == pts;
  }

  lemma TwiceCrashed(d: Col, rp: seq<LogicAddr>, saved: seq<Point>, pts: seq<Point>, held: seq<Point>)
    returns (kept: seq<Point>, later: seq<Point>)
    requires ColOk(d) && d.ext != [] && rp != [] && AtRestart(d, rp)
    requires OpenPoints(d.ext) == pts && Contents(d) == saved + pts
    requires held == AfterCommit(d, 0) && (SafeStart(d.st, rp) ==> held == saved + pts)
    ensures saved == kept + NextLoss(d.st, rp) + later && held == kept + later + pts
    ensures held == saved + pts <==> NextLoss(d.st, rp) == []
  {
    hide IsRepaired, IsReopenedWith, FirstPartial, AfterCommit, Contents, Between, ChainContents;
    if IsClosed(rp) {
      if |rp| >= 2 {
        FirstCommitAfterReopen(d);
      }
      kept, later := saved, [];
    } else {
      SecondCrash(d);
      PaddedPartial(d.st, rp, 0);
      var k := FirstRoom(d, 1);
      kept, later := ChainContents(d.st, d.rp, k), Between(d, 1, k);
      Regroup(saved, kept + NextLoss(d.st, rp) + later, pts);
    }
  }

  ghost predicate OnePointLeaves(accepts: (seq<Point>, Point) -> bool)
  {
    forall pts, p :: accepts(pts, p) <==> pts == []
  }

  /** A column whose leaves take one point each, with one leaf committed and one open. */
  method TwoLeaves(p1: Point, p2: Point) returns (list: ExtentsList)
    requires p1.ts <= p2.ts
    ensures fresh(list) && fresh(list.bstore) && list.Ready() && list.initialized && list.Ordered() && list.CrashSafe()
    ensures OnePointLeaves(list.accepts)
    ensures list.Held() == [p1, p2] && list.Saved() == [p1] && OpenPoints(list.extents) == [p2]
    ensures |list.rescuePoints| == 2 == |list.extents| && list.rescuePoints[1] == EMPTY_ADDR &&
            |Refs(list.extents[1])| == 1
    ensures list.writeCount > 0
  {
    hide ColOk, Busy, Rescuable, Contents, Recovered, AlignedFrom, Untouched, Startable, FlushedAt, AfterCommit,
         AddedTo, IsClosed, Sorted, LeafFits, SafeStart, StoreOk;
    var bstore := new BlockStore();
    list := Create(bstore, (pts: seq<Point>, p: Point) => pts == []);
    AppendFirst(list, p1);
    ghost var b := list.Snap();
    var result := list.Append(p2.ts, p2.x, true);
    SecondLeaf(b, list.Snap(), p2);
    SafeCrash(list);
    Regroup(list.Saved(), [p1], [p2]);
  }

  /** The first point of a column. */
  method AppendFirst(list: ExtentsList, p: Point)
    requires list.Ready() && list.initialized && list.extents == [] && list.last == 0 && list.Held() == []
    modifies list, list.bstore
    ensures list.Ready() && list.initialized && list.Held() == [p] && list.last == p.ts
    ensures |list.extents| == 1 && OpenPoints(list.extents) == [p]
    ensures old(list.CrashSafe()) ==> list.CrashSafe()
    ensures old(list.Ordered()) ==> list.Ordered()
  {
    hide ColOk, Busy, Rescuable, Contents, Recovered, AlignedFrom, Untouched, Startable, FlushedAt, AfterCommit,
         AddedTo, IsClosed, Sorted, LeafFits, SafeStart, StoreOk;
    ghost var a := list.Snap();
    SameLength(a);
    var result := list.Append(p.ts, p.x, true);
    FirstPoint(a, list.Snap(), p);
  }

  lemma FirstPoint(a: Col, b: Col, p: Point)
    requires a.ext == [] && a.rp == [] && AddedTo(Begun(a), b, p)
    ensures |b.ext| == 1 == |b.rp| && b.rp[0] == EMPTY_ADDR && OpenPoints(b.ext) == [p]
  {
  }

  lemma SecondLeaf(a: Col, b: Col, p: Point)
    requires |a.ext| == 1 && FlushedAt(a, b, p) && |b.rp| == |b.ext| && AlignedFrom(b, 0, 0)
    ensures |b.ext| == 2 == |b.rp| && b.rp[1] == EMPTY_ADDR && |Refs(b.ext[1])| == 1 && OpenPoints(b.ext) == [p]
  {
    hide CommittedContents, CommittedSaved, FlushedAt, ColOk, Reset;
    var c, addr := FlushedThrough(a, b, p);
    assert Grown(a, c, 1);
  }

  /** The shortest run with a loss. Each leaf takes one point: the first crash brings back `p1`, and the second one
      does not. */
  method LosingRun(p1: Point, p2: Point, p3: Point, p4: Point) returns (again: ExtentsList, ghost first: seq<Point>)
    requires p1.ts <= p2.ts && p3.ts <= p4.ts
    ensures again.Ready() && again.initialized && first == [p1] && again.Held() == [p3]
  {
    hide ColOk, Busy, Rescuable, Contents, Recovered, AlignedFrom, Untouched, Startable, FlushedAt, AfterCommit,
        AddedTo, NextLoss, IsClosed;
    var list := TwoLeaves(p1, p2);
    first := list.Saved();
    OneNode(list.Snap());
    assert [p3][..0] == [] && ([p3] + [p4])[..1] == [p3];
    ghost var kept, later;
    again, kept, later := CrashTwice(list, [p3], p4);
  }

  /** Rescue points that hold one point are one chain of one node. */
  lemma OneNode(c: Col)
    requires ColOk(c) && Rescuable(c.st, c.rp, -1) && |c.rp| == 2 && c.rp[1] == EMPTY_ADDR &&
             |Recovered(c.st, c.rp)| == 1
    ensures !IsClosed(c.rp) && NextLoss(c.st, c.rp) == Recovered(c.st, c.rp)
  {
    assert OnLevel(c.st, c.rp[0], 0);
    ReachedNothing(c.st, c.rp[0], 0);
    NoPoints(c.st);
    assert ChainContents(c.st, c.rp, 2) == [] && ChainContents(c.st, c.rp, 1) == [];
  }

  // ---- A crash after reopening -------------------------------------------------------------------

  /** A column held `root + newer`, and a crash brings back `saved`: of these points `more`, the children of the root's
      copy since it was opened with `r` of them, are there twice. */
  ghost predicate Doubled(c: Col, r: nat, saved: seq<Point>, root: seq<Point>, more: seq<Point>, newer: seq<Point>)
  {
    && c.ext != [] && r <= |Refs(c.ext[|c.ext| - 1])| && more == Collected(c, r)
    && Contents(c) == root + newer && saved == root + more + newer && |more| >= FANOUT - r
    && (saved == Contents(c) <==> r == FANOUT)
  }

  lemma Growth(a: Col, b: Col, p: Point, accepts: (seq<Point>, Point) -> bool, r: nat)
    returns (root: seq<Point>, more: seq<Point>, newer: seq<Point>)
    requires FlushedAt(a, b, p) && a.ext != [] && r > 0 && Session(accepts, a, r)
    ensures |b.ext| > |a.ext| <==> FullFrom(a, 1)
    ensures FullFrom(a, 1) ==> Doubled(a, r, AfterCommit(a, 0), root, more, newer)
  {
    hide CommittedContents, CommittedSaved, FlushedAt, Reset, FullFrom, AfterCommit, Contents, Collected, ColOk;
    var c, addr := FlushedThrough(a, b, p);
    root, more, newer := [], [], [];
    if FullFrom(a, 1) {
      GrowthDoubles(a, r);
      root, more, newer := OwnPoints(a.st, a.ext[|a.ext| - 1]), Collected(a, r), Between(a, 0, |a.ext| - 1);
    }
  }

  /** Any append to a column that was opened from a root with `r` children, then a crash. Until a leaf is committed with
      every level full, only the open leaf is lost. Then the column gets a new level, and the children of the root's
      copy since it was opened come back twice. There are none if and only if `r` is 32. */
  method AppendAndCrash(list: ExtentsList, p: Point, ghost r: nat)
    returns (again: ExtentsList, ghost root: seq<Point>, ghost more: seq<Point>, ghost newer: seq<Point>)
    requires list.Ready() && list.Since(r) && list.last <= p.ts
    modifies list, list.bstore
    ensures again.Ready() && again.initialized && list.Held() == old(list.Held()) + [p]
    ensures |list.extents| > |old(list.extents)| <==>
            FullFrom(old(list.Snap()), 1) && !list.accepts(old(OpenPoints(list.extents)), p)
    ensures if |list.extents| == |old(list.extents)|
            then list.Since(r) && list.Held() == again.Held() + OpenPoints(list.extents)
            else Doubled(old(list.Snap()), r, again.Held(), root, more, newer)
  {
    hide ColOk, Busy, Rescuable, Contents, Recovered, Session, Untouched, Startable, FlushedAt, AfterCommit, AddedTo,
        IsClosed, FullFrom, Restarted, Doubled, Sorted, RescueOk, SafeStart, OpenPoints;
    ghost var a := list.Snap();
    root, more, newer := [], [], [];
    var result := list.Append(p.ts, p.x, true);
    if result == OK_FLUSH_NEEDED {
      root, more, newer := Growth(a, list.Snap(), p, list.accepts, r);
    } else {
      AddedSize(a, list.Snap(), p);
    }
    again := CrashAndRecover(list);
  }

  lemma AddedSize(a: Col, b: Col, p: Point)
    requires a.ext != [] && AddedTo(Begun(a), b, p)
    ensures |b.ext| == |a.ext|
  {
  }

  /** After a reopen from a root on level 1, `m` more leaves have been committed and the root's copy has taken them.
      Their own chain started at index 0, so it has no more than these leaves. */
  ghost predicate Refilling(c: Col, more: seq<Point>, m: nat, n: nat)
  {
    && ColOk(c) && |c.ext| == 2 && c.ext[0].LeafExtent? && c.ext[1].SBlockExtent?
    && |Refs(c.ext[1])| == n && BackLink(c.ext[1]) == EMPTY_ADDR
    && NodeIndex(c.ext[0]) == c.ext[0].fanoutIndex == m < n && m < FANOUT
    && Reached(c.st, BackLink(c.ext[0])) == more
  }

  lemma RefillingStart(c: Col)
    requires ColOk(c) && IsReopened(c) && |c.ext| == 2
    ensures Refilling(c, [], 0, |Refs(c.ext[1])|)
  {
    var root := c.rp[1].ix;
    assert c.ext[0] == NewLeafExtent() && BlockOk(c.st, root);
    NoPoints(c.st);
  }

  lemma RefillingAdd(a: Col, b: Col, p: Point, more: seq<Point>, m: nat, n: nat)
    requires Refilling(a, more, m, n) && AddedTo(Begun(a), b, p) && ColOk(b)
    ensures Refilling(b, more, m, n) && OpenPoints(b.ext) == OpenPoints(a.ext) + [p]
  {
  }

  /** Another leaf is committed while the root's copy has room. */
  lemma RefillingNext(a: Col, b: Col, p: Point, more: seq<Point>, m: nat, n: nat)
    requires Refilling(a, more, m, n) && FlushedAt(a, b, p) && ColOk(b) && n < FANOUT && m + 1 < FANOUT
    ensures Refilling(b, more + OpenPoints(a.ext), m + 1, n + 1) && OpenPoints(b.ext) == [p]
  {
    hide FlushedAt, CommittedContents;
    var c, addr := FlushedThrough(a, b, p);
    assert HasRoom(a, 1) && OneMore(a, c, 1);
  }

  /** The root's copy is full: it is committed with all `m` new leaves, and the next leaf still points back at them. */
  lemma RefilledTwice(a: Col, more: seq<Point>, m: nat)
    requires Refilling(a, more, m, FANOUT)
    ensures AfterCommit(a, 0) == ContentsFrom(a.st, a.ext, 1) + more + OpenPoints(a.ext)
    ensures Contents(a) == ContentsFrom(a.st, a.ext, 1) + OpenPoints(a.ext)
  {
    hide OwnPoints, Reached, OpenPoints, NodeChain, AfterCommit, Contents, ContentsFrom, AfterPush;
    LeafContents(a);
    NodeOnce(a, 1);
    Climb(a, 1);
    TopAlone(a);
  }

  lemma TopAlone(a: Col)
    requires |a.ext| == 2 == |a.rp| && !HasRoom(a, 1)
    ensures FirstRoom(a, 1) == 2 && ContentsFrom(a.st, a.ext, 2) == [] && ChainContents(a.st, a.rp, 2) == []
    ensures Woven(a, 1, 2) == NodeChain(a, 1) && Between(a, 1, 2) == OwnPoints(a.st, a.ext[1])
  {
    assert FirstRoom(a, 2) == 2 && Woven(a, 2, 2) == [] && Between(a, 2, 2) == [];
  }

  lemma PairReopened(c: Col)
    requires ColOk(c) && IsReopened(c) && |c.rp| == 2 == |Contents(c)|
    ensures |c.ext| == 2 && 1 <= |Refs(c.ext[1])| <= 2 && Refilling(c, [], 0, |Refs(c.ext[1])|)
  {
    OpenedRoot(c);
    RestoredSBlockOk(c.st, c.rp[1].ix);
    RefsHoldPoints(c.st, Refs(c.ext[1]), 0);
    RefillingStart(c);
  }

  /** A column with two points on one level above the leaves, closed and opened again. */
  method ReopenedPair(p1: Point, p2: Point) returns (list: ExtentsList, ghost n0: nat)
    requires p1.ts <= p2.ts
    ensures fresh(list) && fresh(list.bstore) && list.Ready() && list.initialized && list.last == p2.ts
    ensures OnePointLeaves(list.accepts)
    ensures list.Held() == [p1, p2] && OpenPoints(list.extents) == [] && 1 <= n0 <= 2
    ensures |list.extents| == 2 && Refilling(list.Snap(), [], 0, n0)
  {
    hide ColOk, Busy, Rescuable, Contents, Recovered, AlignedFrom, Untouched, Startable, IsClosed, Refilling,
        IsReopened, Sorted;
    var first := TwoLeaves(p1, p2);
    var roots := first.Close();
    list := new ExtentsList(first.bstore, first.accepts, roots);
    list.Init();
    PairReopened(list.Snap());
    n0 := |Refs(list.extents[1])|;
  }

  /** Append one more point to a column that is being refilled: into the empty leaf, or after a commit. */
  method AppendReady(list: ExtentsList, q: Point, ghost more: seq<Point>, ghost m: nat, ghost n: nat)
    returns (result: AppendResult)
    requires list.Ready() && list.initialized && list.last <= q.ts && |list.extents| == 2
    requires OnePointLeaves(list.accepts)
    requires Refilling(list.Snap(), more, m, n) && n < FANOUT && m + 1 < FANOUT
    modifies list, list.bstore
    ensures list.Ready() && list.initialized && list.last == q.ts && |list.extents| == 2
    ensures list.Held() == old(list.Held()) + [q] && OpenPoints(list.extents) == [q]
    ensures |Refs(list.extents[1])| == if old(OpenPoints(list.extents)) == [] then n else n + 1
    ensures if old(OpenPoints(list.extents)) == [] then Refilling(list.Snap(), more, m, n)
            else Refilling(list.Snap(), more + old(OpenPoints(list.extents)), m + 1, n + 1)
  {
    hide Busy, Rescuable, Contents, Recovered, AlignedFrom, Untouched, Startable, FlushedAt, AfterCommit, AddedTo,
        IsClosed;
    ghost var a := list.Snap();
    result := list.Append(q.ts, q.x, true);
    if OpenPoints(a.ext) == [] {
      RefillingAdd(a, list.Snap(), q, more, m, n);
    } else {
      RefillingNext(a, list.Snap(), q, more, m, n);
    }
  }

  /** Commit one more leaf after another until the root's copy is full. */
  method FillParent(list: ExtentsList, q: Point, ghost n0: nat) returns (ghost more: seq<Point>)
    requires list.Ready() && list.initialized && list.last == q.ts && |list.extents| == 2 &&
             OnePointLeaves(list.accepts)
    requires OpenPoints(list.extents) == [q] && Refilling(list.Snap(), [], 0, n0) && 1 <= n0 < FANOUT
    modifies list, list.bstore
    ensures list.Ready() && list.initialized && list.last == q.ts
    ensures list.Held() == old(list.Held()) + more && |more| == FANOUT - n0 && forall i :: 0 <= i < |more| ==>
            more[i] == q
    ensures OpenPoints(list.extents) == [q] && Refilling(list.Snap(), more, |more|, FANOUT)
  {
    hide ColOk, Busy, Rescuable, Contents, Recovered, AlignedFrom, Untouched, Startable, IsClosed, OnePointLeaves;
    more := [];
    while |Refs(list.extents[1])| < FANOUT
      invariant list.Ready() && list.initialized && list.last == q.ts && |list.extents| == 2 &&
                OpenPoints(list.extents) == [q]
      invariant Refilling(list.Snap(), more, |more|, n0 + |more|) && n0 + |more| <= FANOUT
      invariant list.Held() == old(list.Held()) + more && forall i :: 0 <= i < |more| ==> more[i] == q
      decreases FANOUT - |Refs(list.extents[1])|
    {
      var _ := AppendReady(list, q, more, |more|, n0 + |more|);
      more := more + [q];
    }
  }

  /** A run that brings points back twice. Each leaf takes one point; the column is closed with two points in it and
      opened again. Once the root's copy is full, the next commit and a crash leave every leaf since the reopen in two
      places, and recovery returns more points than were ever appended. */
  method DoublingRun(p1: Point, p2: Point, q: Point)
    returns (again: ExtentsList, ghost appended: seq<Point>, ghost more: seq<Point>)
    requires p1.ts <= p2.ts <= q.ts
    ensures again.Ready() && again.initialized && |more| >= FANOUT - 2
    ensures appended == [p1, p2] + more + [q, q] && again.Held() == [p1, p2] + more + more + [q]
    ensures |again.Held()| > |appended|
  {
    hide ColOk, Busy, Rescuable, Contents, Recovered, AlignedFrom, Untouched, Startable, FlushedAt, AfterCommit,
        IsClosed,
         Refilling, Restarted, ContentsFrom;
    var list;
    ghost var n0;
    list, n0 := ReopenedPair(p1, p2);
    var result := AppendReady(list, q, [], 0, n0);
    more := FillParent(list, q, n0);
    ghost var d := list.Snap();
    result := list.Append(q.ts, q.x, true);
    RefilledTwice(d, more, |more|);
    appended := list.Held();
    SameRun([p1, p2], more, q);
    Regroup(ContentsFrom(d.st, d.ext, 1), [p1, p2] + more, [q]);
    again := CrashAndRecover(list);
  }

  lemma SameRun(first: seq<Point>, more: seq<Point>, q: Point)
    requires forall i :: 0 <= i < |more| ==> more[i] == q
    ensures first + [q] + more == first + more + [q] && first + more + [q] + [q] == first + more + [q, q]
  {
  }

  // ---- What a crash does to late writes ----------------------------------------------------------

  /** Repair does not read the newest timestamp back: after a crash a point that is older than everything in the column
      is accepted, and the column is no longer in order. */
  method LateWriteAfterCrash(x: Value) returns (again: ExtentsList, result: AppendResult)
    ensures again.Ready() && again.initialized && result != FAIL_LATE_WRITE
    ensures again.Held() == [Point(10, x), Point(5, x)] && !Sorted(again.Held())
  {
    hide ColOk, Busy, Rescuable, Contents, Recovered, AlignedFrom, Untouched, Startable, FlushedAt, AfterCommit,
        AddedTo, Restarted;
    var list := TwoLeaves(Point(10, x), Point(20, x));
    again := CrashAndRecover(list);
    result := again.Append(5, x, false);
  }

  // ---- What a crash does to aggregates -----------------------------------------------------------

  /** The same question about a range without points has no answer before the crash, and after it the answer is an
      aggregate over no points: recovery leaves an empty leaf open. */
  method EmptyAnswerAfterCrash(x: Value) returns (before: seq<Agg>, after: seq<Agg>)
    ensures before == [] && after == [INIT_AGGRES]
  {
    hide Busy, Rescuable, AlignedFrom, Untouched, Startable, Recovered, IsClosed, StoreOk, Summaries.Summarises,
        Scan.Select;
    var list := TwoLeaves(Point(10, x), Point(20, x));
    before := AggregateQuery.Aggregate(Col(list.bstore.blocks, list.extents, list.rescuePoints), 30, 40);
    NothingThere(x);
    var again := CrashAndRecover(list);
    SameLength(again.Snap());
    assert again.extents != [];
    after := AggregateQuery.Aggregate(Col(again.bstore.blocks, again.extents, again.rescuePoints), 30, 40);
    Summaries.SummarisesNothing(after[0]);
  }

  lemma NothingThere(x: Value)
    ensures Scan.Select([Point(10, x), Point(20, x)], 30, 40) == [] == Scan.Select([Point(10, x)], 30, 40)
  {
    Scan.SelectSlice([Point(10, x), Point(20, x)], 2, 2, 30, 40);
    Scan.SelectSlice([Point(10, x)], 1, 1, 30, 40);
  }
}
