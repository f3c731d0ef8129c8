/** `NBTreeExtentsList`: appending points to a column, committing full nodes level by level, crash
    recovery from rescue points, closing and reopening. */
module NBTree {
  import opened Aggregation
  import opened TreeStore
  import opened Column
  import opened Recovery
  import opened Closing
  import opened Heights

  datatype AppendResult = OK | OK_FLUSH_NEEDED | FAIL_LATE_WRITE

  // ---- Steps on the leaf level -----------------------------------------------------------------

  /** `IOVecLeaf::append`: the point and the running header. */
  function AddPoint(e: Extent, p: Point): Extent
    requires e.LeafExtent?
  {
    e.(leaf := e.leaf.(meta := Add(e.leaf.meta, p), points := e.leaf.points + [p]))
  }

  function WithPoint(c: Col, p: Point): Col
    requires |c.ext| > 0 && c.ext[0].LeafExtent?
  {
    c.(ext := c.ext[0 := AddPoint(c.ext[0], p)])
  }

  lemma AddPointStep(c: Col, p: Point)
    requires ColOk(c) && |c.ext| > 0 && c.ext[0].LeafExtent?
    ensures ColOk(WithPoint(c, p)) && Contents(WithPoint(c, p)) == Contents(c) + [p]
  {
    var d := WithPoint(c, p);
    assert ExtentOk(c.st, c.ext[0], 0);
    var pts := c.ext[0].leaf.points;
    assert (pts + [p])[..|pts|] == pts;
    forall i | 0 <= i < |d.ext|
      ensures ExtentOk(d.st, d.ext[i], i)
    {
      assert i != 0 ==> ExtentOk(c.st, c.ext[i], i);
    }
    ContentsSame(c.st, c.ext, d.ext, 1);
    assert ContentsFrom(c.st, c.ext, 1) + (pts + [p]) == (ContentsFrom(c.st, c.ext, 1) + pts) + [p];
  }

  /** The alignment of every kind of session is kept, until a reopened column gets a new level. */
  ghost predicate KeepsAlignment(a: Col, b: Col)
    requires |a.rp| == |a.ext| && |b.rp| == |b.ext|
  {
    forall r: nat {:trigger AlignedFrom(a, 0, r)} {:trigger AlignedFrom(b, 0, r)} ::
      AlignedFrom(a, 0, r) && (r == 0 || |b.ext| == |a.ext|) ==> AlignedFrom(b, 0, r)
  }

  lemma AddPointAligned(c: Col, p: Point)
    requires |c.rp| == |c.ext| > 0 && c.ext[0].LeafExtent?
    ensures KeepsAlignment(c, WithPoint(c, p))
  {
    hide PointsOf, ChainFrom;
    var d := WithPoint(c, p);
    forall r: nat | AlignedFrom(c, 0, r)
      ensures AlignedFrom(d, 0, r)
    {
      forall i | 0 <= i < |d.ext| - 1
        ensures AlignedAt(d, i, r)
      {
        assert AlignedAt(c, i, r);
      }
    }
  }

  /** After the commit of a full leaf the contents are the same and the leaf is empty. */
  lemma CommittedLeaf(a: Col, b: Col, addr: LogicAddr)
    requires Committed(a, b, 0, addr) && CommittedContents(a, b, 0) && a.ext[0].LeafExtent?
    ensures b.ext[0].LeafExtent? && b.ext[0].leaf.points == [] && Contents(b) == Contents(a)
  {
    assert ContentsFrom(b.st, b.ext, 0) == ContentsFrom(b.st, b.ext, 1) + [];
  }

  /** ... and takes the point that did not fit. */
  lemma RefilledLeaf(a: Col, c: Col, addr: LogicAddr, p: Point)
    requires Committed(a, c, 0, addr) && CommittedContents(a, c, 0) && CommittedAligned(a, c, 0, addr) &&
             a.ext[0].LeafExtent?
    ensures c.ext[0].LeafExtent? && c.ext[0].leaf.points == []
    ensures Contents(WithPoint(c, p)) == Contents(a) + [p]
    ensures KeepsAlignment(a, WithRescue(WithPoint(c, p), 0, addr))
  {
    hide AlignedFrom;
    CommittedLeaf(a, c, addr);
    AddPointStep(c, p);
    AddPointAligned(WithRescue(c, 0, addr), p);
  }

  /** A flush counts one on the level above the leaves. */
  lemma FlushedShape(a: Col, b: Col, p: Point)
    requires FlushedAt(a, b, p)
    ensures |a.ext| >= 1 && Shape(b) == Bump(Shape(a), 1)
  {
    hide CommittedContents, CommittedSaved;
    var c, addr := FlushedThrough(a, b, p);
    LeafIsFirst(a);
    BumpKeeps(Shape(a), 1);
    assert Shape(b) == Shape(c);
  }

  lemma FlushedOpen(a: Col, b: Col, p: Point)
    requires FlushedAt(a, b, p)
    ensures OpenPoints(b.ext) == [p]
  {
    var c, addr := FlushedThrough(a, b, p);
  }

  /** The column between the commit of the full leaf and the point that follows. */
  lemma FlushedThrough(a: Col, b: Col, p: Point) returns (c: Col, addr: LogicAddr)
    requires FlushedAt(a, b, p)
    ensures addr.At? && FlushedFrom(a, c, addr) && |c.rp| == |c.ext| && a.ext != [] && c.ext[0] == Reset(a.ext[0], addr)
    ensures c.ext[0].LeafExtent? && c.ext[0].leaf.points == []
    ensures b == WithRescue(WithPoint(c, p), 0, addr)
  {
    hide CommittedContents, CommittedSaved;
    var d, x :| x != EMPTY_ADDR && Flushed(a, d, p, x) && b == WithRescue(d, 0, x);
    c :| FlushedFrom(a, c, x) && c.ext[0].LeafExtent? && d == WithPoint(c, p);
    addr := x;
  }

  lemma AddedShape(a: Col, b: Col, p: Point)
    requires AddedTo(Begun(a), b, p)
    ensures Shape(b) == if a.ext == [] then [0] else Shape(a)
  {
    assert Shape(b) == Shape(Begun(a));
  }

  /** The open leaf was full: it was committed at `addr`, and `p` is the first point of the next one. */
  ghost predicate Flushed(a: Col, b: Col, p: Point, addr: LogicAddr)
  {
    exists c :: FlushedFrom(a, c, addr) && c.ext[0].LeafExtent? && b == WithPoint(c, p)
  }

  ghost predicate FlushedFrom(a: Col, c: Col, addr: LogicAddr)
  {
    |c.ext| > 0 && Committed(a, c, 0, addr) && CommittedContents(a, c, 0) && CommittedSaved(a, c, 0, addr) &&
    CommittedShape(a, c, 0)
  }

  /** ... and the rescue point of the leaf level is the committed leaf. */
  ghost predicate FlushedAt(a: Col, b: Col, p: Point)
  {
    exists d, addr :: addr != EMPTY_ADDR && Flushed(a, d, p, addr) && b == WithRescue(d, 0, addr)
  }

  /** The first point of a column opens its leaf level. */
  function Begun(c: Col): Col
  {
    if c.ext == [] then c.(ext := [NewLeafExtent()], rp := c.rp + [EMPTY_ADDR]) else c
  }

  ghost predicate AddedTo(a: Col, b: Col, p: Point)
  {
    |a.ext| > 0 && a.ext[0].LeafExtent? && b == WithPoint(a, p)
  }

  lemma FlushedSaved(a: Col, d: Col, p: Point, addr: LogicAddr)
    requires Flushed(a, d, p, addr)
    ensures a.ext != [] && !IsClosed(WithRescue(d, 0, addr).rp) && |d.rp| >= 2
    ensures Recovered(d.st, WithRescue(d, 0, addr).rp) == AfterCommit(a, 0)
    ensures Rescuable(a.st, a.rp, -1) ==> Rescuable(d.st, WithRescue(d, 0, addr).rp, -1)
  {
    var c :| FlushedFrom(a, c, addr) && c.ext[0].LeafExtent? && d == WithPoint(c, p);
    if Rescuable(a.st, a.rp, -1) {
      RescuableSet(c.st, c.rp, 0, addr, -1);
    }
  }

  /** The points of the leaf that is still open: what a crash takes. */
  function OpenPoints(ext: seq<Extent>): seq<Point>
  {
    if ext != [] && ext[0].LeafExtent? then ext[0].leaf.points else []
  }

  /** The block written for the open leaf, and for an open superblock. */
  function LeafBlock(e: Extent): Block
    requires e.LeafExtent?
  {
    Leaf(SubtreeRef(e.leaf.meta, BackLink(e), LEAF, 0, e.leaf.fanoutIndex), e.leaf.points)
  }

  function SBlock(e: Extent, agg: Agg): Block
    requires e.SBlockExtent?
  {
    Inner(SubtreeRef(agg, BackLink(e), INNER, e.curr.level, e.curr.fanoutIndex), e.curr.refs)
  }

  lemma WritesLeaf(c: Col)
    requires ColOk(c) && |c.ext| > 0 && c.ext[0].LeafExtent? && c.ext[0].leaf.points != []
    ensures Writes(c, 0, LeafBlock(c.ext[0]))
  {
    assert ExtentOk(c.st, c.ext[0], 0);
    AppendLeaf(c.st, LeafBlock(c.ext[0]));
  }

  lemma WritesSBlock(c: Col, lvl: nat, agg: Agg)
    requires ColOk(c) && 1 <= lvl < |c.ext| && c.ext[lvl].SBlockExtent? && Refs(c.ext[lvl]) != []
    requires agg == JoinAll(Refs(c.ext[lvl]))
    ensures Writes(c, lvl, SBlock(c.ext[lvl], agg))
  {
    assert ExtentOk(c.st, c.ext[lvl], lvl);
    AppendInner(c.st, SBlock(c.ext[lvl], agg));
  }

  lemma RefsHaveValues(c: Col, lvl: nat)
    requires ColOk(c) && 1 <= lvl < |c.ext| && c.ext[lvl].SBlockExtent?
    ensures forall j :: 0 <= j < |Refs(c.ext[lvl])| ==>
            Refs(c.ext[lvl])[j].agg.min.Val? && Refs(c.ext[lvl])[j].agg.max.Val?
  {
    assert ExtentOk(c.st, c.ext[lvl], lvl);
    var refs := Refs(c.ext[lvl]);
    forall j | 0 <= j < |refs|
      ensures refs[j].agg.min.Val? && refs[j].agg.max.Val?
    {
      RefSummary(c.st, refs[j], lvl - 1, |c.st|);
    }
  }

  lemma WrittenRef(c: Col, lvl: nat, b: Block)
    requires ColOk(c) && Writes(c, lvl, b)
    ensures ColOk(c.(st := c.st + [b])) && RefOk(c.st + [b], RefTo(c.st + [b], |c.st|), lvl, |c.st| + 1)
  {
    ColGrow(c, b);
  }

  /** `NBTreeLeafExtent` after a reopen: the next leaf follows the one at `last`. */
  function RestoredLeaf(last: LogicAddr, fanoutIndex: nat): Extent
  {
    Reset(LeafExtent(last, fanoutIndex, OpenLeaf(last, fanoutIndex, INIT_AGGRES, [])), last)
  }

  /** `NBTreeSBlockExtent` loaded from a committed root. */
  function RestoredSBlock(b: Block): Extent
    requires b.Inner?
  {
    SBlockExtent(b.meta.addr, if b.meta.fanoutIndex + 1 == FANOUT then 0 else b.meta.fanoutIndex + 1, b.meta.level,
                 OpenSBlock(b.meta.addr, b.meta.fanoutIndex, b.meta.level, b.refs))
  }

  lemma FirstLeaf(c: Col)
    requires StoreOk(c.st) && c.ext == [NewLeafExtent()] && c.rp == [EMPTY_ADDR]
    ensures ColOk(c) && Busy(c) && Rescuable(c.st, c.rp, -1) && AlignedFrom(c, 0, 0) && Contents(c) == []
    ensures Recovered(c.st, c.rp) == [] && forall accepts :: Session(accepts, c, 0) && LeafFits(accepts, c.ext[0])
  {
    NothingToRescue(c.st, c.rp);
    assert ContentsFrom(c.st, c.ext, 1) == [] && OwnPoints(c.st, c.ext[0]) == [];
  }

  /** The state `open` restores from a single leaf. */
  ghost predicate IsReopenedLeaf(c: Col)
  {
    && StoreOk(c.st) && |c.rp| == 2 == |c.ext| && c.rp[0].At? && c.rp[0].ix < |c.st| && c.rp[1] == EMPTY_ADDR
    && c.st[c.rp[0].ix].meta.level == 0 && c.st[c.rp[0].ix].meta.fanoutIndex == 0
    && c.ext == [RestoredLeaf(c.rp[0], c.st[c.rp[0].ix].meta.fanoutIndex),
                 AddRef(NewSBlockExtent(1), RefTo(c.st, c.rp[0].ix))]
  }

  lemma OpenedLeafOk(c: Col)
    requires IsReopenedLeaf(c)
    ensures ColOk(c) && Busy(c)
  {
    hide PointsOf, PointsAt;
    var a := c.rp[0].ix;
    assert BlockOk(c.st, a);
    assert Refs(c.ext[1]) == [RefTo(c.st, a)];
    assert RefOk(c.st, RefTo(c.st, a), 0, |c.st|);
    forall i | 0 <= i < |c.ext|
      ensures ExtentOk(c.st, c.ext[i], i)
    {
    }
  }

  lemma OpenedLeaf(c: Col)
    requires IsReopenedLeaf(c)
    ensures ColOk(c) && Busy(c) && Contents(c) == PointsAt(c.st, c.rp[0].ix) == OwnPoints(c.st, c.ext[1])
  {
    OpenedLeafOk(c);
    hide PointsOf, PointsAt, ColOk, StoreOk, RefsOk;
    var a := c.rp[0].ix;
    assert Refs(c.ext[1]) == [RefTo(c.st, a)];
    PointsOfOne(c.st, RefTo(c.st, a), |c.st|);
    assert ContentsFrom(c.st, c.ext, 2) == [] && OwnPoints(c.st, c.ext[0]) == [];
    assert ContentsFrom(c.st, c.ext, 1) == ContentsFrom(c.st, c.ext, 2) + OwnPoints(c.st, c.ext[1]);
    assert ContentsFrom(c.st, c.ext, 0) == ContentsFrom(c.st, c.ext, 1) + OwnPoints(c.st, c.ext[0]);
  }

  lemma NothingToRescue(st: seq<Block>, rp: seq<LogicAddr>)
    requires |rp| == 1 && rp[0] == EMPTY_ADDR
    ensures Unmodified(rp) == rp && ChainContents(st, rp, 0) == []
  {
    assert ChainContents(st, rp, 1) == [] && ChainFrom(st, EMPTY_ADDR) == [];
  }

  lemma {:induction false} EmptyBelow(st: seq<Block>, ext: seq<Extent>, k: nat)
    requires k < |ext| && forall i :: k <= i < |ext| - 1 ==> OwnPoints(st, ext[i]) == []
    ensures ContentsFrom(st, ext, k) == OwnPoints(st, ext[|ext| - 1])
    decreases |ext| - k
  {
    assert ContentsFrom(st, ext, k) == ContentsFrom(st, ext, k + 1) + OwnPoints(st, ext[k]);
    if k == |ext| - 1 {
      assert ContentsFrom(st, ext, k + 1) == [];
    } else {
      EmptyBelow(st, ext, k + 1);
    }
  }

  /** The state `open` restores from a root on level `n >= 1`. */
  ghost predicate IsReopened(c: Col)
  {
    var n := |c.rp| - 1;
    && 1 <= n == |c.ext| - 1 && ClosedOk(c.st, c.rp)
    && c.st[c.rp[n].ix].Inner? && c.ext[n] == RestoredSBlock(c.st[c.rp[n].ix])
    && forall i :: 0 <= i < n ==> c.ext[i] == if i == 0 then NewLeafExtent() else NewSBlockExtent(i)
  }

  lemma EmptyExtentOk(st: seq<Block>, i: nat)
    ensures var e := if i == 0 then NewLeafExtent() else NewSBlockExtent(i);
            ExtentOk(st, e, i) && OwnPoints(st, e) == []
  {
    assert PointsOf(st, [], |st|) == [];
  }

  lemma RestoredSBlockOk(st: seq<Block>, a: nat)
    requires StoreOk(st) && a < |st| && st[a].Inner? && st[a].meta.fanoutIndex == 0
    ensures ExtentOk(st, RestoredSBlock(st[a]), st[a].meta.level) && Refs(RestoredSBlock(st[a])) != []
  {
    assert BlockOk(st, a);
    LoadedRefs(st, a);
  }

  lemma OpenedRootOk(c: Col)
    requires IsReopened(c)
    ensures ColOk(c) && Busy(c)
  {
    var n := |c.rp| - 1;
    RestoredSBlockOk(c.st, c.rp[n].ix);
    forall i | 0 <= i < |c.ext|
      ensures ExtentOk(c.st, c.ext[i], i)
    {
      EmptyExtentOk(c.st, i);
    }
  }

  lemma OpenedRoot(c: Col)
    requires IsReopened(c)
    ensures Contents(c) == PointsAt(c.st, c.rp[|c.rp| - 1].ix) == OwnPoints(c.st, c.ext[|c.ext| - 1])
  {
    RestoredPoints(c.st, c.rp[|c.rp| - 1].ix);
    forall i | 0 <= i < |c.ext| - 1
      ensures OwnPoints(c.st, c.ext[i]) == []
    {
      EmptyExtentOk(c.st, i);
    }
    EmptyBelow(c.st, c.ext, 0);
  }

  lemma RestoredPoints(st: seq<Block>, a: nat)
    requires StoreOk(st) && a < |st| && st[a].Inner?
    ensures OwnPoints(st, RestoredSBlock(st[a])) == PointsAt(st, a)
  {
    assert BlockOk(st, a);
    LoadedRefs(st, a);
  }

  lemma EmptyExtents(c: Col, e: Extent)
    requires IsRebuilt(c, |c.rp| - 1)
    ensures forall i :: 0 <= i < |c.ext| ==> (c.ext + [e])[i] == if i == 0 then NewLeafExtent() else NewSBlockExtent(i)
  {
    forall i | 0 <= i < |c.ext|
      ensures (c.ext + [e])[i] == if i == 0 then NewLeafExtent() else NewSBlockExtent(i)
    {
      assert c.ext[i] == RebuiltExtent(c.st, c.rp, |c.rp| - 1, i);
    }
  }

  /** A column reopened from a root on level 1 or above never has the alignment of a first session: it starts with the
      references of the root on its top level. One reopened from a single leaf always has it. */
  lemma ReopenedAlignment(c: Col)
    requires |c.rp| == |c.ext|
    ensures IsReopened(c) ==> !AlignedFrom(c, 0, 0) && AlignedFrom(c, 0, |Refs(c.ext[|c.ext| - 1])|)
    ensures IsReopenedLeaf(c) ==> AlignedFrom(c, 0, 0)
  {
    hide PointsOf, PointsAt, StoreOk, AlignedFrom, IsReopened, IsReopenedLeaf;
    if IsReopenedLeaf(c) {
      ReopenedLeaf(c);
    }
    if IsReopened(c) {
      ReopenedRoot(c);
      NotAsAtFirst(c);
    }
  }

  lemma ReopenedLeaf(c: Col)
    requires IsReopenedLeaf(c)
    ensures |c.rp| == |c.ext| && AlignedFrom(c, 0, 0)
  {
    hide PointsOf, PointsAt;
    var a := c.rp[0].ix;
    RootChain(c.st, a);
    assert Refs(c.ext[1]) == [RefTo(c.st, a)] == Refs(c.ext[1])[0..];
    assert AlignedAt(c, 0, 0) && TopAligned(c.st, c.ext[1], c.rp[1], 0);
  }

  lemma NotAsAtFirst(c: Col)
    requires |c.rp| == |c.ext| && IsReopened(c)
    ensures !AlignedFrom(c, 0, 0)
  {
    hide StoreOk, PointsAt, PointsOf;
  }

  lemma ReopenedRoot(c: Col)
    requires |c.rp| == |c.ext| && IsReopened(c)
    ensures AlignedFrom(c, 0, |Refs(c.ext[|c.ext| - 1])|)
  {
    hide PointsOf, PointsAt;
    var n, refs := |c.ext| - 1, Refs(c.ext[|c.ext| - 1]);
    RestoredSBlockOk(c.st, c.rp[n].ix);
    RestoredPoints(c.st, c.rp[n].ix);
    RootChain(c.st, c.rp[n].ix);
    assert BlockOk(c.st, c.rp[n].ix);
    assert refs[..|refs|] == refs && refs[|refs|..] == [];
    forall i | 0 <= i < n
      ensures AlignedAt(c, i, |refs|)
    {
      NoChain(c.st);
      assert i + 1 < n ==> Refs(c.ext[i + 1])[0..] == [];
    }
  }

  /** The rescue points of a reopened leaf still hold what the leaf holds. */
  lemma LeafAlone(c: Col)
    requires IsReopenedLeaf(c)
    ensures Recovered(c.st, c.rp) == PointsAt(c.st, c.rp[0].ix)
  {
    hide PointsAt, PointsOf;
    RootChain(c.st, c.rp[0].ix);
    NoPoints(c.st);
    assert ChainContents(c.st, c.rp, 2) == [] && ChainContents(c.st, c.rp, 1) == [];
  }

  /** Everything `open` establishes, for either kind of root. */
  ghost predicate OpenedFrom(c: Col, rp: seq<LogicAddr>)
  {
    && ColOk(c) && Busy(c) && Rescuable(c.st, c.rp, -1)
    && |c.rp| == |c.ext| >= 2 && c.ext[0].LeafExtent? && OpenPoints(c.ext) == []
    && Unmodified(c.rp) == rp && Recovered(c.st, c.rp) == Recovered(c.st, rp)
    && Contents(c) == Recovered(c.st, rp) == OwnPoints(c.st, c.ext[|c.ext| - 1])
    && (AlignedFrom(c, 0, 0) <==> |rp| == 1)
    && (|rp| >= 2 ==> IsReopened(c) && c.rp == rp && AlignedFrom(c, 0, |Refs(c.ext[|c.ext| - 1])|))
  }

  lemma OpenedFromLeaf(c: Col)
    requires IsReopenedLeaf(c)
    ensures OpenedFrom(c, c.rp[..1])
  {
    hide PointsAt, AlignedFrom;
    OpenedLeaf(c);
    LeafAlone(c);
    ReopenedAlignment(c);
  }

  lemma OpenedFromRoot(c: Col)
    requires IsReopened(c)
    ensures OpenedFrom(c, c.rp)
  {
    hide PointsAt, AlignedFrom;
    OpenedRootOk(c);
    OpenedRoot(c);
    ReopenedAlignment(c);
  }

  /** Everything `repair` establishes. */
  lemma RepairedState(c: Col, rp: seq<LogicAddr>)
    requires RescueOk(c.st, rp) && !IsClosed(rp) && c.rp == Padded(rp) && IsRebuilt(c, -1)
    ensures ColOk(c) && Busy(c) && Rescuable(c.st, c.rp, -1) && |c.rp| == |c.ext| >= 1 && c.ext[0] == NewLeafExtent()
    ensures Contents(c) == Recovered(c.st, rp) == Recovered(c.st, c.rp)
    ensures RescueOk(c.st, c.rp) && (AlignedFrom(c, 0, 0) <==> SafeStart(c.st, rp))
    ensures if |c.ext| == 1 then Untouched(c) else Contents(c) != []
  {
    PaddedOk(c.st, rp);
    RebuiltOk(c, -1);
    RebuiltAll(c);
    RepairedSafe(c, rp);
    assert c.ext[0] == RebuiltExtent(c.st, c.rp, -1, 0);
    if |c.ext| >= 2 {
      BusyHoldsPoints(c);
    } else {
      NothingToRescue(c.st, c.rp);
    }
  }

  /** A column that has not been written to yet. */
  lemma EmptyState(c: Col)
    requires StoreOk(c.st) && c.ext == [] && c.rp == []
    ensures ColOk(c) && Busy(c) && Rescuable(c.st, c.rp, -1) && AlignedFrom(c, 0, 0) && SafeStart(c.st, c.rp)
    ensures Contents(c) == Recovered(c.st, c.rp) == [] && Untouched(c)
  {
  }

  /** Setting the rescue point completes the flush. */
  lemma FlushDone(a: Col, d: Col, p: Point, addr: LogicAddr)
    requires Flushed(a, d, p, addr) && addr != EMPTY_ADDR && ColOk(d) && Busy(d) && OnLevel(d.st, addr, 0)
    ensures var e := WithRescue(d, 0, addr);
            && ColOk(e) && Busy(e) && Contents(e) == Contents(d) && FlushedAt(a, e, p) && a.ext != []
            && Recovered(e.st, e.rp) == AfterCommit(a, 0) && (Rescuable(a.st, a.rp, -1) ==> Rescuable(e.st, e.rp, -1))
  {
    hide Flushed, Contents, Recovered, Rescuable;
    WithRescueOk(d, 0, addr);
    FlushedSaved(a, d, p, addr);
  }

  lemma NoRescuePoints(c: Col)
    requires ColOk(c) && c.ext == []
    ensures c.rp == [] && StoreOk(c.st)
  {
  }

  lemma LeafIsFirst(c: Col)
    requires ColOk(c) && c.ext != []
    ensures |c.rp| == |c.ext| && c.ext[0].LeafExtent?
  {
    assert ExtentOk(c.st, c.ext[0], 0);
  }

  /** The writer of one leaf accepted all of these points, one after the other. */
  ghost predicate FitsOneLeaf(accepts: (seq<Point>, Point) -> bool, pts: seq<Point>)
  {
    pts == [] || (FitsOneLeaf(accepts, pts[..|pts| - 1]) && accepts(pts[..|pts| - 1], pts[|pts| - 1]))
  }

  ghost predicate LeafFits(accepts: (seq<Point>, Point) -> bool, e: Extent)
  {
    e.LeafExtent? && FitsOneLeaf(accepts, e.leaf.points)
  }

  lemma LeafFitsMore(accepts: (seq<Point>, Point) -> bool, e: Extent, p: Point)
    requires e.LeafExtent? && accepts(e.leaf.points, p)
    ensures LeafFits(accepts, e) ==> LeafFits(accepts, AddPoint(e, p))
  {
    var pts := e.leaf.points;
    assert (pts + [p])[..|pts|] == pts;
  }

  /** A session that started with `r` references on its top level, 0 for a first session: the column is aligned and
      one leaf holds what is open. */
  ghost predicate Session(accepts: (seq<Point>, Point) -> bool, c: Col, r: nat)
  {
    |c.rp| == |c.ext| && AlignedFrom(c, 0, r) && (c.ext != [] ==> LeafFits(accepts, c.ext[0]))
  }

  ghost predicate KeepsSession(accepts: (seq<Point>, Point) -> bool, a: Col, b: Col)
  {
    forall r: nat :: Session(accepts, a, r) && (r == 0 || |b.ext| == |a.ext|) ==> Session(accepts, b, r)
  }

  lemma SessionKept(accepts: (seq<Point>, Point) -> bool, a: Col, b: Col)
    requires |a.rp| == |a.ext| > 0 && |b.rp| == |b.ext| > 0 && KeepsAlignment(a, b)
    requires LeafFits(accepts, a.ext[0]) ==> LeafFits(accepts, b.ext[0])
    ensures KeepsSession(accepts, a, b)
  {
    hide AlignedFrom, LeafFits;
  }

  /** One leaf took the points of every leaf that was stored, one after the other ... */
  ghost predicate LeavesFit(accepts: (seq<Point>, Point) -> bool, st: seq<Block>)
  {
    forall i :: 0 <= i < |st| && st[i].Leaf? ==> FitsOneLeaf(accepts, st[i].points)
  }

  /** ... and of every leaf that was stored since. */
  ghost predicate MoreFit(accepts: (seq<Point>, Point) -> bool, a: seq<Block>, b: seq<Block>)
  {
    a <= b && forall i :: |a| <= i < |b| && b[i].Leaf? ==> FitsOneLeaf(accepts, b[i].points)
  }

  lemma MoreFitTwice(accepts: (seq<Point>, Point) -> bool, a: seq<Block>, b: seq<Block>, c: seq<Block>)
    requires MoreFit(accepts, a, b) && MoreFit(accepts, b, c)
    ensures MoreFit(accepts, a, c)
  {
    hide FitsOneLeaf;
    forall i | |a| <= i < |c| && c[i].Leaf?
      ensures FitsOneLeaf(accepts, c[i].points)
    {
      assert i < |b| ==> c[i] == b[i];
    }
  }

  lemma MoreFitNone(accepts: (seq<Point>, Point) -> bool, a: seq<Block>)
    ensures MoreFit(accepts, a, a)
  {
  }

  lemma MoreFitOne(accepts: (seq<Point>, Point) -> bool, a: seq<Block>, b: Block)
    requires b.Leaf? ==> FitsOneLeaf(accepts, b.points)
    ensures MoreFit(accepts, a, a + [b])
  {
  }

  lemma LeavesStillFit(accepts: (seq<Point>, Point) -> bool, a: seq<Block>, b: seq<Block>)
    requires LeavesFit(accepts, a) && MoreFit(accepts, a, b)
    ensures LeavesFit(accepts, b)
  {
    hide FitsOneLeaf;
    forall i | 0 <= i < |b| && b[i].Leaf?
      ensures FitsOneLeaf(accepts, b[i].points)
    {
      assert i < |a| ==> b[i] == a[i];
    }
  }

  class BlockStore {
    var blocks: seq<Block>

    constructor ()
      ensures blocks == []
    {
      blocks := [];
    }

    /** `append_block`: every block gets the next address. */
    method AppendBlock(b: Block) returns (addr: LogicAddr)
      modifies this
      ensures blocks == old(blocks) + [b] && addr == At(|old(blocks)|)
    {
      addr := At(|blocks|);
      blocks := blocks + [b];
    }
  }

  class ExtentsList {
    const bstore: BlockStore
    /** Whether the leaf's block writer accepts one more point after those it holds. */
    const accepts: (seq<Point>, Point) -> bool
    var extents: seq<Extent>
    var rescuePoints: seq<LogicAddr>
    var last: Timestamp
    var initialized: bool
    var writeCount: nat

    ghost function Snap(): Col
      reads this, bstore
    {
      Col(bstore.blocks, extents, rescuePoints)
    }

    /** An empty leaf accepts any point. */
    ghost predicate LeafHasRoom()
      reads this
    {
      forall p: Point :: accepts([], p)
    }

    /** Initialized and well formed, or not initialized yet and startable from the rescue points. */
    ghost predicate Ready()
      reads this, bstore
    {
      && LeafHasRoom()
      && (if initialized then ColOk(Snap()) && Busy(Snap()) && Rescuable(bstore.blocks, rescuePoints, -1)
          else extents == [] && Startable(bstore.blocks, rescuePoints))
      && Counted()
    }

    /** What the write counter says about the column. */
    ghost predicate Counted()
      reads this, bstore
    {
      (writeCount > 0 ==> Held() != []) && (initialized && writeCount == 0 ==> Untouched(Snap()))
    }

    /** Everything the column holds. */
    ghost function Held(): seq<Point>
      reads this, bstore
    {
      if initialized then Contents(Snap()) else Recovered(bstore.blocks, rescuePoints)
    }

    /** The timestamp that late writes are measured against, once initialized. */
    ghost function Latest(): Timestamp
      reads this, bstore
    {
      if !initialized && IsClosed(rescuePoints) then LastTimestamp(Held()) else last
    }

    /** What a crash leaves: the points that a new list started from the rescue points would hold. */
    ghost function Saved(): seq<Point>
      reads this, bstore
    {
      Recovered(bstore.blocks, rescuePoints)
    }

    /** A column that was created empty, and every other one that starts as well aligned: each crash loses the
        open leaf and nothing else. */
    ghost predicate CrashSafe()
      reads this, bstore
    {
      if !initialized then SafeStart(bstore.blocks, rescuePoints)
      else Session(accepts, Snap(), 0)
    }

    /** A session that was opened from a root with `r` children, and has no more levels than then. */
    ghost predicate Since(r: nat)
      reads this, bstore
    {
      initialized && r > 0 && extents != [] && Session(accepts, Snap(), r)
    }

    /** Every leaf, stored or open, was accepted point by point. */
    ghost predicate Fitting()
      reads this, bstore
    {
      LeavesFit(accepts, bstore.blocks) && (initialized && extents != [] ==> LeafFits(accepts, extents[0]))
    }

    /** Points are in time order and the newest is the one late writes are measured against. */
    ghost predicate Ordered()
      reads this, bstore
    {
      Sorted(Held()) && LastTimestamp(Held()) == Latest()
    }

    constructor (bstore: BlockStore, accepts: (seq<Point>, Point) -> bool, rescuePoints: seq<LogicAddr>)
      ensures this.bstore == bstore && this.accepts == accepts && this.rescuePoints == rescuePoints
      ensures extents == [] && last == 0 && !initialized && writeCount == 0
    {
      this.bstore, this.accepts, this.rescuePoints := bstore, accepts, rescuePoints;
      extents, last, initialized, writeCount := [], 0, false, 0;
    }

    // ---- Committing and pushing ------------------------------------------------------------------

    /** `NBTreeExtentsList::append(SubtreeRef)`. */
    method AppendSubtree(pl: SubtreeRef) returns (saved: bool)
      requires ColOk(Snap()) && pl.level + 1 <= |extents| && RefOk(bstore.blocks, pl, pl.level, |bstore.blocks|)
      modifies `extents, `rescuePoints, `writeCount, bstore
      ensures Pushed(old(Snap()), Snap(), pl.level + 1, pl)
      ensures PushedContents(old(Snap()), Snap(), pl.level + 1, pl)
      ensures PushedAligned(old(Snap()), Snap(), pl.level + 1, pl)
      ensures PushedSaved(old(Snap()), Snap(), pl.level + 1) && PushedShape(old(Snap()), Snap(), pl.level + 1)
      ensures writeCount > old(writeCount) && MoreFit(accepts, old(bstore.blocks), bstore.blocks)
      ensures HasRoom(old(Snap()), pl.level + 1) || pl.level + 1 == |old(extents)| ==> writeCount == old(writeCount) + 1
      decreases |extents| - (pl.level + 1), 3
    {
      var lvl := pl.level + 1;
      ghost var a := Snap();
      ghost var isNew := lvl == |extents|;
      if |extents| == lvl {
        NewLevelOk(a);
        extents := extents + [NewSBlockExtent(lvl)];
        rescuePoints := rescuePoints + [EMPTY_ADDR];
      }
      writeCount := writeCount + 1;
      var parentSaved, addr := SBlockAppend(lvl, pl);
      if addr != EMPTY_ADDR {
        rescuePoints := rescuePoints[lvl := addr];
        saved := true;
      } else {
        saved := false;
      }
      if isNew {
        NewLevel(a, Snap(), pl);
        NewTopSaved(a, pl);
        NewTopShape(a, pl);
      }
    }

    /** `NBTreeSBlockExtent::append`: a full node is committed and the reference goes into the fresh one. */
    method SBlockAppend(lvl: nat, pl: SubtreeRef) returns (parentSaved: bool, addr: LogicAddr)
      requires ColOk(Snap()) && 1 <= lvl < |extents| && RefOk(bstore.blocks, pl, lvl - 1, |bstore.blocks|)
      modifies `extents, `rescuePoints, `writeCount, bstore
      ensures Pushed(old(Snap()), WithRescue(Snap(), lvl, addr), lvl, pl)
      ensures PushedContents(old(Snap()), WithRescue(Snap(), lvl, addr), lvl, pl)
      ensures PushedAligned(old(Snap()), WithRescue(Snap(), lvl, addr), lvl, pl)
      ensures PushedSaved(old(Snap()), WithRescue(Snap(), lvl, addr), lvl) && PushedShape(old(Snap()), Snap(), lvl)
      ensures addr != EMPTY_ADDR <==> |Refs(old(extents)[lvl])| >= 32
      ensures lvl < |rescuePoints| == |extents| && writeCount >= old(writeCount)
      ensures MoreFit(accepts, old(bstore.blocks), bstore.blocks)
      ensures HasRoom(old(Snap()), lvl) ==> addr == EMPTY_ADDR && writeCount == old(writeCount)
      decreases if HasRoom(Snap(), lvl) then 0 else |extents| - lvl, 2
    {
      ghost var a := Snap();
      assert ExtentOk(a.st, a.ext[lvl], lvl);
      if |extents[lvl].curr.refs| >= FANOUT {
        parentSaved, addr := CommitSBlock(lvl, false);
        ghost var c := Snap();
        CommittedHasRoom(a, c, lvl, pl, addr);
        var _, _ := SBlockAppend(lvl, pl);
        CommitThenAdd(a, c, Snap(), lvl, pl, addr);
        CommitThenAddMore(a, c, lvl, pl, addr);
        FullSaved(a, Snap(), lvl, addr);
        FullShape(a, c, lvl, pl);
        MoreFitTwice(accepts, a.st, c.st, bstore.blocks);
      } else {
        AddRefStep(a, lvl, pl);
        AddRefMore(a, lvl, pl);
        RoomSaved(a, lvl, pl);
        RoomShape(a, lvl, pl);
        MoreFitNone(accepts, a.st);
        extents := extents[lvl := AddRef(extents[lvl], pl)];
        parentSaved, addr := false, EMPTY_ADDR;
      }
    }

    /** `IOVecSuperblock::commit`: summarise the children, write the node. */
    method WriteSBlock(lvl: nat) returns (pl: SubtreeRef, ghost b: Block)
      requires ColOk(Snap()) && 1 <= lvl < |extents| && Refs(extents[lvl]) != []
      modifies bstore
      ensures ColOk(Snap()) && bstore.blocks == old(bstore.blocks) + [b] && Writes(old(Snap()), lvl, b) && b.Inner?
      ensures pl == RefTo(bstore.blocks, |old(bstore.blocks)|) && RefOk(bstore.blocks, pl, lvl, |bstore.blocks|)
    {
      ghost var a := Snap();
      assert ExtentOk(a.st, a.ext[lvl], lvl);
      var e := extents[lvl];
      RefsHaveValues(a, lvl);
      var agg := SummariseSubtree(e.curr.refs);
      WritesSBlock(a, lvl, agg);
      WrittenRef(a, lvl, SBlock(e, agg));
      b := SBlock(e, agg);
      var addr := bstore.AppendBlock(SBlock(e, agg));
      pl := SubtreeRef(agg, addr, INNER, e.curr.level, e.curr.fanoutIndex);
    }

    /** `IOVecLeaf::commit` and `init_subtree_from_leaf`. */
    method WriteLeaf() returns (pl: SubtreeRef, ghost b: Block)
      requires ColOk(Snap()) && |extents| > 0 && extents[0].LeafExtent? && extents[0].leaf.points != []
      modifies bstore
      ensures ColOk(Snap()) && bstore.blocks == old(bstore.blocks) + [b] && Writes(old(Snap()), 0, b)
      ensures b == LeafBlock(extents[0])
      ensures pl == RefTo(bstore.blocks, |old(bstore.blocks)|) && RefOk(bstore.blocks, pl, 0, |bstore.blocks|)
    {
      ghost var a := Snap();
      var e := extents[0];
      WritesLeaf(a);
      WrittenRef(a, 0, LeafBlock(e));
      b := LeafBlock(e);
      var addr := bstore.AppendBlock(LeafBlock(e));
      pl := SubtreeRef(e.leaf.meta, addr, LEAF, 0, e.leaf.fanoutIndex);
    }

    /** `NBTreeSBlockExtent::commit`. While closing (`final`) the top node has no parent to be pushed to. */
    method CommitSBlock(lvl: nat, final: bool) returns (parentSaved: bool, addr: LogicAddr)
      requires ColOk(Snap()) && 1 <= lvl < |extents| && Refs(extents[lvl]) != []
      modifies `extents, `rescuePoints, `writeCount, bstore
      ensures !final || |old(rescuePoints)| > lvl + 1 ==>
              && Committed(old(Snap()), Snap(), lvl, addr) && CommittedContents(old(Snap()), Snap(), lvl)
              && CommittedAligned(old(Snap()), Snap(), lvl, addr) && CommittedSaved(old(Snap()), Snap(), lvl, addr)
              && CommittedShape(old(Snap()), Snap(), lvl)
      ensures final && |old(rescuePoints)| <= lvl + 1 ==> Stored(old(Snap()), Snap(), lvl, addr) && !parentSaved
      ensures writeCount >= old(writeCount) && MoreFit(accepts, old(bstore.blocks), bstore.blocks)
      decreases |extents| - lvl, 1
    {
      ghost var a := Snap();
      ghost var b;
      var pl;
      pl, b := WriteSBlock(lvl);
      addr := pl.addr;
      MoreFitOne(accepts, a.st, b);
      if !final || |rescuePoints| > lvl + 1 {
        parentSaved := PushAndReset(a, lvl, pl, b);
        MoreFitTwice(accepts, a.st, a.st + [b], bstore.blocks);
      } else {
        StoreSteps(a, lvl, b);
        parentSaved := false;
        extents := extents[lvl := Reset(extents[lvl], addr)];
      }
    }

    /** The second half of `commit` on either kind of extent: push the summary, open the next node. */
    method PushAndReset(ghost a: Col, lvl: nat, pl: SubtreeRef, ghost b: Block) returns (parentSaved: bool)
      requires ColOk(a) && Writes(a, lvl, b) && Snap() == a.(st := a.st + [b]) && ColOk(Snap())
      requires pl == RefTo(bstore.blocks, |a.st|) && RefOk(bstore.blocks, pl, lvl, |bstore.blocks|)
      modifies `extents, `rescuePoints, `writeCount, bstore
      ensures Committed(a, Snap(), lvl, pl.addr) && CommittedContents(a, Snap(), lvl)
      ensures CommittedAligned(a, Snap(), lvl, pl.addr) && CommittedSaved(a, Snap(), lvl, pl.addr)
      ensures CommittedShape(a, Snap(), lvl)
      ensures writeCount >= old(writeCount) && MoreFit(accepts, old(bstore.blocks), bstore.blocks)
      decreases |extents| - (lvl + 1), 4
    {
      hide PushedContents, PushedAligned, PushedSaved, Committed, CommittedContents, CommittedAligned, CommittedSaved,
          MoreFit, PushedShape, CommittedShape;
      parentSaved := AppendSubtree(pl);
      ghost var c := Snap();
      extents := extents[lvl := Reset(extents[lvl], pl.addr)];
      CommitAll(a, lvl, b, c, Snap());
      CommitSaved(a, lvl, b, c, Snap());
      CommitShaped(a, lvl, a.st + [b], c, pl.addr);
    }

    /** `NBTreeLeafExtent::commit`. */
    method CommitLeaf(final: bool) returns (parentSaved: bool, addr: LogicAddr)
      requires ColOk(Snap()) && |extents| > 0 && extents[0].LeafExtent? && extents[0].leaf.points != []
      modifies `extents, `rescuePoints, `writeCount, bstore
      ensures !final || |old(rescuePoints)| > 1 ==>
              && Committed(old(Snap()), Snap(), 0, addr) && CommittedContents(old(Snap()), Snap(), 0)
              && CommittedAligned(old(Snap()), Snap(), 0, addr) && CommittedSaved(old(Snap()), Snap(), 0, addr)
              && CommittedShape(old(Snap()), Snap(), 0)
      ensures final && |old(rescuePoints)| <= 1 ==> Stored(old(Snap()), Snap(), 0, addr) && !parentSaved
      ensures writeCount >= old(writeCount)
      ensures LeafFits(accepts, old(extents[0])) ==> MoreFit(accepts, old(bstore.blocks), bstore.blocks)
    {
      ghost var a := Snap();
      ghost var b;
      var pl;
      pl, b := WriteLeaf();
      addr := pl.addr;
      if LeafFits(accepts, a.ext[0]) {
        MoreFitOne(accepts, a.st, b);
      }
      if !final || |rescuePoints| > 1 {
        parentSaved := PushAndReset(a, 0, pl, b);
        if LeafFits(accepts, a.ext[0]) {
          MoreFitTwice(accepts, a.st, a.st + [b], bstore.blocks);
        }
      } else {
        StoreSteps(a, 0, b);
        parentSaved := false;
        extents := extents[0 := Reset(extents[0], addr)];
      }
    }

    // ---- Appending points ------------------------------------------------------------------------

    /** `NBTreeLeafExtent::append`. */
    method LeafAppend(p: Point) returns (parentSaved: bool, addr: LogicAddr)
      requires LeafHasRoom() && ColOk(Snap()) && Busy(Snap()) && |extents| > 0 && extents[0].LeafExtent?
      modifies `extents, `rescuePoints, `writeCount, bstore
      ensures ColOk(Snap()) && Busy(Snap()) && |extents| >= |old(extents)|
      ensures Contents(Snap()) == Contents(old(Snap())) + [p]
      ensures KeepsAlignment(old(Snap()), WithRescue(Snap(), 0, addr))
      ensures LeafFits(accepts, old(extents[0])) ==>
              LeafFits(accepts, extents[0]) && MoreFit(accepts, old(bstore.blocks), bstore.blocks)
      ensures OnLevel(bstore.blocks, addr, 0) && old(bstore.blocks) <= bstore.blocks
      ensures extents[0].LeafExtent? && extents[0].leaf.points != [] && writeCount >= old(writeCount)
      ensures addr == EMPTY_ADDR <==> accepts(old(extents[0].leaf.points), p)
      ensures addr == EMPTY_ADDR ==> Snap() == WithPoint(old(Snap()), p)
      ensures addr != EMPTY_ADDR ==> Flushed(old(Snap()), Snap(), p, addr)
      decreases |extents[0].leaf.points|
    {
      ghost var a := Snap();
      if accepts(extents[0].leaf.points, p) {
        AddPointStep(a, p);
        AddPointAligned(a, p);
        LeafFitsMore(accepts, extents[0], p);
        MoreFitNone(accepts, a.st);
        extents := extents[0 := AddPoint(extents[0], p)];
        parentSaved, addr := false, EMPTY_ADDR;
      } else {
        parentSaved, addr := CommitLeaf(false);
        ghost var c := Snap();
        RefilledLeaf(a, c, addr, p);
        var _, _ := LeafAppend(p);
        assert FlushedFrom(a, c, addr);
        if LeafFits(accepts, a.ext[0]) {
          MoreFitTwice(accepts, a.st, c.st, bstore.blocks);
        }
      }
    }

    /** `NBTreeExtentsList::append(ts, value)`. */
    method Append(ts: Timestamp, value: Value, allowDuplicates: bool) returns (result: AppendResult)
      requires Ready()
      modifies this, bstore
      ensures Ready() && initialized
      ensures result == FAIL_LATE_WRITE <==> if allowDuplicates then ts < old(Latest()) else ts <= old(Latest())
      ensures old(Ordered()) ==> (result == FAIL_LATE_WRITE <==>
                if allowDuplicates then ts < old(LastTimestamp(Held())) else ts <= old(LastTimestamp(Held())))
      ensures result == FAIL_LATE_WRITE ==> Held() == old(Held()) && last == old(Latest())
      ensures result == FAIL_LATE_WRITE && old(initialized) ==> Snap() == old(Snap())
      ensures result != FAIL_LATE_WRITE ==> Held() == old(Held()) + [Point(ts, value)] && last == ts
      ensures result != FAIL_LATE_WRITE ==> writeCount > 0
      ensures result == OK_FLUSH_NEEDED <==>
              result != FAIL_LATE_WRITE && !accepts(old(OpenPoints(extents)), Point(ts, value))
      ensures result == OK_FLUSH_NEEDED ==> old(extents) != [] && FlushedAt(old(Snap()), Snap(), Point(ts, value))
      ensures Saved() == if result == OK_FLUSH_NEEDED then AfterCommit(old(Snap()), 0) else old(Saved())
      ensures result == OK && old(initialized) ==> AddedTo(Begun(old(Snap())), Snap(), Point(ts, value))
      ensures (old(CrashSafe()) ==> CrashSafe()) && (old(Fitting()) ==> Fitting())
      ensures |extents| >= |old(extents)| && forall r: nat :: old(Since(r)) && |extents| == |old(extents)| ==> Since(r)
      ensures old(Ordered()) ==> Ordered()
      ensures old(bstore.blocks) <= bstore.blocks
    {
      hide ColOk, Busy, Rescuable, Contents, Recovered, AlignedFrom, Untouched, FlushedAt, AfterCommit, Sorted,
          IsRebuilt, IsReopened, LeavesFit, LeafFits;
      if !initialized {
        Init();
      }
      if if allowDuplicates then ts < last else ts <= last {
        return FAIL_LATE_WRITE;
      }
      ghost var before := Held();
      result := Accept(Point(ts, value));
      AppendKeepsOrder(before, Point(ts, value));
    }

    /** The rest of `append`: the point is not late. */
    method Accept(p: Point) returns (result: AppendResult)
      requires Ready() && initialized
      modifies this, bstore
      ensures Ready() && initialized && last == p.ts && result != FAIL_LATE_WRITE && writeCount > 0
      ensures Held() == old(Held()) + [p]
      ensures result == OK_FLUSH_NEEDED <==> !accepts(old(OpenPoints(extents)), p)
      ensures result == OK_FLUSH_NEEDED ==> old(extents) != [] && FlushedAt(old(Snap()), Snap(), p)
      ensures Saved() == if result == OK_FLUSH_NEEDED then AfterCommit(old(Snap()), 0) else old(Saved())
      ensures result == OK ==> AddedTo(Begun(old(Snap())), Snap(), p)
      ensures (old(CrashSafe()) ==> CrashSafe()) && (old(Fitting()) ==> Fitting())
      ensures |extents| >= |old(extents)| && forall r: nat :: old(Since(r)) && |extents| == |old(extents)| ==> Since(r)
      ensures old(bstore.blocks) <= bstore.blocks
    {
      hide Flushed, FlushedAt, Recovered, Rescuable, AfterCommit, Contents, AlignedFrom, Untouched, Session,
          KeepsAlignment, LeafFits, LeavesFit, MoreFit, ColOk, Busy;
      last := p.ts;
      writeCount := writeCount + 1;
      if |extents| == 0 {
        NoRescuePoints(Snap());
        EmptyState(Snap());
        extents := [NewLeafExtent()];
        rescuePoints := rescuePoints + [EMPTY_ADDR];
        FirstLeaf(Snap());
      }
      result := OK;
      LeafIsFirst(Snap());
      ghost var a := Snap();
      var parentSaved, addr := LeafAppend(p);
      LeafIsFirst(Snap());
      SessionKept(accepts, a, WithRescue(Snap(), 0, addr));
      if LeafFits(accepts, a.ext[0]) && LeavesFit(accepts, a.st) {
        LeavesStillFit(accepts, a.st, bstore.blocks);
      }
      if addr != EMPTY_ADDR {
        FlushDone(a, Snap(), p, addr);
        rescuePoints := rescuePoints[0 := addr];
        result := OK_FLUSH_NEEDED;
      }
    }

    // ---- Starting a column -------------------------------------------------------------------------

    /** `NBTreeExtentsList::init`. */
    method Init()
      requires Ready() && !initialized
      modifies this, bstore
      ensures Ready() && initialized && Held() == old(Held()) && last == old(Latest())
      ensures old(last) == 0 ==>
              (last == LastTimestamp(Held()) <==>
                 IsClosed(old(rescuePoints)) || Held() == [] || LastTimestamp(Held()) == 0)
      ensures (CrashSafe() <==> old(CrashSafe())) && (old(Fitting()) ==> Fitting())
      ensures bstore.blocks == old(bstore.blocks) && Saved() == old(Saved()) && OpenPoints(extents) == []
      ensures extents == [] <==> old(rescuePoints) == []
      ensures old(rescuePoints) != [] && !IsClosed(old(rescuePoints)) ==>
              RescueOk(bstore.blocks, rescuePoints) && rescuePoints == Padded(old(rescuePoints)) &&
                  IsRebuilt(Snap(), -1)
      ensures IsClosed(old(rescuePoints)) && |old(rescuePoints)| >= 2 ==>
              IsReopened(Snap()) && rescuePoints == old(rescuePoints) && Since(|Refs(extents[|extents| - 1])|)
    {
      hide IsRebuilt, Recovered, AlignedFrom, Contents, Padded, Busy, ColOk, Rescuable, LeavesFit;
      ghost var rp := rescuePoints;
      initialized := true;
      if rescuePoints != [] {
        RepairStatusMeaning(rescuePoints);
        if RepairStatusOk(rescuePoints) {
          Open();
        } else {
          Repair();
          RepairedState(Snap(), rp);
        }
      } else {
        EmptyState(Snap());
      }
    }

    /** `NBTreeExtentsList::repair`: follow the back-links of every rescue point, newest node first, and
        insert what was found in the order it was written. */
    method Repair()
      requires extents == [] && RescueOk(bstore.blocks, rescuePoints) && !IsClosed(rescuePoints)
      modifies `extents, `rescuePoints, `writeCount, bstore
      ensures bstore.blocks == old(bstore.blocks) && rescuePoints == Padded(old(rescuePoints))
      ensures IsRebuilt(Snap(), -1) && if |rescuePoints| == 1 then writeCount == old(writeCount) else writeCount > 0
    {
      hide IsRebuilt, RescueOk, Following, ChainFrom, Recovered, IsClosed, StoreOk, ChainContents;
      ghost var st, rp := bstore.blocks, rescuePoints;
      RescueShape(st, rp);
      extents := CreateEmptyExtents(|rescuePoints|, st, rp);
      var stack := rescuePoints;
      var refs: seq<SubtreeRef> := [];
      assert rp[..|rp|] == rp;
      FollowingStart(st, rp, |rp| - 1);
      PaddedOk(st, rp);
      while stack != []
        invariant bstore.blocks == st && |stack| <= |rp| && rescuePoints == if |stack| == |rp| then rp else Padded(rp)
        invariant if |rp| == 1 then writeCount == old(writeCount) else |stack| < |rp| - 1 ==> writeCount > 0
        invariant |stack| < |rp| && rp[|rp| - 1] != EMPTY_ADDR ==> writeCount > 0
        invariant IsRebuilt(Snap(), |stack| - 1)
        invariant stack != [] ==> Following(st, rescuePoints, stack, refs)
        decreases |stack|, if stack == [] || stack[|stack| - 1] == EMPTY_ADDR then 0 else stack[|stack| - 1].ix + 1
      {
        if stack[|stack| - 1] == EMPTY_ADDR {
          stack := InsertLevel(stack, refs);
          refs := [];
        } else {
          stack, refs := FollowBack(stack, refs, rescuePoints);
        }
      }
    }

    /** A chain has been followed to its end: insert it and turn to the level below. */
    method InsertLevel(stack: seq<LogicAddr>, refs: seq<SubtreeRef>) returns (rest: seq<LogicAddr>)
      requires RescueOk(bstore.blocks, rescuePoints) && 1 <= |stack| <= |rescuePoints| && IsRebuilt(Snap(), |stack| - 1)
      requires Following(bstore.blocks, rescuePoints, stack, refs) && stack[|stack| - 1] == EMPTY_ADDR
      modifies `extents, `rescuePoints, `writeCount, bstore
      ensures bstore.blocks == old(bstore.blocks)
      ensures rescuePoints == if |stack| == |old(rescuePoints)| then Padded(old(rescuePoints)) else old(rescuePoints)
      ensures |rest| == |stack| - 1 && IsRebuilt(Snap(), |rest| - 1)
      ensures rest != [] ==> Following(bstore.blocks, rescuePoints, rest, [])
      ensures if old(rescuePoints)[|rest|] == EMPTY_ADDR then writeCount == old(writeCount)
              else writeCount > old(writeCount)
    {
      FollowingEnd(bstore.blocks, rescuePoints, stack, refs);
      rest := stack[..|stack| - 1];
      assert rest == rescuePoints[..|rest|];
      if rest != [] {
        FollowingStart(bstore.blocks, rescuePoints, |rest| - 1);
      }
      InsertBackwards(refs, |rest|);
    }

    /** One node back on the chain at the top of the stack. */
    method FollowBack(stack: seq<LogicAddr>, refs: seq<SubtreeRef>, ghost rp: seq<LogicAddr>)
      returns (stack': seq<LogicAddr>, refs': seq<SubtreeRef>)
      requires StoreOk(bstore.blocks) && 1 <= |stack| <= |rp| && Following(bstore.blocks, rp, stack, refs) &&
               stack[|stack| - 1].At?
      ensures |stack'| == |stack| && Following(bstore.blocks, rp, stack', refs')
      ensures stack'[|stack'| - 1].At? ==> stack'[|stack'| - 1].ix < stack[|stack| - 1].ix
    {
      FollowingStep(bstore.blocks, rp, stack, refs);
      var ref, prev := ReadRef(stack[|stack| - 1]);
      refs' := refs + [ref];
      stack' := stack[..|stack| - 1] + [prev];
    }

    /** The reference repair builds for a committed node. */
    method ReadRef(addr: LogicAddr) returns (ref: SubtreeRef, prev: LogicAddr)
      requires StoreOk(bstore.blocks) && addr.At? && addr.ix < |bstore.blocks|
      ensures ref == RefTo(bstore.blocks, addr.ix)
      ensures prev == bstore.blocks[addr.ix].meta.addr && (prev.At? ==> prev.ix < addr.ix)
    {
      assert BlockOk(bstore.blocks, addr.ix);
      prev := bstore.blocks[addr.ix].meta.addr;
      match bstore.blocks[addr.ix]
      case Leaf(meta, _) =>
        ref := meta.(addr := addr);
      case Inner(meta, refs) =>
        SummaryOfBlock(bstore.blocks, addr.ix);
        var agg := SummariseSubtree(refs);
        ref := SubtreeRef(agg, addr, INNER, meta.level, meta.fanoutIndex);
    }

    /** The inner loop of `repair`: `refs` holds level `j` newest first. */
    method InsertBackwards(refs: seq<SubtreeRef>, j: nat)
      requires RescueOk(bstore.blocks, rescuePoints) && IsRebuilt(Snap(), j) && j < |rescuePoints|
      requires Backwards(refs) == ChainFrom(bstore.blocks, rescuePoints[j])
      modifies `extents, `rescuePoints, `writeCount, bstore
      ensures bstore.blocks == old(bstore.blocks)
      ensures rescuePoints == if j + 1 == |old(rescuePoints)| then Padded(old(rescuePoints)) else old(rescuePoints)
      ensures IsRebuilt(Snap(), j - 1)
      ensures if old(rescuePoints)[j] == EMPTY_ADDR then writeCount == old(writeCount) else writeCount > old(writeCount)
    {
      ghost var base := Snap();
      assert OnLevel(base.st, base.rp[j], j);
      ChainsOk(base.st, base.rp[j], j);
      InsertingStart(base, j);
      var i := |refs|;
      while i > 0
        invariant 0 <= i <= |refs| == |ChainFrom(base.st, base.rp[j])|
        invariant Inserting(Snap(), base, j, |refs| - i) && writeCount == old(writeCount) + |refs| - i
      {
        i := i - 1;
        BackwardsIndex(refs, |refs| - 1 - i);
        InsertOne(refs[i], base, j, |refs| - 1 - i);
      }
      InsertingDone(Snap(), base, j);
    }

    method InsertOne(ref: SubtreeRef, ghost base: Col, ghost j: nat, ghost n: nat)
      requires Inserting(Snap(), base, j, n) && n < |ChainFrom(base.st, base.rp[j])| &&
               ref == ChainFrom(base.st, base.rp[j])[n]
      modifies `extents, `rescuePoints, `writeCount, bstore
      ensures Inserting(Snap(), base, j, n + 1) && writeCount == old(writeCount) + 1
    {
      hide Inserting, Pushed, PushedContents, PushedAligned, PushedSaved, ColOk, ChainFrom, HasRoom, Inserts;
      ghost var c := Snap();
      InsertingOk(c, base, j, n);
      InsertingReady(c, base, j, n);
      var _ := AppendSubtree(ref);
      PushedInserts(c, Snap(), j + 1, ref);
      InsertingNext(c, Snap(), base, j, n);
    }

    /** `create_empty_extents`. */
    static method CreateEmptyExtents(nlevels: nat, ghost st: seq<Block>, ghost rp: seq<LogicAddr>)
      returns (extents: seq<Extent>)
      requires nlevels == |rp|
      ensures IsRebuilt(Col(st, extents, rp), |rp| - 1)
    {
      extents := [];
      for i := 0 to nlevels
        invariant |extents| == i
        invariant forall k {:trigger RebuiltExtent(st, rp, |rp| - 1, k)} :: 0 <= k < i ==>
                  extents[k] == RebuiltExtent(st, rp, |rp| - 1, k)
      {
        extents := extents + [if i == 0 then NewLeafExtent() else NewSBlockExtent(i)];
      }
    }

    /** `NBTreeExtentsList::open`: the root is loaded copy-on-write, all other levels start empty, and the
        newest timestamp is read back from the tree. */
    method Open()
      requires extents == [] && ClosedOk(bstore.blocks, rescuePoints)
      modifies `extents, `rescuePoints, `last
      ensures OpenedFrom(Snap(), old(rescuePoints))
      ensures last == LastTimestamp(Contents(Snap()))
    {
      hide ClosedOk, ColOk, Busy, Rescuable, Recovered, Contents, OwnPoints, AlignedFrom;
      ClosedSorted(bstore.blocks, rescuePoints);
      LoadRoot();
      RestoreLast();
    }

    method LoadRoot()
      requires extents == [] && ClosedOk(bstore.blocks, rescuePoints)
      modifies `extents, `rescuePoints
      ensures OpenedFrom(Snap(), old(rescuePoints))
    {
      var n := |rescuePoints|;
      var addr := rescuePoints[n - 1];
      var block := bstore.blocks[addr.ix];
      assert BlockOk(bstore.blocks, addr.ix);
      if n < 2 {
        var sref, _ := ReadRef(addr);
        extents := [RestoredLeaf(addr, block.meta.fanoutIndex), AddRef(NewSBlockExtent(1), sref)];
        rescuePoints := rescuePoints + [EMPTY_ADDR];
        assert rescuePoints[..1] == old(rescuePoints);
        OpenedFromLeaf(Snap());
      } else {
        extents := CreateEmptyExtents(n - 1, bstore.blocks, rescuePoints[..n - 1]);
        EmptyExtents(Col(bstore.blocks, extents, rescuePoints[..n - 1]), RestoredSBlock(block));
        extents := extents + [RestoredSBlock(block)];
        OpenedFromRoot(Snap());
      }
    }

    /** The end of `open`: one point read backwards from the top extent. */
    method RestoreLast()
      requires ColOk(Snap()) && |extents| >= 2 && Sorted(OwnPoints(bstore.blocks, extents[|extents| - 1]))
      modifies `last
      ensures last == LastTimestamp(OwnPoints(bstore.blocks, extents[|extents| - 1]))
    {
      hide StoreOk, PointsOf, Sorted, RefsOk, LinkOk;
      var top := |extents| - 1;
      assert ExtentOk(bstore.blocks, extents[top], top);
      last := NewestTimestamp(bstore.blocks, extents[top].curr.refs, top);
    }

    // ---- Closing a column --------------------------------------------------------------------------

    /** `NBTreeExtentsList::close`. */
    method Close() returns (roots: seq<LogicAddr>)
      requires Ready()
      modifies this, bstore
      ensures !initialized && extents == [] && roots == rescuePoints && last == old(last)
      ensures Held() == old(Held()) && (Sorted(Held()) ==> Ready())
      ensures old(initialized) ==> IsClosed(roots) || Held() == []
      ensures old(initialized) && writeCount > 0 ==> IsClosed(roots)
      ensures old(initialized) && old(writeCount) > 0 && Roomy(old(extents), 0) ==> |roots| == |old(rescuePoints)|
      ensures old(bstore.blocks) <= bstore.blocks && (old(Fitting()) ==> Fitting())
    {
      if initialized {
        if writeCount > 0 {
          var addr := CommitDirty();
          if old(Fitting()) {
            LeavesStillFit(accepts, old(bstore.blocks), bstore.blocks);
          }
          ClosedRoot(Snap(), addr, old(Held()));
          rescuePoints := Roots(|rescuePoints|, addr);
        } else if |rescuePoints| == 2 && rescuePoints[1] == EMPTY_ADDR {
          rescuePoints := rescuePoints[..1];
        }
      }
      extents := [];
      initialized := false;
      roots := rescuePoints;
    }

    /** The loop of `close`; the number of extents may grow while it runs. */
    method CommitDirty() returns (addr: LogicAddr)
      requires ColOk(Snap()) && Busy(Snap()) && Contents(Snap()) != []
      modifies `extents, `rescuePoints, `writeCount, bstore
      ensures RootOf(Snap(), addr, old(Contents(Snap()))) && old(bstore.blocks) <= bstore.blocks &&
              writeCount >= old(writeCount)
      ensures Roomy(old(extents), 0) ==> |rescuePoints| == |old(rescuePoints)|
      ensures old(extents != [] ==> LeafFits(accepts, extents[0])) ==>
              MoreFit(accepts, old(bstore.blocks), bstore.blocks)
    {
      hide MoreFit, LeafFits, Committed, CommittedContents, Stored, StoreOk, RootOf;
      MoreFitNone(accepts, bstore.blocks);
      addr := EMPTY_ADDR;
      var parentSaved := false;
      var index := 0;
      ghost var pts, roomy := Contents(Snap()), Roomy(extents, 0);
      while index < |extents|
        invariant old(bstore.blocks) <= bstore.blocks && writeCount >= old(writeCount)
        invariant if index < |extents| then Draining(Snap(), index, pts, roomy)
                  else RootOf(Snap(), addr, pts) && !parentSaved
        invariant Roomy(old(extents), 0) ==> roomy && |rescuePoints| == |old(rescuePoints)|
        invariant (index == 0 ==> extents == old(extents)) &&
                  (old(extents != [] ==> LeafFits(accepts, extents[0])) ==>
                     MoreFit(accepts, old(bstore.blocks), bstore.blocks))
        decreases !roomy, |extents| - index
      {
        if Dirty(extents[index]) {
          ghost var a := Snap();
          parentSaved, addr := CommitFinal(index);
          if old(extents != [] ==> LeafFits(accepts, extents[0])) {
            MoreFitTwice(accepts, old(bstore.blocks), a.st, bstore.blocks);
          }
          if index + 1 < |a.ext| {
            CommittedUp(a, Snap(), index, addr, pts, roomy);
            roomy := roomy || |extents| > |a.ext|;
          } else {
            StoredRoot(a, Snap(), index, addr, pts);
          }
        } else {
          SkipClean(Snap(), index, pts, roomy);
        }
        index := index + 1;
      }
      assert !parentSaved;
    }

    /** `commit(true)` on either kind of extent. */
    method CommitFinal(index: nat) returns (parentSaved: bool, addr: LogicAddr)
      requires ColOk(Snap()) && index < |extents| && Dirty(extents[index])
      modifies `extents, `rescuePoints, `writeCount, bstore
      ensures index + 1 < |old(extents)| ==>
              Committed(old(Snap()), Snap(), index, addr) && CommittedContents(old(Snap()), Snap(), index)
      ensures index + 1 == |old(extents)| ==> Stored(old(Snap()), Snap(), index, addr) && !parentSaved
      ensures old(bstore.blocks) <= bstore.blocks && writeCount >= old(writeCount)
      ensures old(index == 0 ==> LeafFits(accepts, extents[0])) ==>
              MoreFit(accepts, old(bstore.blocks), bstore.blocks)
    {
      assert ExtentOk(bstore.blocks, extents[index], index);
      if index == 0 {
        parentSaved, addr := CommitLeaf(true);
      } else {
        parentSaved, addr := CommitSBlock(index, true);
      }
    }
  }
}
