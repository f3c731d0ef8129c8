/** Closing a column: every dirty level is committed from the leaf upwards, and the last node written is
    the root. */
module Closing {
  import opened Aggregation
  import opened TreeStore
  import opened Column
  import opened Recovery

  /** `is_dirty`. */
  predicate Dirty(e: Extent)
  {
    if e.LeafExtent? then e.leaf.points != [] else e.curr.refs != []
  }

  /** Every superblock above level `index` takes another reference. */
  predicate Roomy(ext: seq<Extent>, index: nat)
  {
    forall k :: index < k < |ext| ==> |Refs(ext[k])| < FANOUT
  }

  /** Levels below `index` have been emptied into the levels above. Once a new level has appeared, or if there was
      room from the start (`roomy`), every superblock still to be committed has room, so no other level can appear. */
  ghost predicate Draining(c: Col, index: nat, pts: seq<Point>, roomy: bool)
  {
    && ColOk(c) && Busy(c) && index < |c.ext|
    && ContentsFrom(c.st, c.ext, index) == pts
    && (roomy ==> Roomy(c.ext, index))
  }

  /** A clean level holds nothing, so it is not the top one. */
  lemma SkipClean(c: Col, index: nat, pts: seq<Point>, roomy: bool)
    requires Draining(c, index, pts, roomy) && pts != [] && !Dirty(c.ext[index])
    ensures Draining(c, index + 1, pts, roomy)
  {
    assert OwnPoints(c.st, c.ext[index]) == [];
    assert ContentsFrom(c.st, c.ext, index) == ContentsFrom(c.st, c.ext, index + 1) + [];
  }

  /** Committing a level below the top moves its points up; the tree grows by at most one level. */
  lemma CommittedUp(a: Col, b: Col, index: nat, addr: LogicAddr, pts: seq<Point>, roomy: bool)
    requires Draining(a, index, pts, roomy) && index + 1 < |a.ext|
    requires Committed(a, b, index, addr) && CommittedContents(a, b, index)
    ensures Draining(b, index + 1, pts, roomy || |b.ext| > |a.ext|)
    ensures roomy ==> |b.ext| == |a.ext|
    ensures |b.ext| <= |a.ext| + 1
  {
    if roomy {
      assert ExtentOk(a.st, a.ext[index + 1], index + 1);
      assert HasRoom(a, index + 1);
    }
  }

  /** What writing the top node leaves behind. */
  lemma StoredRoot(a: Col, b: Col, index: nat, addr: LogicAddr, pts: seq<Point>)
    requires ColOk(a) && Busy(a) && index + 1 == |a.ext| && ContentsFrom(a.st, a.ext, index) == pts &&
             Stored(a, b, index, addr)
    ensures RootOf(b, addr, pts)
  {
    assert ContentsFrom(a.st, a.ext, index + 1) == [];
    assert ContentsFrom(a.st, a.ext, index) == [] + OwnPoints(a.st, a.ext[index]);
  }

  /** The node at `addr` holds the whole column. */
  ghost predicate RootOf(c: Col, addr: LogicAddr, pts: seq<Point>)
  {
    && ColOk(c) && |c.ext| >= 1 && addr.At? && addr.ix < |c.st|
    && c.st[addr.ix].meta.level == |c.rp| - 1 && c.st[addr.ix].meta.fanoutIndex == 0 && PointsAt(c.st, addr.ix) == pts
  }

  /** The list `close` returns. */
  function Roots(n: nat, addr: LogicAddr): (rp: seq<LogicAddr>)
    requires n >= 1
    ensures |rp| == n && rp[n - 1] == addr && forall i :: 0 <= i < n - 1 ==> rp[i] == EMPTY_ADDR
  {
    seq(n - 1, _ => EMPTY_ADDR) + [addr]
  }

  lemma ClosedRoot(c: Col, addr: LogicAddr, pts: seq<Point>)
    requires RootOf(c, addr, pts)
    ensures var rp := Roots(|c.rp|, addr);
            IsClosed(rp) && Recovered(c.st, rp) == pts && (Sorted(pts) ==> ClosedOk(c.st, rp))
  {
  }

  lemma {:induction false} ContentsMonotone(st: seq<Block>, ext: seq<Extent>, j: nat, k: nat)
    requires j <= k
    ensures |ContentsFrom(st, ext, j)| >= |ContentsFrom(st, ext, k)|
    decreases k - j
  {
    if j < k {
      ContentsMonotone(st, ext, j + 1, k);
    }
  }

  /** A column with a superblock level is not empty. */
  lemma BusyHoldsPoints(c: Col)
    requires ColOk(c) && Busy(c) && |c.ext| >= 2
    ensures Contents(c) != []
  {
    var n := |c.ext| - 1;
    assert ExtentOk(c.st, c.ext[n], n);
    JoinAllIsFold(c.st, Refs(c.ext[n]), n - 1, |c.st|);
    assert ContentsFrom(c.st, c.ext, n) == ContentsFrom(c.st, c.ext, n + 1) + OwnPoints(c.st, c.ext[n]);
    ContentsMonotone(c.st, c.ext, 0, n);
  }

  /** The rescue points of a column that was opened but not written to, as `close` leaves them. */
  function Unmodified(rp: seq<LogicAddr>): seq<LogicAddr>
  {
    if |rp| == 2 && rp[1] == EMPTY_ADDR then rp[..1] else rp
  }

  /** Nothing was written since the column was started: the rescue points still describe it. */
  ghost predicate Untouched(c: Col)
  {
    && Startable(c.st, Unmodified(c.rp)) && Recovered(c.st, Unmodified(c.rp)) == Contents(c)
    && (IsClosed(Unmodified(c.rp)) || Contents(c) == [])
  }
}
