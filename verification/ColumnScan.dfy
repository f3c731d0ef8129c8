/** `NBTreeExtentsList::search`: one iterator per extent, chained in reading order. */
module ColumnScan {
  import opened Aggregation
  import opened TreeStore
  import opened Column
  import opened Scan

  lemma {:induction false} OwnSorted(st: seq<Block>, ext: seq<Extent>, k: nat, i: nat)
    requires k <= i < |ext| && Sorted(ContentsFrom(st, ext, k))
    ensures Sorted(OwnPoints(st, ext[i]))
    decreases i - k
  {
    assert ContentsFrom(st, ext, k) == ContentsFrom(st, ext, k + 1) + OwnPoints(st, ext[k]);
    SortedParts(ContentsFrom(st, ext, k + 1), OwnPoints(st, ext[k]));
    if k < i {
      OwnSorted(st, ext, k + 1, i);
    }
  }

  /** `NBTreeLeafExtent::search` and `NBTreeSBlockExtent::search`. */
  method SearchExtent(st: seq<Block>, e: Extent, begin: Timestamp, end: Timestamp, ghost i: nat) returns (it: Iter)
    requires StoreOk(st) && ExtentOk(st, e, i) && Sorted(OwnPoints(st, e))
    ensures Pending(st, it, begin, end, i) == Some(Select(OwnPoints(st, e), begin, end))
  {
    if e.LeafExtent? {
      it := NewLeafIter(st, begin, end, e.leaf.points, e.leaf.meta);
    } else {
      NewOpenSBlockIterOk(st, e.curr.refs, begin, end, i);
      it := NewOpenSBlockIter(e.curr.refs, begin, end);
    }
  }

  /** One more iterator at the end of a chain. */
  lemma {:induction false} ChainSnoc(st: seq<Block>, iters: seq<Iter>, it: Iter, begin: Timestamp, end: Timestamp,
                                     levels: seq<nat>, level: nat)
    requires ChainPending(st, iters, begin, end, levels).Some? && Pending(st, it, begin, end, level).Some?
    ensures ChainPending(st, iters + [it], begin, end, levels + [level]) ==
            Some(ChainPending(st, iters, begin, end, levels).value + Pending(st, it, begin, end, level).value)
  {
    hide Pending;
    var all, lvls := iters + [it], levels + [level];
    var last := Pending(st, it, begin, end, level).value;
    if iters == [] {
      assert levels == [] && all == [it] && lvls == [level];
      assert ChainPending(st, all[1..], begin, end, lvls[1..]) == Some([]);
      assert [] + last == last + [] == last;
    } else {
      assert all[1..] == iters[1..] + [it] && lvls[1..] == levels[1..] + [level];
      ChainSnoc(st, iters[1..], it, begin, end, levels[1..], level);
      var first, rest := Pending(st, iters[0], begin, end, levels[0]).value,
          ChainPending(st, iters[1..], begin, end, levels[1..]).value;
      assert ChainPending(st, iters, begin, end, levels) == Some(first + rest);
      assert all[0] == iters[0] && lvls[0] == levels[0];
      assert ChainPending(st, all, begin, end, lvls) == Some(first + (rest + last));
      assert first + (rest + last) == (first + rest) + last;
    }
  }

  lemma NothingYet(st: seq<Block>, begin: Timestamp, end: Timestamp)
    ensures ChainPending(st, [], begin, end, []) == Some(Select([], begin, end))
  {
  }

  /** Forward: from the top extent down to the leaf. */
  method SearchForward(st: seq<Block>, ext: seq<Extent>, begin: Timestamp, end: Timestamp, ghost rp: seq<LogicAddr>)
    returns (iters: seq<Iter>, ghost levels: seq<nat>)
    requires ColOk(Col(st, ext, rp)) && Sorted(ContentsFrom(st, ext, 0)) && begin < end
    ensures ChainPending(st, iters, begin, end, levels) == Some(Select(ContentsFrom(st, ext, 0), begin, end))
  {
    hide Pending, ChainPending, Select, Sorted, OwnPoints, ExtentOk, StoreOk;
    NothingYet(st, begin, end);
    iters, levels := [], [];
    var i := |ext|;
    while i > 0
      invariant 0 <= i <= |ext|
      invariant ChainPending(st, iters, begin, end, levels) == Some(Select(ContentsFrom(st, ext, i), begin, end))
    {
      i := i - 1;
      assert ExtentOk(st, ext[i], i);
      OwnSorted(st, ext, 0, i);
      var it := SearchExtent(st, ext[i], begin, end, i);
      ChainSnoc(st, iters, it, begin, end, levels, i);
      SelectConcat(ContentsFrom(st, ext, i + 1), OwnPoints(st, ext[i]), begin, end);
      iters, levels := iters + [it], levels + [i];
    }
  }

  /** The contents of the levels below `i`. */
  ghost function ContentsBelow(st: seq<Block>, ext: seq<Extent>, i: nat): seq<Point>
    requires i <= |ext|
  {
    if i == 0 then [] else OwnPoints(st, ext[i - 1]) + ContentsBelow(st, ext, i - 1)
  }

  lemma {:induction false} BelowAndFrom(st: seq<Block>, ext: seq<Extent>, i: nat)
    requires i <= |ext|
    ensures ContentsFrom(st, ext, i) + ContentsBelow(st, ext, i) == ContentsFrom(st, ext, 0)
  {
    hide OwnPoints;
    if i > 0 {
      BelowAndFrom(st, ext, i - 1);
      Regroup(ContentsFrom(st, ext, i), OwnPoints(st, ext[i - 1]), ContentsBelow(st, ext, i - 1));
    } else {
      assert ContentsFrom(st, ext, 0) + [] == ContentsFrom(st, ext, 0);
    }
  }

  lemma Regroup(a: seq<Point>, b: seq<Point>, c: seq<Point>)
    ensures (a + b) + c == a + (b + c)
  {
  }

  lemma AllBelow(st: seq<Block>, ext: seq<Extent>)
    ensures ContentsBelow(st, ext, |ext|) == ContentsFrom(st, ext, 0)
  {
    BelowAndFrom(st, ext, |ext|);
    assert ContentsFrom(st, ext, |ext|) == [];
  }

  /** Backward: from the leaf up. */
  method SearchBackward(st: seq<Block>, ext: seq<Extent>, begin: Timestamp, end: Timestamp, ghost rp: seq<LogicAddr>)
    returns (iters: seq<Iter>, ghost levels: seq<nat>)
    requires ColOk(Col(st, ext, rp)) && Sorted(ContentsFrom(st, ext, 0)) && begin >= end
    ensures ChainPending(st, iters, begin, end, levels) == Some(Select(ContentsFrom(st, ext, 0), begin, end))
  {
    hide Pending, ChainPending, Select, Sorted, OwnPoints, ExtentOk, StoreOk;
    NothingYet(st, begin, end);
    iters, levels := [], [];
    var i := 0;
    while i < |ext|
      invariant 0 <= i <= |ext|
      invariant ChainPending(st, iters, begin, end, levels) == Some(Select(ContentsBelow(st, ext, i), begin, end))
    {
      assert ExtentOk(st, ext[i], i);
      OwnSorted(st, ext, 0, i);
      var it := SearchExtent(st, ext[i], begin, end, i);
      ChainSnoc(st, iters, it, begin, end, levels, i);
      SelectConcat(OwnPoints(st, ext[i]), ContentsBelow(st, ext, i), begin, end);
      iters, levels := iters + [it], levels + [i];
      i := i + 1;
    }
    AllBelow(st, ext);
  }

  /** A query over all extents, read with any non-zero buffer sizes, returns exactly the points of the
      column in the range, in the direction asked for. */
  method Query(c: Col, begin: Timestamp, end: Timestamp, sizes: nat -> nat) returns (out: seq<Point>)
    requires ColOk(c) && Sorted(Contents(c)) && forall k :: sizes(k) > 0
    ensures out == Select(Contents(c), begin, end)
  {
    var iters;
    ghost var levels;
    if begin < end {
      iters, levels := SearchForward(c.st, c.ext, begin, end, c.rp);
    } else {
      iters, levels := SearchBackward(c.st, c.ext, begin, end, c.rp);
    }
    out := Drain(c.st, iters, sizes, begin, end, levels);
  }
}
