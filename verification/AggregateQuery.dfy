/** Aggregate queries over a forward range: leaf and superblock aggregators that mix stored summaries with
    partial leaves (storage/nbtree.cc), and their combination over all extents
    (storage/operators/aggregate.cc). */
module AggregateQuery {
  import opened Aggregation
  import opened TreeStore
  import opened Summaries
  import opened Column
  import Scan
  import ColumnScan

  datatype AggIter =
    | LeafAgg(cached: bool, meta: Agg, it: Scan.Iter)
    | ValueAgg(value: Agg, used: bool)
    | SBlockAgg(addr: LogicAddr, started: bool, refs: seq<SubtreeRef>, pos: int, iter: Scan.Option<AggIter>)

  ghost predicate LeafIterOk(st: seq<Block>, it: Scan.Iter, begin: Timestamp, end: Timestamp, pts: seq<Point>)
  {
    && it.LeafIter? && it.from <= it.to && (it.status == Scan.NoData ==> it.from == it.to)
    && Scan.Pending(st, it, begin, end, 0) == Scan.Some(pts)
  }

  /** The iterator stands for the points `pts`, none of which it has reported yet. */
  ghost predicate Yields(st: seq<Block>, it: AggIter, begin: Timestamp, end: Timestamp, level: nat, pts: seq<Point>)
  {
    match it
    case LeafAgg(cached, meta, li) =>
      if cached then meta == Fold(pts) && LeafIterOk(st, li, begin, end, []) else LeafIterOk(st, li, begin, end, pts)
    case ValueAgg(value, used) =>
      if used then pts == [] else value == Fold(pts)
    case SBlockAgg(addr, started, refs, pos, iter) =>
      && level >= 1 && iter == Scan.None
      && if started then Scan.CursorOk(st, begin, end, refs, pos, level - 1) &&
         pts == Scan.Unvisited(st, begin, end, refs, pos)
         else Scan.NodeOk(st, addr, level) && pts == Scan.Select(PointsAt(st, addr.ix), begin, end)
  }

  /** `read` will report a value. */
  ghost predicate Live(it: AggIter)
  {
    match it
    case LeafAgg(cached, _, li) => cached || (li.LeafIter? && li.from < li.to)
    case ValueAgg(_, used) => !used
    case SBlockAgg(_, _, _, _, _) => false
  }

  /** `read` will report a stored summary without looking at points. */
  predicate Eager(it: AggIter)
  {
    match it
    case LeafAgg(cached, _, _) => cached
    case ValueAgg(_, used) => !used
    case SBlockAgg(_, _, _, _, _) => false
  }

  // ---- Leaves ------------------------------------------------------------------------------------

  /** `AggregationResult::do_the_math` in forward order. */
  method DoTheMath(pts: seq<Point>) returns (a: Agg)
    requires pts != []
    ensures a == Fold(pts)
  {
    a := INIT_AGGRES;
    a := a.(cnt := a.cnt + |pts|);
    for i := 0 to |pts|
      invariant a.(cnt := i, first := Fold(pts[..i]).first, last := Fold(pts[..i]).last, begin := Fold(pts[..i]).begin,
                   end := Fold(pts[..i]).end) == Fold(pts[..i])
      invariant a.cnt == |pts|
    {
      assert pts[..i + 1][..i] == pts[..i];
      FoldMeaning(pts[..i]);
      var p := pts[i];
      a := a.(sum := a.sum + p.x);
      if Val(p.x).Less(a.min) {
        a := a.(min := Val(p.x), mints := p.ts);
      }
      if a.max.Less(Val(p.x)) {
        a := a.(max := Val(p.x), maxts := p.ts);
      }
    }
    assert pts[..|pts|] == pts;
    FoldMeaning(pts);
    a := a.(first := pts[0].x, last := pts[|pts| - 1].x, begin := pts[0].ts, end := pts[|pts| - 1].ts);
  }

  lemma AllInRange(pts: seq<Point>, begin: Timestamp, end: Timestamp)
    requires Sorted(pts) && begin < end && begin <= Fold(pts).begin && Fold(pts).end < end
    ensures Scan.Select(pts, begin, end) == pts
  {
    FoldMeaning(pts);
    SortedMeaning(pts);
    Scan.SelectSlice(pts, 0, |pts|, begin, end);
  }

  lemma SelectInRange(pts: seq<Point>, begin: Timestamp, end: Timestamp)
    requires Sorted(pts) && begin < end
    ensures InRange(Scan.Select(pts, begin, end))
  {
    Scan.SelectSorted(pts, begin, end);
    Scan.SelectForward(pts, begin, end);
  }

  /** The constructor of `NBTreeLeafAggregator`. */
  method NewLeafAgg(st: seq<Block>, pts: seq<Point>, meta: Agg, begin: Timestamp, end: Timestamp) returns (it: AggIter)
    requires Sorted(pts) && meta == Fold(pts) && begin < end
    ensures Yields(st, it, begin, end, 0, Scan.Select(pts, begin, end)) && it.LeafAgg?
    ensures pts == [] ==> Eager(it)
    ensures pts != [] && Eager(it) ==> Scan.Select(pts, begin, end) != []
  {
    if begin <= meta.begin && meta.end < end {
      AllInRange(pts, begin, end);
      it := LeafAgg(true, meta, Scan.LeafIter(begin, end, [], 0, 0, Scan.NoData));
    } else {
      var li := Scan.NewLeafIter(st, begin, end, pts, meta);
      it := LeafAgg(false, INIT_AGGRES, li);
    }
  }

  /** `NBTreeLeafAggregator::read`. */
  method ReadLeaf(st: seq<Block>, it: AggIter, ghost begin: Timestamp, ghost end: Timestamp, ghost level: nat,
                  ghost pts: seq<Point>)
    returns (status: Scan.Status, next: AggIter, out: seq<Agg>)
    requires it.LeafAgg? && Yields(st, it, begin, end, level, pts)
    ensures Reported(st, it, begin, end, level, pts, status, next, out)
  {
    if it.cached {
      return Scan.Ok, it.(cached := false), [it.meta];
    }
    var size := it.it.to - it.it.from;
    if size == 0 {
      assert it.it.status == Scan.NoData || it.it.buf[it.it.from..it.it.to] == [];
      assert pts == [];
      return Scan.NoData, it, [];
    }
    var part, li;
    status, li, part := Scan.LeafRead(st, it.it, size, 0);
    next := it.(it := li);
    assert part == pts && Scan.Pending(st, li, begin, end, 0) == Scan.Some([]);
    var a := DoTheMath(part);
    out := [a];
  }

  /** Everything an iterator stands for is reported by one call of `read`, as at most one value. */
  ghost predicate Reported(st: seq<Block>, it: AggIter, begin: Timestamp, end: Timestamp, level: nat, pts: seq<Point>,
                           status: Scan.Status, next: AggIter, out: seq<Agg>)
  {
    && Yields(st, next, begin, end, level, [])
    && |out| <= 1 && (out != [] <==> pts != [] || Eager(it)) && (out != [] ==> Summarises(out[0], pts))
    && (status == Scan.Ok || status == Scan.NoData)
    && (status == Scan.Ok ==> Live(it) && !Live(next))
    && (it.SBlockAgg? <==> next.SBlockAgg?) && (out != [] ==> it.SBlockAgg? || Live(it))
  }

  // ---- Superblocks -------------------------------------------------------------------------------

  /** `make_leaf_iterator` and `make_superblock_iterator`. A subtree inside the range is answered from its
      reference, but only after a leaf has been seen; the flag never changes the answer. */
  method MakeIter(st: seq<Block>, ref: SubtreeRef, begin: Timestamp, end: Timestamp, leftmost: bool, ghost level: nat)
    returns (status: Scan.Status, child: Scan.Option<AggIter>, leftmost': bool)
    requires StoreOk(st) && RefOk(st, ref, level, |st|) && Sorted(PointsAt(st, ref.addr.ix)) && begin < end
    ensures status == if child.Some? then Scan.Ok else Scan.NotFound
    ensures child == Scan.None ==> Scan.Select(PointsAt(st, ref.addr.ix), begin, end) == []
    ensures child.Some? ==> Yields(st, child.value, begin, end, level,
                                   Scan.Select(PointsAt(st, ref.addr.ix), begin, end))
    ensures child.Some? && Eager(child.value) ==> Scan.Select(PointsAt(st, ref.addr.ix), begin, end) != []
  {
    leftmost' := leftmost;
    RefSummary(st, ref, level, |st|);
    assert BlockOk(st, ref.addr.ix);
    if !Scan.SubtreeInRange(ref, begin, end) {
      Scan.OutOfRangeIsEmpty(st, ref, level, begin, end);
      return Scan.NotFound, Scan.None, leftmost';
    }
    if ref.kind == LEAF {
      leftmost' := true;
      var leaf := NewLeafAgg(st, st[ref.addr.ix].points, st[ref.addr.ix].meta.agg, begin, end);
      return Scan.Ok, Scan.Some(leaf), leftmost';
    }
    if leftmost && begin <= ref.agg.begin && ref.agg.end < end {
      AllInRange(PointsAt(st, ref.addr.ix), begin, end);
      return Scan.Ok, Scan.Some(ValueAgg(ref.agg, false)), leftmost';
    }
    return Scan.Ok, Scan.Some(SBlockAgg(ref.addr, false, [], 0, Scan.None)), leftmost';
  }

  /** A superblock aggregator in the middle of its work: `child` are the points its open iterator stands for. */
  ghost predicate Walking(st: seq<Block>, it: AggIter, begin: Timestamp, end: Timestamp, level: nat, child: seq<Point>)
  {
    && it.SBlockAgg? && it.started && level >= 1 && begin < end
    && Scan.CursorOk(st, begin, end, it.refs, it.pos, level - 1)
    && InRange(child)
    && if it.iter == Scan.None then child == []
       else Yields(st, it.iter.value, begin, end, level - 1, child) && (Eager(it.iter.value) ==> child != [])
  }

  ghost function Left(st: seq<Block>, it: AggIter, begin: Timestamp, end: Timestamp, child: seq<Point>): seq<Point>
    requires it.SBlockAgg?
  {
    child + Scan.Unvisited(st, begin, end, it.refs, it.pos)
  }

  ghost function Work(it: AggIter, begin: Timestamp, end: Timestamp): nat
    requires it.SBlockAgg?
  {
    3 * Scan.RefsLeft(begin, end, it.refs, it.pos) + match it.iter case None => 0 case Some(c) => if Live(c) then 2
        else 1
  }

  /** `get_next_iter`. */
  method GetNextIter(st: seq<Block>, it: AggIter, begin: Timestamp, end: Timestamp, leftmost: bool, ghost level: nat)
    returns (status: Scan.Status, next: AggIter, leftmost': bool, ghost child: seq<Point>)
    requires StoreOk(st) && Walking(st, it, begin, end, level, []) && it.iter == Scan.None
    ensures Walking(st, next, begin, end, level, child) &&
            Left(st, next, begin, end, child) == Left(st, it, begin, end, [])
    ensures status == Scan.NoData ==> next == it && Left(st, it, begin, end, []) == []
    ensures status != Scan.NoData ==> Work(next, begin, end) < Work(it, begin, end)
    ensures status != Scan.NoData ==> status == if next.iter.Some? then Scan.Ok else Scan.NotFound
  {
    child, leftmost' := [], leftmost;
    if it.pos == |it.refs| {
      return Scan.NoData, it, leftmost', child;
    }
    Scan.Visit(st, begin, end, it.refs, it.pos, level - 1);
    var iter;
    status, iter, leftmost' := MakeIter(st, it.refs[it.pos], begin, end, leftmost, level - 1);
    SelectInRange(PointsAt(st, it.refs[it.pos].addr.ix), begin, end);
    child := if iter.Some? then Scan.Select(PointsAt(st, it.refs[it.pos].addr.ix), begin, end) else [];
    next := it.(pos := it.pos + 1, iter := iter);
  }

  /** One turn of the loop in `iter`; `more` is false when it breaks out. */
  method Turn(st: seq<Block>, it: AggIter, begin: Timestamp, end: Timestamp, leftmost: bool, ghost level: nat,
              ghost child: seq<Point>)
    returns (status: Scan.Status, next: AggIter, part: seq<Agg>, leftmost': bool, more: bool, ghost child': seq<Point>,
             ghost seg: seq<Point>)
    requires StoreOk(st) && Walking(st, it, begin, end, level, child)
    ensures Walking(st, next, begin, end, level, child') &&
            Left(st, it, begin, end, child) == seg + Left(st, next, begin, end, child')
    ensures |part| <= 1 && (part == [] <==> seg == []) && (part != [] ==> Summarises(part[0], seg))
    ensures more ==> Work(next, begin, end) < Work(it, begin, end)
    ensures !more ==> status == Scan.NoData && part == [] && next == it && next.iter == Scan.None
    ensures !more ==> Left(st, next, begin, end, child') == []
    decreases level, 0
  {
    hide Summarises, StoreOk, Scan.Unvisited;
    next, part, leftmost', more, child', seg := it, [], leftmost, true, child, [];
    if it.iter == Scan.None {
      status, next, leftmost', child' := GetNextIter(st, it, begin, end, leftmost, level);
      if status == Scan.NotFound {
        return;
      } else if status != Scan.Ok {
        more := false;
        return;
      }
    }
    var iter;
    status, iter, part, leftmost' := Read(st, next.iter.value, begin, end, leftmost', level - 1, child');
    assert Left(st, next, begin, end, child') == child' + Left(st, next, begin, end, []);
    seg, child' := child', [];
    next := next.(iter := if status == Scan.NoData then Scan.None else Scan.Some(iter));
  }

  /** `NBTreeSBlockIteratorBase::iter`: fill a buffer of `size` values. */
  method FillBuffer(st: seq<Block>, it: AggIter, begin: Timestamp, end: Timestamp, size: nat, leftmost: bool,
                    ghost level: nat, ghost child: seq<Point>)
    returns (next: AggIter, out: seq<Agg>, leftmost': bool, ghost child': seq<Point>, ghost segs: seq<seq<Point>>)
    requires StoreOk(st) && Walking(st, it, begin, end, level, child) && size > 0
    ensures Walking(st, next, begin, end, level, child') &&
            Left(st, it, begin, end, child) == Flatten(segs) + Left(st, next, begin, end, child')
    ensures SummariseEach(out, segs) && (out == [] <==> Flatten(segs) == [])
    ensures out == [] ==> next.iter == Scan.None && Left(st, next, begin, end, child') == []
    ensures out != [] ==> Work(next, begin, end) < Work(it, begin, end)
    decreases level, 1
  {
    hide Work, Left, StoreOk, Yields, InRange, Scan.CursorOk, Eager;
    next, out, leftmost', child', segs := it, [], leftmost, child, [];
    ghost var all := Left(st, it, begin, end, child);
    while |out| < size
      invariant Walking(st, next, begin, end, level, child')
      invariant all == Flatten(segs) + Left(st, next, begin, end, child') && SummariseEach(out, segs)
      invariant out == [] <==> Flatten(segs) == []
      invariant Work(next, begin, end) <= Work(it, begin, end)
      invariant out != [] ==> Work(next, begin, end) < Work(it, begin, end)
      decreases Work(next, begin, end)
    {
      var status, part, more;
      ghost var seg;
      status, next, part, leftmost', more, child', seg := Turn(st, next, begin, end, leftmost', level, child');
      OneMoreSegment(segs, part, seg, Left(st, next, begin, end, child'));
      if !more {
        break;
      }
      out, segs := out + part, segs + if part == [] then [] else [seg];
    }
  }

  lemma OneMoreSegment(segs: seq<seq<Point>>, part: seq<Agg>, seg: seq<Point>, left: seq<Point>)
    requires part == [] <==> seg == []
    ensures Flatten(segs) + (seg + left) == Flatten(segs + if part == [] then [] else [seg]) + left
    ensures Flatten(segs + if part == [] then [] else [seg]) == [] <==> Flatten(segs) == [] && part == []
    ensures part == [] ==> Flatten(segs) + (seg + left) == Flatten(segs) + left
  {
    if part == [] {
      assert segs + [] == segs && seg + left == left;
    } else {
      FlattenConcat(segs, [seg]);
      FlattenOne(seg);
      assert Flatten(segs) + (seg + left) == (Flatten(segs) + seg) + left;
    }
  }

  /** `NBTreeSBlockAggregatorImpl::read`: everything below the superblock, combined into one value. */
  method ReadSBlock(st: seq<Block>, it: AggIter, begin: Timestamp, end: Timestamp, leftmost: bool, ghost level: nat,
                    ghost pts: seq<Point>)
    returns (status: Scan.Status, next: AggIter, out: seq<Agg>, leftmost': bool)
    requires StoreOk(st) && begin < end && it.SBlockAgg? && Yields(st, it, begin, end, level, pts) && InRange(pts)
    ensures Reported(st, it, begin, end, level, pts, status, next, out)
    decreases level, 2
  {
    hide Summarises, SummariseEach, Work, Scan.Unvisited, InRange, Flatten, CombineAll;
    next, leftmost' := it, leftmost;
    SummarisesNothing(INIT_AGGRES);
    if !it.started {
      assert BlockOk(st, it.addr.ix);
      LoadedRefs(st, it.addr.ix);
      next := it.(started := true, refs := st[it.addr.ix].refs, pos := 0);
      Scan.UnvisitedAll(st, begin, end, next.refs);
    }
    var outxs, nagg := INIT_AGGRES, 0;
    ghost var done, child: seq<Point> := [], [];
    assert [] + pts == pts;
    InRangeParts([], pts);
    while true
      invariant Walking(st, next, begin, end, level, child)
      invariant pts == done + Left(st, next, begin, end, child) && Summarises(outxs, done)
      invariant nagg == 0 <==> done == []
      decreases Work(next, begin, end)
    {
      var part;
      ghost var segs;
      next, part, leftmost', child, segs := FillBuffer(st, next, begin, end, 1024, leftmost', level, child);
      if part == [] {
        break;
      }
      AccumulateStep(outxs, done, part, segs, Left(st, next, begin, end, child));
      outxs := CombineAll(outxs, part);
      done := done + Flatten(segs);
      nagg := nagg + 1;
    }
    assert done + [] == done;
    status, out := Scan.NoData, if nagg > 0 then [outxs] else [];
  }

  lemma AccumulateStep(acc: Agg, done: seq<Point>, part: seq<Agg>, segs: seq<seq<Point>>, left: seq<Point>)
    requires Summarises(acc, done) && SummariseEach(part, segs) && InRange(done + (Flatten(segs) + left))
    ensures Summarises(CombineAll(acc, part), done + Flatten(segs))
    ensures done + (Flatten(segs) + left) == (done + Flatten(segs)) + left
  {
    assert done + (Flatten(segs) + left) == (done + Flatten(segs)) + left;
    InRangeParts(done + Flatten(segs), left);
    CombineRun(acc, done, part, segs);
  }

  /** Dispatch on the kind of iterator. */
  method Read(st: seq<Block>, it: AggIter, begin: Timestamp, end: Timestamp, leftmost: bool, ghost level: nat,
              ghost pts: seq<Point>)
    returns (status: Scan.Status, next: AggIter, out: seq<Agg>, leftmost': bool)
    requires StoreOk(st) && begin < end && Yields(st, it, begin, end, level, pts) && InRange(pts)
    ensures Reported(st, it, begin, end, level, pts, status, next, out)
    decreases level, 3
  {
    leftmost' := leftmost;
    match it
    case LeafAgg(_, _, _) =>
      status, next, out := ReadLeaf(st, it, begin, end, level, pts);
    case ValueAgg(value, used) =>
      if used {
        status, next, out := Scan.NoData, it, [];
      } else {
        status, next, out := Scan.Ok, it.(used := true), [value];
      }
    case SBlockAgg(_, _, _, _, _) =>
      status, next, out, leftmost' := ReadSBlock(st, it, begin, end, leftmost, level, pts);
  }

  // ---- All extents -------------------------------------------------------------------------------

  /** A leaf that was opened and not written to: its header reads begin = 2^64 - 1 and end = 0, which looks as if it lay
      inside every range. */
  predicate EmptyOpenLeaf(e: Extent)
  {
    e.LeafExtent? && e.leaf.points == []
  }

  ghost predicate AnyEager(iters: seq<AggIter>)
  {
    exists k :: 0 <= k < |iters| && Eager(iters[k])
  }

  /** `NBTreeLeafExtent::aggregate` and `NBTreeSBlockExtent::aggregate`. */
  method AggregateExtent(st: seq<Block>, e: Extent, begin: Timestamp, end: Timestamp, ghost i: nat)
    returns (it: AggIter)
    requires StoreOk(st) && ExtentOk(st, e, i) && Sorted(OwnPoints(st, e)) && begin < end
    ensures Yields(st, it, begin, end, i, Scan.Select(OwnPoints(st, e), begin, end))
    ensures EmptyOpenLeaf(e) ==> Eager(it)
    ensures Eager(it) ==> EmptyOpenLeaf(e) || Scan.Select(OwnPoints(st, e), begin, end) != []
  {
    if e.LeafExtent? {
      it := NewLeafAgg(st, e.leaf.points, e.leaf.meta, begin, end);
    } else {
      Scan.UnvisitedAll(st, begin, end, e.curr.refs);
      it := SBlockAgg(EMPTY_ADDR, true, e.curr.refs, 0, Scan.None);
    }
  }

  /** Iterators for a list of levels, and the points each stands for. */
  ghost predicate YieldAll(st: seq<Block>, iters: seq<AggIter>, begin: Timestamp, end: Timestamp, levels: seq<nat>,
                           segs: seq<seq<Point>>)
  {
    |iters| == |levels| == |segs| &&
    forall k {:trigger Yields(st, iters[k], begin, end, levels[k], segs[k])} :: 0 <= k < |iters| ==>
        Yields(st, iters[k], begin, end, levels[k], segs[k])
  }

  /** The loop in `NBTreeExtentsList::aggregate`: from the top extent down to the leaf. */
  method AggregateExtents(st: seq<Block>, ext: seq<Extent>, begin: Timestamp, end: Timestamp, ghost rp: seq<LogicAddr>)
    returns (iters: seq<AggIter>, ghost levels: seq<nat>, ghost segs: seq<seq<Point>>)
    requires ColOk(Col(st, ext, rp)) && Sorted(ContentsFrom(st, ext, 0)) && begin < end
    ensures YieldAll(st, iters, begin, end, levels, segs)
    ensures Flatten(segs) == Scan.Select(ContentsFrom(st, ext, 0), begin, end)
    ensures ext != [] && EmptyOpenLeaf(ext[0]) ==> AnyEager(iters)
    ensures AnyEager(iters) ==> (ext != [] && EmptyOpenLeaf(ext[0])) || Flatten(segs) != []
  {
    hide YieldAll, Yields, Flatten, Scan.Select, Sorted, AnyEager, StoreOk, Eager, OwnPoints, ExtentOk, EmptyOpenLeaf;
    NothingYields(st, begin, end);
    iters, levels, segs := [], [], [];
    var i := |ext|;
    while i > 0
      invariant 0 <= i <= |ext|
      invariant YieldAll(st, iters, begin, end, levels, segs)
      invariant Flatten(segs) == Scan.Select(ContentsFrom(st, ext, i), begin, end)
      invariant i == 0 && ext != [] && EmptyOpenLeaf(ext[0]) ==> AnyEager(iters)
      invariant AnyEager(iters) ==> (ext != [] && EmptyOpenLeaf(ext[0])) || Flatten(segs) != []
    {
      i := i - 1;
      assert ExtentOk(st, ext[i], i);
      ColumnScan.OwnSorted(st, ext, 0, i);
      var it := AggregateExtent(st, ext[i], begin, end, i);
      Scan.SelectConcat(ContentsFrom(st, ext, i + 1), OwnPoints(st, ext[i]), begin, end);
      YieldOneMore(st, iters, begin, end, levels, segs, it, i, Scan.Select(OwnPoints(st, ext[i]), begin, end));
      AnyEagerMore(iters, it);
      if i > 0 {
        OnlyTheFirstIsALeaf(st, ext[i], i);
      }
      iters, levels, segs := iters + [it], levels + [i], segs + [Scan.Select(OwnPoints(st, ext[i]), begin, end)];
    }
  }

  lemma NothingYields(st: seq<Block>, begin: Timestamp, end: Timestamp)
    ensures YieldAll(st, [], begin, end, [], []) && Flatten([]) == [] == Scan.Select([], begin, end) && !AnyEager([])
  {
  }

  lemma OnlyTheFirstIsALeaf(st: seq<Block>, e: Extent, i: nat)
    requires ExtentOk(st, e, i) && i > 0
    ensures !EmptyOpenLeaf(e)
  {
  }

  lemma AnyEagerMore(iters: seq<AggIter>, it: AggIter)
    ensures AnyEager(iters + [it]) <==> AnyEager(iters) || Eager(it)
  {
    var all := iters + [it];
    if AnyEager(iters) {
      var k :| 0 <= k < |iters| && Eager(iters[k]);
      assert Eager(all[k]);
    }
    if Eager(it) {
      assert Eager(all[|iters|]);
    }
  }

  lemma YieldOneMore(st: seq<Block>, iters: seq<AggIter>, begin: Timestamp, end: Timestamp, levels: seq<nat>,
                     segs: seq<seq<Point>>,
                     it: AggIter, level: nat, seg: seq<Point>)
    requires YieldAll(st, iters, begin, end, levels, segs) && Yields(st, it, begin, end, level, seg)
    ensures YieldAll(st, iters + [it], begin, end, levels + [level], segs + [seg]) &&
            Flatten(segs + [seg]) == Flatten(segs) + seg
  {
    forall k | 0 <= k < |iters + [it]|
      ensures Yields(st, (iters + [it])[k], begin, end, (levels + [level])[k], (segs + [seg])[k])
    {
      assert k < |iters| ==> Yields(st, iters[k], begin, end, levels[k], segs[k]);
    }
    FlattenConcat(segs, [seg]);
    FlattenOne(seg);
  }

  /** `CombineAggregateOperator::read`. */
  method CombineRead(st: seq<Block>, iters: seq<AggIter>, begin: Timestamp, end: Timestamp, ghost levels: seq<nat>,
                     ghost segs: seq<seq<Point>>)
    returns (out: seq<Agg>)
    requires StoreOk(st) && YieldAll(st, iters, begin, end, levels, segs) && InRange(Flatten(segs)) && begin < end
    ensures |out| <= 1 && (out != [] <==> Flatten(segs) != [] || AnyEager(iters))
    ensures out != [] ==> Summarises(out[0], Flatten(segs))
  {
    var acc, nagg: nat := INIT_AGGRES, 0;
    ghost var done: seq<Point> := [];
    for index := 0 to |iters|
      invariant done == Flatten(segs[..index]) && Summarises(acc, done)
      invariant nagg != 0 <==> done != [] || AnyEager(iters[..index])
    {
      assert iters[..index + 1] == iters[..index] + [iters[index]];
      AnyEagerMore(iters[..index], iters[index]);
      assert Yields(st, iters[index], begin, end, levels[index], segs[index]);
      PrefixInRange(segs, index);
      var part := ReadAll(st, iters[index], begin, end, levels[index], segs[index]);
      CombineOne(acc, done, part, segs[index]);
      done := done + segs[index];
      acc := CombineAll(acc, part);
      nagg := nagg + |part|;
    }
    assert segs[..|segs|] == segs && iters[..|iters|] == iters;
    out := if nagg != 0 then [acc] else [];
  }

  lemma CombineOne(acc: Agg, done: seq<Point>, part: seq<Agg>, seg: seq<Point>)
    requires Summarises(acc, done) && InRange(done + seg)
    requires |part| <= 1 && (part == [] ==> seg == []) && (part != [] ==> Summarises(part[0], seg))
    ensures Summarises(CombineAll(acc, part), done + seg) && (part == [] ==> done + seg == done)
  {
    if part == [] {
      assert done + seg == done;
    } else {
      assert part[..0] == [] && CombineAll(acc, []) == acc;
      CombineSummaries(acc, done, part[0], seg);
    }
  }

  lemma FlattenSnoc(segs: seq<seq<Point>>, index: nat)
    requires index < |segs|
    ensures Flatten(segs[..index + 1]) == Flatten(segs[..index]) + segs[index]
  {
    assert segs[..index + 1][..index] == segs[..index];
  }

  lemma PrefixInRange(segs: seq<seq<Point>>, index: nat)
    requires index < |segs| && InRange(Flatten(segs))
    ensures InRange(segs[index]) && InRange(Flatten(segs[..index]) + segs[index])
    ensures Flatten(segs[..index + 1]) == Flatten(segs[..index]) + segs[index]
  {
    hide InRange;
    hide Flatten;
    FlattenSnoc(segs, index);
    assert segs == segs[..index + 1] + segs[index + 1..];
    FlattenConcat(segs[..index + 1], segs[index + 1..]);
    InRangeParts(Flatten(segs[..index + 1]), Flatten(segs[index + 1..]));
    InRangeParts(Flatten(segs[..index]), segs[index]);
  }

  /** The operator reads an iterator until it reports `NoData`. */
  method ReadAll(st: seq<Block>, it: AggIter, begin: Timestamp, end: Timestamp, ghost level: nat,
                 ghost pts: seq<Point>) returns (part: seq<Agg>)
    requires StoreOk(st) && Yields(st, it, begin, end, level, pts) && InRange(pts) && begin < end
    ensures |part| <= 1 && (part != [] <==> pts != [] || Eager(it)) && (part != [] ==> Summarises(part[0], pts))
  {
    var status, next, leftmost;
    status, next, part, leftmost := Read(st, it, begin, end, begin == 0 && end == MAX_TIMESTAMP, level, pts);
    if status == Scan.Ok {
      var more;
      status, next, more, leftmost := Read(st, next, begin, end, leftmost, level, []);
      assert more == [] && status == Scan.NoData;
    }
  }

  /** A forward aggregate over a whole column: the fold of the raw points in [begin, end). There is an answer exactly
      when there are such points, or when the leaf level is open and empty: then the answer is over no points. */
  method Aggregate(c: Col, begin: Timestamp, end: Timestamp) returns (out: seq<Agg>)
    requires ColOk(c) && Sorted(Contents(c)) && begin < end
    ensures var pts := Scan.Select(Contents(c), begin, end);
            && |out| <= 1 && (out != [] ==> Summarises(out[0], pts))
            && (out != [] <==> pts != [] || (c.ext != [] && EmptyOpenLeaf(c.ext[0])))
  {
    var iters;
    ghost var levels, segs;
    iters, levels, segs := AggregateExtents(c.st, c.ext, begin, end, c.rp);
    SelectInRange(Contents(c), begin, end);
    if |iters| == 1 {
      assert Yields(c.st, iters[0], begin, end, levels[0], segs[0]) && segs == [segs[0]] && iters == [] + [iters[0]];
      FlattenOne(segs[0]);
      AnyEagerMore([], iters[0]);
      out := ReadAll(c.st, iters[0], begin, end, levels[0], segs[0]);
    } else {
      out := CombineRead(c.st, iters, begin, end, levels, segs);
    }
  }
}
