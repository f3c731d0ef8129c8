/** Group-aggregate queries over a forward range: the leaf and superblock group aggregators of
    storage/nbtree.cc, with their 256-slot read buffers. */
module GroupAggregate {
  import opened Aggregation
  import opened TreeStore
  import opened Summaries
  import opened Buckets
  import Scan
  import AggregateQuery

  const RDBUF_SIZE: nat := 0x100

  datatype GroupIter =
    | LeafGroup(cached: bool, meta: Agg, it: Scan.Iter)
    | ValueGroup(value: Agg, used: bool)
    | SBlockGroup(addr: LogicAddr, started: bool, refs: seq<SubtreeRef>, pos: int, iter: Scan.Option<GroupIter>,
                  rdbuf: seq<Agg>, rdpos: nat, done: bool)

  /** The points behind the values an iterator holds, for the proofs: those of a leaf or summary, or the
      buckets in the read buffer and the view of the open child. */
  datatype View = Points(pts: seq<Point>) | Buffered(segs: seq<seq<Point>>, child: Scan.Option<View>)

  /** The range and step of a query. */
  datatype Query = Query(begin: Timestamp, end: Timestamp, step: Step)

  /** No timestamp below a stored node is newer than `limit`. */
  ghost predicate NoneNewer(st: seq<Block>, limit: Timestamp)
  {
    forall a {:trigger st[a]} :: 0 <= a < |st| ==> st[a].meta.agg.end <= limit
  }

  /** A forward query for which the shortcut is exact, up to some bound on what the store holds. The largest timestamp
      of all is always such a bound. */
  ghost predicate QueryOk(st: seq<Block>, q: Query)
  {
    q.begin < q.end && exists limit: Timestamp :: NoneNewer(st, limit) && SafeQuery(limit, q.begin, q.end, q.step)
  }

  /** Everything a well-formed iterator still has to report, as points; None if it is not well formed. */
  ghost function Pending(st: seq<Block>, it: GroupIter, v: View, q: Query, level: nat): Scan.Option<seq<Point>>
    decreases level, 0
  {
    match it
    case LeafGroup(cached, meta, li) =>
      if !v.Points? then Scan.None
      else if cached then
        if AggregateQuery.LeafIterOk(st, li, q.begin, q.end, []) && CachedOk(meta, v.pts, q) then Scan.Some(v.pts)
        else Scan.None
      else if AggregateQuery.LeafIterOk(st, li, q.begin, q.end, v.pts) then Scan.Some(v.pts)
      else Scan.None
    case ValueGroup(value, used) =>
      if !v.Points? then Scan.None
      else if used then Scan.Some([])
      else if Holds(value, v.pts, q.begin, q.end, q.step) then Scan.Some(v.pts)
      else Scan.None
    case SBlockGroup(addr, started, refs, pos, iter, rdbuf, rdpos, done) =>
      if !v.Buffered? || level == 0 then Scan.None
      else if !started then
        if Scan.NodeOk(st, addr, level) && Untouched(it, v) then
          Scan.Some(Scan.Select(PointsAt(st, addr.ix), q.begin, q.end))
        else Scan.None
      else if !(Scan.CursorOk(st, q.begin, q.end, refs, pos, level - 1) && BufferOk(rdbuf, rdpos, done, v.segs, q) &&
                Finished(it)) then Scan.None
      else
        var child := ChildPending(st, it, v, q, level);
        if child == Scan.None then Scan.None
        else Scan.Some(Flatten(v.segs) + (child.value + Scan.Unvisited(st, q.begin, q.end, refs, pos)))
  }

  ghost predicate CachedOk(meta: Agg, pts: seq<Point>, q: Query)
  {
    if pts == [] then meta == INIT_AGGRES else Holds(meta, pts, q.begin, q.end, q.step)
  }

  ghost predicate Untouched(it: GroupIter, v: View)
    requires it.SBlockGroup? && v.Buffered?
  {
    it.iter == Scan.None && it.rdbuf == [] && it.rdpos == 0 && !it.done && v.segs == [] && v.child == Scan.None
  }

  /** While children are left, the last slot of the buffer has not been handed out yet: its bucket may
      not be complete. */
  ghost predicate BufferOk(rdbuf: seq<Agg>, rdpos: nat, done: bool, segs: seq<seq<Point>>, q: Query)
  {
    && rdpos <= |rdbuf| <= RDBUF_SIZE
    && Collected(rdbuf[rdpos..], segs, q.begin, q.end, q.step)
    && (!done && rdbuf != [] ==> rdpos < |rdbuf|)
  }

  predicate Finished(it: GroupIter)
    requires it.SBlockGroup?
  {
    it.done ==> it.iter == Scan.None && it.pos == |it.refs|
  }

  ghost function ChildPending(st: seq<Block>, it: GroupIter, v: View, q: Query, level: nat): Scan.Option<seq<Point>>
    requires it.SBlockGroup? && v.Buffered? && level > 0
    decreases level - 1, 1
  {
    if it.iter == Scan.None then Scan.Some([])
    else if v.child == Scan.None then Scan.None
    else Pending(st, it.iter.value, v.child.value, q, level - 1)
  }

  // ---- Leaves ------------------------------------------------------------------------------------

  /** Points [..from] are cut into buckets; [from..ix) all belong to the bucket being added up. */
  ghost predicate Cutting(pts: seq<Point>, from: nat, ix: nat, out: seq<Agg>, segs: seq<seq<Point>>, outval: Agg,
                          bin: nat, q: Query)
  {
    && from <= ix <= |pts| && |out| <= from
    && Collected(out, segs, q.begin, q.end, q.step) && Flatten(segs) == pts[..from]
    && outval == Fold(pts[from..ix])
    && (if ix == 0 then from == 0
        else from < ix && bin == Bin(pts[from].ts, q.begin, q.step) == Bin(pts[ix - 1].ts, q.begin, q.step))
    && (segs != [] && ix > 0 ==> BinOf(segs[|segs| - 1], q.begin, q.step) < bin)
  }

  /** The bucket being added up is finished. */
  lemma Finish(pts: seq<Point>, from: nat, ix: nat, out: seq<Agg>, segs: seq<seq<Point>>, outval: Agg, bin: nat,
               q: Query)
    requires Cutting(pts, from, ix, out, segs, outval, bin, q) && Within(pts, q.begin, q.end) && ix > 0
    ensures Collected(out + [outval], segs + [pts[from..ix]], q.begin, q.end, q.step) &&
            Flatten(segs + [pts[from..ix]]) == pts[..ix]
    ensures BinOf(pts[from..ix], q.begin, q.step) == bin
  {
    hide Fold, Flatten, Collected, Holds, Within, Bin;
    RunHolds(pts, from, ix, q.begin, q.end, q.step);
    AddBucket(out, segs, outval, pts[from..ix], q.begin, q.end, q.step);
    assert pts[..ix] == pts[..from] + pts[from..ix];
  }

  lemma NextPoint(pts: seq<Point>, ix: nat, q: Query)
    requires Within(pts, q.begin, q.end) && 0 < ix < |pts|
    ensures Bin(pts[ix - 1].ts, q.begin, q.step) <= Bin(pts[ix].ts, q.begin, q.step)
  {
    SortedMeaning(pts);
    BinMonotone(pts[ix - 1].ts, pts[ix].ts, q.begin, q.step);
  }

  lemma FoldNext(pts: seq<Point>, from: nat, ix: nat)
    requires from <= ix < |pts|
    ensures Fold(pts[from..ix + 1]) == Add(Fold(pts[from..ix]), pts[ix])
  {
    assert pts[from..ix + 1][..ix - from] == pts[from..ix];
  }

  lemma RunHolds(pts: seq<Point>, from: nat, to: nat, begin: Timestamp, end: Timestamp, step: Step)
    requires Within(pts, begin, end) && from < to <= |pts| &&
             Bin(pts[from].ts, begin, step) == Bin(pts[to - 1].ts, begin, step)
    ensures Holds(Fold(pts[from..to]), pts[from..to], begin, end, step)
  {
    Scan.SortedSlice(pts, from, to);
    SortedMeaning(pts);
    FoldSummarises(pts[from..to]);
  }

  lemma SameRun(pts: seq<Point>, from: nat, ix: nat, out: seq<Agg>, segs: seq<seq<Point>>, outval: Agg, bin: nat,
                q: Query)
    requires Cutting(pts, from, ix, out, segs, outval, bin, q) && ix < |pts| &&
             (ix > 0 ==> Bin(pts[ix].ts, q.begin, q.step) == bin)
    ensures Cutting(pts, from, ix + 1, out, segs, Add(outval, pts[ix]), Bin(pts[ix].ts, q.begin, q.step), q)
  {
    FoldNext(pts, from, ix);
  }

  lemma NewRun(pts: seq<Point>, from: nat, ix: nat, out: seq<Agg>, segs: seq<seq<Point>>, outval: Agg, bin: nat,
               q: Query)
    requires Cutting(pts, from, ix, out, segs, outval, bin, q) && Within(pts, q.begin, q.end)
    requires 0 < ix < |pts| && Bin(pts[ix].ts, q.begin, q.step) != bin
    ensures Cutting(pts, ix, ix + 1, out + [outval], segs + [pts[from..ix]], Add(INIT_AGGRES, pts[ix]),
                    Bin(pts[ix].ts, q.begin, q.step), q)
  {
    NextPoint(pts, ix, q);
    Finish(pts, from, ix, out, segs, outval, bin, q);
    assert pts[ix..ix] == [];
    FoldNext(pts, ix, ix);
  }

  /** The loop in `NBTreeLeafGroupAggregator::read`: cut a run of points into buckets. */
  method GroupPoints(pts: seq<Point>, q: Query) returns (out: seq<Agg>, ghost segs: seq<seq<Point>>)
    requires pts != [] && Within(pts, q.begin, q.end)
    ensures Collected(out, segs, q.begin, q.end, q.step) && Flatten(segs) == pts && 0 < |out| <= |pts|
  {
    out, segs := [], [];
    var outval, bin := INIT_AGGRES, 0;
    ghost var from := 0;
    for ix := 0 to |pts|
      invariant Cutting(pts, from, ix, out, segs, outval, bin, q)
    {
      var norm := Bin(pts[ix].ts, q.begin, q.step);
      if ix == 0 || norm == bin {
        SameRun(pts, from, ix, out, segs, outval, bin, q);
        bin := norm;
      } else {
        NewRun(pts, from, ix, out, segs, outval, bin, q);
        out, segs := out + [outval], segs + [pts[from..ix]];
        bin, outval, from := norm, INIT_AGGRES, ix;
      }
      outval := Add(outval, pts[ix]);
    }
    Finish(pts, from, |pts|, out, segs, outval, bin, q);
    out, segs := out + [outval], segs + [pts[from..|pts|]];
    assert pts[..|pts|] == pts;
  }

  lemma CachedLeaf(pts: seq<Point>, q: Query)
    requires Sorted(pts) && q.begin <= Fold(pts).begin && Fold(pts).end < q.end && q.begin < q.end
    requires Bin(Fold(pts).begin, q.begin, q.step) == Bin(Fold(pts).end, q.begin, q.step)
    ensures CachedOk(Fold(pts), pts, q) && Scan.Select(pts, q.begin, q.end) == pts
  {
    AggregateQuery.AllInRange(pts, q.begin, q.end);
    FoldMeaning(pts);
  }

  /** The constructor of `NBTreeLeafGroupAggregator`. */
  method NewLeafGroup(st: seq<Block>, pts: seq<Point>, meta: Agg, q: Query) returns (it: GroupIter, ghost v: View)
    requires Sorted(pts) && meta == Fold(pts) && q.begin < q.end
    ensures Pending(st, it, v, q, 0) == Scan.Some(Scan.Select(pts, q.begin, q.end)) && it.LeafGroup?
  {
    hide Scan.Select, Sorted, Fold, Bin;
    v := Points(Scan.Select(pts, q.begin, q.end));
    if Bin(meta.begin, q.begin, q.step) == Bin(meta.end, q.begin, q.step) && meta.begin >= q.begin && meta.end < q.end {
      CachedLeaf(pts, q);
      it := LeafGroup(true, meta, Scan.LeafIter(q.begin, q.end, [], 0, 0, Scan.NoData));
    } else {
      var li := Scan.NewLeafIter(st, q.begin, q.end, pts, meta);
      it := LeafGroup(false, INIT_AGGRES, li);
    }
  }

  /** What one call of `read` returns: complete summaries of leading buckets, and what is left. */
  ghost predicate Emitted(pts: seq<Point>, size: nat, status: Scan.Status, out: seq<Agg>, segs: seq<seq<Point>>,
                          rest: seq<Point>, q: Query)
  {
    && Collected(out, segs, q.begin, q.end, q.step) && pts == Flatten(segs) + rest && |out| <= size
    && (status == Scan.Ok || status == Scan.NoData)
    && (status == Scan.Ok ==> out != []) && (status == Scan.NoData ==> rest == [])
  }

  /** `NBTreeLeafGroupAggregator::read` into a buffer that is not empty. */
  method ReadLeaf(st: seq<Block>, it: GroupIter, size: nat, q: Query, ghost v: View, ghost level: nat,
                  ghost pts: seq<Point>)
    returns (status: Scan.Status, next: GroupIter, out: seq<Agg>, ghost v': View, ghost segs: seq<seq<Point>>,
             ghost rest: seq<Point>)
    requires it.LeafGroup? && Pending(st, it, v, q, level) == Scan.Some(pts) && Within(pts, q.begin, q.end) && size > 0
    ensures Pending(st, next, v', q, level) == Scan.Some(rest) && Emitted(pts, size, status, out, segs, rest, q)
  {
    v', segs, rest := v, [], [];
    if it.cached {
      if it.meta.cnt == 0 {
        CountOfPoints(it.meta, pts, q);
        NothingEmitted(size, q);
        return Scan.NoData, it, [], v', segs, rest;
      }
      OneBucket(it.meta, pts, size, q);
      return Scan.Ok, it.(cached := false), [it.meta], Points([]), [pts], [];
    }
    var hint := it.it.to - it.it.from;
    if hint == 0 {
      NothingEmitted(size, q);
      return Scan.NoData, it, [], v', segs, rest;
    }
    var li;
    li, out, segs, rest := ReadPoints(st, it.it, if hint < size then hint else size, q, pts);
    status, next, v' := Scan.Ok, it.(it := li), Points(rest);
  }

  /** Read at most `size` points and cut them into buckets. */
  method ReadPoints(st: seq<Block>, it: Scan.Iter, size: nat, q: Query, ghost pts: seq<Point>)
    returns (li: Scan.Iter, out: seq<Agg>, ghost segs: seq<seq<Point>>, ghost rest: seq<Point>)
    requires AggregateQuery.LeafIterOk(st, it, q.begin, q.end, pts) && Within(pts, q.begin, q.end) &&
             0 < size <= it.to - it.from
    ensures AggregateQuery.LeafIterOk(st, li, q.begin, q.end, rest) && Collected(out, segs, q.begin, q.end, q.step)
    ensures pts == Flatten(segs) + rest && 0 < |out| <= size
  {
    var status, part;
    status, li, part := Scan.LeafRead(st, it, size, 0);
    rest := Scan.Pending(st, li, q.begin, q.end, 0).value;
    WithinParts(part, rest, q.begin, q.end);
    out, segs := GroupPoints(part, q);
  }

  lemma CountOfPoints(meta: Agg, pts: seq<Point>, q: Query)
    requires CachedOk(meta, pts, q) && meta.cnt == 0
    ensures pts == []
  {
    if pts != [] {
      FoldMeaning(pts);
    }
  }

  lemma OneBucket(x: Agg, pts: seq<Point>, size: nat, q: Query)
    requires CachedOk(x, pts, q) && x.cnt != 0 && size > 0
    ensures Emitted(pts, size, Scan.Ok, [x], [pts], [], q)
  {
    FlattenOne(pts);
    assert pts != [] && pts + [] == pts;
  }

  lemma NothingEmitted(size: nat, q: Query)
    ensures Emitted([], size, Scan.NoData, [], [], [], q)
  {
  }

  // ---- Superblocks -------------------------------------------------------------------------------

  /** A subtree that the shortcut picks is one bucket of the query. */
  lemma PickedSubtree(st: seq<Block>, ref: SubtreeRef, q: Query, level: nat)
    requires StoreOk(st) && RefOk(st, ref, level, |st|) && Sorted(PointsAt(st, ref.addr.ix)) && QueryOk(st, q)
    requires Scan.SubtreeInRange(ref, q.begin, q.end) && Shortcut(ref.agg.begin, ref.agg.end, q.begin, q.end, q.step)
    ensures var pts := PointsAt(st, ref.addr.ix);
            Holds(ref.agg, pts, q.begin, q.end, q.step) && Scan.Select(pts, q.begin, q.end) == pts
  {
    hide PointsAt, Fold, Scan.Select, Summarises, Bin;
    var pts := PointsAt(st, ref.addr.ix);
    RefSummary(st, ref, level, |st|);
    FoldMeaning(pts);
    FoldSummarises(pts);
    SortedMeaning(pts);
    var limit: Timestamp :| NoneNewer(st, limit) && SafeQuery(limit, q.begin, q.end, q.step);
    assert st[ref.addr.ix].meta.agg.end <= limit;
    ShortcutExact(limit, q.begin, q.end, q.step);
    AggregateQuery.AllInRange(pts, q.begin, q.end);
  }

  /** `make_leaf_iterator` and `make_superblock_iterator`, after the range test of `get_next_iter`. */
  method MakeIter(st: seq<Block>, ref: SubtreeRef, q: Query, ghost level: nat)
    returns (status: Scan.Status, child: Scan.Option<GroupIter>, ghost v: View)
    requires StoreOk(st) && RefOk(st, ref, level, |st|) && Sorted(PointsAt(st, ref.addr.ix)) && QueryOk(st, q)
    ensures status == if child.Some? then Scan.Ok else Scan.NotFound
    ensures child == Scan.None ==> Scan.Select(PointsAt(st, ref.addr.ix), q.begin, q.end) == []
    ensures child.Some? ==>
            Pending(st, child.value, v, q, level) == Scan.Some(Scan.Select(PointsAt(st, ref.addr.ix), q.begin, q.end))
  {
    v := Points([]);
    RefSummary(st, ref, level, |st|);
    assert BlockOk(st, ref.addr.ix);
    if !Scan.SubtreeInRange(ref, q.begin, q.end) {
      Scan.OutOfRangeIsEmpty(st, ref, level, q.begin, q.end);
      return Scan.NotFound, Scan.None, v;
    }
    if ref.kind == LEAF {
      var leaf;
      leaf, v := NewLeafGroup(st, st[ref.addr.ix].points, st[ref.addr.ix].meta.agg, q);
      return Scan.Ok, Scan.Some(leaf), v;
    }
    if Shortcut(ref.agg.begin, ref.agg.end, q.begin, q.end, q.step) {
      PickedSubtree(st, ref, q, level);
      return Scan.Ok, Scan.Some(ValueGroup(ref.agg, false)), Points(PointsAt(st, ref.addr.ix));
    }
    return Scan.Ok, Scan.Some(SBlockGroup(ref.addr, false, [], 0, Scan.None, [], 0, false)), Buffered([], Scan.None);
  }

  /** A superblock aggregator at work: what is buffered, what its open child stands for, what is unvisited. */
  ghost predicate Working(st: seq<Block>, it: GroupIter, v: View, q: Query, level: nat, child: seq<Point>,
                          pts: seq<Point>)
  {
    && it.SBlockGroup? && it.started && v.Buffered? && level > 0
    && Scan.CursorOk(st, q.begin, q.end, it.refs, it.pos, level - 1) 
    && BufferOk(it.rdbuf, it.rdpos, it.done, v.segs, q) && Finished(it)
    && ChildPending(st, it, v, q, level) == Scan.Some(child)
    && pts == Flatten(v.segs) + (child + Scan.Unvisited(st, q.begin, q.end, it.refs, it.pos))
  }

  lemma WorkingMeans(st: seq<Block>, it: GroupIter, v: View, q: Query, level: nat)
    requires it.SBlockGroup? && it.started
    ensures forall child, pts :: Working(st, it, v, q, level, child, pts) ==>
            Pending(st, it, v, q, level) == Scan.Some(pts)
    ensures Pending(st, it, v, q, level).Some? ==>
            v.Buffered? && level > 0 && ChildPending(st, it, v, q, level).Some? &&
            Working(st, it, v, q, level, ChildPending(st, it, v, q, level).value, Pending(st, it, v, q, level).value)
  {
  }

  lemma NextReference(st: seq<Block>, refs: seq<SubtreeRef>, pos: int, q: Query, level: nat, done: seq<Point>)
    requires q.begin < q.end && Scan.CursorOk(st, q.begin, q.end, refs, pos, level) && pos < |refs| &&
             refs[pos].addr.At?
    ensures Scan.CursorOk(st, q.begin, q.end, refs, pos + 1, level)
    ensures done + ([] + Scan.Unvisited(st, q.begin, q.end, refs, pos)) ==
            done + (Scan.Select(PointsAt(st, refs[pos].addr.ix), q.begin, q.end) +
                    Scan.Unvisited(st, q.begin, q.end, refs, pos + 1))
  {
    Scan.Visit(st, q.begin, q.end, refs, pos, level);
    assert [] + Scan.Unvisited(st, q.begin, q.end, refs, pos) == Scan.Unvisited(st, q.begin, q.end, refs, pos);
  }

  /** Moving the cursor over one reference and opening its iterator, if it has one, loses nothing. */
  lemma MovedOn(st: seq<Block>, it: GroupIter, child: Scan.Option<GroupIter>, cv: View, v: View, q: Query, level: nat,
                pts: seq<Point>)
    requires q.begin < q.end && Working(st, it, v, q, level, [], pts) && it.iter == Scan.None && !it.done &&
             it.pos < |it.refs|
    requires it.refs[it.pos].addr.At?
    requires var here := Scan.Select(PointsAt(st, it.refs[it.pos].addr.ix), q.begin, q.end);
             if child == Scan.None then here == [] else Pending(st, child.value, cv, q, level - 1) == Scan.Some(here)
    ensures var here := Scan.Select(PointsAt(st, it.refs[it.pos].addr.ix), q.begin, q.end);
            Working(st, it.(pos := it.pos + 1, iter := child), Buffered(v.segs, Scan.Some(cv)), q, level, here, pts)
  {
    NextReference(st, it.refs, it.pos, q, level - 1, Flatten(v.segs));
  }

  /** `get_next_iter`. */
  method GetNextIter(st: seq<Block>, it: GroupIter, q: Query, ghost v: View, ghost level: nat, ghost pts: seq<Point>)
    returns (status: Scan.Status, next: GroupIter, ghost v': View, ghost child: seq<Point>)
    requires StoreOk(st) && QueryOk(st, q) && Working(st, it, v, q, level, [], pts) && it.iter == Scan.None && !it.done
    ensures status == Scan.NoData ==> next == it && v' == v && child == [] && it.pos == |it.refs|
    ensures status != Scan.NoData ==> Working(st, next, v', q, level, child, pts)
    ensures status != Scan.NoData ==> next == it.(pos := it.pos + 1, iter := next.iter) && it.pos < |it.refs|
    ensures status != Scan.NoData ==> status == if next.iter.Some? then Scan.Ok else Scan.NotFound
    ensures next.iter == Scan.None ==> child == []
  {
    if it.pos == |it.refs| {
      return Scan.NoData, it, v, [];
    }
    Scan.Visit(st, q.begin, q.end, it.refs, it.pos, level - 1);
    var iter;
    ghost var cv;
    status, iter, cv := MakeIter(st, it.refs[it.pos], q, level - 1);
    MovedOn(st, it, iter, cv, v, q, level, pts);
    child := Scan.Select(PointsAt(st, it.refs[it.pos].addr.ix), q.begin, q.end);
    next := it.(pos := it.pos + 1, iter := iter);
    v' := Buffered(v.segs, Scan.Some(cv));
  }

  /** The points of the open child come after the buffered ones. */
  lemma ChildFollows(segs: seq<seq<Point>>, child: seq<Point>, rest: seq<Point>, q: Query)
    requires Within(Flatten(segs) + (child + rest), q.begin, q.end) && (segs != [] ==> segs[|segs| - 1] != [])
    ensures Within(child, q.begin, q.end) && Meets(segs, child)
  {
    hide Flatten, Within;
    WithinParts(Flatten(segs), child + rest, q.begin, q.end);
    WithinParts(child, rest, q.begin, q.end);
    if segs != [] && child != [] {
      FlattenEnds(segs);
      assert (child + rest)[0] == child[0];
    }
  }

  lemma FlattenEnds(segs: seq<seq<Point>>)
    requires segs != [] && segs[|segs| - 1] != []
    ensures var all, last := Flatten(segs), segs[|segs| - 1]; all != [] && all[|all| - 1] == last[|last| - 1]
  {
  }

  lemma MeetsFirst(segs: seq<seq<Point>>, csegs: seq<seq<Point>>, rest: seq<Point>)
    requires Meets(segs, Flatten(csegs) + rest) && csegs != [] && csegs[0] != []
    ensures Meets(segs, csegs[0])
  {
    assert csegs == [csegs[0]] + csegs[1..];
    FlattenConcat([csegs[0]], csegs[1..]);
    FlattenOne(csegs[0]);
    assert (Flatten(csegs) + rest)[0] == csegs[0][0];
  }

  lemma LastIsNotEmpty(xs: seq<Agg>, segs: seq<seq<Point>>, q: Query)
    requires Collected(xs, segs, q.begin, q.end, q.step)
    ensures segs != [] ==> segs[0] != [] && segs[|segs| - 1] != []
  {
    if segs != [] {
      assert Holds(xs[0], segs[0], q.begin, q.end, q.step);
      assert Holds(xs[|xs| - 1], segs[|segs| - 1], q.begin, q.end, q.step);
    }
  }

  /** Merge what a child returned into the buffer. */
  method AddRead(rdbuf: seq<Agg>, part: seq<Agg>, q: Query, ghost segs: seq<seq<Point>>, ghost csegs: seq<seq<Point>>,
                 ghost crest: seq<Point>, ghost rest: seq<Point>)
    returns (buf: seq<Agg>, ghost segs': seq<seq<Point>>)
    requires Collected(rdbuf, segs, q.begin, q.end, q.step) && Collected(part, csegs, q.begin, q.end, q.step)
    requires Within(Flatten(segs) + ((Flatten(csegs) + crest) + rest), q.begin, q.end)
    ensures Collected(buf, segs', q.begin, q.end, q.step)
    ensures Flatten(segs') + (crest + rest) == Flatten(segs) + ((Flatten(csegs) + crest) + rest)
    ensures |rdbuf| <= |buf| <= |rdbuf| + |part| && (part != [] ==> |Flatten(csegs)| > 0)
  {
    LastIsNotEmpty(rdbuf, segs, q);
    LastIsNotEmpty(part, csegs, q);
    ChildFollows(segs, Flatten(csegs) + crest, rest, q);
    if csegs != [] {
      MeetsFirst(segs, csegs, crest);
      FlattenFirstNotEmpty(csegs);
    }
    buf, segs' := MergeInto(rdbuf, part, q.begin, q.step, q.end, segs, csegs);
    Regroup(Flatten(segs), Flatten(csegs), crest, rest);
  }

  lemma Regroup(a: seq<Point>, b: seq<Point>, c: seq<Point>, d: seq<Point>)
    ensures a + ((b + c) + d) == (a + b) + (c + d)
  {
  }

  /** Read the open child and merge what it returns into the buffer. */
  method ReadChild(st: seq<Block>, it: GroupIter, q: Query, ghost v: View, ghost level: nat, ghost child: seq<Point>,
                   ghost pts: seq<Point>)
    returns (next: GroupIter, ghost v': View, ghost child': seq<Point>)
    requires StoreOk(st) && QueryOk(st, q) && Working(st, it, v, q, level, child, pts) && Within(pts, q.begin, q.end)
    requires it.iter.Some? && !it.done && it.rdpos == 0 && |it.rdbuf| < RDBUF_SIZE
    ensures Working(st, next, v', q, level, child', pts) && next == it.(rdbuf := next.rdbuf, iter := next.iter)
    ensures next.iter.Some? ==> |child'| < |child|
    decreases level, 0
  {
    hide QueryOk, StoreOk, Scan.CursorOk, Scan.Unvisited, Collected, Flatten, Within;
    assert it.rdbuf[0..] == it.rdbuf;
    ghost var rest := Scan.Unvisited(st, q.begin, q.end, it.refs, it.pos);
    LastIsNotEmpty(it.rdbuf, v.segs, q);
    ChildFollows(v.segs, child, rest, q);
    var status, iter, part;
    ghost var cv, csegs;
    status, iter, part, cv, csegs, child' :=
        Read(st, it.iter.value, RDBUF_SIZE - |it.rdbuf|, q, v.child.value, level - 1, child);
    var buf;
    ghost var segs;
    buf, segs := AddRead(it.rdbuf, part, q, v.segs, csegs, child', rest);
    var open := if status == Scan.NoData then Scan.None else Scan.Some(iter);
    ChildWasRead(st, it, v, q, level, child, pts, buf, segs, open, cv, child');
    next := it.(rdbuf := buf, iter := open);
    v' := Buffered(segs, Scan.Some(cv));
  }

  lemma ChildWasRead(st: seq<Block>, it: GroupIter, v: View, q: Query, level: nat, child: seq<Point>, pts: seq<Point>,
                     buf: seq<Agg>, segs: seq<seq<Point>>, open: Scan.Option<GroupIter>, cv: View, child': seq<Point>)
    requires Working(st, it, v, q, level, child, pts) && it.rdpos == 0 && !it.done
    requires |buf| <= RDBUF_SIZE && Collected(buf, segs, q.begin, q.end, q.step)
    requires Flatten(segs) + (child' + Scan.Unvisited(st, q.begin, q.end, it.refs, it.pos)) == pts
    requires if open == Scan.None then child' == [] else Pending(st, open.value, cv, q, level - 1) == Scan.Some(child')
    ensures Working(st, it.(rdbuf := buf, iter := open), Buffered(segs, Scan.Some(cv)), q, level, child', pts)
  {
    assert buf[0..] == buf;
  }

  lemma FlattenFirstNotEmpty(segs: seq<seq<Point>>)
    requires segs != [] && segs[0] != []
    ensures Flatten(segs) != []
  {
    assert segs == [segs[0]] + segs[1..];
    FlattenConcat([segs[0]], segs[1..]);
    FlattenOne(segs[0]);
  }

  /** The loop of `refill_read_buffer`. It ends with a full buffer or with all children consumed. */
  method FillBuffer(st: seq<Block>, it: GroupIter, q: Query, ghost v: View, ghost level: nat, ghost child: seq<Point>,
                    ghost pts: seq<Point>)
    returns (next: GroupIter, ghost v': View, ghost child': seq<Point>)
    requires StoreOk(st) && QueryOk(st, q) && Working(st, it, v, q, level, child, pts) && Within(pts, q.begin, q.end)
    requires !it.done && it.rdpos == 0
    ensures Working(st, next, v', q, level, child', pts) && next.rdpos == 0
    ensures next.done || |next.rdbuf| == RDBUF_SIZE
    decreases level, 1
  {
    hide StoreOk, Flatten, Collected, Scan.Unvisited, Pending, SafeQuery;
    next, v', child' := it, v, child;
    while true
      invariant Working(st, next, v', q, level, child', pts) && !next.done && next.rdpos == 0
      decreases Scan.RefsLeft(q.begin, q.end, next.refs, next.pos), next.iter.Some?, |child'|
    {
      if next.iter == Scan.None {
        var status;
        status, next, v', child' := GetNextIter(st, next, q, v', level, pts);
        if status == Scan.NotFound {
          continue;
        } else if status != Scan.Ok {
          next := next.(done := true);
          break;
        }
      }
      if |next.rdbuf| == RDBUF_SIZE {
        break;
      }
      next, v', child' := ReadChild(st, next, q, v', level, child', pts);
    }
  }

  /** The unread slot, if any. */
  function Tail(rdbuf: seq<Agg>): seq<Agg>
  {
    if rdbuf == [] then [] else [rdbuf[|rdbuf| - 1]]
  }

  lemma TailMoved(st: seq<Block>, it: GroupIter, v: View, q: Query, level: nat, child: seq<Point>, pts: seq<Point>)
    requires Working(st, it, v, q, level, child, pts) && !it.done && |it.rdbuf| - it.rdpos < 2
    ensures Working(st, it.(rdbuf := Tail(it.rdbuf), rdpos := 0), v, q, level, child, pts)
  {
    assert Tail(it.rdbuf)[0..] == it.rdbuf[it.rdpos..];
  }

  /** `refill_read_buffer`: the unread slot moves to the front. */
  method RefillReadBuffer(st: seq<Block>, it: GroupIter, q: Query, ghost v: View, ghost level: nat,
                          ghost child: seq<Point>, ghost pts: seq<Point>)
    returns (status: Scan.Status, next: GroupIter, ghost v': View, ghost child': seq<Point>)
    requires StoreOk(st) && QueryOk(st, q) && Working(st, it, v, q, level, child, pts) && Within(pts, q.begin, q.end)
    requires !it.done && |it.rdbuf| - it.rdpos < 2
    ensures Working(st, next, v', q, level, child', pts)
    ensures if next.done then status == Scan.NoData else status == Scan.Ok && |next.rdbuf| - next.rdpos >= 2
    decreases level, 2
  {
    hide QueryOk, StoreOk, Flatten, Collected, Scan.CursorOk, ChildPending;
    TailMoved(st, it, v, q, level, child, pts);
    next := it.(rdbuf := Tail(it.rdbuf), rdpos := 0);
    next, v', child' := FillBuffer(st, next, q, v, level, child, pts);
    status := if next.done then Scan.NoData else Scan.Ok;
  }

  // ---- Handing out complete buckets --------------------------------------------------------------

  /** What is left starts in a later bucket. */
  ghost predicate Complete(segs: seq<seq<Point>>, rest: seq<Point>, q: Query)
  {
    segs != [] && rest != [] ==> BinOf(segs[|segs| - 1], q.begin, q.step) < BinOf(rest, q.begin, q.step)
  }

  lemma CollectedSplit(xs: seq<Agg>, segs: seq<seq<Point>>, k: nat, q: Query)
    requires Collected(xs, segs, q.begin, q.end, q.step) && k <= |xs|
    ensures Collected(xs[..k], segs[..k], q.begin, q.end, q.step) &&
            Collected(xs[k..], segs[k..], q.begin, q.end, q.step)
    ensures Flatten(segs) == Flatten(segs[..k]) + Flatten(segs[k..])
  {
    assert segs == segs[..k] + segs[k..];
    FlattenConcat(segs[..k], segs[k..]);
    forall i | 0 <= i < k
      ensures Holds(xs[..k][i], segs[..k][i], q.begin, q.end, q.step) &&
              (i > 0 ==> BinBelow(segs[..k], i, q.begin, q.step))
    {
      assert Holds(xs[i], segs[i], q.begin, q.end, q.step) && (i > 0 ==> BinBelow(segs, i, q.begin, q.step));
    }
    forall i | 0 <= i < |xs| - k
      ensures Holds(xs[k..][i], segs[k..][i], q.begin, q.end, q.step) &&
              (i > 0 ==> BinBelow(segs[k..], i, q.begin, q.step))
    {
      assert Holds(xs[k + i], segs[k + i], q.begin, q.end, q.step) &&
          (i > 0 ==> BinBelow(segs, k + i, q.begin, q.step));
    }
  }

  lemma CollectedConcat(xs: seq<Agg>, segs: seq<seq<Point>>, ys: seq<Agg>, more: seq<seq<Point>>, q: Query)
    requires Collected(xs, segs, q.begin, q.end, q.step) && Collected(ys, more, q.begin, q.end, q.step)
    requires more != [] ==> LastBinBelow(segs, more[0], q.begin, q.step)
    ensures Collected(xs + ys, segs + more, q.begin, q.end, q.step) &&
            Flatten(segs + more) == Flatten(segs) + Flatten(more)
  {
    FlattenConcat(segs, more);
    var all, both := xs + ys, segs + more;
    forall i | 0 <= i < |all|
      ensures Holds(all[i], both[i], q.begin, q.end, q.step) && (i > 0 ==> BinBelow(both, i, q.begin, q.step))
    {
      if i < |xs| {
        assert Holds(xs[i], segs[i], q.begin, q.end, q.step) && (i > 0 ==> BinBelow(segs, i, q.begin, q.step));
      } else {
        assert Holds(ys[i - |xs|], more[i - |xs|], q.begin, q.end, q.step) &&
            (i > |xs| ==> BinBelow(more, i - |xs|, q.begin, q.step));
      }
    }
  }

  lemma FirstBin(segs: seq<seq<Point>>, rest: seq<Point>, q: Query)
    requires segs != [] && segs[0] != []
    ensures Flatten(segs) + rest != [] &&
            BinOf(Flatten(segs) + rest, q.begin, q.step) == BinOf(segs[0], q.begin, q.step)
  {
    assert segs == [segs[0]] + segs[1..];
    FlattenConcat([segs[0]], segs[1..]);
    FlattenOne(segs[0]);
    assert (Flatten(segs) + rest)[0] == segs[0][0];
  }

  /** Handing out the first `k` unread slots. What is left starts in a later bucket if a slot stays behind,
      or if there is nothing behind the buffer. */
  lemma HandOut(out: seq<Agg>, segs: seq<seq<Point>>, unread: seq<Agg>, s: seq<seq<Point>>, k: nat, behind: seq<Point>,
                q: Query)
    requires Collected(out, segs, q.begin, q.end, q.step) && Collected(unread, s, q.begin, q.end, q.step)
    requires Complete(segs, Flatten(s) + behind, q) && k <= |unread| && (k == |unread| ==> behind == [])
    ensures Collected(out + unread[..k], segs + s[..k], q.begin, q.end, q.step) &&
            Collected(unread[k..], s[k..], q.begin, q.end, q.step)
    ensures Flatten(segs) + (Flatten(s) + behind) == Flatten(segs + s[..k]) + (Flatten(s[k..]) + behind)
    ensures Complete(segs + s[..k], Flatten(s[k..]) + behind, q)
  {
    CollectedSplit(unread, s, k, q);
    LastIsNotEmpty(unread, s, q);
    if k > 0 {
      FirstBin(s, behind, q);
      assert s[..k][0] == s[0];
    }
    CollectedConcat(out, segs, unread[..k], s[..k], q);
    Regroup(Flatten(segs), Flatten(s[..k]), Flatten(s[k..]), behind);
    if k < |s| {
      LastIsNotEmpty(unread[k..], s[k..], q);
      FirstBin(s[k..], behind, q);
      if k > 0 {
        assert BinBelow(s, k, q.begin, q.step);
      } else {
        assert s[..0] == [] && segs + [] == segs && s[0..] == s;
      }
    } else {
      assert s[k..] == [] && Flatten([]) + behind == [];
    }
  }

  /** Copy at most `size` complete slots. */
  method CopySlots(st: seq<Block>, it: GroupIter, size: nat, out: seq<Agg>, q: Query, ghost v: View, ghost level: nat,
                   ghost child: seq<Point>,
                   ghost segs: seq<seq<Point>>, ghost pts: seq<Point>)
    returns (next: GroupIter, out': seq<Agg>, ghost v': View, ghost segs': seq<seq<Point>>, ghost rest: seq<Point>)
    requires q.begin < q.end && Working(st, it, v, q, level, child, pts) && size > 0
    requires if it.done then |it.rdbuf| - it.rdpos >= 1 else |it.rdbuf| - it.rdpos >= 2
    requires Collected(out, segs, q.begin, q.end, q.step) && Complete(segs, pts, q)
    ensures Working(st, next, v', q, level, child, rest) && next.done == it.done
    ensures Collected(out', segs', q.begin, q.end, q.step) && Flatten(segs') + rest == Flatten(segs) + pts &&
            Complete(segs', rest, q)
    ensures |out| < |out'| <= |out| + size
  {
    var n := |it.rdbuf| - it.rdpos;
    if !it.done {
      n := n - 1;
    }
    var tocopy := if n < size then n else size;
    ghost var behind := child + Scan.Unvisited(st, q.begin, q.end, it.refs, it.pos);
    HandOut(out, segs, it.rdbuf[it.rdpos..], v.segs, tocopy, behind, q);
    out' := out + it.rdbuf[it.rdpos..][..tocopy];
    next := it.(rdpos := it.rdpos + tocopy);
    SlotsTaken(st, it, v, q, level, child, pts, tocopy);
    v', segs' := Buffered(v.segs[tocopy..], v.child), segs + v.segs[..tocopy];
    rest := Flatten(v.segs[tocopy..]) + behind;
  }

  lemma SlotsTaken(st: seq<Block>, it: GroupIter, v: View, q: Query, level: nat, child: seq<Point>, pts: seq<Point>,
                   k: nat)
    requires Working(st, it, v, q, level, child, pts)
    requires it.rdpos + k <= |it.rdbuf| && (!it.done ==> it.rdpos + k < |it.rdbuf|)
    ensures k <= |v.segs| && Working(st, it.(rdpos := it.rdpos + k), Buffered(v.segs[k..], v.child), q, level, child,
                                     Flatten(v.segs[k..]) + (child + Scan.Unvisited(st, q.begin, q.end, it.refs,
                                         it.pos)))
  {
    assert it.rdbuf[it.rdpos + k..] == it.rdbuf[it.rdpos..][k..];
    CollectedSplit(it.rdbuf[it.rdpos..], v.segs, k, q);
  }

  lemma Drained(st: seq<Block>, it: GroupIter, v: View, q: Query, level: nat, child: seq<Point>, pts: seq<Point>)
    requires Working(st, it, v, q, level, child, pts) && it.done && it.rdpos == |it.rdbuf| && q.begin < q.end
    ensures pts == []
  {
  }

  /** `NBTreeSBlockGroupAggregator::copy_to`. */
  method CopyTo(st: seq<Block>, it: GroupIter, size: nat, q: Query, ghost v: View, ghost level: nat,
                ghost child: seq<Point>, ghost pts: seq<Point>)
    returns (status: Scan.Status, next: GroupIter, out: seq<Agg>, ghost v': View, ghost child': seq<Point>,
             ghost segs: seq<seq<Point>>, ghost rest: seq<Point>)
    requires StoreOk(st) && QueryOk(st, q) && Working(st, it, v, q, level, child, pts) &&
             Within(pts, q.begin, q.end) && size > 0
    ensures Working(st, next, v', q, level, child', rest) && Emitted(pts, size, status, out, segs, rest, q) &&
            Complete(segs, rest, q)
    decreases level, 3
  {
    status, next, out, v', child', segs, rest := Scan.Ok, it, [], v, child, [], pts;
    assert [] + pts == pts;
    while |out| < size
      invariant Working(st, next, v', q, level, child', rest) && |out| <= size
      invariant Collected(out, segs, q.begin, q.end, q.step) && Complete(segs, rest, q) && pts == Flatten(segs) + rest
      decreases size - |out|, !next.done, |next.rdbuf| - next.rdpos < 2
    {
      if !next.done && |next.rdbuf| - next.rdpos < 2 {
        WithinParts(Flatten(segs), rest, q.begin, q.end);
        status, next, v', child' := RefillReadBuffer(st, next, q, v', level, child', rest);
      } else if next.done && |next.rdbuf| == next.rdpos {
        Drained(st, next, v', q, level, child', rest);
        return Scan.NoData, next, out, v', child', segs, rest;
      } else {
        next, out, v', segs, rest := CopySlots(st, next, size - |out|, out, q, v', level, child', segs, rest);
      }
    }
    status := Scan.Ok;
  }

  lemma EmptyBuffer(q: Query)
    ensures Flatten([]) == [] && BufferOk([], 0, false, [], q)
  {
  }

  /** Loading the references of the node changes nothing. */
  lemma Loading(st: seq<Block>, it: GroupIter, v: View, q: Query, level: nat, pts: seq<Point>)
    requires it.SBlockGroup? && !it.started && StoreOk(st) && QueryOk(st, q) &&
             Pending(st, it, v, q, level) == Scan.Some(pts)
    ensures it.addr.At? && it.addr.ix < |st| && st[it.addr.ix].Inner?
    ensures Pending(st, it.(started := true, refs := st[it.addr.ix].refs, pos := 0), v, q, level) == Scan.Some(pts)
  {
    hide BlockOk, RefsOk, PointsAt, PointsOf, Sorted, Scan.Select, Scan.Unvisited, Flatten, BufferOk;
    assert BlockOk(st, it.addr.ix);
    LoadedRefs(st, it.addr.ix);
    Scan.UnvisitedAll(st, q.begin, q.end, st[it.addr.ix].refs);
    EmptyBuffer(q);
    assert [] + ([] + pts) == pts;
  }

  /** `NBTreeSBlockGroupAggregator::read` into a buffer that is not empty. */
  method ReadSBlock(st: seq<Block>, it: GroupIter, size: nat, q: Query, ghost v: View, ghost level: nat,
                    ghost pts: seq<Point>)
    returns (status: Scan.Status, next: GroupIter, out: seq<Agg>, ghost v': View, ghost segs: seq<seq<Point>>,
             ghost rest: seq<Point>)
    requires it.SBlockGroup? && StoreOk(st) && QueryOk(st, q) && Pending(st, it, v, q, level) == Scan.Some(pts)
    requires Within(pts, q.begin, q.end) && size > 0
    ensures next.SBlockGroup? && Pending(st, next, v', q, level) == Scan.Some(rest)
    ensures Emitted(pts, size, status, out, segs, rest, q) && Complete(segs, rest, q)
    decreases level, 4
  {
    hide *;
    next := it;
    if !it.started {
      Loading(st, it, v, q, level, pts);
      next := it.(started := true, refs := st[it.addr.ix].refs, pos := 0);
    }
    WorkingMeans(st, next, v, q, level);
    ghost var child := ChildPending(st, next, v, q, level).value;
    status, next, out, v', child, segs, rest := CopyTo(st, next, size, q, v, level, child, pts);
    WorkingMeans(st, next, v', q, level);
  }

  /** `read` on any kind of iterator; all of them refuse an empty buffer. */
  method Read(st: seq<Block>, it: GroupIter, size: nat, q: Query, ghost v: View, ghost level: nat,
              ghost pts: seq<Point>)
    returns (status: Scan.Status, next: GroupIter, out: seq<Agg>, ghost v': View, ghost segs: seq<seq<Point>>,
             ghost rest: seq<Point>)
    requires StoreOk(st) && QueryOk(st, q) && Pending(st, it, v, q, level) == Scan.Some(pts) &&
             Within(pts, q.begin, q.end)
    ensures Pending(st, next, v', q, level) == Scan.Some(rest)
    ensures size > 0 ==> Emitted(pts, size, status, out, segs, rest, q)
    ensures size == 0 ==> status == Scan.BadArg && next == it && out == [] && rest == pts
    decreases level, 5
  {
    if size == 0 {
      return Scan.BadArg, it, [], v, [], pts;
    }
    match it
    case LeafGroup(_, _, _) =>
      status, next, out, v', segs, rest := ReadLeaf(st, it, size, q, v, level, pts);
    case ValueGroup(value, used) =>
      if used {
        NothingEmitted(size, q);
        return Scan.NoData, it, [], v, [], [];
      }
      ValueEmitted(value, pts, size, q);
      return Scan.Ok, it.(used := true), [value], v, [pts], [];
    case SBlockGroup(_, _, _, _, _, _, _, _) =>
      status, next, out, v', segs, rest := ReadSBlock(st, it, size, q, v, level, pts);
  }

  lemma ValueEmitted(x: Agg, pts: seq<Point>, size: nat, q: Query)
    requires Holds(x, pts, q.begin, q.end, q.step) && size > 0
    ensures Emitted(pts, size, Scan.Ok, [x], [pts], [], q)
  {
    FlattenOne(pts);
    assert pts + [] == pts;
  }

  /** Reading until `NoData`, with any non-zero buffer size on each call. */
  method Drain(st: seq<Block>, it: GroupIter, sizes: nat -> nat, q: Query, ghost v: View, ghost level: nat,
               ghost pts: seq<Point>)
    returns (out: seq<Agg>, ghost segs: seq<seq<Point>>)
    requires it.SBlockGroup? && StoreOk(st) && QueryOk(st, q) && Pending(st, it, v, q, level) == Scan.Some(pts)
    requires Within(pts, q.begin, q.end) && forall k :: sizes(k) > 0
    ensures Collected(out, segs, q.begin, q.end, q.step) && Flatten(segs) == pts
  {
    out, segs := [], [];
    var next, status, calls := it, Scan.Ok, 0;
    ghost var view, rest := v, pts;
    assert [] + pts == pts;
    while status == Scan.Ok
      invariant next.SBlockGroup? && Pending(st, next, view, q, level) == Scan.Some(rest) && pts == Flatten(segs) + rest
      invariant Collected(out, segs, q.begin, q.end, q.step) && Complete(segs, rest, q)
      invariant status == Scan.Ok || rest == []
      decreases if status == Scan.Ok then |rest| + 1 else 0
    {
      WithinParts(Flatten(segs), rest, q.begin, q.end);
      var part;
      ghost var psegs, before := [], rest;
      status, next, part, view, psegs, rest := ReadSBlock(st, next, sizes(calls), q, view, level, rest);
      Appended(out, segs, part, psegs, before, rest, q);
      out, segs := out + part, segs + psegs;
      calls := calls + 1;
    }
    assert Flatten(segs) + [] == Flatten(segs);
  }

  lemma Appended(out: seq<Agg>, segs: seq<seq<Point>>, part: seq<Agg>, psegs: seq<seq<Point>>, before: seq<Point>,
                 rest: seq<Point>, q: Query)
    requires Collected(out, segs, q.begin, q.end, q.step) && Collected(part, psegs, q.begin, q.end, q.step)
    requires before == Flatten(psegs) + rest && Complete(segs, before, q) && Complete(psegs, rest, q)
    ensures Collected(out + part, segs + psegs, q.begin, q.end, q.step) &&
            Flatten(segs + psegs) + rest == Flatten(segs) + before
    ensures Complete(segs + psegs, rest, q) && (part != [] ==> |rest| < |before|)
  {
    LastIsNotEmpty(part, psegs, q);
    if psegs != [] {
      FirstBin(psegs, rest, q);
      FlattenFirstNotEmpty(psegs);
    } else {
      assert segs + psegs == segs && before == rest;
    }
    CollectedConcat(out, segs, part, psegs, q);
  }

  /** The bucket an aggregate belongs to. */
  function BucketOf(a: Agg, q: Query): nat
  {
    Bin(a.begin, q.begin, q.step)
  }

  /** `out` lists the non-empty buckets of `pts`, each once, in order, with the summary of all its points. */
  ghost predicate GroupsOf(out: seq<Agg>, pts: seq<Point>, q: Query)
  {
    && (forall i, j :: 0 <= i < j < |out| ==> BucketOf(out[i], q) < BucketOf(out[j], q))
    && (forall i :: 0 <= i < |out| ==>
          var bucket := InBin(pts, BucketOf(out[i], q), q.begin, q.step); bucket != [] && Summarises(out[i], bucket))
    && (forall k: nat :: InBin(pts, k, q.begin, q.step) != [] ==>
        exists i :: 0 <= i < |out| && BucketOf(out[i], q) == k)
  }

  lemma CollectedGroups(out: seq<Agg>, segs: seq<seq<Point>>, pts: seq<Point>, q: Query)
    requires Collected(out, segs, q.begin, q.end, q.step) && Flatten(segs) == pts && Within(pts, q.begin, q.end)
    ensures GroupsOf(out, pts, q)
  {
    hide Flatten, InBin, Bin, Summarises;
    CollectedMeaning(out, segs, q.begin, q.end, q.step);
    forall i | 0 <= i < |out|
      ensures BucketOf(out[i], q) == BinOf(segs[i], q.begin, q.step)
      ensures InBin(pts, BucketOf(out[i], q), q.begin, q.step) == segs[i] && segs[i] != []
    {
      RunIsItsBucket(segs, i, q.begin, q.end, q.step);
      assert OneBin(segs[i], q.begin, q.step);
      SummaryBegin(out[i], segs[i]);
    }
    forall i, j | 0 <= i < j < |out|
      ensures BucketOf(out[i], q) < BucketOf(out[j], q)
    {
      BinsIncrease(segs, q.begin, q.step, i, j);
    }
    forall k: nat | InBin(pts, k, q.begin, q.step) != []
      ensures exists i :: 0 <= i < |out| && BucketOf(out[i], q) == k
    {
      if forall i :: 0 <= i < |segs| ==> BinOf(segs[i], q.begin, q.step) != k {
        OtherBucketsAreEmpty(segs, k, q.begin, q.end, q.step);
      }
    }
  }

  lemma SelectWithin(pts: seq<Point>, begin: Timestamp, end: Timestamp)
    requires Sorted(pts) && begin < end
    ensures Within(Scan.Select(pts, begin, end), begin, end)
  {
    Scan.SelectSorted(pts, begin, end);
    Scan.SelectForward(pts, begin, end);
  }

  /** A forward group-aggregate over the references of a superblock. */
  method GroupAggregate(st: seq<Block>, refs: seq<SubtreeRef>, sizes: nat -> nat, q: Query, ghost level: nat)
    returns (out: seq<Agg>)
    requires StoreOk(st) && QueryOk(st, q) && level >= 1 && RefsOk(st, refs, level - 1, |st|) &&
             Sorted(PointsOf(st, refs, |st|))
    requires forall k :: sizes(k) > 0
    ensures GroupsOf(out, Scan.Select(PointsOf(st, refs, |st|), q.begin, q.end), q)
  {
    hide Scan.Select, Scan.Unvisited, PointsOf, Sorted, Within, GroupsOf;
    var it := SBlockGroup(EMPTY_ADDR, true, refs, 0, Scan.None, [], 0, false);
    ghost var pts := Scan.Select(PointsOf(st, refs, |st|), q.begin, q.end);
    Scan.UnvisitedAll(st, q.begin, q.end, refs);
    SelectWithin(PointsOf(st, refs, |st|), q.begin, q.end);
    assert Flatten([]) + ([] + pts) == pts;
    ghost var segs;
    out, segs := Drain(st, it, sizes, q, Buffered([], Scan.None), level, pts);
    CollectedGroups(out, segs, pts, q);
  }
}
