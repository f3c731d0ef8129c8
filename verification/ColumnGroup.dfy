/** `NBTreeExtentsList::group_aggregate`: one group aggregator per extent, joined by the
    `CombineGroupAggregateOperator` of storage/operators/aggregate.cc, whose buckets may be split between extents. */
module ColumnGroup {
  import opened Aggregation
  import opened TreeStore
  import opened Summaries
  import opened Column
  import opened Buckets
  import opened GroupAggregate
  import Scan
  import ColumnScan

  datatype Operator = Operator(iters: seq<GroupIter>, index: nat, rdbuf: seq<Agg>, rdpos: nat)

  /** What the proofs know about the iterators: their views, their levels and the points each still stands for. */
  datatype Outlook = Outlook(views: seq<View>, levels: seq<nat>, pend: seq<seq<Point>>)

  ghost predicate Waiting(st: seq<Block>, iters: seq<GroupIter>, o: Outlook, k: int, q: Query)
  {
    && 0 <= k < |iters| == |o.views| == |o.levels| == |o.pend|
    && Pending(st, iters[k], o.views[k], q, o.levels[k]) == Scan.Some(o.pend[k])
  }

  /** The operator still has to report `pts`: the buffered buckets `segs`, then what its iterators stand for. */
  ghost predicate Stands(st: seq<Block>, op: Operator, o: Outlook, segs: seq<seq<Point>>, q: Query, pts: seq<Point>)
  {
    && op.index <= |op.iters| == |o.views| == |o.levels| == |o.pend|
    && (forall k {:trigger Waiting(st, op.iters, o, k, q)} :: op.index <= k < |op.iters| ==>
        Waiting(st, op.iters, o, k, q))
    && BufferOk(op.rdbuf, op.rdpos, op.index == |op.iters|, segs, q)
    && pts == Flatten(segs) + Flatten(o.pend[op.index..])
  }

  lemma {:induction false} FlattenHead(segs: seq<seq<Point>>)
    requires segs != []
    ensures Flatten(segs) == segs[0] + Flatten(segs[1..])
  {
    assert segs == [segs[0]] + segs[1..];
    FlattenConcat([segs[0]], segs[1..]);
    FlattenOne(segs[0]);
  }

  /** One iterator was read: its values are in the buffer, and it is left behind once it has nothing more. */
  lemma IterWasRead(st: seq<Block>, op: Operator, o: Outlook, segs: seq<seq<Point>>, q: Query, pts: seq<Point>,
                    it: GroupIter, v: View, rest: seq<Point>, done: bool, buf: seq<Agg>, segs': seq<seq<Point>>)
    requires Stands(st, op, o, segs, q, pts) && op.index < |op.iters| && op.rdpos == 0
    requires Pending(st, it, v, q, o.levels[op.index]) == Scan.Some(rest) && (done ==> rest == [])
    requires |buf| <= RDBUF_SIZE && Collected(buf, segs', q.begin, q.end, q.step)
    requires Flatten(segs') + (rest + Flatten(o.pend[op.index + 1..])) == pts
    ensures var i := op.index;
            var op' := op.(iters := op.iters[i := it], index := if done then i + 1 else i, rdbuf := buf);
            Stands(st, op', o.(views := o.views[i := v], pend := o.pend[i := rest]), segs', q, pts)
  {
    hide Pending;
    var i := op.index;
    var iters, o' := op.iters[i := it], o.(views := o.views[i := v], pend := o.pend[i := rest]);
    forall k | i <= k < |iters|
      ensures Waiting(st, iters, o', k, q)
    {
      assert Waiting(st, op.iters, o, k, q);
    }
    assert buf[0..] == buf;
    FlattenHead(o'.pend[i..]);
    assert o'.pend[i..][1..] == o'.pend[i + 1..] == o.pend[i + 1..];
    assert [] + Flatten(o.pend[i + 1..]) == Flatten(o.pend[i + 1..]);
  }

  /** Read the current iterator into what is left of the buffer. */
  method ReadIter(st: seq<Block>, op: Operator, q: Query, ghost o: Outlook, ghost segs: seq<seq<Point>>,
                  ghost pts: seq<Point>)
    returns (next: Operator, ghost o': Outlook, ghost segs': seq<seq<Point>>)
    requires StoreOk(st) && QueryOk(st, q) && Stands(st, op, o, segs, q, pts) && Within(pts, q.begin, q.end)
    requires op.index < |op.iters| && op.rdpos == 0 && |op.rdbuf| < RDBUF_SIZE
    ensures Stands(st, next, o', segs', q, pts) && next.rdpos == 0 && |next.iters| == |op.iters|
    ensures op.index <= next.index <= op.index + 1
    ensures next.index == op.index ==> |o'.pend[op.index]| < |o.pend[op.index]|
  {
    hide Pending, StoreOk, QueryOk, Sorted, Scan.Select;
    var i := op.index;
    ghost var behind := Flatten(o.pend[i + 1..]);
    assert Waiting(st, op.iters, o, i, q);
    assert op.rdbuf[0..] == op.rdbuf && o.pend[i..][1..] == o.pend[i + 1..];
    FlattenHead(o.pend[i..]);
    LastIsNotEmpty(op.rdbuf, segs, q);
    ChildFollows(segs, o.pend[i], behind, q);
    var status, it, part;
    ghost var v, psegs, rest;
    status, it, part, v, psegs, rest := Read(st, op.iters[i], RDBUF_SIZE - |op.rdbuf|, q, o.views[i], o.levels[i],
                                             o.pend[i]);
    var buf;
    buf, segs' := AddRead(op.rdbuf, part, q, segs, psegs, rest, behind);
    IterWasRead(st, op, o, segs, q, pts, it, v, rest, status == Scan.NoData, buf, segs');
    next := op.(iters := op.iters[i := it], index := if status == Scan.NoData then i + 1 else i, rdbuf := buf);
    o' := o.(views := o.views[i := v], pend := o.pend[i := rest]);
  }

  lemma TailKept(st: seq<Block>, op: Operator, o: Outlook, segs: seq<seq<Point>>, q: Query, pts: seq<Point>)
    requires Stands(st, op, o, segs, q, pts) && op.index < |op.iters| && |op.rdbuf| - op.rdpos < 2
    ensures Stands(st, op.(rdbuf := Tail(op.rdbuf), rdpos := 0), o, segs, q, pts)
  {
    assert Tail(op.rdbuf)[0..] == op.rdbuf[op.rdpos..];
  }

  /** `CombineGroupAggregateOperator::refill_read_buffer`. */
  method Refill(st: seq<Block>, op: Operator, q: Query, ghost o: Outlook, ghost segs: seq<seq<Point>>,
                ghost pts: seq<Point>)
    returns (next: Operator, ghost o': Outlook, ghost segs': seq<seq<Point>>)
    requires StoreOk(st) && QueryOk(st, q) && Stands(st, op, o, segs, q, pts) && Within(pts, q.begin, q.end)
    requires op.index < |op.iters| && |op.rdbuf| - op.rdpos < 2
    ensures Stands(st, next, o', segs', q, pts) && |next.iters| == |op.iters|
    ensures next.index >= op.index && (next.index == |next.iters| || |next.rdbuf| - next.rdpos >= 2)
  {
    hide Waiting, StoreOk, QueryOk, Sorted, Flatten, Collected;
    TailKept(st, op, o, segs, q, pts);
    next, o', segs' := op.(rdbuf := Tail(op.rdbuf), rdpos := 0), o, segs;
    while next.index < |next.iters| && |next.rdbuf| < RDBUF_SIZE
      invariant Stands(st, next, o', segs', q, pts) && next.rdpos == 0 && |next.iters| == |op.iters| &&
                next.index >= op.index
      decreases |next.iters| - next.index, if next.index < |o'.pend| then |o'.pend[next.index]| else 0
    {
      next, o', segs' := ReadIter(st, next, q, o', segs', pts);
    }
  }

  /** The timestamp reported with a bucket is where the bucket starts. */
  function Stamp(a: Agg, q: Query): nat
  {
    q.begin + q.step * BucketOf(a, q)
  }

  lemma {:induction false} QuotientBound(a: nat, d: nat)
    requires d > 0
    ensures d * Quotient(a, d) <= a < d * Quotient(a, d) + d
  {
    if a >= d {
      QuotientBound(a - d, d);
      assert d * (1 + Quotient(a - d, d)) == d + d * Quotient(a - d, d);
    }
  }

  lemma StampMeaning(a: Agg, q: Query)
    requires q.begin <= a.begin
    ensures Stamp(a, q) <= a.begin < Stamp(a, q) + q.step
    ensures Stamp(a, q) == q.begin + q.step * ((a.begin - q.begin) / q.step)
  {
    BinMeaning(a.begin, q.begin, q.step);
    QuotientBound(a.begin - q.begin, q.step);
  }

  /** Copy at most `size` complete slots. */
  method CopySlots(st: seq<Block>, op: Operator, size: nat, out: seq<Agg>, q: Query, ghost o: Outlook,
                   ghost segs: seq<seq<Point>>,
                   ghost osegs: seq<seq<Point>>, ghost pts: seq<Point>)
    returns (next: Operator, out': seq<Agg>, ghost segs': seq<seq<Point>>, ghost osegs': seq<seq<Point>>,
             ghost rest: seq<Point>)
    requires Stands(st, op, o, segs, q, pts) && size > 0
    requires |op.rdbuf| - op.rdpos >= if op.index == |op.iters| then 1 else 2
    requires Collected(out, osegs, q.begin, q.end, q.step) && Complete(osegs, pts, q)
    ensures Stands(st, next, o, segs', q, rest) && next == op.(rdpos := next.rdpos)
    ensures Collected(out', osegs', q.begin, q.end, q.step) && Complete(osegs', rest, q)
    ensures Flatten(osegs') + rest == Flatten(osegs) + pts && |out| < |out'| <= |out| + size
  {
    var n := |op.rdbuf| - op.rdpos;
    if op.index != |op.iters| {
      n := n - 1;
    }
    var tocopy := if n < size then n else size;
    ghost var behind := Flatten(o.pend[op.index..]);
    NothingBehind(op, o);
    HandOut(out, osegs, op.rdbuf[op.rdpos..], segs, tocopy, behind, q);
    out' := out + op.rdbuf[op.rdpos..][..tocopy];
    next := op.(rdpos := op.rdpos + tocopy);
    SlotsGiven(st, op, o, segs, q, pts, tocopy);
    segs', osegs' := segs[tocopy..], osegs + segs[..tocopy];
    rest := Flatten(segs[tocopy..]) + behind;
  }

  lemma NothingBehind(op: Operator, o: Outlook)
    requires op.index <= |op.iters| == |o.pend|
    ensures op.index == |op.iters| ==> Flatten(o.pend[op.index..]) == []
  {
  }

  lemma SlotsGiven(st: seq<Block>, op: Operator, o: Outlook, segs: seq<seq<Point>>, q: Query, pts: seq<Point>, k: nat)
    requires Stands(st, op, o, segs, q, pts)
    requires op.rdpos + k <= |op.rdbuf| && (op.index < |op.iters| ==> op.rdpos + k < |op.rdbuf|)
    ensures k <= |segs|
    ensures Stands(st, op.(rdpos := op.rdpos + k), o, segs[k..], q, Flatten(segs[k..]) + Flatten(o.pend[op.index..]))
  {
    assert op.rdbuf[op.rdpos + k..] == op.rdbuf[op.rdpos..][k..];
    CollectedSplit(op.rdbuf[op.rdpos..], segs, k, q);
  }

  /** `CombineGroupAggregateOperator::read` into a buffer that is not empty. The status is Ok even when there is
      nothing left; the number of values tells. */
  method ReadOperator(st: seq<Block>, op: Operator, size: nat, q: Query, ghost o: Outlook, ghost segs: seq<seq<Point>>,
                      ghost pts: seq<Point>)
    returns (next: Operator, out: seq<Agg>, ghost o': Outlook, ghost segs': seq<seq<Point>>,
             ghost osegs: seq<seq<Point>>, ghost rest: seq<Point>)
    requires StoreOk(st) && QueryOk(st, q) && Stands(st, op, o, segs, q, pts) && Within(pts, q.begin, q.end) && size > 0
    ensures Stands(st, next, o', segs', q, rest) && Complete(osegs, rest, q)
    ensures Collected(out, osegs, q.begin, q.end, q.step) && pts == Flatten(osegs) + rest && |out| <= size
    ensures |out| < size ==> rest == []
  {
    hide StoreOk, QueryOk, Sorted, Collected, Waiting;
    next, out, o', segs', osegs, rest := op, [], o, segs, [], pts;
    NothingCopied(pts, q);
    while |out| < size
      invariant Stands(st, next, o', segs', q, rest) && |out| <= size
      invariant Collected(out, osegs, q.begin, q.end, q.step) && Complete(osegs, rest, q) &&
                pts == Flatten(osegs) + rest
      decreases size - |out|, |next.iters| - next.index, |next.rdbuf| - next.rdpos < 2
    {
      if next.index != |next.iters| && |next.rdbuf| - next.rdpos < 2 {
        WithinParts(Flatten(osegs), rest, q.begin, q.end);
        next, o', segs' := Refill(st, next, q, o', segs', rest);
      } else if next.index == |next.iters| && |next.rdbuf| == next.rdpos {
        AllGiven(st, next, o', segs', q, rest);
        break;
      } else {
        next, out, segs', osegs, rest := CopySlots(st, next, size - |out|, out, q, o', segs', osegs, rest);
      }
    }
  }

  lemma NothingCopied(pts: seq<Point>, q: Query)
    ensures Collected([], [], q.begin, q.end, q.step) && Complete([], pts, q) && pts == Flatten([]) + pts
  {
  }

  lemma AllGiven(st: seq<Block>, op: Operator, o: Outlook, segs: seq<seq<Point>>, q: Query, pts: seq<Point>)
    requires Stands(st, op, o, segs, q, pts) && op.index == |op.iters| && op.rdpos == |op.rdbuf|
    ensures pts == []
  {
    NothingBehind(op, o);
  }

  /** `NBTreeLeafExtent::group_aggregate` and `NBTreeSBlockExtent::group_aggregate`. */
  method GroupExtent(st: seq<Block>, e: Extent, q: Query, ghost i: nat) returns (it: GroupIter, ghost v: View)
    requires StoreOk(st) && ExtentOk(st, e, i) && Sorted(OwnPoints(st, e)) && q.begin < q.end
    ensures Pending(st, it, v, q, i) == Scan.Some(Scan.Select(OwnPoints(st, e), q.begin, q.end))
  {
    hide Scan.Select, Scan.Unvisited, PointsOf, Sorted, StoreOk, Collected;
    if e.LeafExtent? {
      it, v := NewLeafGroup(st, e.leaf.points, e.leaf.meta, q);
    } else {
      Scan.UnvisitedAll(st, q.begin, q.end, e.curr.refs);
      ghost var pts := Scan.Select(OwnPoints(st, e), q.begin, q.end);
      EmptyBuffer(q);
      assert [] + ([] + pts) == pts;
      it, v := SBlockGroup(EMPTY_ADDR, true, e.curr.refs, 0, Scan.None, [], 0, false), Buffered([], Scan.None);
    }
  }

  lemma WaitingMore(st: seq<Block>, iters: seq<GroupIter>, o: Outlook, q: Query, it: GroupIter, v: View, level: nat,
                    pts: seq<Point>)
    requires |iters| == |o.views| == |o.levels| == |o.pend|
    requires forall k {:trigger Waiting(st, iters, o, k, q)} :: 0 <= k < |iters| ==> Waiting(st, iters, o, k, q)
    requires Pending(st, it, v, q, level) == Scan.Some(pts)
    ensures var o' := Outlook(o.views + [v], o.levels + [level], o.pend + [pts]);
            && (forall k {:trigger Waiting(st, iters + [it], o', k, q)} :: 0 <= k <= |iters| ==>
                Waiting(st, iters + [it], o', k, q))
            && Flatten(o'.pend) == Flatten(o.pend) + pts
  {
    hide Pending;
    var o' := Outlook(o.views + [v], o.levels + [level], o.pend + [pts]);
    forall k | 0 <= k <= |iters|
      ensures Waiting(st, iters + [it], o', k, q)
    {
      assert k < |iters| ==> Waiting(st, iters, o, k, q);
    }
    FlattenConcat(o.pend, [pts]);
    FlattenOne(pts);
  }

  /** The loop in `NBTreeExtentsList::group_aggregate`: from the top extent down to the leaf. */
  method GroupExtents(st: seq<Block>, ext: seq<Extent>, q: Query, ghost rp: seq<LogicAddr>)
    returns (op: Operator, ghost o: Outlook)
    requires ColOk(Col(st, ext, rp)) && Sorted(ContentsFrom(st, ext, 0)) && q.begin < q.end
    ensures Stands(st, op, o, [], q, Scan.Select(ContentsFrom(st, ext, 0), q.begin, q.end))
  {
    hide Pending, Scan.Select, Sorted, OwnPoints, ExtentOk, StoreOk, Waiting;
    var iters: seq<GroupIter> := [];
    o := Outlook([], [], []);
    NothingSelected(q);
    var i := |ext|;
    while i > 0
      invariant 0 <= i <= |ext| && |iters| == |o.views| == |o.levels| == |o.pend|
      invariant forall k {:trigger Waiting(st, iters, o, k, q)} :: 0 <= k < |iters| ==> Waiting(st, iters, o, k, q)
      invariant Flatten(o.pend) == Scan.Select(ContentsFrom(st, ext, i), q.begin, q.end)
    {
      i := i - 1;
      assert ExtentOk(st, ext[i], i);
      ColumnScan.OwnSorted(st, ext, 0, i);
      var it;
      ghost var v;
      it, v := GroupExtent(st, ext[i], q, i);
      ghost var pts := Scan.Select(OwnPoints(st, ext[i]), q.begin, q.end);
      Scan.SelectConcat(ContentsFrom(st, ext, i + 1), OwnPoints(st, ext[i]), q.begin, q.end);
      WaitingMore(st, iters, o, q, it, v, i, pts);
      iters, o := iters + [it], Outlook(o.views + [v], o.levels + [i], o.pend + [pts]);
    }
    op := Operator(iters, 0, [], 0);
    StandsAtFirst(st, iters, o, q);
  }

  lemma NothingSelected(q: Query)
    ensures Scan.Select([], q.begin, q.end) == [] == Flatten([])
  {
  }

  lemma StandsAtFirst(st: seq<Block>, iters: seq<GroupIter>, o: Outlook, q: Query)
    requires |iters| == |o.views| == |o.levels| == |o.pend|
    requires forall k {:trigger Waiting(st, iters, o, k, q)} :: 0 <= k < |iters| ==> Waiting(st, iters, o, k, q)
    ensures Stands(st, Operator(iters, 0, [], 0), o, [], q, Flatten(o.pend))
  {
    assert o.pend[0..] == o.pend;
    EmptyBuffer(q);
    assert [] + Flatten(o.pend) == Flatten(o.pend);
  }

  /** Reading until no value is returned, with any non-zero buffer size on each call. */
  method DrainOperator(st: seq<Block>, op: Operator, sizes: nat -> nat, q: Query, ghost o: Outlook,
                       ghost pts: seq<Point>)
    returns (out: seq<Agg>, ghost osegs: seq<seq<Point>>)
    requires StoreOk(st) && QueryOk(st, q) && Stands(st, op, o, [], q, pts) && Within(pts, q.begin, q.end)
    requires forall k :: sizes(k) > 0
    ensures Collected(out, osegs, q.begin, q.end, q.step) && Flatten(osegs) == pts
  {
    hide StoreOk, QueryOk, Stands, Collected, Complete, Within, Flatten;
    var next, calls, more := op, 0, true;
    ghost var outlook, segs, rest := o, [], pts;
    out, osegs := [], [];
    NothingCopied(pts, q);
    while more
      invariant Stands(st, next, outlook, segs, q, rest) && pts == Flatten(osegs) + rest
      invariant Collected(out, osegs, q.begin, q.end, q.step) && Complete(osegs, rest, q)
      invariant more || rest == []
      decreases if more then |rest| + 1 else 0
    {
      WithinParts(Flatten(osegs), rest, q.begin, q.end);
      var part;
      ghost var psegs, before := [], rest;
      next, part, outlook, segs, psegs, rest := ReadOperator(st, next, sizes(calls), q, outlook, segs, rest);
      Appended(out, osegs, part, psegs, before, rest, q);
      out, osegs := out + part, osegs + psegs;
      calls, more := calls + 1, part != [];
    }
    assert Flatten(osegs) + [] == Flatten(osegs);
  }

  /** A forward group-aggregate over a whole column, read with any non-zero buffer sizes: the non-empty buckets of the
      points in the range, each once and in order, each with the summary of all its points, wherever they are kept,
      and with the time at which it starts. */
  method GroupColumn(c: Col, sizes: nat -> nat, q: Query) returns (outts: seq<nat>, out: seq<Agg>)
    requires ColOk(c) && Sorted(Contents(c)) && QueryOk(c.st, q) && forall k :: sizes(k) > 0
    ensures GroupsOf(out, Scan.Select(Contents(c), q.begin, q.end), q)
    ensures |outts| == |out| && forall i :: 0 <= i < |out| ==> outts[i] == Stamp(out[i], q)
  {
    hide Scan.Select, Sorted, Stands, GroupsOf, Collected, Within, Flatten;
    var op;
    ghost var o, osegs;
    op, o := GroupExtents(c.st, c.ext, q, c.rp);
    SelectWithin(Contents(c), q.begin, q.end);
    out, osegs := DrainOperator(c.st, op, sizes, q, o, Scan.Select(Contents(c), q.begin, q.end));
    CollectedGroups(out, osegs, Scan.Select(Contents(c), q.begin, q.end), q);
    outts := seq(|out|, i requires 0 <= i < |out| => Stamp(out[i], q));
  }
}
