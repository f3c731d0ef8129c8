/** Range scans: the leaf iterator, the superblock iterator and the chain over all extents
    (storage/nbtree.cc and storage/operators/scan.cc).

    Every source iterator is owned by exactly one pointer, so an iterator is a value here and
    `read` returns the advanced iterator next to what it wrote to the caller's buffer. */
module Scan {
  import opened Aggregation
  import opened TreeStore

  datatype Status = Ok | NoData | NotFound | BadArg

  datatype Option<T> = None | Some(value: T)

  // ---- What a scan of [begin, end), or of (end, begin] backwards, has to return ----------------

  predicate Hit(t: Timestamp, begin: Timestamp, end: Timestamp)
  {
    if begin < end then begin <= t < end else end < t <= begin
  }

  /** The points in range, in reading order. */
  function Select(pts: seq<Point>, begin: Timestamp, end: Timestamp): seq<Point>
  {
    if pts == [] then []
    else
      var rest, p := Select(pts[..|pts| - 1], begin, end), pts[|pts| - 1];
      if !Hit(p.ts, begin, end) then rest else if begin < end then rest + [p] else [p] + rest
  }

  function Reverse(pts: seq<Point>): seq<Point>
  {
    if pts == [] then [] else [pts[|pts| - 1]] + Reverse(pts[..|pts| - 1])
  }

  lemma {:induction false} SelectConcat(a: seq<Point>, b: seq<Point>, begin: Timestamp, end: Timestamp)
    ensures begin < end ==> Select(a + b, begin, end) == Select(a, begin, end) + Select(b, begin, end)
    ensures begin >= end ==> Select(a + b, begin, end) == Select(b, begin, end) + Select(a, begin, end)
  {
    if b == [] {
      assert a + b == a;
    } else {
      var n := |b| - 1;
      assert (a + b)[..|a + b| - 1] == a + b[..n];
      SelectConcat(a, b[..n], begin, end);
    }
  }

  lemma {:induction false} ReverseIndex(s: seq<Point>)
    ensures |Reverse(s)| == |s|
    ensures forall k :: 0 <= k < |s| ==> Reverse(s)[k] == s[|s| - 1 - k]
  {
    if s != [] {
      ReverseIndex(s[..|s| - 1]);
    }
  }

  lemma {:induction false} SelectNone(pts: seq<Point>, begin: Timestamp, end: Timestamp)
    requires forall k :: 0 <= k < |pts| ==> !Hit(pts[k].ts, begin, end)
    ensures Select(pts, begin, end) == []
  {
    if pts != [] {
      SelectNone(pts[..|pts| - 1], begin, end);
    }
  }

  /** A scan returns every point of the column that lies in the range, as often as the column holds it ... */
  lemma {:induction false} SelectMeaning(pts: seq<Point>, begin: Timestamp, end: Timestamp)
    ensures forall p ::
              multiset(Select(pts, begin, end))[p] ==
              (if (if begin < end then begin <= p.ts < end else end < p.ts <= begin) then multiset(pts)[p] else 0)
  {
    if pts != [] {
      var n := |pts| - 1;
      SelectMeaning(pts[..n], begin, end);
      assert pts == pts[..n] + [pts[n]];
    }
  }

  /** `std::lower_bound` / `std::upper_bound` over the timestamps of a sorted leaf. */
  function LowerBound(pts: seq<Point>, t: Timestamp): (k: nat)
    requires Sorted(pts)
    ensures k <= |pts|
    ensures forall i :: 0 <= i < k ==> pts[i].ts < t
    ensures forall i :: k <= i < |pts| ==> t <= pts[i].ts
  {
    SortedMeaning(pts);
    if pts == [] || pts[|pts| - 1].ts < t then |pts| else LowerBound(pts[..|pts| - 1], t)
  }

  function UpperBound(pts: seq<Point>, t: Timestamp): (k: nat)
    requires Sorted(pts)
    ensures k <= |pts|
    ensures forall i :: 0 <= i < k ==> pts[i].ts <= t
    ensures forall i :: k <= i < |pts| ==> t < pts[i].ts
  {
    SortedMeaning(pts);
    if pts == [] || pts[|pts| - 1].ts <= t then |pts| else UpperBound(pts[..|pts| - 1], t)
  }

  /** The points in range form the slice [lo, hi) of a leaf. */
  ghost predicate HitsAre(pts: seq<Point>, lo: nat, hi: nat, begin: Timestamp, end: Timestamp)
  {
    lo <= hi <= |pts| && forall k :: 0 <= k < |pts| ==> (Hit(pts[k].ts, begin, end) <==> lo <= k < hi)
  }

  lemma SelectLast(pts: seq<Point>, begin: Timestamp, end: Timestamp)
    requires pts != []
    ensures var n := |pts| - 1;
            var front := Select(pts[..n], begin, end);
            Select(pts, begin, end) == if !Hit(pts[n].ts, begin, end) then front
            else if begin < end then front + [pts[n]] else [pts[n]] + front
  {
  }

  lemma HitsFront(pts: seq<Point>, lo: nat, hi: nat, begin: Timestamp, end: Timestamp)
    requires HitsAre(pts, lo, hi, begin, end) && pts != []
    ensures var n := |pts| - 1;
            && (Hit(pts[n].ts, begin, end) <==> lo <= n < hi) && lo <= hi <= |pts|
            && (if lo <= n < hi then HitsAre(pts[..n], lo, n, begin, end)
                else if hi <= n then HitsAre(pts[..n], lo, hi, begin, end) else HitsAre(pts[..n], n, n, begin, end))
  {
    hide Hit;
  }

  lemma {:induction false} SelectSlice(pts: seq<Point>, lo: nat, hi: nat, begin: Timestamp, end: Timestamp)
    requires HitsAre(pts, lo, hi, begin, end)
    ensures Select(pts, begin, end) == if begin < end then pts[lo..hi] else Reverse(pts[lo..hi])
  {
    if pts != [] {
      var n := |pts| - 1;
      var front := pts[..n];
      SelectLast(pts, begin, end);
      HitsFront(pts, lo, hi, begin, end);
      hide Select, Reverse, HitsAre;
      if lo <= n < hi {
        SelectSlice(front, lo, n, begin, end);
        SliceSnoc(pts, lo, n);
      } else if hi <= n {
        SelectSlice(front, lo, hi, begin, end);
        assert front[lo..hi] == pts[lo..hi];
      } else {
        SelectSlice(front, n, n, begin, end);
      }
    }
  }

  lemma SliceSnoc(pts: seq<Point>, lo: nat, n: nat)
    requires lo <= n < |pts|
    ensures pts[..n][lo..n] == pts[lo..n] && pts[lo..n + 1] == pts[lo..n] + [pts[n]]
    ensures Reverse(pts[lo..n + 1]) == [pts[n]] + Reverse(pts[lo..n])
  {
    var s := pts[lo..n + 1];
    assert s[..|s| - 1] == pts[lo..n] && s[|s| - 1] == pts[n];
  }

  lemma {:induction false} BoundsMonotone(pts: seq<Point>, t: Timestamp, u: Timestamp)
    requires Sorted(pts) && t <= u
    ensures LowerBound(pts, t) <= LowerBound(pts, u) && UpperBound(pts, t) <= UpperBound(pts, u)
  {
    if pts != [] {
      BoundsMonotone(pts[..|pts| - 1], t, u);
    }
  }

  lemma SelectForward(pts: seq<Point>, begin: Timestamp, end: Timestamp)
    requires Sorted(pts) && begin < end
    ensures LowerBound(pts, begin) <= LowerBound(pts, end)
    ensures Select(pts, begin, end) == pts[LowerBound(pts, begin)..LowerBound(pts, end)]
  {
    var lo, hi := LowerBound(pts, begin), LowerBound(pts, end);
    BoundsMonotone(pts, begin, end);
    SelectSlice(pts, lo, hi, begin, end);
  }

  lemma SelectBackward(pts: seq<Point>, begin: Timestamp, end: Timestamp)
    requires Sorted(pts) && begin >= end
    ensures UpperBound(pts, end) <= UpperBound(pts, begin)
    ensures Select(pts, begin, end) == Reverse(pts[UpperBound(pts, end)..UpperBound(pts, begin)])
  {
    var lo, hi := UpperBound(pts, end), UpperBound(pts, begin);
    BoundsMonotone(pts, end, begin);
    SelectSlice(pts, lo, hi, begin, end);
  }

  lemma ReverseSlice(pts: seq<Point>, lo: nat, hi: nat)
    requires lo <= hi <= |pts|
    ensures |Reverse(pts)| == |pts| && Reverse(pts)[|pts| - hi..|pts| - lo] == Reverse(pts[lo..hi])
  {
    var r, s := Reverse(pts), pts[lo..hi];
    ReverseIndex(pts);
    ReverseIndex(s);
    forall k | 0 <= k < |s|
      ensures r[|pts| - hi..|pts| - lo][k] == Reverse(s)[k]
    {
      assert r[|pts| - hi..|pts| - lo][k] == r[|pts| - hi + k] == pts[hi - 1 - k];
      assert Reverse(s)[k] == s[|s| - 1 - k];
    }
  }

  lemma SortedSlice(pts: seq<Point>, lo: nat, hi: nat)
    requires Sorted(pts) && lo <= hi <= |pts|
    ensures Sorted(pts[lo..hi])
  {
    assert pts == pts[..hi] + pts[hi..] && pts[..hi] == pts[..lo] + pts[lo..hi];
    SortedParts(pts[..hi], pts[hi..]);
    SortedParts(pts[..lo], pts[lo..hi]);
  }

  /** ... and in the direction asked for. */
  lemma SelectSorted(pts: seq<Point>, begin: Timestamp, end: Timestamp)
    requires Sorted(pts)
    ensures begin < end ==> Sorted(Select(pts, begin, end))
    ensures begin >= end ==> exists part :: Sorted(part) && Select(pts, begin, end) == Reverse(part)
  {
    if begin < end {
      SelectForward(pts, begin, end);
      SortedSlice(pts, LowerBound(pts, begin), LowerBound(pts, end));
    } else {
      SelectBackward(pts, begin, end);
      SortedSlice(pts, UpperBound(pts, end), UpperBound(pts, begin));
    }
  }

  // ---- Iterators -------------------------------------------------------------------------------

  datatype Iter =
    | LeafIter(begin: Timestamp, end: Timestamp, buf: seq<Point>, from: nat, to: nat, status: Status)
    | SBlockIter(begin: Timestamp, end: Timestamp, addr: LogicAddr, started: bool,
                 refs: seq<SubtreeRef>, refsPos: int, iter: Option<Iter>)

  /** The cursor of a superblock iterator is inside a well-formed, time-sorted list of references. */
  ghost predicate CursorOk(st: seq<Block>, begin: Timestamp, end: Timestamp, refs: seq<SubtreeRef>, pos: int,
                           level: nat)
  {
    && (if begin < end then 0 <= pos <= |refs| else -1 <= pos < |refs|)
    && RefsOk(st, refs, level, |st|)
    && Sorted(PointsOf(st, refs, |st|))
  }

  /** Everything a well-formed iterator over [begin, end) at this level of the tree still has to return;
      None for an iterator that is not well formed. */
  ghost function Pending(st: seq<Block>, it: Iter, begin: Timestamp, end: Timestamp, level: nat): Option<seq<Point>>
    decreases level
  {
    if it.begin != begin || it.end != end then None else
    match it
    case LeafIter(_, _, buf, from, to, status) =>
      if status == NoData then Some([]) else if status == Ok && from <= to <= |buf| then Some(buf[from..to]) else None
    case SBlockIter(_, _, addr, started, refs, pos, iter) =>
      if level == 0 then None
      else if !started then
        if NodeOk(st, addr, level) && iter == None then Some(Select(PointsAt(st, addr.ix), begin, end)) else None
      else if !CursorOk(st, begin, end, refs, pos, level - 1) then None
      else
        var rest := Unvisited(st, begin, end, refs, pos);
        if iter == None then Some(rest)
        else
          var first := Pending(st, iter.value, begin, end, level - 1);
          if first == None then None else Some(first.value + rest)
  }

  ghost predicate NodeOk(st: seq<Block>, addr: LogicAddr, level: nat)
  {
    addr.At? && addr.ix < |st| && st[addr.ix].Inner? && st[addr.ix].meta.level == level && Sorted(PointsAt(st, addr.ix))
  }

  /** What the references not visited yet still hold, in visiting order. */
  ghost function Unvisited(st: seq<Block>, begin: Timestamp, end: Timestamp, refs: seq<SubtreeRef>,
                           pos: int): seq<Point>
    decreases RefsLeft(begin, end, refs, pos)
  {
    if RefsLeft(begin, end, refs, pos) == 0 || !(0 <= pos < |refs|) then []
    else Select(PointsUnder(st, refs[pos], |st|), begin, end) +
         Unvisited(st, begin, end, refs, if begin < end then pos + 1 else pos - 1)
  }

  function RefsLeft(begin: Timestamp, end: Timestamp, refs: seq<SubtreeRef>, pos: int): nat
  {
    var n := if begin < end then |refs| - pos else pos + 1;
    if n < 0 then 0 else n
  }

  lemma NothingSelected(st: seq<Block>, begin: Timestamp, end: Timestamp)
    ensures Select(PointsOf(st, [], |st|), begin, end) == []
  {
  }

  lemma UnvisitedStep(st: seq<Block>, begin: Timestamp, end: Timestamp, refs: seq<SubtreeRef>, pos: int)
    ensures Unvisited(st, begin, end, refs, pos) ==
            if 0 <= pos < |refs| then Select(PointsUnder(st, refs[pos], |st|), begin, end) +
                 Unvisited(st, begin, end, refs, if begin < end then pos + 1 else pos - 1)
            else []
  {
    hide Select, PointsUnder;
  }

  lemma {:induction false} UnvisitedForward(st: seq<Block>, begin: Timestamp, end: Timestamp, refs: seq<SubtreeRef>,
                                            pos: nat)
    requires begin < end && pos <= |refs|
    ensures Unvisited(st, begin, end, refs, pos) == Select(PointsOf(st, refs[pos..], |st|), begin, end)
    decreases |refs| - pos
  {
    NothingSelected(st, begin, end);
    UnvisitedStep(st, begin, end, refs, pos);
    hide Select, PointsOf, PointsUnder, Unvisited;
    assert pos == |refs| ==> refs[pos..] == [];
    if pos < |refs| {
      UnvisitedForward(st, begin, end, refs, pos + 1);
      assert refs[pos..] == [refs[pos]] + refs[pos + 1..];
      PointsOfSplit(st, [refs[pos]], refs[pos + 1..], |st|);
      PointsOfOne(st, refs[pos], |st|);
      SelectConcat(PointsUnder(st, refs[pos], |st|), PointsOf(st, refs[pos + 1..], |st|), begin, end);
    }
  }

  lemma {:induction false} UnvisitedBackward(st: seq<Block>, begin: Timestamp, end: Timestamp, refs: seq<SubtreeRef>,
                                             pos: int)
    requires begin >= end && -1 <= pos < |refs|
    ensures Unvisited(st, begin, end, refs, pos) == Select(PointsOf(st, refs[..pos + 1], |st|), begin, end)
    decreases pos + 1
  {
    NothingSelected(st, begin, end);
    UnvisitedStep(st, begin, end, refs, pos);
    hide Select, PointsOf, PointsUnder, Unvisited;
    assert pos == -1 ==> refs[..pos + 1] == [];
    if pos >= 0 {
      UnvisitedBackward(st, begin, end, refs, pos - 1);
      assert refs[..pos + 1] == refs[..pos] + [refs[pos]];
      PointsOfSplit(st, refs[..pos], [refs[pos]], |st|);
      PointsOfOne(st, refs[pos], |st|);
      SelectConcat(PointsOf(st, refs[..pos], |st|), PointsUnder(st, refs[pos], |st|), begin, end);
    }
  }

  /** Before the first step the work is the whole range of the superblock. */
  lemma UnvisitedAll(st: seq<Block>, begin: Timestamp, end: Timestamp, refs: seq<SubtreeRef>)
    ensures Unvisited(st, begin, end, refs, if begin < end then 0 else |refs| - 1) ==
            Select(PointsOf(st, refs, |st|), begin, end)
  {
    if begin < end {
      UnvisitedForward(st, begin, end, refs, 0);
      assert refs[0..] == refs;
    } else {
      UnvisitedBackward(st, begin, end, refs, |refs| - 1);
      assert refs[..|refs|] == refs;
    }
  }

  lemma DisjointRange(pts: seq<Point>, begin: Timestamp, end: Timestamp)
    requires Sorted(pts)
    requires (if begin < end then end else begin) < Fold(pts).begin ||
             Fold(pts).end < (if begin < end then begin else end)
    ensures Select(pts, begin, end) == []
  {
    FoldMeaning(pts);
    SortedMeaning(pts);
    SelectNone(pts, begin, end);
  }

  lemma LeafIterForward(pts: seq<Point>, begin: Timestamp, end: Timestamp)
    requires Sorted(pts) && begin < end && begin <= Fold(pts).end
    ensures var from := if LowerBound(pts, begin) != |pts| then LowerBound(pts, begin) else 0;
            from <= LowerBound(pts, end) && Select(pts, begin, end) == pts[from..LowerBound(pts, end)]
  {
    FoldMeaning(pts);
    SelectForward(pts, begin, end);
    assert pts != [] ==> begin <= pts[|pts| - 1].ts;
  }

  lemma LeafIterBackward(pts: seq<Point>, begin: Timestamp, end: Timestamp)
    requires Sorted(pts) && begin >= end
    ensures |Reverse(pts)| == |pts| && UpperBound(pts, end) <= UpperBound(pts, begin)
    ensures Select(pts, begin, end) == Reverse(pts)[|pts| - UpperBound(pts, begin)..|pts| - UpperBound(pts, end)]
  {
    SelectBackward(pts, begin, end);
    ReverseSlice(pts, UpperBound(pts, end), UpperBound(pts, begin));
  }

  /** `NBTreeLeafIterator::init`. `meta` is the leaf's header, whose `begin` and `end` bound its points. */
  method NewLeafIter(ghost st: seq<Block>, begin: Timestamp, end: Timestamp, pts: seq<Point>, meta: Agg)
    returns (it: Iter)
    requires Sorted(pts) && meta == Fold(pts)
    ensures Pending(st, it, begin, end, 0) == Some(Select(pts, begin, end)) && it.LeafIter?
    ensures it.from <= it.to && (it.status == NoData ==> it.from == it.to)
  {
    hide Select, Reverse, Fold, Sorted, LowerBound, UpperBound;
    var min, max := if begin < end then begin else end, if begin < end then end else begin;
    if max < meta.begin || meta.end < min {
      DisjointRange(pts, begin, end);
      it := LeafIter(begin, end, [], 0, 0, NoData);
    } else if begin < end {
      LeafIterForward(pts, begin, end);
      var itBegin := LowerBound(pts, begin);
      it := LeafIter(begin, end, pts, if itBegin != |pts| then itBegin else 0, LowerBound(pts, end), Ok);
    } else {
      LeafIterBackward(pts, begin, end);
      it := LeafIter(begin, end, Reverse(pts), |pts| - UpperBound(pts, begin), |pts| - UpperBound(pts, end), Ok);
    }
  }

  /** `NBTreeLeafIterator::read`. */
  method LeafRead(ghost st: seq<Block>, it: Iter, size: nat, ghost level: nat)
    returns (status: Status, next: Iter, out: seq<Point>)
    requires it.LeafIter? && Pending(st, it, it.begin, it.end, level).Some? && size > 0
    ensures Advanced(Pending(st, it, it.begin, it.end, level), out, Pending(st, next, it.begin, it.end, level))
    ensures |out| <= size && (status == Ok ==> out != [])
    ensures status == Ok ==>
            it.status == Ok && next == it.(from := it.from + |out|) && (|out| < size ==> next.from == it.to)
    ensures status != Ok ==> status == NoData && out == [] && Pending(st, next, it.begin, it.end, level) == Some([])
  {
    if it.status != Ok {
      return it.status, it, [];
    }
    var toread := it.to - it.from;
    if toread > size {
      toread := size;
    }
    if toread == 0 {
      return NoData, it, [];
    }
    out := it.buf[it.from..it.from + toread];
    next := it.(from := it.from + toread);
    status := Ok;
  }

  /** Returning `out` turns what was pending before into what is pending after. */
  ghost predicate Advanced(before: Option<seq<Point>>, out: seq<Point>, after: Option<seq<Point>>)
  {
    before.Some? && after.Some? && before.value == out + after.value
  }

  lemma AdvancedTwice(a: Option<seq<Point>>, s: seq<Point>, b: Option<seq<Point>>, t: seq<Point>, c: Option<seq<Point>>)
    requires Advanced(a, s, b) && Advanced(b, t, c)
    ensures Advanced(a, s + t, c)
  {
    assert s + (t + c.value) == (s + t) + c.value;
  }

  /** A fresh superblock iterator over a committed block (first constructor: `fsm_pos_` is 0). */
  function NewSBlockIter(addr: LogicAddr, begin: Timestamp, end: Timestamp): Iter
  {
    SBlockIter(begin, end, addr, false, [], 0, None)
  }

  /** A superblock iterator over references already in memory (second constructor). */
  function NewOpenSBlockIter(refs: seq<SubtreeRef>, begin: Timestamp, end: Timestamp): Iter
  {
    SBlockIter(begin, end, EMPTY_ADDR, true, refs, if begin < end then 0 else |refs| - 1, None)
  }

  lemma NewOpenSBlockIterOk(st: seq<Block>, refs: seq<SubtreeRef>, begin: Timestamp, end: Timestamp, level: nat)
    requires level >= 1 && RefsOk(st, refs, level - 1, |st|) && Sorted(PointsOf(st, refs, |st|))
    ensures Pending(st, NewOpenSBlockIter(refs, begin, end), begin, end, level) ==
            Some(Select(PointsOf(st, refs, |st|), begin, end))
  {
    UnvisitedAll(st, begin, end, refs);
  }

  /** `subtree_in_range` may keep a subtree that holds nothing, but never drops one that holds something. */
  predicate SubtreeInRange(r: SubtreeRef, min: Timestamp, max: Timestamp)
  {
    !(r.agg.end < min || max < r.agg.begin)
  }

  lemma OutOfRangeIsEmpty(st: seq<Block>, r: SubtreeRef, level: nat, begin: Timestamp, end: Timestamp)
    requires StoreOk(st) && RefOk(st, r, level, |st|) && Sorted(PointsAt(st, r.addr.ix))
    requires !SubtreeInRange(r, if begin < end then begin else end, if begin < end then end else begin)
    ensures Select(PointsAt(st, r.addr.ix), begin, end) == []
  {
    RefSummary(st, r, level, |st|);
    DisjointRange(PointsAt(st, r.addr.ix), begin, end);
  }

  lemma RefSorted(st: seq<Block>, refs: seq<SubtreeRef>, k: nat)
    requires k < |refs| && refs[k].addr.At? && refs[k].addr.ix < |st| && Sorted(PointsOf(st, refs, |st|))
    ensures Sorted(PointsAt(st, refs[k].addr.ix))
  {
    assert refs == refs[..k] + refs[k..] && refs[k..] == [refs[k]] + refs[k + 1..];
    PointsOfSplit(st, refs[..k], refs[k..], |st|);
    PointsOfSplit(st, [refs[k]], refs[k + 1..], |st|);
    PointsOfOne(st, refs[k], |st|);
    SortedParts(PointsOf(st, refs[..k], |st|), PointsOf(st, refs[k..], |st|));
    SortedParts(PointsAt(st, refs[k].addr.ix), PointsOf(st, refs[k + 1..], |st|));
  }

  /** One step of the cursor takes exactly the points below one reference off the work left. */
  lemma Visit(st: seq<Block>, begin: Timestamp, end: Timestamp, refs: seq<SubtreeRef>, pos: int, level: nat)
    requires CursorOk(st, begin, end, refs, pos, level) && 0 <= pos < |refs|
    ensures RefOk(st, refs[pos], level, |st|) && Sorted(PointsAt(st, refs[pos].addr.ix))
    ensures var pos' := if begin < end then pos + 1 else pos - 1;
            && CursorOk(st, begin, end, refs, pos', level)
            && RefsLeft(begin, end, refs, pos') < RefsLeft(begin, end, refs, pos)
            && Unvisited(st, begin, end, refs, pos) ==
               Select(PointsAt(st, refs[pos].addr.ix), begin, end) + Unvisited(st, begin, end, refs, pos')
            && (Select(PointsAt(st, refs[pos].addr.ix), begin, end) == [] ==>
                Unvisited(st, begin, end, refs, pos) == Unvisited(st, begin, end, refs, pos'))
  {
    assert RefOk(st, refs[pos], level, |st|);
    RefSorted(st, refs, pos);
    assert PointsUnder(st, refs[pos], |st|) == PointsAt(st, refs[pos].addr.ix);
  }

  /** How much work is left, for termination. */
  ghost function Work(it: Iter): nat
    requires it.SBlockIter?
  {
    2 * RefsLeft(it.begin, it.end, it.refs, it.refsPos) + if it.iter.Some? then 1 else 0
  }

  /** The second half of `get_next_iter`: skip the subtree, or open an iterator for its leaf or superblock. */
  method MakeIter(st: seq<Block>, ref: SubtreeRef, begin: Timestamp, end: Timestamp, ghost level: nat)
    returns (status: Status, child: Option<Iter>)
    requires StoreOk(st) && RefOk(st, ref, level, |st|) && Sorted(PointsAt(st, ref.addr.ix))
    ensures status == if child.Some? then Ok else NotFound
    ensures child == None ==> Select(PointsAt(st, ref.addr.ix), begin, end) == []
    ensures child.Some? ==>
            Pending(st, child.value, begin, end, level) == Some(Select(PointsAt(st, ref.addr.ix), begin, end))
  {
    RefSummary(st, ref, level, |st|);
    assert BlockOk(st, ref.addr.ix);
    if !SubtreeInRange(ref, if begin < end then begin else end, if begin < end then end else begin) {
      OutOfRangeIsEmpty(st, ref, level, begin, end);
      return NotFound, None;
    }
    if ref.kind == LEAF {
      var leaf := NewLeafIter(st, begin, end, st[ref.addr.ix].points, st[ref.addr.ix].meta.agg);
      return Ok, Some(leaf);
    }
    return Ok, Some(NewSBlockIter(ref.addr, begin, end));
  }

  /** Moving the cursor over one reference and opening its iterator, if it has one, loses nothing. */
  lemma MovedCursor(st: seq<Block>, it: Iter, child: Option<Iter>, level: nat)
    requires it.SBlockIter? && it.started && it.iter == None && level >= 1
    requires CursorOk(st, it.begin, it.end, it.refs, it.refsPos, level - 1) && 0 <= it.refsPos < |it.refs|
    requires it.refs[it.refsPos].addr.At?
    requires var here := Select(PointsAt(st, it.refs[it.refsPos].addr.ix), it.begin, it.end);
             if child == None then here == [] else Pending(st, child.value, it.begin, it.end, level - 1) == Some(here)
    ensures var next := it.(refsPos := if it.begin < it.end then it.refsPos + 1 else it.refsPos - 1, iter := child);
            && Pending(st, next, it.begin, it.end, level) == Pending(st, it, it.begin, it.end, level)
            && Work(next) < Work(it)
  {
    Visit(st, it.begin, it.end, it.refs, it.refsPos, level - 1);
  }

  /** `NBTreeSBlockIteratorBase::get_next_iter`. */
  method GetNextIter(st: seq<Block>, it: Iter, ghost level: nat) returns (status: Status, next: Iter)
    requires StoreOk(st) && it.SBlockIter? && it.started && it.iter == None &&
             Pending(st, it, it.begin, it.end, level).Some?
    ensures Started(next, it) && Pending(st, next, it.begin, it.end, level) == Pending(st, it, it.begin, it.end, level)
    ensures status == NoData ==> Pending(st, it, it.begin, it.end, level) == Some([]) && next == it
    ensures status != NoData ==> Work(next) < Work(it) && status == if next.iter.Some? then Ok else NotFound
  {
    if if it.begin < it.end then it.refsPos == |it.refs| else it.refsPos < 0 {
      return NoData, it;
    }
    var ref := it.refs[it.refsPos];
    Visit(st, it.begin, it.end, it.refs, it.refsPos, level - 1);
    var child;
    status, child := MakeIter(st, ref, it.begin, it.end, level - 1);
    next := it.(refsPos := if it.begin < it.end then it.refsPos + 1 else it.refsPos - 1, iter := child);
    MovedCursor(st, it, child, level);
  }

  ghost predicate Started(next: Iter, it: Iter)
  {
    next.SBlockIter? && next.started && next.begin == it.begin && next.end == it.end
  }

  /** `NBTreeSBlockIteratorBase::init`: load the references of a committed superblock. */
  method Init(st: seq<Block>, it: Iter, ghost level: nat) returns (next: Iter)
    requires StoreOk(st) && it.SBlockIter? && !it.started && Pending(st, it, it.begin, it.end, level).Some?
    ensures Started(next, it) && Pending(st, next, it.begin, it.end, level) == Pending(st, it, it.begin, it.end, level)
  {
    assert BlockOk(st, it.addr.ix);
    var refs := st[it.addr.ix].refs;
    next := it.(started := true, refs := refs, refsPos := if it.begin < it.end then 0 else |refs| - 1);
    UnvisitedAll(st, it.begin, it.end, refs);
    LoadedRefs(st, it.addr.ix);
  }

  /** Replacing the child iterator by its advanced form, or dropping it once it is exhausted. */
  lemma PendingWithChild(st: seq<Block>, it: Iter, child: Iter, part: seq<Point>, level: nat)
    requires it.SBlockIter? && it.started && it.iter.Some? && Pending(st, it, it.begin, it.end, level).Some?
    requires Advanced(Pending(st, it.iter.value, it.begin, it.end, level - 1), part,
                      Pending(st, child, it.begin, it.end, level - 1))
    ensures Advanced(Pending(st, it, it.begin, it.end, level), part,
                     Pending(st, it.(iter := Some(child)), it.begin, it.end, level))
    ensures Pending(st, child, it.begin, it.end, level - 1) == Some([]) ==>
            Advanced(Pending(st, it, it.begin, it.end, level), part,
                     Pending(st, it.(iter := None), it.begin, it.end, level))
  {
    var rest := Unvisited(st, it.begin, it.end, it.refs, it.refsPos);
    var left := Pending(st, child, it.begin, it.end, level - 1).value;
    assert (part + left) + rest == part + (left + rest);
    assert left == [] ==> left + rest == rest;
  }

  /** One turn of the loop in `NBTreeSBlockIteratorBase::iter`; `more` is false when it breaks out. */
  method Turn(st: seq<Block>, it: Iter, size: nat, ghost level: nat)
    returns (status: Status, next: Iter, part: seq<Point>, more: bool)
    requires StoreOk(st) && it.SBlockIter? && it.started && Pending(st, it, it.begin, it.end, level).Some? && size > 0
    ensures Started(next, it)
    ensures Advanced(Pending(st, it, it.begin, it.end, level), part, Pending(st, next, it.begin, it.end, level))
    ensures |part| <= size && (|part| == size ==> status == Ok)
    ensures Work(next) < Work(it) || (Work(next) == Work(it) && (part != [] || !more))
    ensures !more ==> status == NoData && part == [] && Pending(st, next, it.begin, it.end, level) == Some([])
    decreases level, 0
  {
    next, part, more := it, [], true;
    if it.iter == None {
      status, next := GetNextIter(st, it, level);
      if status == NotFound {
        return;
      } else if status != Ok {
        more := false;
        return;
      }
    }
    var child;
    status, child, part := Read(st, next.iter.value, size, level - 1);
    PendingWithChild(st, next, child, part, level);
    next := next.(iter := if status == NoData then None else Some(child));
  }

  /** `NBTreeSBlockIterator::read`. A full buffer means Ok; anything less means the subtree is exhausted. */
  method SBlockRead(st: seq<Block>, it: Iter, size: nat, ghost level: nat)
    returns (status: Status, next: Iter, out: seq<Point>)
    requires StoreOk(st) && it.SBlockIter? && Pending(st, it, it.begin, it.end, level).Some? && size > 0
    ensures Advanced(Pending(st, it, it.begin, it.end, level), out, Pending(st, next, it.begin, it.end, level))
    ensures |out| <= size && (status == Ok ==> |out| == size)
    ensures status != Ok ==> status == NoData && |out| < size && Pending(st, next, it.begin, it.end, level) == Some([])
    decreases level, 1
  {
    next := it;
    if !it.started {
      next := Init(st, it, level);
    }
    out := [];
    status := NoData;
    while |out| < size
      invariant |out| <= size && Started(next, it)
      invariant Advanced(Pending(st, it, it.begin, it.end, level), out, Pending(st, next, it.begin, it.end, level))
      invariant |out| == size ==> status == Ok
      decreases Work(next), size - |out|
    {
      ghost var before := Pending(st, next, it.begin, it.end, level);
      var part, more;
      status, next, part, more := Turn(st, next, size - |out|, level);
      AdvancedTwice(Pending(st, it, it.begin, it.end, level), out, before, part,
                    Pending(st, next, it.begin, it.end, level));
      out := out + part;
      if !more {
        break;
      }
    }
  }

  /** Dispatch on the kind of iterator. */
  method Read(st: seq<Block>, it: Iter, size: nat, ghost level: nat)
    returns (status: Status, next: Iter, out: seq<Point>)
    requires StoreOk(st) && Pending(st, it, it.begin, it.end, level).Some? && size > 0
    ensures Advanced(Pending(st, it, it.begin, it.end, level), out, Pending(st, next, it.begin, it.end, level))
    ensures |out| <= size && (status == Ok ==> out != [])
    ensures status != Ok ==> status == NoData && |out| < size && Pending(st, next, it.begin, it.end, level) == Some([])
    decreases level, 2
  {
    if it.LeafIter? {
      status, next, out := LeafRead(st, it, size, level);
    } else {
      status, next, out := SBlockRead(st, it, size, level);
    }
  }

  // ---- All extents of a column -----------------------------------------------------------------

  /** An iterator together with the level of the tree it runs on (the level is only for the proofs). */
  ghost function ChainPending(st: seq<Block>, iters: seq<Iter>, begin: Timestamp, end: Timestamp,
                              levels: seq<nat>): Option<seq<Point>>
  {
    if |iters| != |levels| then None
    else if iters == [] then Some([])
    else
      var first := Pending(st, iters[0], begin, end, levels[0]);
      var rest := ChainPending(st, iters[1..], begin, end, levels[1..]);
      if first == None || rest == None then None else Some(first.value + rest.value)
  }

  lemma ChainStep(st: seq<Block>, iters: seq<Iter>, it: Iter, part: seq<Point>, begin: Timestamp, end: Timestamp,
                  levels: seq<nat>)
    requires iters != [] && ChainPending(st, iters, begin, end, levels).Some?
    requires Advanced(Pending(st, iters[0], begin, end, levels[0]), part, Pending(st, it, begin, end, levels[0]))
    ensures Advanced(ChainPending(st, iters, begin, end, levels), part,
                     ChainPending(st, [it] + iters[1..], begin, end, levels))
    ensures Pending(st, it, begin, end, levels[0]) == Some([]) ==>
            Advanced(ChainPending(st, iters, begin, end, levels), part,
                     ChainPending(st, iters[1..], begin, end, levels[1..]))
  {
    assert ([it] + iters[1..])[1..] == iters[1..];
    var left := Pending(st, it, begin, end, levels[0]).value;
    var rest := ChainPending(st, iters[1..], begin, end, levels[1..]).value;
    assert ChainPending(st, iters, begin, end, levels) == Some((part + left) + rest);
    assert ChainPending(st, [it] + iters[1..], begin, end, levels) == Some(left + rest);
    assert (part + left) + rest == part + (left + rest);
    assert left == [] ==> left + rest == rest;
  }

  /** `ChainOperator::read`; the iterators still to be read are kept in `next`. */
  method ChainRead(st: seq<Block>, iters: seq<Iter>, size: nat, ghost begin: Timestamp, ghost end: Timestamp,
                   ghost levels: seq<nat>)
    returns (status: Status, next: seq<Iter>, out: seq<Point>, ghost left: seq<nat>)
    requires StoreOk(st) && ChainPending(st, iters, begin, end, levels).Some? && size > 0
    ensures Advanced(ChainPending(st, iters, begin, end, levels), out, ChainPending(st, next, begin, end, left))
    ensures |out| <= size && (status == Ok ==> |out| == size)
    ensures status != Ok ==> status == NoData && |out| < size && ChainPending(st, next, begin, end, left) == Some([])
  {
    status, next, out, left := NoData, iters, [], levels;
    while next != []
      invariant |out| < size && (next == [] ==> status == NoData)
      invariant Advanced(ChainPending(st, iters, begin, end, levels), out, ChainPending(st, next, begin, end, left))
      decreases |next|, size - |out|
    {
      ghost var before := ChainPending(st, next, begin, end, left);
      var it, part;
      status, it, part := Read(st, next[0], size - |out|, left[0]);
      ChainStep(st, next, it, part, begin, end, left);
      if status == NoData {
        next, left := next[1..], left[1..];
      } else {
        next := [it] + next[1..];
      }
      AdvancedTwice(ChainPending(st, iters, begin, end, levels), out, before, part,
                    ChainPending(st, next, begin, end, left));
      out := out + part;
      if |out| == size {
        return;
      }
    }
  }

  /** Reading until `NoData`, with any non-zero buffer size on each call, returns the whole range. */
  method Drain(st: seq<Block>, iters: seq<Iter>, sizes: nat -> nat, ghost begin: Timestamp, ghost end: Timestamp,
               ghost levels: seq<nat>)
    returns (out: seq<Point>)
    requires StoreOk(st) && ChainPending(st, iters, begin, end, levels).Some?
    requires forall k :: sizes(k) > 0
    ensures Some(out) == ChainPending(st, iters, begin, end, levels)
  {
    out := [];
    ghost var left := levels;
    var next, status, calls := iters, Ok, 0;
    while status == Ok
      invariant Advanced(ChainPending(st, iters, begin, end, levels), out, ChainPending(st, next, begin, end, left))
      invariant status != Ok ==> ChainPending(st, next, begin, end, left) == Some([])
      decreases if status == Ok then |ChainPending(st, next, begin, end, left).value| + 1 else 0
    {
      ghost var before := ChainPending(st, next, begin, end, left);
      var part;
      status, next, part, left := ChainRead(st, next, sizes(calls), begin, end, left);
      AdvancedTwice(ChainPending(st, iters, begin, end, levels), out, before, part,
                    ChainPending(st, next, begin, end, left));
      out := out + part;
      calls := calls + 1;
    }
    assert out + [] == out;
  }
}
