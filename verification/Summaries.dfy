/** What is left of a fold when it is put together with `AggregationResult::combine`. */
module Summaries {
  import opened Aggregation

  /** All points at the newest timestamp have the value of the last, which is the initial value if that timestamp is
      0. */
  ghost predicate EndsAgree(pts: seq<Point>)
  {
    pts != [] ==>
      var end := pts[|pts| - 1];
      (end.ts == 0 ==> end.x == 0.0) && forall k :: 0 <= k < |pts| && pts[k].ts == end.ts ==> pts[k].x == end.x
  }

  /** `x` is the value of a point at the newest timestamp, or still the initial value if that timestamp is 0. */
  ghost predicate OneOfTheLast(x: Value, pts: seq<Point>)
  {
    pts != [] ==> StillInitial(x, pts) || exists k :: 0 <= k < |pts| && pts[k] == Point(pts[|pts| - 1].ts, x)
  }

  predicate StillInitial(x: Value, pts: seq<Point>)
  {
    pts != [] && pts[|pts| - 1].ts == 0 && x == 0.0
  }

  /** `a` is the fold of `pts`, except that when there are different values at the newest timestamp `last` may be any of
      them. */
  ghost predicate Summarises(a: Agg, pts: seq<Point>)
  {
    a.(last := 0.0) == Fold(pts).(last := 0.0) && (EndsAgree(pts) ==> a == Fold(pts)) && OneOfTheLast(a.last, pts)
  }

  /** The second part follows from the other two. */
  lemma LastAgrees(a: Agg, pts: seq<Point>)
    requires a.(last := 0.0) == Fold(pts).(last := 0.0) && OneOfTheLast(a.last, pts) && (pts == [] ==> a == Fold(pts))
    ensures Summarises(a, pts)
  {
    if pts != [] && EndsAgree(pts) {
      FoldMeaning(pts);
      assert a.last == Fold(pts).last;
      assert a == Fold(pts) by {
        assert a.(last := 0.0).(last := a.last) == Fold(pts).(last := 0.0).(last := a.last);
      }
    }
  }

  lemma FoldSummarises(pts: seq<Point>)
    ensures Summarises(Fold(pts), pts)
  {
    if pts != [] {
      FoldMeaning(pts);
      assert pts[|pts| - 1] == Point(pts[|pts| - 1].ts, Fold(pts).last);
    }
  }

  /** Sorted points, none of them at the end of time: what a forward range [begin, end) selects. */
  predicate InRange(pts: seq<Point>)
  {
    Sorted(pts) && (pts != [] ==> pts[|pts| - 1].ts < MAX_TIMESTAMP)
  }

  lemma InRangeParts(a: seq<Point>, b: seq<Point>)
    requires InRange(a + b)
    ensures InRange(a) && InRange(b)
  {
    SortedParts(a, b);
    SortedMeaning(a + b);
    assert a != [] ==> (a + b)[|a| - 1] == a[|a| - 1];
    assert b != [] ==> (a + b)[|a + b| - 1] == b[|b| - 1];
  }

  lemma CombineNothing(a: Agg)
    ensures Combine(a, INIT_AGGRES) == a
  {
  }

  lemma SummarisesNothing(a: Agg)
    ensures Summarises(a, []) <==> a == INIT_AGGRES
  {
  }

  lemma CombineFirst(b: Agg, t: seq<Point>)
    requires Summarises(b, t) && t != [] && InRange(t)
    ensures Summarises(Combine(INIT_AGGRES, b), t)
  {
    FoldMeaning(t);
    SortedMeaning(t);
    assert b.cnt == Fold(t).cnt && b.begin == Fold(t).begin && b.end == Fold(t).end;
    assert b.min == Fold(t).min && b.max == Fold(t).max;
    LastAgrees(Combine(INIT_AGGRES, b), t);
  }

  lemma CombineMore(a: Agg, s: seq<Point>, b: Agg, t: seq<Point>)
    requires Summarises(a, s) && Summarises(b, t) && s != [] && t != [] && Sorted(s + t)
    ensures Summarises(Combine(a, b), s + t)
  {
    FoldConcat(s, t);
    FoldMeaning(s);
    FoldMeaning(t);
    SortedParts(s, t);
    SortedEnds(s, t);
    var fs, ft := Fold(s), Fold(t);
    assert a == fs.(last := a.last) by { assert a.(last := 0.0).(last := a.last) == fs.(last := 0.0).(last := a.last); }
    assert b == ft.(last := b.last) by { assert b.(last := 0.0).(last := b.last) == ft.(last := 0.0).(last := b.last); }
    LastOfMore(a, s, b, t);
    LastAgrees(Combine(a, b), s + t);
  }

  lemma LastOfMore(a: Agg, s: seq<Point>, b: Agg, t: seq<Point>)
    requires s != [] && t != [] && s[|s| - 1].ts <= t[|t| - 1].ts && a.end == s[|s| - 1].ts && b.end == t[|t| - 1].ts
    requires OneOfTheLast(a.last, s) && OneOfTheLast(b.last, t)
    ensures OneOfTheLast(Combine(a, b).last, s + t)
  {
    var st := s + t;
    assert st[|st| - 1] == t[|t| - 1];
    if a.end < b.end {
      var k :| 0 <= k < |t| && t[k] == Point(t[|t| - 1].ts, b.last);
      assert st[|s| + k] == t[k];
    } else if !StillInitial(a.last, s) {
      var k :| 0 <= k < |s| && s[k] == Point(s[|s| - 1].ts, a.last);
      assert st[k] == s[k];
    }
  }

  lemma SortedEnds(s: seq<Point>, t: seq<Point>)
    requires s != [] && t != [] && Sorted(s + t)
    ensures s[0].ts <= t[0].ts && s[|s| - 1].ts <= t[|t| - 1].ts
  {
    hide Sorted;
    SortedMeaning(s + t);
    var st := s + t;
    assert st[0] == s[0] && st[|s|] == t[0] && st[|s| - 1] == s[|s| - 1] && st[|st| - 1] == t[|t| - 1];
  }

  /** Combining the summary of the points that follow. */
  lemma CombineSummaries(a: Agg, s: seq<Point>, b: Agg, t: seq<Point>)
    requires Summarises(a, s) && Summarises(b, t) && InRange(s + t)
    ensures Summarises(Combine(a, b), s + t)
  {
    if t == [] {
      assert s + t == s;
      SummarisesNothing(b);
      CombineNothing(a);
    } else if s == [] {
      assert s + t == t;
      SummarisesNothing(a);
      CombineFirst(b, t);
    } else {
      CombineMore(a, s, b, t);
    }
  }

  /** `std::accumulate` with `combine`. */
  function CombineAll(acc: Agg, xs: seq<Agg>): Agg
  {
    if xs == [] then acc else Combine(CombineAll(acc, xs[..|xs| - 1]), xs[|xs| - 1])
  }

  function Flatten(segs: seq<seq<Point>>): seq<Point>
  {
    if segs == [] then [] else Flatten(segs[..|segs| - 1]) + segs[|segs| - 1]
  }

  /** Each value summarises its own run of points. */
  ghost predicate SummariseEach(xs: seq<Agg>, segs: seq<seq<Point>>)
  {
    |xs| == |segs| && forall i :: 0 <= i < |xs| ==> Summarises(xs[i], segs[i])
  }

  lemma {:induction false} CombineRun(acc: Agg, s: seq<Point>, xs: seq<Agg>, segs: seq<seq<Point>>)
    requires Summarises(acc, s) && SummariseEach(xs, segs) && InRange(s + Flatten(segs))
    ensures Summarises(CombineAll(acc, xs), s + Flatten(segs))
  {
    if xs == [] {
      assert s + [] == s;
    } else {
      var n := |xs| - 1;
      var front := s + Flatten(segs[..n]);
      assert s + Flatten(segs) == front + segs[n];
      InRangeParts(front, segs[n]);
      CombineRun(acc, s, xs[..n], segs[..n]);
      CombineSummaries(CombineAll(acc, xs[..n]), front, xs[n], segs[n]);
    }
  }

  lemma {:induction false} FlattenConcat(a: seq<seq<Point>>, b: seq<seq<Point>>)
    ensures Flatten(a + b) == Flatten(a) + Flatten(b)
  {
    if b == [] {
      assert a + b == a;
    } else {
      var n := |b| - 1;
      assert (a + b)[..|a + b| - 1] == a + b[..n];
      FlattenConcat(a, b[..n]);
    }
  }

  lemma FlattenOne(s: seq<Point>)
    ensures Flatten([s]) == s
  {
    assert [s][..0] == [];
    assert Flatten([]) == [];
  }

  // ---- `last` over all ways to cut a run ---------------------------------------------------------

  function Folds(segs: seq<seq<Point>>): (xs: seq<Agg>)
    ensures |xs| == |segs| && forall i :: 0 <= i < |segs| ==> xs[i] == Fold(segs[i])
  {
    seq(|segs|, i requires 0 <= i < |segs| => Fold(segs[i]))
  }

  /** What the aggregators make of a run that is cut into these pieces. */
  function Joined(segs: seq<seq<Point>>): Agg
  {
    CombineAll(INIT_AGGRES, Folds(segs))
  }

  lemma AnyCut(segs: seq<seq<Point>>)
    requires InRange(Flatten(segs))
    ensures Summarises(Joined(segs), Flatten(segs))
  {
    hide Fold, Flatten, InRange, Summarises;
    forall i | 0 <= i < |segs|
      ensures Summarises(Folds(segs)[i], segs[i])
    {
      FoldSummarises(segs[i]);
    }
    SummarisesNothing(INIT_AGGRES);
    assert [] + Flatten(segs) == Flatten(segs);
    CombineRun(INIT_AGGRES, [], Folds(segs), segs);
  }

  /** A cut right behind point `k`. */
  lemma CutBehind(pts: seq<Point>, k: nat)
    requires InRange(pts) && k < |pts| && pts[k].ts == pts[|pts| - 1].ts > 0
    ensures var segs := [pts[..k + 1], pts[k + 1..]]; Flatten(segs) == pts && Joined(segs).last == pts[k].x
  {
    hide Fold, Flatten, Joined;
    var a, b := pts[..k + 1], pts[k + 1..];
    assert pts == a + b;
    FlattenTwo(a, b);
    JoinedTwo(a, b);
    SummarisesNothing(Fold([]));
    FoldSummarises([]);
    FoldMeaning(a);
    FoldMeaning(b);
    SortedMeaning(pts);
    assert a[0] == pts[0] && a[|a| - 1] == pts[k] && (b != [] ==> b[|b| - 1] == pts[|pts| - 1]);
  }

  lemma FlattenTwo(a: seq<Point>, b: seq<Point>)
    ensures Flatten([a, b]) == a + b
  {
    assert [a, b][..1] == [a];
    FlattenOne(a);
  }

  lemma JoinedTwo(a: seq<Point>, b: seq<Point>)
    ensures Joined([a, b]) == Combine(Combine(INIT_AGGRES, Fold(a)), Fold(b))
  {
    hide Combine, Fold;
    var xs := Folds([a, b]);
    assert xs == [Fold(a), Fold(b)] && xs[..1] == [Fold(a)] && xs[..1][..0] == [];
    assert CombineAll(INIT_AGGRES, []) == INIT_AGGRES;
    assert CombineAll(INIT_AGGRES, xs[..1]) == Combine(INIT_AGGRES, Fold(a));
  }

  /** Over all ways to cut a run, `last` can be exactly the values at the newest timestamp. */
  lemma LastOverCuts(pts: seq<Point>, x: Value)
    requires InRange(pts) && pts != [] && pts[|pts| - 1].ts > 0
    ensures OneOfTheLast(x, pts) <==> exists segs :: Flatten(segs) == pts && Joined(segs).last == x
  {
    hide Flatten, Joined, InRange;
    if OneOfTheLast(x, pts) {
      var k :| 0 <= k < |pts| && pts[k] == Point(pts[|pts| - 1].ts, x);
      CutBehind(pts, k);
      var segs := [pts[..k + 1], pts[k + 1..]];
      assert Flatten(segs) == pts && Joined(segs).last == x;
    }
    if segs :| Flatten(segs) == pts && Joined(segs).last == x {
      AnyCut(segs);
    }
  }

  /** So the aggregate of a run is its fold however it is cut if and only if the values at the newest timestamp
      agree. */
  lemma LastExact(pts: seq<Point>)
    requires InRange(pts) && pts != [] && pts[|pts| - 1].ts > 0
    ensures EndsAgree(pts) <==> forall segs :: Flatten(segs) == pts ==> Joined(segs) == Fold(pts)
  {
    hide Flatten, Joined, InRange, Fold;
    if EndsAgree(pts) {
      forall segs | Flatten(segs) == pts
        ensures Joined(segs) == Fold(pts)
      {
        AnyCut(segs);
      }
    } else {
      var k :| 0 <= k < |pts| && pts[k].ts == pts[|pts| - 1].ts && pts[k].x != pts[|pts| - 1].x;
      CutBehind(pts, k);
      FoldMeaning(pts);
      var segs := [pts[..k + 1], pts[k + 1..]];
      assert Flatten(segs) == pts && Joined(segs) != Fold(pts);
    }
  }
}
