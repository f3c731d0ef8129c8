/** Data points and their aggregates: the `AggregationResult` of storage/operators/operator.h,
    its `add` and `combine`, and the fold that every stored summary and every aggregate query
    is measured against.

    Doubles are modelled as reals; the sentinels `lowest()` and `max()` that the source starts
    `max` and `min` from lie strictly outside every stored value. */
module Aggregation {

  const MAX_TIMESTAMP: nat := 0xFFFF_FFFF_FFFF_FFFF

  type Timestamp = t: nat | t <= MAX_TIMESTAMP

  type Value = real

  datatype Point = Point(ts: Timestamp, x: Value)

  /** A value, or one of the sentinels `lowest()` and `max()` that `max` and `min` start from. */
  datatype Extreme = LOWEST | Val(x: Value) | HIGHEST
  {
    predicate Less(other: Extreme)
    {
      (LOWEST? && !other.LOWEST?) || (other.HIGHEST? && !HIGHEST?) || (Val? && other.Val? && x < other.x)
    }
  }

  datatype Agg = Agg(
    cnt: nat, sum: real, min: Extreme, max: Extreme, first: real, last: real,
    mints: Timestamp, maxts: Timestamp, begin: Timestamp, end: Timestamp)

  const INIT_AGGRES: Agg := Agg(0, 0.0, HIGHEST, LOWEST, 0.0, 0.0, MAX_TIMESTAMP, 0, MAX_TIMESTAMP, 0)

  /** `AggregationResult::add` in forward order; `IOVecLeaf::append` updates a leaf's header the same way. */
  function Add(a: Agg, p: Point): Agg
  {
    var v := Val(p.x);
    Agg(
      a.cnt + 1,
      a.sum + p.x,
      if v.Less(a.min) then v else a.min,
      if a.max.Less(v) then v else a.max,
      if a.cnt == 0 then p.x else a.first,
      p.x,
      if v.Less(a.min) then p.ts else a.mints,
      if a.max.Less(v) then p.ts else a.maxts,
      if a.cnt == 0 then p.ts else a.begin,
      p.ts)
  }

  /** `AggregationResult::combine`. */
  function Combine(a: Agg, b: Agg): Agg
  {
    Agg(
      a.cnt + b.cnt,
      a.sum + b.sum,
      if b.min.Less(a.min) then b.min else a.min,
      if a.max.Less(b.max) then b.max else a.max,
      if a.begin > b.begin then b.first else a.first,
      if a.end < b.end then b.last else a.last,
      if b.min.Less(a.min) then b.mints else a.mints,
      if a.max.Less(b.max) then b.maxts else a.maxts,
      if a.begin > b.begin then b.begin else a.begin,
      if a.end < b.end then b.end else a.end)
  }

  /** The reference: add the points one by one. */
  function Fold(pts: seq<Point>): Agg
  {
    if pts == [] then INIT_AGGRES else Add(Fold(pts[..|pts| - 1]), pts[|pts| - 1])
  }

  /** Timestamps never decrease. Stated step by step; `SortedMeaning` gives the pairwise form. */
  predicate Sorted(pts: seq<Point>)
  {
    |pts| <= 1 || (Sorted(pts[..|pts| - 1]) && pts[|pts| - 2].ts <= pts[|pts| - 1].ts)
  }

  lemma {:induction false} SortedMeaning(pts: seq<Point>)
    ensures Sorted(pts) <==> forall i, j :: 0 <= i < j < |pts| ==> pts[i].ts <= pts[j].ts
  {
    if |pts| > 1 {
      var n := |pts| - 1;
      SortedMeaning(pts[..n]);
      assert forall i :: 0 <= i < n ==> pts[..n][i] == pts[i];
      if Sorted(pts) {
        forall i | 0 <= i < n
          ensures pts[i].ts <= pts[n].ts
        {
          assert pts[..n][i].ts <= pts[..n][n - 1].ts;
        }
      }
    }
  }

  function SumOf(pts: seq<Point>): real
  {
    if pts == [] then 0.0 else SumOf(pts[..|pts| - 1]) + pts[|pts| - 1].x
  }

  /** `k` is the first index holding the smallest (largest) value. */
  ghost predicate IsFirstMin(pts: seq<Point>, k: nat)
  {
    k < |pts| && (forall i :: 0 <= i < |pts| ==> pts[k].x <= pts[i].x) &&
        (forall i :: 0 <= i < k ==> pts[k].x < pts[i].x)
  }

  ghost predicate IsFirstMax(pts: seq<Point>, k: nat)
  {
    k < |pts| && (forall i :: 0 <= i < |pts| ==> pts[i].x <= pts[k].x) &&
        (forall i :: 0 <= i < k ==> pts[i].x < pts[k].x)
  }

  /** What the fold means, field by field, with no reference to how it is computed. */
  lemma {:induction false} FoldMeaning(pts: seq<Point>)
    ensures Fold(pts).cnt == |pts| && Fold(pts).sum == SumOf(pts)
    ensures pts != [] ==> Fold(pts).begin == pts[0].ts && Fold(pts).first == pts[0].x
    ensures pts != [] ==> Fold(pts).end == pts[|pts| - 1].ts && Fold(pts).last == pts[|pts| - 1].x
    ensures pts != [] ==> Fold(pts).min.Val? && Fold(pts).max.Val?
  {
    if pts != [] {
      FoldMeaning(pts[..|pts| - 1]);
    }
  }

  lemma {:induction false} FoldMin(pts: seq<Point>) returns (k: nat)
    requires pts != []
    ensures IsFirstMin(pts, k) && Fold(pts).min == Val(pts[k].x) && Fold(pts).mints == pts[k].ts
  {
    var n := |pts| - 1;
    var front := pts[..n];
    if n == 0 {
      assert Fold(front) == INIT_AGGRES;
      k := 0;
    } else {
      k := FoldMin(front);
      if front[k].x > pts[n].x {
        k := n;
      }
    }
  }

  lemma {:induction false} FoldMax(pts: seq<Point>) returns (k: nat)
    requires pts != []
    ensures IsFirstMax(pts, k) && Fold(pts).max == Val(pts[k].x) && Fold(pts).maxts == pts[k].ts
  {
    var n := |pts| - 1;
    var front := pts[..n];
    if n == 0 {
      assert Fold(front) == INIT_AGGRES;
      k := 0;
    } else {
      k := FoldMax(front);
      if front[k].x < pts[n].x {
        k := n;
      }
    }
  }

  /** Joining the folds of two consecutive non-empty runs: the way `init_subtree_from_subtree` takes
      `begin`/`first` from the first child and `end`/`last` from the last. */
  function Join(a: Agg, b: Agg): Agg
  {
    Combine(a, b).(first := a.first, begin := a.begin, last := b.last, end := b.end)
  }

  lemma {:induction false} FoldConcat(a: seq<Point>, b: seq<Point>)
    requires a != [] && b != []
    ensures Fold(a + b) == Join(Fold(a), Fold(b))
  {
    var n := |b| - 1;
    assert (a + b)[..|a + b| - 1] == a + b[..n];
    FoldMeaning(a);
    if n == 0 {
      assert a + b[..0] == a;
      assert Fold(b[..0]) == INIT_AGGRES;
    } else {
      FoldConcat(a, b[..n]);
      FoldMeaning(b[..n]);
    }
  }

  /** `combine` of two consecutive runs is their fold exactly when the second run ends strictly later
      than the first, or both end on the same value: duplicate timestamps across the seam keep the
      wrong `last`. */
  lemma CombineConsecutive(a: seq<Point>, b: seq<Point>)
    requires a != [] && b != [] && Sorted(a + b)
    ensures Combine(Fold(a), Fold(b)) == Fold(a + b)
       <==> a[|a| - 1].ts < b[|b| - 1].ts || a[|a| - 1].x == b[|b| - 1].x
    ensures Combine(Fold(a), Fold(b)).(last := b[|b| - 1].x) == Fold(a + b)
  {
    FoldConcat(a, b);
    FoldMeaning(a);
    FoldMeaning(b);
    SortedMeaning(a + b);
    var ab := a + b;
    assert ab[0] == a[0] && ab[|a| - 1] == a[|a| - 1] && ab[|a|] == b[0] && ab[|ab| - 1] == b[|b| - 1];
  }

  /** Combining into a fresh `INIT_AGGRES` slot copies a fold exactly unless the run touches one of the
      two timestamp sentinels. */
  lemma CombineIntoInit(b: seq<Point>)
    requires b != [] && Sorted(b)
    ensures Combine(INIT_AGGRES, Fold(b)) == Fold(b)
       <==> (b[0].ts < MAX_TIMESTAMP || b[0].x == 0.0) && (0 < b[|b| - 1].ts || b[|b| - 1].x == 0.0)
  {
    FoldMeaning(b);
  }

  /** The default `append` accepts a repeated timestamp, so this is a run a column can hold. */
  lemma DuplicateAcrossSeamLosesLast()
    ensures var a, b := [Point(5, 1.0)], [Point(5, 2.0)];
            Sorted(a + b) && Combine(Fold(a), Fold(b)).last == 1.0 && Fold(a + b).last == 2.0
  {
    var a, b := [Point(5, 1.0)], [Point(5, 2.0)];
    FoldMeaning(a);
    FoldMeaning(b);
    FoldMeaning(a + b);
  }

  lemma {:induction false} SortedParts(a: seq<Point>, b: seq<Point>)
    requires Sorted(a + b)
    ensures Sorted(a) && Sorted(b)
    ensures a != [] && b != [] ==> a[|a| - 1].ts <= b[0].ts
  {
    if b == [] {
      assert a + b == a;
    } else {
      var n := |b| - 1;
      var ab := a + b;
      assert ab[..|ab| - 1] == a + b[..n];
      SortedParts(a, b[..n]);
      if n == 0 {
        assert a != [] ==> ab[|ab| - 2] == a[|a| - 1] && ab[|ab| - 1] == b[0];
      } else {
        assert ab[|ab| - 2] == b[n - 1] && ab[|ab| - 1] == b[n];
        assert b[..n][0] == b[0] && b[..n][n - 1] == b[n - 1];
      }
    }
  }
}
