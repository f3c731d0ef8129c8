/** Time buckets of a forward group-aggregate: bucket k of [begin, end) holds the timestamps t with
    (t - begin) / step == k. */
module Buckets {
  import opened Aggregation
  import opened Summaries

  const TWO_64: nat := 0x1_0000_0000_0000_0000
  const TWO_63: nat := 0x8000_0000_0000_0000

  type Step = s: nat | 0 < s < TWO_64 witness 1

  /** Unsigned 64-bit subtraction. */
  function Sub64(a: Timestamp, b: Timestamp): (d: Timestamp)
    ensures b <= a ==> d == a - b
    ensures a < b ==> d == a - b + TWO_64
  {
    if b <= a then a - b else a - b + TWO_64
  }

  /** Unsigned division, by repeated subtraction; `QuotientIsDivision` says so. */
  function Quotient(a: nat, d: nat): nat
    requires d > 0
  {
    if a < d then 0 else 1 + Quotient(a - d, d)
  }

  lemma {:induction false} QuotientIsDivision(a: nat, d: nat)
    requires d > 0
    ensures Quotient(a, d) == a / d
  {
    if a >= d {
      QuotientIsDivision(a - d, d);
      assert a == (a - d) + 1 * d;
      AddOne(a - d, d);
    } else {
      SmallQuotient(a, d);
    }
  }

  lemma AddOne(a: nat, d: nat)
    requires d > 0
    ensures (a + d) / d == a / d + 1
  {
    var x := a / d;
    assert a == d * x + a % d;
    assert a + d == d * (x + 1) + a % d;
    UniqueQuotient(a + d, d, x + 1, a % d);
  }

  lemma UniqueQuotient(a: nat, d: nat, x: nat, r: nat)
    requires d > 0 && r < d && a == d * x + r
    ensures a / d == x
  {
    var y := a / d;
    assert a == d * y + a % d;
    MulStep(d, x, y);
    MulStep(d, y, x);
  }

  lemma SmallQuotient(a: nat, d: nat)
    requires a < d
    ensures a / d == 0
  {
  }

  function Bin(t: Timestamp, begin: Timestamp, step: Step): nat
  {
    Quotient(Sub64(t, begin), step)
  }

  /** A bucket is a step of the time axis, counted from the start of the range. */
  lemma BinMeaning(t: Timestamp, begin: Timestamp, step: Step)
    requires begin <= t
    ensures Bin(t, begin, step) == (t - begin) / step
  {
    QuotientIsDivision(t - begin, step);
  }

  lemma MulStep(d: nat, x: nat, y: nat)
    ensures x < y ==> d * x + d <= d * y
  {
    if x < y {
      assert d * y == d * x + d * (y - x);
      assert d * (y - x) == d + d * (y - x - 1);
    }
  }

  lemma {:induction false} QuotientMonotone(a: nat, b: nat, d: nat)
    requires a <= b && d > 0
    ensures Quotient(a, d) <= Quotient(b, d)
  {
    if a >= d {
      QuotientMonotone(a - d, b - d, d);
    }
  }

  lemma BinMonotone(t: Timestamp, u: Timestamp, begin: Timestamp, step: Step)
    requires begin <= t <= u
    ensures Bin(t, begin, step) <= Bin(u, begin, step)
  {
    QuotientMonotone(t - begin, u - begin, step);
  }

  // ---- The shortcut for whole subtrees -----------------------------------------------------------

  /** `make_superblock_iterator`: a subtree is answered from its reference when this holds. */
  predicate Shortcut(refBegin: Timestamp, refEnd: Timestamp, begin: Timestamp, end: Timestamp, step: Step)
  {
    var boundary := Quotient(Sub64(end, begin), step);
    Bin(refBegin, begin, step) == Bin(refEnd, begin, step) && Bin(refEnd, begin, step) != boundary
  }

  lemma QuotientBetween(a: nat, b: nat, c: nat, d: nat)
    requires d > 0 && a <= b <= c && Quotient(a, d) == Quotient(c, d)
    ensures Quotient(b, d) == Quotient(a, d)
  {
    QuotientMonotone(a, b, d);
    QuotientMonotone(b, c, d);
  }

  /** No subtree with timestamps up to `limit` is picked by mistake: whatever wraps around in the subtraction, a picked
      subtree lies inside the range. */
  ghost predicate ShortcutIsInside(limit: Timestamp, begin: Timestamp, end: Timestamp, step: Step)
  {
    forall refBegin: Timestamp, refEnd: Timestamp {:trigger Shortcut(refBegin, refEnd, begin, end, step)} ::
      refBegin <= refEnd <= limit && !(refEnd < begin || end < refBegin) &&
          Shortcut(refBegin, refEnd, begin, end, step) ==>
      begin <= refBegin && refEnd < end
  }

  /** A query can tell from its own arguments: only a subtree over the whole time axis has to be tried. */
  predicate SafeQuery(limit: Timestamp, begin: Timestamp, end: Timestamp, step: Step)
  {
    begin == 0 || limit < begin || !Shortcut(0, limit, begin, end, step)
  }

  /** A wrapped difference shares a bucket with one that did not wrap only if those of 0 and `limit` do. */
  lemma WrappedIsNotPicked(refBegin: Timestamp, refEnd: Timestamp, limit: Timestamp, begin: Timestamp, end: Timestamp,
                           step: Step)
    requires refBegin < begin <= refEnd <= limit && Shortcut(refBegin, refEnd, begin, end, step)
    ensures Shortcut(0, limit, begin, end, step)
  {
    var v, w := refEnd - begin, refBegin - begin + TWO_64;
    QuotientBetween(v, limit - begin, w, step);
    QuotientBetween(v, TWO_64 - begin, w, step);
  }

  /** The exact condition for the shortcut to be right, over all subtrees with timestamps up to `limit`. */
  lemma ShortcutExact(limit: Timestamp, begin: Timestamp, end: Timestamp, step: Step)
    requires begin < end
    ensures ShortcutIsInside(limit, begin, end, step) <==> SafeQuery(limit, begin, end, step)
  {
    if SafeQuery(limit, begin, end, step) {
      forall refBegin: Timestamp, refEnd: Timestamp | refBegin <= refEnd <= limit &&
          !(refEnd < begin || end < refBegin) &&
                                                      Shortcut(refBegin, refEnd, begin, end, step)
        ensures begin <= refBegin && refEnd < end
      {
        if refBegin < begin {
          WrappedIsNotPicked(refBegin, refEnd, limit, begin, end, step);
        } else if end <= refEnd {
          QuotientBetween(refBegin - begin, end - begin, refEnd - begin, step);
        }
      }
    }
  }

  lemma {:induction false} SameQuotient(a: nat, b: nat, d: nat)
    requires d > 0 && a <= b && Quotient(a, d) == Quotient(b, d)
    ensures b - a < d
  {
    if a >= d {
      SameQuotient(a - d, b - d, d);
    }
  }

  /** Every query is safe while timestamps stay below 2^63. */
  lemma SafeBelow63Bits(limit: Timestamp, begin: Timestamp, end: Timestamp, step: Step)
    requires limit < TWO_63 && begin < end
    ensures SafeQuery(limit, begin, end, step)
  {
    if 0 < begin <= limit && Shortcut(0, limit, begin, end, step) {
      SameQuotient(limit - begin, TWO_64 - begin, step);
      if limit <= end {
        QuotientBetween(limit - begin, end - begin, TWO_64 - begin, step);
      }
    }
  }

  /** Above 2^63 not every query is: this one asks for one instant, and a subtree over the whole time axis is picked. */
  lemma ShortcutFailsAbove63Bits()
    ensures !SafeQuery(MAX_TIMESTAMP, 1, 2, TWO_63) && !ShortcutIsInside(MAX_TIMESTAMP, 1, 2, TWO_63)
  {
    assert Sub64(0, 1) == TWO_64 - 1;
    assert Quotient(TWO_64 - 1, TWO_63) == 1 + Quotient(TWO_63 - 1, TWO_63);
    assert Quotient(TWO_64 - 2, TWO_63) == 1 + Quotient(TWO_63 - 2, TWO_63);
    ShortcutExact(MAX_TIMESTAMP, 1, 2, TWO_63);
  }

  // ---- Buckets of a run of points ----------------------------------------------------------------

  /** Sorted points, all of them in [begin, end). */
  predicate Within(pts: seq<Point>, begin: Timestamp, end: Timestamp)
  {
    Sorted(pts) && (pts != [] ==> begin <= pts[0].ts && pts[|pts| - 1].ts < end)
  }

  lemma WithinParts(a: seq<Point>, b: seq<Point>, begin: Timestamp, end: Timestamp)
    requires Within(a + b, begin, end)
    ensures Within(a, begin, end) && Within(b, begin, end) && InRange(a + b)
    ensures a != [] && b != [] ==> a[|a| - 1].ts <= b[0].ts
  {
    var ab := a + b;
    SortedParts(a, b);
    SortedMeaning(ab);
    assert a != [] ==> ab[0] == a[0] && ab[|a| - 1] == a[|a| - 1];
    assert b != [] ==> ab[|a|] == b[0] && ab[|ab| - 1] == b[|b| - 1];
  }

  /** All points of a non-empty sorted run are in the bucket of the first. */
  predicate OneBin(seg: seq<Point>, begin: Timestamp, step: Step)
  {
    seg != [] && Bin(seg[0].ts, begin, step) == Bin(seg[|seg| - 1].ts, begin, step)
  }

  function BinOf(seg: seq<Point>, begin: Timestamp, step: Step): nat
  {
    if seg == [] then 0 else Bin(seg[0].ts, begin, step)
  }

  lemma OneBinMeaning(seg: seq<Point>, begin: Timestamp, end: Timestamp, step: Step, k: nat)
    requires OneBin(seg, begin, step) && Within(seg, begin, end) && k < |seg|
    ensures Bin(seg[k].ts, begin, step) == BinOf(seg, begin, step)
  {
    SortedMeaning(seg);
    BinMonotone(seg[0].ts, seg[k].ts, begin, step);
    BinMonotone(seg[k].ts, seg[|seg| - 1].ts, begin, step);
  }

  /** Non-empty runs, one bucket each, buckets strictly increasing. */
  ghost predicate Bucketed(segs: seq<seq<Point>>, begin: Timestamp, step: Step)
  {
    && (forall i {:trigger OneBin(segs[i], begin, step)} :: 0 <= i < |segs| ==> OneBin(segs[i], begin, step))
    && (forall i {:trigger BinBelow(segs, i, begin, step)} :: 0 < i < |segs| ==> BinBelow(segs, i, begin, step))
  }

  ghost predicate BinBelow(segs: seq<seq<Point>>, i: int, begin: Timestamp, step: Step)
  {
    0 < i < |segs| && BinOf(segs[i - 1], begin, step) < BinOf(segs[i], begin, step)
  }

  /** The points of one bucket, in order. */
  function InBin(pts: seq<Point>, k: nat, begin: Timestamp, step: Step): seq<Point>
  {
    if pts == [] then []
    else
      var rest, p := InBin(pts[..|pts| - 1], k, begin, step), pts[|pts| - 1];
      if Bin(p.ts, begin, step) == k then rest + [p] else rest
  }

  /** ... and holds every point of that step, as often as the run does. */
  lemma {:induction false} InBinMeaning(pts: seq<Point>, k: nat, begin: Timestamp, step: Step)
    requires forall i :: 0 <= i < |pts| ==> begin <= pts[i].ts
    ensures forall p: Point ::
              multiset(InBin(pts, k, begin, step))[p] ==
              (if begin <= p.ts && (p.ts - begin) / step == k then multiset(pts)[p] else 0)
  {
    hide Bin;
    if pts != [] {
      var n := |pts| - 1;
      InBinMeaning(pts[..n], k, begin, step);
      BinMeaning(pts[n].ts, begin, step);
      assert pts == pts[..n] + [pts[n]];
    }
  }

  lemma {:induction false} InBinConcat(a: seq<Point>, b: seq<Point>, k: nat, begin: Timestamp, step: Step)
    ensures InBin(a + b, k, begin, step) == InBin(a, k, begin, step) + InBin(b, k, begin, step)
  {
    if b == [] {
      assert a + b == a;
    } else {
      var n := |b| - 1;
      assert (a + b)[..|a + b| - 1] == a + b[..n];
      InBinConcat(a, b[..n], k, begin, step);
    }
  }

  lemma {:induction false} InBinUniform(seg: seq<Point>, k: nat, bin: nat, begin: Timestamp, step: Step)
    requires forall i :: 0 <= i < |seg| ==> Bin(seg[i].ts, begin, step) == bin
    ensures InBin(seg, k, begin, step) == if k == bin then seg else []
  {
    if seg != [] {
      InBinUniform(seg[..|seg| - 1], k, bin, begin, step);
    }
  }

  lemma InBinOneBin(seg: seq<Point>, k: nat, begin: Timestamp, end: Timestamp, step: Step)
    requires OneBin(seg, begin, step) && Within(seg, begin, end)
    ensures InBin(seg, k, begin, step) == if k == BinOf(seg, begin, step) then seg else []
  {
    forall i | 0 <= i < |seg|
      ensures Bin(seg[i].ts, begin, step) == BinOf(seg, begin, step)
    {
      OneBinMeaning(seg, begin, end, step, i);
    }
    InBinUniform(seg, k, BinOf(seg, begin, step), begin, step);
  }

  lemma {:induction false} BinsIncrease(segs: seq<seq<Point>>, begin: Timestamp, step: Step, i: nat, j: nat)
    requires Bucketed(segs, begin, step) && i < j < |segs|
    ensures BinOf(segs[i], begin, step) < BinOf(segs[j], begin, step)
    decreases j
  {
    assert BinBelow(segs, j, begin, step);
    if i < j - 1 {
      BinsIncrease(segs, begin, step, i, j - 1);
    }
  }

  lemma BucketedPrefix(segs: seq<seq<Point>>, n: nat, begin: Timestamp, step: Step)
    requires Bucketed(segs, begin, step) && n <= |segs|
    ensures Bucketed(segs[..n], begin, step)
  {
    forall i | 0 <= i < n
      ensures OneBin(segs[..n][i], begin, step) && (0 < i ==> BinBelow(segs[..n], i, begin, step))
    {
      assert OneBin(segs[i], begin, step) && (0 < i ==> BinBelow(segs, i, begin, step));
    }
  }

  /** Cutting a range into increasing one-bucket runs is the same as filtering it bucket by bucket. A
      bucket without a run is empty ... */
  lemma {:induction false} OtherBucketsAreEmpty(segs: seq<seq<Point>>, k: nat, begin: Timestamp, end: Timestamp,
                                                step: Step)
    requires Bucketed(segs, begin, step) && Within(Flatten(segs), begin, end)
    requires forall i :: 0 <= i < |segs| ==> BinOf(segs[i], begin, step) != k
    ensures InBin(Flatten(segs), k, begin, step) == []
  {
    if segs != [] {
      LastBucket(segs, k, begin, end, step);
      OtherBucketsAreEmpty(segs[..|segs| - 1], k, begin, end, step);
    }
  }

  /** ... and every run is its whole bucket. */
  lemma {:induction false} RunIsItsBucket(segs: seq<seq<Point>>, i: nat, begin: Timestamp, end: Timestamp, step: Step)
    requires Bucketed(segs, begin, step) && Within(Flatten(segs), begin, end) && i < |segs|
    ensures InBin(Flatten(segs), BinOf(segs[i], begin, step), begin, step) == segs[i]
  {
    hide InBin, Flatten, Bin, Within;
    var n, k := |segs| - 1, BinOf(segs[i], begin, step);
    LastBucket(segs, k, begin, end, step);
    if i < n {
      BinsIncrease(segs, begin, step, i, n);
      RunIsItsBucket(segs[..n], i, begin, end, step);
      assert segs[i] + [] == segs[i];
    } else {
      forall j | 0 <= j < n
        ensures BinOf(segs[..n][j], begin, step) != k
      {
        BinsIncrease(segs, begin, step, j, n);
      }
      OtherBucketsAreEmpty(segs[..n], k, begin, end, step);
    }
  }

  lemma LastBucket(segs: seq<seq<Point>>, k: nat, begin: Timestamp, end: Timestamp, step: Step)
    requires Bucketed(segs, begin, step) && Within(Flatten(segs), begin, end) && segs != []
    ensures var n := |segs| - 1;
            && Bucketed(segs[..n], begin, step) && Within(Flatten(segs[..n]), begin, end)
            && InBin(Flatten(segs), k, begin, step) ==
               InBin(Flatten(segs[..n]), k, begin, step) + if k == BinOf(segs[n], begin, step) then segs[n] else []
  {
    var n := |segs| - 1;
    WithinParts(Flatten(segs[..n]), segs[n], begin, end);
    BucketedPrefix(segs, n, begin, step);
    InBinConcat(Flatten(segs[..n]), segs[n], k, begin, step);
    assert OneBin(segs[n], begin, step);
    InBinOneBin(segs[n], k, begin, end, step);
  }

  // ---- Collecting buckets in a buffer ------------------------------------------------------------

  /** `x` summarises the points `seg` of one bucket. */
  ghost predicate Holds(x: Agg, seg: seq<Point>, begin: Timestamp, end: Timestamp, step: Step)
  {
    Summarises(x, seg) && Within(seg, begin, end) && OneBin(seg, begin, step)
  }

  /** `xs` are the summaries of the consecutive buckets `segs`. */
  ghost predicate Collected(xs: seq<Agg>, segs: seq<seq<Point>>, begin: Timestamp, end: Timestamp, step: Step)
  {
    && |xs| == |segs|
    && (forall i {:trigger Holds(xs[i], segs[i], begin, end, step)} :: 0 <= i < |xs| ==>
        Holds(xs[i], segs[i], begin, end, step))
    && (forall i {:trigger BinBelow(segs, i, begin, step)} :: 0 < i < |segs| ==> BinBelow(segs, i, begin, step))
  }

  lemma CollectedMeaning(xs: seq<Agg>, segs: seq<seq<Point>>, begin: Timestamp, end: Timestamp, step: Step)
    requires Collected(xs, segs, begin, end, step)
    ensures SummariseEach(xs, segs) && Bucketed(segs, begin, step)
  {
    forall i | 0 <= i < |xs|
      ensures Summarises(xs[i], segs[i]) && OneBin(segs[i], begin, step)
    {
      assert Holds(xs[i], segs[i], begin, end, step);
    }
  }

  ghost predicate LastBinBelow(segs: seq<seq<Point>>, seg: seq<Point>, begin: Timestamp, step: Step)
  {
    segs != [] ==> BinOf(segs[|segs| - 1], begin, step) < BinOf(seg, begin, step)
  }

  lemma AddBucket(xs: seq<Agg>, segs: seq<seq<Point>>, x: Agg, seg: seq<Point>, begin: Timestamp, end: Timestamp,
                  step: Step)
    requires Collected(xs, segs, begin, end, step) && Holds(x, seg, begin, end, step) &&
             LastBinBelow(segs, seg, begin, step)
    ensures Collected(xs + [x], segs + [seg], begin, end, step) && Flatten(segs + [seg]) == Flatten(segs) + seg
  {
    var xs', segs' := xs + [x], segs + [seg];
    assert segs'[..|segs|] == segs;
    forall i | 0 <= i < |xs'|
      ensures Holds(xs'[i], segs'[i], begin, end, step)
    {
      assert i < |xs| ==> Holds(xs[i], segs[i], begin, end, step);
    }
    forall i | 0 < i < |segs'|
      ensures BinBelow(segs', i, begin, step)
    {
      assert i < |segs| ==> BinBelow(segs, i, begin, step);
    }
  }

  lemma ExtendBucket(xs: seq<Agg>, segs: seq<seq<Point>>, x: Agg, seg: seq<Point>, begin: Timestamp, end: Timestamp,
                     step: Step)
    requires Collected(xs, segs, begin, end, step) && segs != []
    requires var last := segs[|segs| - 1];
             Holds(x, last + seg, begin, end, step) && last != [] &&
                 BinOf(last + seg, begin, step) == BinOf(last, begin, step)
    ensures var n := |segs| - 1;
            && Collected(xs[n := x], segs[n := segs[n] + seg], begin, end, step)
            && Flatten(segs[n := segs[n] + seg]) == Flatten(segs) + seg
  {
    var n := |segs| - 1;
    var xs', segs' := xs[n := x], segs[n := segs[n] + seg];
    assert segs'[..n] == segs[..n];
    assert Flatten(segs[..n]) + (segs[n] + seg) == (Flatten(segs[..n]) + segs[n]) + seg;
    forall i | 0 <= i < |xs'|
      ensures Holds(xs'[i], segs'[i], begin, end, step)
    {
      assert i < n ==> Holds(xs[i], segs[i], begin, end, step);
    }
    forall i | 0 < i < |segs'|
      ensures BinBelow(segs', i, begin, step)
    {
      assert BinBelow(segs, i, begin, step);
    }
  }

  lemma WithinJoin(a: seq<Point>, b: seq<Point>, begin: Timestamp, end: Timestamp)
    requires Within(a, begin, end) && Within(b, begin, end) && a != [] && b != [] && a[|a| - 1].ts <= b[0].ts
    ensures Within(a + b, begin, end) && InRange(a + b)
  {
    var ab := a + b;
    SortedMeaning(a);
    SortedMeaning(b);
    forall i, j | 0 <= i < j < |ab|
      ensures ab[i].ts <= ab[j].ts
    {
      assert i < |a| ==> a[i].ts <= a[|a| - 1].ts;
      assert j >= |a| ==> b[0].ts <= b[j - |a|].ts;
    }
    SortedMeaning(ab);
  }

  lemma SummaryBegin(x: Agg, seg: seq<Point>)
    requires Summarises(x, seg) && seg != []
    ensures x.begin == seg[0].ts
  {
    FoldMeaning(seg);
    assert x.(last := 0.0).begin == Fold(seg).(last := 0.0).begin;
  }

  /** New points do not start before the collected ones end. */
  ghost predicate Meets(segs: seq<seq<Point>>, next: seq<Point>)
  {
    segs != [] && next != [] ==>
      var last := segs[|segs| - 1];
      last != [] && last[|last| - 1].ts <= next[0].ts
  }

  /** A value for the bucket collected last. */
  lemma SameBucket(x: Agg, seg: seq<Point>, y: Agg, next: seq<Point>, begin: Timestamp, end: Timestamp, step: Step)
    requires Holds(x, seg, begin, end, step) && Holds(y, next, begin, end, step)
    requires seg[|seg| - 1].ts <= next[0].ts && BinOf(seg, begin, step) == BinOf(next, begin, step)
    ensures Holds(Combine(x, y), seg + next, begin, end, step) &&
            BinOf(seg + next, begin, step) == BinOf(seg, begin, step)
  {
    WithinJoin(seg, next, begin, end);
    CombineSummaries(x, seg, y, next);
    assert (seg + next)[0] == seg[0] && (seg + next)[|seg + next| - 1] == next[|next| - 1];
  }

  /** A value for a bucket of its own. */
  lemma FreshBucket(y: Agg, next: seq<Point>, begin: Timestamp, end: Timestamp, step: Step)
    requires Holds(y, next, begin, end, step)
    ensures Holds(Combine(INIT_AGGRES, y), next, begin, end, step)
  {
    CombineFirst(y, next);
  }

  lemma NoEarlierBucket(seg: seq<Point>, next: seq<Point>, begin: Timestamp, end: Timestamp, step: Step)
    requires Within(seg, begin, end) && OneBin(seg, begin, step) && next != [] && seg[|seg| - 1].ts <= next[0].ts
    ensures BinOf(seg, begin, step) <= BinOf(next, begin, step)
  {
    SortedMeaning(seg);
    BinMonotone(seg[|seg| - 1].ts, next[0].ts, begin, step);
  }

  /** One value goes into the buffer: combined into the slot at the end if it belongs to the same bucket,
      otherwise into a fresh slot. `first` is true for the first value of a read only. */
  method Collect(buf: seq<Agg>, x: Agg, first: bool, begin: Timestamp, step: Step, ghost segs: seq<seq<Point>>,
                 ghost seg: seq<Point>, ghost end: Timestamp)
    returns (buf': seq<Agg>, ghost segs': seq<seq<Point>>)
    requires Collected(buf, segs, begin, end, step) && Holds(x, seg, begin, end, step)
    requires if first then Meets(segs, seg) else LastBinBelow(segs, seg, begin, step)
    ensures Collected(buf', segs', begin, end, step) && Flatten(segs') == Flatten(segs) + seg
    ensures segs' != [] && BinOf(segs'[|segs'| - 1], begin, step) == BinOf(seg, begin, step)
    ensures |buf| <= |buf'| <= |buf| + 1
  {
    var n := |buf| - 1;
    SummaryBegin(x, seg);
    if first && n >= 0 {
      assert Holds(buf[n], segs[n], begin, end, step);
      SummaryBegin(buf[n], segs[n]);
      NoEarlierBucket(segs[n], seg, begin, end, step);
      if Bin(buf[n].begin, begin, step) == Bin(x.begin, begin, step) {
        SameBucket(buf[n], segs[n], x, seg, begin, end, step);
        ExtendBucket(buf, segs, Combine(buf[n], x), seg, begin, end, step);
        return buf[n := Combine(buf[n], x)], segs[n := segs[n] + seg];
      }
    }
    FreshBucket(x, seg, begin, end, step);
    AddBucket(buf, segs, Combine(INIT_AGGRES, x), seg, begin, end, step);
    buf', segs' := buf + [Combine(INIT_AGGRES, x)], segs + [seg];
  }

  /** The merge in `refill_read_buffer`: the first new value may continue the last bucket collected. */
  method MergeInto(buf: seq<Agg>, part: seq<Agg>, begin: Timestamp, step: Step, ghost end: Timestamp,
                   ghost segs: seq<seq<Point>>, ghost psegs: seq<seq<Point>>)
    returns (buf': seq<Agg>, ghost segs': seq<seq<Point>>)
    requires Collected(buf, segs, begin, end, step) && Collected(part, psegs, begin, end, step)
    requires psegs != [] ==> Meets(segs, psegs[0])
    ensures Collected(buf', segs', begin, end, step) && Flatten(segs') == Flatten(segs) + Flatten(psegs)
    ensures |buf| <= |buf'| <= |buf| + |part| && (part != [] ==> buf' != [])
  {
    buf', segs' := buf, segs;
    assert psegs[..0] == [] && Flatten(segs) + [] == Flatten(segs);
    for ix := 0 to |part|
      invariant Collected(buf', segs', begin, end, step) && |buf| <= |buf'| <= |buf| + ix && (ix > 0 ==> buf' != [])
      invariant if ix == 0 then segs' == segs
                else BinOf(segs'[|segs'| - 1], begin, step) == BinOf(psegs[ix - 1], begin, step)
      invariant Flatten(segs') == Flatten(segs) + Flatten(psegs[..ix])
    {
      assert Holds(part[ix], psegs[ix], begin, end, step);
      assert ix > 0 ==> BinBelow(psegs, ix, begin, step);
      FlattenNext(segs, psegs, ix);
      buf', segs' := Collect(buf', part[ix], ix == 0, begin, step, segs', psegs[ix], end);
    }
    assert psegs[..|part|] == psegs;
  }

  lemma FlattenNext(segs: seq<seq<Point>>, psegs: seq<seq<Point>>, ix: nat)
    requires ix < |psegs|
    ensures Flatten(segs) + Flatten(psegs[..ix + 1]) == (Flatten(segs) + Flatten(psegs[..ix])) + psegs[ix]
  {
    assert psegs[..ix + 1][..ix] == psegs[..ix];
  }
}
