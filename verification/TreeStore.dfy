/** Committed NB+tree nodes: the blocks a column has written to the block store, the points and the
    summary under each of them, and the chain of back-links that crash recovery follows.

    The store is append-only here (no block has been recycled), so a block's address is its
    position in the sequence of everything ever written. */
module TreeStore {
  import opened Aggregation

  const FANOUT: nat := 32

  datatype LogicAddr = EMPTY_ADDR | At(ix: nat)

  datatype BlockType = LEAF | INNER

  /** `SubtreeRef`: the aggregates of a subtree, plus its address. In a block's own header `addr`
      is the address of the previous node on the same level. */
  datatype SubtreeRef = SubtreeRef(agg: Agg, addr: LogicAddr, kind: BlockType, level: nat, fanoutIndex: nat)

  datatype Block =
    | Leaf(meta: SubtreeRef, points: seq<Point>)
    | Inner(meta: SubtreeRef, refs: seq<SubtreeRef>)

  /** The points under block `a`, in the order they were appended. */
  function PointsAt(st: seq<Block>, a: nat): seq<Point>
    decreases a, 1, 0
  {
    if a >= |st| then [] else
    match st[a]
    case Leaf(_, points) => points
    case Inner(_, refs) => PointsOf(st, refs, a)
  }

  /** The points under a list of references; only references below `bound` are followed. */
  function PointsOf(st: seq<Block>, refs: seq<SubtreeRef>, bound: nat): seq<Point>
    decreases bound, 0, |refs|
  {
    if refs == [] then [] else PointsOf(st, refs[..|refs| - 1], bound) + PointsUnder(st, refs[|refs| - 1], bound)
  }

  function PointsUnder(st: seq<Block>, r: SubtreeRef, bound: nat): seq<Point>
    decreases bound, 0, 0
  {
    if r.addr.At? && r.addr.ix < bound then PointsAt(st, r.addr.ix) else []
  }

  /** The reference a parent holds to block `a`: its header with the address filled in. */
  function RefTo(st: seq<Block>, a: nat): SubtreeRef
    requires a < |st|
  {
    st[a].meta.(addr := At(a))
  }

  ghost predicate RefOk(st: seq<Block>, r: SubtreeRef, level: nat, bound: nat)
  {
    r.addr.At? && r.addr.ix < bound <= |st| && r == RefTo(st, r.addr.ix) && r.level == level
  }

  ghost predicate RefsOk(st: seq<Block>, refs: seq<SubtreeRef>, level: nat, bound: nat)
  {
    bound <= |st| && |refs| <= FANOUT && forall j {:trigger RefOk(st, refs[j], level, bound)} :: 0 <= j < |refs| ==>
        RefOk(st, refs[j], level, bound)
  }

  ghost predicate AddrOk(st: seq<Block>, a: LogicAddr)
  {
    a.At? ==> a.ix < |st|
  }

  /** A rescue point of level `level`. */
  ghost predicate OnLevel(st: seq<Block>, a: LogicAddr, level: nat)
  {
    a.At? ==> a.ix < |st| && st[a.ix].meta.level == level
  }

  /** A back-link stays on its level and leads to a smaller fanout index, so no chain has more than 32 nodes. */
  ghost predicate LinkOk(st: seq<Block>, a: LogicAddr, bound: nat, level: nat, index: nat)
  {
    a.At? ==> a.ix < bound <= |st| && st[a.ix].meta.level == level && st[a.ix].meta.fanoutIndex < index
  }

  /** Every block written is a proper node whose header summarises exactly the points below it. */
  ghost predicate BlockOk(st: seq<Block>, a: nat)
    requires a < |st|
  {
    var b := st[a];
    && LinkOk(st, b.meta.addr, a, b.meta.level, b.meta.fanoutIndex)
    && b.meta.fanoutIndex < FANOUT
    && PointsAt(st, a) != []
    && b.meta.agg == Fold(PointsAt(st, a))
    && match b
       case Leaf(meta, _) => meta.kind == LEAF && meta.level == 0
       case Inner(meta, refs) =>
         meta.kind == INNER && meta.level >= 1 && refs != [] && RefsOk(st, refs, meta.level - 1, a)
  }

  ghost predicate StoreOk(st: seq<Block>)
  {
    forall a :: 0 <= a < |st| ==> BlockOk(st, a)
  }

  /** The nodes reached from `addr` through back-links, oldest first. */
  ghost function ChainFrom(st: seq<Block>, addr: LogicAddr): seq<SubtreeRef>
    decreases if addr.At? then addr.ix + 1 else 0
  {
    if addr == EMPTY_ADDR || addr.ix >= |st| then []
    else
      var prev := st[addr.ix].meta.addr;
      (if prev.At? && prev.ix < addr.ix then ChainFrom(st, prev) else []) + [RefTo(st, addr.ix)]
  }

  /** The chain from any stored node: nodes of its level, at most as many as its fanout index says. */
  lemma {:induction false} ChainOk(st: seq<Block>, a: nat)
    requires StoreOk(st) && a < |st|
    ensures |ChainFrom(st, At(a))| <= st[a].meta.fanoutIndex + 1
    ensures RefsOk(st, ChainFrom(st, At(a)), st[a].meta.level, |st|)
  {
    assert BlockOk(st, a);
    var prev, level := st[a].meta.addr, st[a].meta.level;
    var before := if prev.At? then ChainFrom(st, prev) else [];
    if prev.At? {
      ChainOk(st, prev.ix);
    }
    forall j | 0 <= j < |before + [RefTo(st, a)]|
      ensures RefOk(st, (before + [RefTo(st, a)])[j], level, |st|)
    {
      assert j < |before| ==> RefOk(st, before[j], level, |st|);
    }
  }

  lemma ChainsOk(st: seq<Block>, a: LogicAddr, level: nat)
    requires StoreOk(st) && OnLevel(st, a, level)
    ensures RefsOk(st, ChainFrom(st, a), level, |st|) && (ChainFrom(st, a) == [] <==> a == EMPTY_ADDR)
  {
    if a.At? {
      ChainOk(st, a.ix);
    }
  }

  // ---- Summaries -------------------------------------------------------------------------------

  /** The fold of consecutive subtrees, from their summaries alone. */
  ghost function JoinAll(refs: seq<SubtreeRef>): Agg
    requires refs != []
  {
    if |refs| == 1 then refs[0].agg else Join(JoinAll(refs[..|refs| - 1]), refs[|refs| - 1].agg)
  }

  /** `init_subtree_from_subtree`: one pass over the references with explicit sentinels. */
  method SummariseSubtree(refs: seq<SubtreeRef>) returns (agg: Agg)
    requires refs != []
    requires forall j :: 0 <= j < |refs| ==> refs[j].agg.min.Val? && refs[j].agg.max.Val?
    ensures agg == JoinAll(refs)
  {
    var begin, first := refs[0].agg.begin, refs[0].agg.first;
    var end, last := refs[|refs| - 1].agg.end, refs[|refs| - 1].agg.last;
    var count: nat, sum := 0, 0.0;
    var min, max := HIGHEST, LOWEST;
    var mints, maxts: Timestamp := 0, 0;
    var i := 0;
    while i < |refs|
      invariant 0 <= i <= |refs|
      invariant i == 0 ==> count == 0 && sum == 0.0 && min == HIGHEST && max == LOWEST
      invariant i > 0 ==> JoinAll(refs[..i]) ==
                          Agg(count, sum, min, max, first, refs[i - 1].agg.last, mints, maxts, begin,
                              refs[i - 1].agg.end)
    {
      var r := refs[i].agg;
      assert refs[..i + 1][..i] == refs[..i];
      count := count + r.cnt;
      sum := sum + r.sum;
      if r.min.Less(min) {
        min, mints := r.min, r.mints;
      }
      if max.Less(r.max) {
        max, maxts := r.max, r.maxts;
      }
      i := i + 1;
    }
    assert refs[..i] == refs;
    agg := Agg(count, sum, min, max, first, last, mints, maxts, begin, end);
  }

  /** A superblock's summary, computed from its children's summaries, is the fold of all points below. */
  lemma {:induction false} JoinAllIsFold(st: seq<Block>, refs: seq<SubtreeRef>, level: nat, bound: nat)
    requires StoreOk(st) && RefsOk(st, refs, level, bound) && refs != []
    ensures PointsOf(st, refs, bound) != []
    ensures JoinAll(refs) == Fold(PointsOf(st, refs, bound))
  {
    var n := |refs| - 1;
    assert RefOk(st, refs[n], level, bound);
    var a := refs[n].addr.ix;
    assert BlockOk(st, a);
    if n == 0 {
      assert PointsOf(st, refs[..0], bound) == [];
      assert PointsOf(st, refs, bound) == PointsAt(st, a);
    } else {
      assert RefsOk(st, refs[..n], level, bound) by {
        forall j | 0 <= j < n
          ensures RefOk(st, refs[..n][j], level, bound)
        {
          assert RefOk(st, refs[j], level, bound);
        }
      }
      JoinAllIsFold(st, refs[..n], level, bound);
      FoldConcat(PointsOf(st, refs[..n], bound), PointsAt(st, a));
    }
  }

  lemma RefSummary(st: seq<Block>, r: SubtreeRef, level: nat, bound: nat)
    requires StoreOk(st) && RefOk(st, r, level, bound)
    ensures PointsAt(st, r.addr.ix) != [] && r.agg == Fold(PointsAt(st, r.addr.ix))
    ensures r.agg.min.Val? && r.agg.max.Val?
  {
    assert BlockOk(st, r.addr.ix);
    FoldMeaning(PointsAt(st, r.addr.ix));
  }

  /** Recomputing a committed superblock's summary gives the one in its header. */
  lemma SummaryOfBlock(st: seq<Block>, a: nat)
    requires StoreOk(st) && a < |st| && st[a].Inner?
    ensures st[a].refs != [] && st[a].meta.agg == JoinAll(st[a].refs)
    ensures forall j :: 0 <= j < |st[a].refs| ==> st[a].refs[j].agg.min.Val? && st[a].refs[j].agg.max.Val?
  {
    assert BlockOk(st, a);
    var refs, level := st[a].refs, st[a].meta.level - 1;
    JoinAllIsFold(st, refs, level, a);
    forall j | 0 <= j < |refs|
      ensures refs[j].agg.min.Val? && refs[j].agg.max.Val?
    {
      assert RefOk(st, refs[j], level, a);
      RefSummary(st, refs[j], level, a);
    }
  }

  // ---- The store only grows ------------------------------------------------------------------

  lemma {:induction false} PointsAtGrow(st: seq<Block>, more: seq<Block>, a: nat)
    requires a < |st|
    ensures PointsAt(st + more, a) == PointsAt(st, a)
    decreases a, 1, 0
  {
    if st[a].Inner? {
      PointsOfGrow(st, more, st[a].refs, a, a);
    }
  }

  lemma {:induction false} PointsOfGrow(st: seq<Block>, more: seq<Block>, refs: seq<SubtreeRef>, bound: nat,
                                        bound': nat)
    requires bound <= bound' && bound <= |st|
    requires bound == bound' || forall j :: 0 <= j < |refs| ==> refs[j].addr.At? && refs[j].addr.ix < bound
    ensures PointsOf(st + more, refs, bound') == PointsOf(st, refs, bound)
    decreases bound, 0, |refs|
  {
    if refs != [] {
      PointsOfGrow(st, more, refs[..|refs| - 1], bound, bound');
      var r := refs[|refs| - 1];
      if r.addr.At? && r.addr.ix < bound {
        PointsAtGrow(st, more, r.addr.ix);
      }
    }
  }

  lemma {:induction false} PointsOfSplit(st: seq<Block>, a: seq<SubtreeRef>, b: seq<SubtreeRef>, bound: nat)
    ensures PointsOf(st, a + b, bound) == PointsOf(st, a, bound) + PointsOf(st, b, bound)
  {
    if b == [] {
      assert a + b == a;
    } else {
      var n := |b| - 1;
      assert (a + b)[..|a + b| - 1] == a + b[..n];
      PointsOfSplit(st, a, b[..n], bound);
    }
  }

  lemma PointsOfOne(st: seq<Block>, r: SubtreeRef, bound: nat)
    ensures PointsOf(st, [r], bound) == PointsUnder(st, r, bound)
  {
    assert [r][..0] == [];
    assert PointsOf(st, [], bound) == [];
  }

  lemma {:induction false} ChainGrow(st: seq<Block>, more: seq<Block>, addr: LogicAddr)
    requires AddrOk(st, addr)
    ensures ChainFrom(st + more, addr) == ChainFrom(st, addr)
    decreases if addr.At? then addr.ix + 1 else 0
  {
    if addr.At? {
      var prev := st[addr.ix].meta.addr;
      if prev.At? && prev.ix < addr.ix {
        ChainGrow(st, more, prev);
      }
    }
  }

  lemma BlockOkGrow(st: seq<Block>, more: seq<Block>, a: nat)
    requires a < |st| && BlockOk(st, a)
    ensures BlockOk(st + more, a)
  {
    PointsAtGrow(st, more, a);
    if st[a].Inner? {
      RefsOkGrow(st, more, st[a].refs, st[a].meta.level - 1, a, a);
    }
  }

  lemma RefsOkGrow(st: seq<Block>, more: seq<Block>, refs: seq<SubtreeRef>, level: nat, bound: nat, bound': nat)
    requires RefsOk(st, refs, level, bound) && bound <= bound' <= |st| + |more|
    ensures RefsOk(st + more, refs, level, bound')
  {
    forall j | 0 <= j < |refs|
      ensures RefOk(st + more, refs[j], level, bound')
    {
      assert RefOk(st, refs[j], level, bound);
    }
  }

  lemma StoreOkGrow(st: seq<Block>, b: Block)
    requires StoreOk(st) && BlockOk(st + [b], |st|)
    ensures StoreOk(st + [b])
  {
    forall a | 0 <= a < |st + [b]|
      ensures BlockOk(st + [b], a)
    {
      if a < |st| {
        BlockOkGrow(st, [b], a);
      }
    }
  }

  /** Following a superblock's references from outside gives the points of the block itself. */
  lemma LoadedRefs(st: seq<Block>, a: nat)
    requires a < |st| && BlockOk(st, a) && st[a].Inner?
    ensures PointsOf(st, st[a].refs, |st|) == PointsAt(st, a)
    ensures RefsOk(st, st[a].refs, st[a].meta.level - 1, |st|)
  {
    var refs, level := st[a].refs, st[a].meta.level - 1;
    forall j | 0 <= j < |refs|
      ensures refs[j].addr.At? && refs[j].addr.ix < a
    {
      assert RefOk(st, refs[j], level, a);
    }
    assert st + [] == st;
    PointsOfGrow(st, [], refs, a, |st|);
    RefsOkGrow(st, [], refs, level, a, |st|);
  }

  /** Appending a leaf keeps the store well formed. */
  lemma AppendLeaf(st: seq<Block>, b: Block)
    requires StoreOk(st) && b.Leaf?
    requires b.meta.kind == LEAF && b.meta.level == 0 && b.meta.fanoutIndex < FANOUT &&
             LinkOk(st, b.meta.addr, |st|, 0, b.meta.fanoutIndex)
    requires b.points != [] && b.meta.agg == Fold(b.points)
    ensures StoreOk(st + [b]) && PointsAt(st + [b], |st|) == b.points
  {
    StoreOkGrow(st, b);
  }

  lemma InnerBlockOk(st: seq<Block>, b: Block)
    requires StoreOk(st) && b.Inner?
    requires b.meta.kind == INNER && b.meta.level >= 1 && b.meta.fanoutIndex < FANOUT
    requires LinkOk(st, b.meta.addr, |st|, b.meta.level, b.meta.fanoutIndex)
    requires b.refs != [] && RefsOk(st, b.refs, b.meta.level - 1, |st|) && b.meta.agg == JoinAll(b.refs)
    requires PointsAt(st + [b], |st|) == PointsOf(st, b.refs, |st|)
    ensures BlockOk(st + [b], |st|)
  {
    JoinAllIsFold(st, b.refs, b.meta.level - 1, |st|);
    RefsOkGrow(st, [b], b.refs, b.meta.level - 1, |st|, |st|);
  }

  /** Appending a superblock over committed children keeps the store well formed. */
  lemma AppendInner(st: seq<Block>, b: Block)
    requires StoreOk(st) && b.Inner?
    requires b.meta.kind == INNER && b.meta.level >= 1 && b.meta.fanoutIndex < FANOUT
    requires LinkOk(st, b.meta.addr, |st|, b.meta.level, b.meta.fanoutIndex)
    requires b.refs != [] && RefsOk(st, b.refs, b.meta.level - 1, |st|) && b.meta.agg == JoinAll(b.refs)
    ensures StoreOk(st + [b]) && PointsAt(st + [b], |st|) == PointsOf(st, b.refs, |st|)
  {
    PointsOfGrow(st, [b], b.refs, |st|, |st|);
    InnerBlockOk(st, b);
    StoreOkGrow(st, b);
  }
}
