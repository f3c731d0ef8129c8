/** The in-memory side of a column: one open node per level of the tree, the rescue points handed out
    for crash recovery, and what ties them to the committed blocks. */
module Column {
  import opened Aggregation
  import opened TreeStore

  datatype OpenLeaf = OpenLeaf(prev: LogicAddr, fanoutIndex: nat, meta: Agg, points: seq<Point>)

  datatype OpenSBlock = OpenSBlock(prev: LogicAddr, fanoutIndex: nat, level: nat, refs: seq<SubtreeRef>)

  /** `NBTreeLeafExtent` and `NBTreeSBlockExtent`: `last` and `fanoutIndex` describe the next node to be opened. */
  datatype Extent =
    | LeafExtent(last: LogicAddr, fanoutIndex: nat, leaf: OpenLeaf)
    | SBlockExtent(last: LogicAddr, fanoutIndex: nat, level: nat, curr: OpenSBlock)

  /** The whole state of a column: blocks on disk, extents in memory, rescue points. */
  datatype Col = Col(st: seq<Block>, ext: seq<Extent>, rp: seq<LogicAddr>)

  /** `reset_leaf` / `reset_subtree`: an empty open node on the level of `e`. */
  function Fresh(e: Extent, last: LogicAddr, fanoutIndex: nat): Extent
  {
    match e
    case LeafExtent(_, _, _) => LeafExtent(last, fanoutIndex, OpenLeaf(last, fanoutIndex, INIT_AGGRES, []))
    case SBlockExtent(_, _, level, _) => SBlockExtent(last, fanoutIndex, level,
                                                      OpenSBlock(last, fanoutIndex, level, []))
  }

  /** The extent after its node was committed at `addr`. */
  function Reset(e: Extent, addr: LogicAddr): Extent
  {
    if e.fanoutIndex + 1 == FANOUT then Fresh(e, EMPTY_ADDR, 0) else Fresh(e, addr, e.fanoutIndex + 1)
  }

  function NewLeafExtent(): Extent
  {
    LeafExtent(EMPTY_ADDR, 0, OpenLeaf(EMPTY_ADDR, 0, INIT_AGGRES, []))
  }

  function NewSBlockExtent(level: nat): Extent
  {
    SBlockExtent(EMPTY_ADDR, 0, level, OpenSBlock(EMPTY_ADDR, 0, level, []))
  }

  function Refs(e: Extent): seq<SubtreeRef>
  {
    if e.SBlockExtent? then e.curr.refs else []
  }

  function AddRef(e: Extent, r: SubtreeRef): Extent
    requires e.SBlockExtent?
  {
    e.(curr := e.curr.(refs := e.curr.refs + [r]))
  }

  /** The back-link in the header of the node that is open in `e`, once it is committed. */
  function BackLink(e: Extent): LogicAddr
  {
    match e
    case LeafExtent(_, _, leaf) => if leaf.prev != EMPTY_ADDR && leaf.fanoutIndex > 0 then leaf.prev else EMPTY_ADDR
    case SBlockExtent(_, _, _, curr) => curr.prev
  }

  /** The fanout index of the open node. */
  function NodeIndex(e: Extent): nat
  {
    if e.LeafExtent? then e.leaf.fanoutIndex else e.curr.fanoutIndex
  }

  // ---- Contents --------------------------------------------------------------------------------

  ghost function OwnPoints(st: seq<Block>, e: Extent): seq<Point>
  {
    if e.LeafExtent? then e.leaf.points else PointsOf(st, e.curr.refs, |st|)
  }

  /** The contents held on level `k` and above: extents concatenated from the top level down. */
  ghost function ContentsFrom(st: seq<Block>, ext: seq<Extent>, k: nat): seq<Point>
    decreases |ext| - k
  {
    if k >= |ext| then [] else ContentsFrom(st, ext, k + 1) + OwnPoints(st, ext[k])
  }

  ghost function Contents(c: Col): seq<Point>
  {
    ContentsFrom(c.st, c.ext, 0)
  }

  // ---- Well-formedness of every session ----------------------------------------------------------

  ghost predicate ExtentOk(st: seq<Block>, e: Extent, i: nat)
  {
    && NodeIndex(e) <= e.fanoutIndex < FANOUT
    && LinkOk(st, e.last, |st|, i, e.fanoutIndex) && LinkOk(st, BackLink(e), |st|, i, NodeIndex(e))
    && match e
       case LeafExtent(_, _, leaf) => i == 0 && leaf.meta == Fold(leaf.points)
       case SBlockExtent(_, _, level, curr) => 1 <= i == level == curr.level && RefsOk(st, curr.refs, i - 1, |st|)
  }

  ghost predicate ColOk(c: Col)
  {
    && StoreOk(c.st)
    && |c.rp| == |c.ext|
    && (forall i {:trigger ExtentOk(c.st, c.ext[i], i)} :: 0 <= i < |c.ext| ==> ExtentOk(c.st, c.ext[i], i))
    && (forall i {:trigger OnLevel(c.st, c.rp[i], i)} :: 0 <= i < |c.rp| ==> OnLevel(c.st, c.rp[i], i))
  }

  // ---- The alignment kept by a session -----------------------------------------------------------

  /** The open node of an extent carries the extent's own link and index. */
  ghost predicate NodeAligned(e: Extent)
  {
    match e
    case LeafExtent(last, ix, leaf) => leaf.prev == last && leaf.fanoutIndex == ix
    case SBlockExtent(last, ix, _, curr) => curr.prev == last && curr.fanoutIndex == ix
  }

  /** The number of references modulo 32. */
  function NextIndex(n: nat): (ix: nat)
    requires n <= FANOUT
    ensures ix == n % FANOUT
  {
    if n == FANOUT then 0 else n
  }

  /** A level and its parent: the back-links from the rescue point list exactly the parent's current
      references from number `r` on, and the next fanout index is their number modulo 32. */
  ghost predicate Aligned(st: seq<Block>, child: Extent, rescue: LogicAddr, parent: Extent, r: nat)
  {
    var refs := Refs(parent);
    && r <= |refs| <= FANOUT
    && ChainFrom(st, rescue) == refs[r..]
    && child.fanoutIndex == NextIndex(|refs| - r)
    && child.last == (if |refs| - r == FANOUT then EMPTY_ADDR else rescue)
    && NodeAligned(child)
  }

  /** In the first session there is nothing to rescue on the top level. After a reopen the rescue point is the root
      the column was opened from, and it holds the first `r` references of the copy. */
  ghost predicate TopAligned(st: seq<Block>, e: Extent, rescue: LogicAddr, r: nat)
  {
    if r == 0 then rescue == EMPTY_ADDR && e.fanoutIndex == 0 && e.last == EMPTY_ADDR && NodeAligned(e)
    else
      && e.SBlockExtent? && r <= |Refs(e)| && BackLink(e) == EMPTY_ADDR
      && PointsOf(st, ChainFrom(st, rescue), |st|) == PointsOf(st, Refs(e)[..r], |st|)
  }

  /** The references of level `i` that were there before the session: `r` on the top level. */
  function Skip(c: Col, i: int, r: nat): nat
  {
    if i == |c.ext| - 1 then r else 0
  }

  /** The invariant on level `k` and above, of a session that started with `r` references on its top level: 0 for a
      first session. */
  ghost predicate AlignedFrom(c: Col, k: nat, r: nat)
    requires |c.rp| == |c.ext|
  {
    && (forall i :: k <= i < |c.ext| - 1 ==> AlignedAt(c, i, r))
    && (k < |c.ext| ==> TopAligned(c.st, c.ext[|c.ext| - 1], c.rp[|c.rp| - 1], r))
  }

  ghost predicate AlignedAt(c: Col, i: int, r: nat)
    requires |c.rp| == |c.ext|
  {
    0 <= i < |c.ext| - 1 && Aligned(c.st, c.ext[i], c.rp[i], c.ext[i + 1], Skip(c, i + 1, r))
  }

  // ---- Growing the store leaves everything else in place -----------------------------------------

  lemma ExtentGrow(st: seq<Block>, more: seq<Block>, e: Extent, i: nat)
    requires ExtentOk(st, e, i)
    ensures ExtentOk(st + more, e, i) && OwnPoints(st + more, e) == OwnPoints(st, e)
  {
    hide PointsOf;
    if e.SBlockExtent? {
      forall j | 0 <= j < |e.curr.refs|
        ensures e.curr.refs[j].addr.At? && e.curr.refs[j].addr.ix < |st|
      {
        assert RefOk(st, e.curr.refs[j], i - 1, |st|);
      }
      PointsOfGrow(st, more, e.curr.refs, |st|, |st + more|);
      RefsOkGrow(st, more, e.curr.refs, i - 1, |st|, |st + more|);
    }
  }

  lemma {:induction false} ContentsGrow(st: seq<Block>, more: seq<Block>, ext: seq<Extent>, k: nat)
    requires forall i {:trigger ExtentOk(st, ext[i], i)} :: k <= i < |ext| ==> ExtentOk(st, ext[i], i)
    ensures ContentsFrom(st + more, ext, k) == ContentsFrom(st, ext, k)
    decreases |ext| - k
  {
    hide ExtentOk, OwnPoints;
    if k < |ext| {
      ContentsGrow(st, more, ext, k + 1);
      assert ExtentOk(st, ext[k], k);
      ExtentGrow(st, more, ext[k], k);
    }
  }

  lemma {:induction false} ContentsSame(st: seq<Block>, ext: seq<Extent>, ext': seq<Extent>, k: nat)
    requires |ext| == |ext'| && forall i :: k <= i < |ext| ==> ext[i] == ext'[i]
    ensures ContentsFrom(st, ext, k) == ContentsFrom(st, ext', k)
    decreases |ext| - k
  {
    if k < |ext| {
      ContentsSame(st, ext, ext', k + 1);
    }
  }

  lemma ColGrow(c: Col, b: Block)
    requires ColOk(c) && StoreOk(c.st + [b])
    ensures ColOk(c.(st := c.st + [b]))
  {
    var d := c.(st := c.st + [b]);
    forall i | 0 <= i < |c.ext|
      ensures ExtentOk(d.st, c.ext[i], i)
    {
      assert ExtentOk(c.st, c.ext[i], i);
      ExtentGrow(c.st, [b], c.ext[i], i);
    }
    forall i | 0 <= i < |c.rp|
      ensures OnLevel(d.st, c.rp[i], i)
    {
      assert OnLevel(c.st, c.rp[i], i);
    }
  }

  lemma RefsGrow(st: seq<Block>, more: seq<Block>, refs: seq<SubtreeRef>, n: nat, level: nat)
    requires RefsOk(st, refs, level, |st|) && n <= |refs|
    ensures PointsOf(st + more, refs[..n], |st + more|) == PointsOf(st, refs[..n], |st|)
  {
    forall j | 0 <= j < n
      ensures refs[..n][j].addr.At? && refs[..n][j].addr.ix < |st|
    {
      assert RefOk(st, refs[j], level, |st|);
    }
    PointsOfGrow(st, more, refs[..n], |st|, |st + more|);
  }

  lemma TopGrow(st: seq<Block>, more: seq<Block>, e: Extent, rescue: LogicAddr, i: nat, r: nat)
    requires StoreOk(st) && ExtentOk(st, e, i) && OnLevel(st, rescue, i) && TopAligned(st, e, rescue, r)
    ensures TopAligned(st + more, e, rescue, r)
  {
    hide PointsOf, StoreOk;
    if r > 0 {
      ChainGrow(st, more, rescue);
      ChainsOk(st, rescue, i);
      var chain := ChainFrom(st, rescue);
      assert chain[..|chain|] == chain;
      RefsGrow(st, more, chain, |chain|, i);
      RefsGrow(st, more, Refs(e), r, i - 1);
    }
  }

  lemma AlignedGrow(c: Col, b: Block, k: nat, r: nat)
    requires ColOk(c) && AlignedFrom(c, k, r)
    ensures AlignedFrom(c.(st := c.st + [b]), k, r)
  {
    hide StoreOk, TopAligned, ExtentOk;
    var d := c.(st := c.st + [b]);
    forall i | k <= i < |d.ext| - 1
      ensures AlignedAt(d, i, r)
    {
      assert AlignedAt(c, i, r) && OnLevel(c.st, c.rp[i], i);
      ChainGrow(c.st, [b], c.rp[i]);
    }
    if k < |c.ext| {
      var top := |c.ext| - 1;
      assert ExtentOk(c.st, c.ext[top], top) && OnLevel(c.st, c.rp[top], top);
      TopGrow(c.st, [b], c.ext[top], c.rp[top], top, r);
    }
  }

  /** A freshly written node extends the back-link chain it points to. */
  lemma ChainExtended(st: seq<Block>, b: Block)
    requires AddrOk(st, b.meta.addr)
    ensures ChainFrom(st + [b], At(|st|)) == ChainFrom(st, b.meta.addr) + [RefTo(st + [b], |st|)]
  {
    ChainGrow(st, [b], b.meta.addr);
  }

  // ---- What pushing a reference one level up does ---------------------------------------------------

  predicate HasRoom(c: Col, lvl: nat)
  {
    lvl < |c.ext| && c.ext[lvl].SBlockExtent? && |Refs(c.ext[lvl])| < FANOUT
  }

  /** The references that stay in the open superblock of level `lvl` when one more is pushed. */
  function Kept(c: Col, lvl: nat): seq<SubtreeRef>
  {
    if HasRoom(c, lvl) then Refs(c.ext[lvl]) else []
  }

  /** ... and those of them that the session has collected. */
  function KeptSince(c: Col, lvl: nat, r: nat): seq<SubtreeRef>
  {
    var refs, skip := Kept(c, lvl), Skip(c, lvl, r);
    if skip <= |refs| then refs[skip..] else []
  }

  /** The node behind `pl` continues the chain that level `lvl` is collecting. */
  ghost predicate Fits(c: Col, lvl: nat, pl: SubtreeRef, r: nat)
  {
    ChainFrom(c.st, pl.addr) == KeptSince(c, lvl, r) + [pl]
  }

  /** No level from `lvl` on takes another reference. */
  predicate FullFrom(c: Col, lvl: nat)
  {
    forall k :: lvl <= k < |c.ext| ==> !HasRoom(c, k)
  }

  lemma FullSame(c: Col, d: Col, lvl: nat)
    requires c.ext == d.ext
    ensures FullFrom(c, lvl) <==> FullFrom(d, lvl)
  {
    assert forall k: nat :: HasRoom(c, k) <==> HasRoom(d, k);
  }

  ghost predicate SameBelow(a: Col, b: Col, k: nat)
    requires k <= |a.ext| == |a.rp| && k <= |b.ext| == |b.rp|
  {
    forall i :: 0 <= i < k ==> b.ext[i] == a.ext[i] && b.rp[i] == a.rp[i]
  }

  /** `NBTreeExtentsList::append(pl)` took the column from `a` to `b`: levels below `lvl` are untouched,
      and `pl` is the newest reference of level `lvl`. */
  ghost predicate Pushed(a: Col, b: Col, lvl: nat, pl: SubtreeRef)
  {
    && ColOk(a) && ColOk(b)
    && a.st <= b.st
    && 1 <= lvl <= |a.ext| <= |b.ext| && lvl < |b.ext|
    && SameBelow(a, b, lvl)
    && pl.addr.At? && pl.addr.ix < |a.st|
    && Refs(b.ext[lvl]) == Kept(a, lvl) + [pl]
    && (HasRoom(a, lvl) ==> b == a.(ext := a.ext[lvl := AddRef(a.ext[lvl], pl)])) &&
       (lvl == |a.ext| ==> b == NewTop(a, pl))
    && Grown(a, b, lvl) && (|b.ext| > |a.ext| <==> FullFrom(a, lvl))
    && (Busy(a) ==> Busy(b)) && (Rescuable(a.st, a.rp, -1) ==> Rescuable(b.st, b.rp, lvl - 1))
  }

  /** A new top level is an empty superblock with nothing to rescue. */
  function WithNewLevel(a: Col): Col
  {
    a.(ext := a.ext + [NewSBlockExtent(|a.ext|)], rp := a.rp + [EMPTY_ADDR])
  }

  /** ... and takes the reference it was opened for. */
  function NewTop(a: Col, pl: SubtreeRef): Col
  {
    a.(ext := a.ext + [AddRef(NewSBlockExtent(|a.ext|), pl)], rp := a.rp + [EMPTY_ADDR])
  }

  /** ... the contents gained exactly the points below `pl` ... */
  ghost predicate PushedContents(a: Col, b: Col, lvl: nat, pl: SubtreeRef)
  {
    pl.addr.At? &&
    ContentsFrom(b.st, b.ext, lvl) == ContentsFrom(a.st, a.ext, lvl) + PointsAt(a.st, pl.addr.ix)
  }

  /** ... and a reference that continues its chain keeps the alignment, until a reopened column gets a new level. */
  ghost predicate PushedAligned(a: Col, b: Col, lvl: nat, pl: SubtreeRef)
    requires |a.rp| == |a.ext| && |b.rp| == |b.ext|
  {
    forall r: nat {:trigger AlignedFrom(a, lvl, r)} {:trigger AlignedFrom(b, lvl, r)} ::
      AlignedFrom(a, lvl, r) && Fits(a, lvl, pl, r) && (r == 0 || |b.ext| == |a.ext|) ==> AlignedFrom(b, lvl, r)
  }

  /** The top node has no predecessor, and if it is a superblock it holds references. */
  predicate Busy(c: Col)
  {
    && (|c.ext| >= 1 ==> NodeIndex(c.ext[|c.ext| - 1]) == 0)
    && (|c.ext| >= 2 ==> Refs(c.ext[|c.ext| - 1]) != [])
  }

  /** A node that a column can be opened from: without a predecessor, over sorted points. */
  ghost predicate RootOk(st: seq<Block>, a: LogicAddr, level: nat)
  {
    a.At? && OnLevel(st, a, level) && st[a.ix].meta.fanoutIndex == 0 && Sorted(PointsAt(st, a.ix))
  }

  /** The rescue points of a column that may crash at any time: below an empty top one there is one that is not
      empty, or is just about to be set (`but`), and a top one that is not empty is the root the column was
      opened from. */
  ghost predicate Rescuable(st: seq<Block>, rp: seq<LogicAddr>, but: int)
  {
    var top := |rp| - 1;
    && (top >= 1 && rp[top] == EMPTY_ADDR ==> rp[top - 1] != EMPTY_ADDR || top - 1 == but)
    && (top >= 0 && rp[top] != EMPTY_ADDR ==> RootOk(st, rp[top], top))
  }

  lemma RescuableGrow(st: seq<Block>, more: seq<Block>, rp: seq<LogicAddr>, but: int)
    requires Rescuable(st, rp, but)
    ensures Rescuable(st + more, rp, but)
  {
    var top := |rp| - 1;
    if top >= 0 && rp[top] != EMPTY_ADDR {
      PointsAtGrow(st, more, rp[top].ix);
    }
  }

  /** The rescue points are complete again once the one of the committed node is set. */
  lemma RescuableSet(st: seq<Block>, rp: seq<LogicAddr>, lvl: nat, addr: LogicAddr, but: int)
    requires Rescuable(st, rp, lvl) && lvl + 1 < |rp| && addr.At?
    ensures Rescuable(st, rp[lvl := addr], but)
  {
  }

  /** At most one new level, and then every superblock on the way up has just been opened. */
  ghost predicate Grown(a: Col, b: Col, lvl: nat)
  {
    |b.ext| == |a.ext| || (|b.ext| == |a.ext| + 1 && forall k :: lvl <= k < |b.ext| ==> |Refs(b.ext[k])| == 1)
  }

  function WithRescue(c: Col, lvl: nat, addr: LogicAddr): Col
  {
    if addr == EMPTY_ADDR || lvl >= |c.rp| then c else c.(rp := c.rp[lvl := addr])
  }

  /** The open node of level `lvl` was committed at `addr` and its summary pushed to the parent. */
  ghost predicate Committed(a: Col, b: Col, lvl: nat, addr: LogicAddr)
  {
    && ColOk(a) && ColOk(b)
    && a.st <= b.st && addr == At(|a.st|) && OnLevel(b.st, addr, lvl)
    && lvl < |a.ext| <= |b.ext| && lvl + 1 < |b.ext|
    && SameBelow(a, b, lvl) && b.rp[lvl] == a.rp[lvl]
    && b.ext[lvl] == Reset(a.ext[lvl], addr)
    && Grown(a, b, lvl + 1) && (|b.ext| > |a.ext| <==> FullFrom(a, lvl + 1))
    && (Busy(a) ==> Busy(b)) && (Rescuable(a.st, a.rp, -1) ==> Rescuable(b.st, b.rp, lvl))
    && (HasRoom(a, lvl + 1) ==> OneMore(a, b, lvl + 1))
  }

  /** Level `lvl` gained one reference and nothing above it changed. */
  ghost predicate OneMore(a: Col, b: Col, lvl: nat)
  {
    && lvl < |a.ext| == |b.ext|
    && |Refs(b.ext[lvl])| == |Refs(a.ext[lvl])| + 1 && BackLink(b.ext[lvl]) == BackLink(a.ext[lvl]) && b.rp == a.rp
    && forall k :: lvl < k < |a.ext| ==> b.ext[k] == a.ext[k]
  }

  ghost predicate CommittedContents(a: Col, b: Col, lvl: nat)
  {
    ContentsFrom(b.st, b.ext, lvl + 1) == ContentsFrom(a.st, a.ext, lvl)
  }

  ghost predicate CommittedAligned(a: Col, b: Col, lvl: nat, addr: LogicAddr)
    requires |a.rp| == |a.ext| && |b.rp| == |b.ext|
  {
    forall r: nat {:trigger AlignedFrom(a, lvl, r)} {:trigger AlignedFrom(WithRescue(b, lvl, addr), lvl, r)} ::
      AlignedFrom(a, lvl, r) && (r == 0 || |b.ext| == |a.ext|) ==> AlignedFrom(WithRescue(b, lvl, addr), lvl, r)
  }

  /** `b` is the block written for the open node of level `lvl`. */
  ghost predicate Writes(c: Col, lvl: nat, b: Block)
  {
    && lvl < |c.ext|
    && b.meta.level == lvl && b.meta.fanoutIndex == NodeIndex(c.ext[lvl])
    && b.meta.addr == BackLink(c.ext[lvl])
    && StoreOk(c.st + [b])
    && PointsAt(c.st + [b], |c.st|) == OwnPoints(c.st, c.ext[lvl])
  }

  /** The written node of an aligned level points back at what its parent has collected in the session; the back-link
      is cut when that is 32 references. */
  lemma AlignedBackLink(st: seq<Block>, child: Extent, rescue: LogicAddr, parent: Extent, r: nat)
    requires Aligned(st, child, rescue, parent, r)
    ensures r <= |Refs(parent)| <= FANOUT
    ensures ChainFrom(st, BackLink(child)) == if |Refs(parent)| - r < FANOUT then Refs(parent)[r..] else []
  {
    assert |Refs(parent)| > r ==> BackLink(child) == if |Refs(parent)| - r < FANOUT then rescue else EMPTY_ADDR;
  }

  /** ... which is what stays there, unless it is the full copy of a root. */
  lemma BackLinkChain(a: Col, lvl: nat, r: nat)
    requires |a.rp| == |a.ext| && lvl < |a.ext| && AlignedFrom(a, lvl, r) && (r == 0 || !FullFrom(a, lvl + 1))
    ensures ChainFrom(a.st, BackLink(a.ext[lvl])) == KeptSince(a, lvl + 1, r)
  {
    hide Aligned, TopAligned, ChainFrom;
    if lvl + 1 < |a.ext| {
      assert AlignedAt(a, lvl, r);
      AlignedBackLink(a.st, a.ext[lvl], a.rp[lvl], a.ext[lvl + 1], Skip(a, lvl + 1, r));
    } else {
      TopBackLink(a.st, a.ext[lvl], a.rp[lvl], r);
    }
  }

  lemma TopBackLink(st: seq<Block>, e: Extent, rescue: LogicAddr, r: nat)
    requires TopAligned(st, e, rescue, r)
    ensures BackLink(e) == EMPTY_ADDR && ChainFrom(st, BackLink(e)) == []
  {
  }

  lemma FitsAfterWrite(a: Col, lvl: nat, b: Block, r: nat)
    requires ColOk(a) && Writes(a, lvl, b) && AlignedFrom(a, lvl, r) && (r == 0 || !FullFrom(a, lvl + 1))
    ensures Fits(a.(st := a.st + [b]), lvl + 1, RefTo(a.st + [b], |a.st|), r)
  {
    hide AlignedFrom, StoreOk, FullFrom;
    assert ExtentOk(a.st, a.ext[lvl], lvl);
    BackLinkChain(a, lvl, r);
    ChainExtended(a.st, b);
  }

  lemma AlignedExtend(c: Col, k: nat, r: nat)
    requires |c.rp| == |c.ext| && AlignedAt(c, k, r) && AlignedFrom(c, k + 1, r)
    ensures AlignedFrom(c, k, r)
  {
  }

  lemma AlignedSame(c: Col, d: Col, k: nat, r: nat)
    requires |c.rp| == |c.ext| == |d.rp| == |d.ext| && c.st == d.st && AlignedFrom(c, k, r)
    requires forall i :: k <= i < |c.ext| ==> d.ext[i] == c.ext[i] && d.rp[i] == c.rp[i]
    ensures AlignedFrom(d, k, r)
  {
    forall i | k <= i < |d.ext| - 1
      ensures AlignedAt(d, i, r)
    {
      assert AlignedAt(c, i, r);
    }
  }

  /** A level whose node was written at `addr`, reset, and whose parent now collects `refs`, is aligned
      with the new rescue point `addr`. `before` are the parent's references before the push. */
  lemma AlignedChild(st: seq<Block>, e: Extent, before: seq<SubtreeRef>, pl: SubtreeRef, addr: LogicAddr,
                     parent: Extent, r: nat)
    requires r <= |before| <= FANOUT && e.fanoutIndex == NextIndex(|before| - r) && addr != EMPTY_ADDR
    requires |before| == FANOUT ==> r == 0
    requires Refs(parent) == (if |before| < FANOUT then before else []) + [pl]
    requires ChainFrom(st, addr) == Refs(parent)[r..]
    ensures Aligned(st, Reset(e, addr), addr, parent, r)
  {
  }

  lemma ChainAtNewNode(a: Col, lvl: nat, b: Block, st: seq<Block>, r: nat)
    requires ColOk(a) && Writes(a, lvl, b) && AlignedFrom(a, lvl, r) && a.st + [b] <= st
    requires r == 0 || !FullFrom(a, lvl + 1)
    ensures ChainFrom(st, At(|a.st|)) == KeptSince(a, lvl + 1, r) + [RefTo(a.st + [b], |a.st|)]
  {
    hide AlignedFrom, StoreOk, FullFrom;
    FitsAfterWrite(a, lvl, b, r);
    var st' := a.st + [b];
    assert st == st' + st[|st'|..];
    ChainGrow(st', st[|st'|..], At(|a.st|));
  }

  /** The references level `k` has collected, if it exists. */
  function CollectedRefs(c: Col, k: nat): seq<SubtreeRef>
  {
    if k < |c.ext| then Refs(c.ext[k]) else []
  }

  /** A child's next index counts what its parent has collected in the session. */
  lemma IndexCounts(a: Col, lvl: nat, r: nat)
    requires |a.rp| == |a.ext| && lvl < |a.ext| && AlignedFrom(a, lvl, r) && (r == 0 || lvl + 1 < |a.ext|)
    ensures var refs, skip := CollectedRefs(a, lvl + 1), Skip(a, lvl + 1, r);
            && skip <= |refs| <= FANOUT && a.ext[lvl].fanoutIndex == NextIndex(|refs| - skip)
            && Kept(a, lvl + 1) == if |refs| < FANOUT then refs else []
  {
    if lvl + 1 < |a.ext| {
      assert AlignedAt(a, lvl, r);
    }
  }

  /** After the push, resetting the child and moving its rescue point restores the alignment. */
  lemma AlignedAfterReset(a: Col, lvl: nat, b: Block, c: Col, r: nat)
    requires ColOk(a) && Writes(a, lvl, b) && AlignedFrom(a, lvl, r)
    requires r == 0 || (|c.ext| == |a.ext| && !FullFrom(a, lvl + 1))
    requires |c.rp| == |c.ext| && lvl + 1 < |c.ext| && a.st + [b] <= c.st && AlignedFrom(c, lvl + 1, r)
    requires Refs(c.ext[lvl + 1]) == Kept(a, lvl + 1) + [RefTo(a.st + [b], |a.st|)]
    ensures var addr := At(|a.st|);
            AlignedFrom(c.(ext := c.ext[lvl := Reset(a.ext[lvl], addr)], rp := c.rp[lvl := addr]), lvl, r)
  {
    hide AlignedFrom, StoreOk, Aligned;
    var addr, skip := At(|a.st|), Skip(a, lvl + 1, r);
    var d := c.(ext := c.ext[lvl := Reset(a.ext[lvl], addr)], rp := c.rp[lvl := addr]);
    ChainAtNewNode(a, lvl, b, c.st, r);
    IndexCounts(a, lvl, r);
    assert skip > 0 ==> HasRoom(a, lvl + 1);
    AlignedChild(c.st, a.ext[lvl], CollectedRefs(a, lvl + 1), RefTo(a.st + [b], |a.st|), addr, c.ext[lvl + 1], skip);
    AlignedSame(c, d, lvl + 1, r);
    AlignedExtend(d, lvl, r);
  }

  lemma ColOkReset(a: Col, lvl: nat, c: Col, addr: LogicAddr)
    requires ColOk(a) && ColOk(c) && lvl < |a.ext| && lvl < |c.ext|
    requires LinkOk(c.st, addr, |c.st|, lvl, NodeIndex(a.ext[lvl]) + 1)
    ensures ColOk(c.(ext := c.ext[lvl := Reset(a.ext[lvl], addr)]))
  {
    var d := c.(ext := c.ext[lvl := Reset(a.ext[lvl], addr)]);
    assert ExtentOk(a.st, a.ext[lvl], lvl);
    assert ExtentOk(d.st, d.ext[lvl], lvl);
    forall i | 0 <= i < |d.ext|
      ensures ExtentOk(d.st, d.ext[i], i)
    {
      assert i != lvl ==> ExtentOk(c.st, c.ext[i], i);
    }
  }

  lemma CommitShape(a: Col, lvl: nat, b: Block, c: Col, d: Col)
    requires ColOk(a) && Writes(a, lvl, b)
    requires Pushed(a.(st := a.st + [b]), c, lvl + 1, RefTo(a.st + [b], |a.st|))
    requires d == c.(ext := c.ext[lvl := Reset(a.ext[lvl], At(|a.st|))])
    ensures a.st <= d.st && |d.rp| == |d.ext| && OnLevel(d.st, At(|a.st|), lvl) && c.st[..|a.st| + 1] == a.st + [b]
    ensures lvl < |a.ext| <= |d.ext| && lvl + 1 < |d.ext| && SameBelow(a, d, lvl) && d.rp[lvl] == a.rp[lvl]
  {
    hide Rescuable, FullFrom, StoreOk, ExtentOk, NewTop, AddRef, Reset;
    assert c.st[..|a.st| + 1] == a.st + [b];
  }

  lemma CommitGrowth(a: Col, lvl: nat, b: Block, c: Col, d: Col)
    requires ColOk(a) && Writes(a, lvl, b)
    requires Pushed(a.(st := a.st + [b]), c, lvl + 1, RefTo(a.st + [b], |a.st|))
    requires d == c.(ext := c.ext[lvl := Reset(a.ext[lvl], At(|a.st|))])
    ensures Grown(a, d, lvl + 1) && (|d.ext| > |a.ext| <==> FullFrom(a, lvl + 1))
    ensures (Busy(a) ==> Busy(d)) && (HasRoom(a, lvl + 1) ==> OneMore(a, d, lvl + 1))
  {
    hide Rescuable, FullFrom, StoreOk, ExtentOk, NewTop, Reset;
    FullSame(a, a.(st := a.st + [b]), lvl + 1);
  }

  /** Writing the node, pushing its summary and resetting the extent amounts to `Committed`. */
  lemma CommitSteps(a: Col, lvl: nat, b: Block, c: Col)
    requires ColOk(a) && Writes(a, lvl, b)
    requires Pushed(a.(st := a.st + [b]), c, lvl + 1, RefTo(a.st + [b], |a.st|))
    ensures Committed(a, c.(ext := c.ext[lvl := Reset(a.ext[lvl], At(|a.st|))]), lvl, At(|a.st|))
  {
    hide Rescuable, FullFrom, StoreOk, Grown, OneMore, Busy, Reset, SameBelow;
    var d := c.(ext := c.ext[lvl := Reset(a.ext[lvl], At(|a.st|))]);
    CommitShape(a, lvl, b, c, d);
    CommitGrowth(a, lvl, b, c, d);
    ColOkReset(a, lvl, c, At(|a.st|));
    if Rescuable(a.st, a.rp, -1) {
      RescuableGrow(a.st, [b], a.rp, -1);
    }
  }

  lemma CommitContents(a: Col, lvl: nat, b: Block, c: Col)
    requires ColOk(a) && Writes(a, lvl, b) && lvl < |c.ext|
    requires PushedContents(a.(st := a.st + [b]), c, lvl + 1, RefTo(a.st + [b], |a.st|))
    ensures CommittedContents(a, c.(ext := c.ext[lvl := Reset(a.ext[lvl], At(|a.st|))]), lvl)
  {
    var own := OwnPoints(a.st, a.ext[lvl]);
    var e := Reset(a.ext[lvl], At(|a.st|));
    assert ContentsFrom(a.st + [b], a.ext, lvl + 1) == ContentsFrom(a.st, a.ext, lvl + 1) by {
      ContentsGrow(a.st, [b], a.ext, lvl + 1);
    }
    assert ContentsFrom(c.st, c.ext, lvl + 1) == ContentsFrom(a.st, a.ext, lvl + 1) + own;
    assert ContentsFrom(c.st, c.ext[lvl := e], lvl + 1) == ContentsFrom(c.st, c.ext, lvl + 1) by {
      ContentsSame(c.st, c.ext, c.ext[lvl := e], lvl + 1);
    }
    assert ContentsFrom(a.st, a.ext, lvl) == ContentsFrom(a.st, a.ext, lvl + 1) + own;
  }

  lemma CommitAligned(a: Col, lvl: nat, b: Block, c: Col)
    requires ColOk(a) && Writes(a, lvl, b)
    requires var a1, pl := a.(st := a.st + [b]), RefTo(a.st + [b], |a.st|);
             Pushed(a1, c, lvl + 1, pl) && PushedAligned(a1, c, lvl + 1, pl)
    ensures CommittedAligned(a, c.(ext := c.ext[lvl := Reset(a.ext[lvl], At(|a.st|))]), lvl, At(|a.st|))
  {
    hide AlignedFrom, StoreOk, Fits;
    var d := c.(ext := c.ext[lvl := Reset(a.ext[lvl], At(|a.st|))]);
    forall r: nat | AlignedFrom(a, lvl, r) && (r == 0 || |d.ext| == |a.ext|)
      ensures AlignedFrom(WithRescue(d, lvl, At(|a.st|)), lvl, r)
    {
      CommitAlignedBy(a, lvl, b, c, r);
    }
  }

  lemma CommitAlignedBy(a: Col, lvl: nat, b: Block, c: Col, r: nat)
    requires ColOk(a) && Writes(a, lvl, b) && AlignedFrom(a, lvl, r) && (r == 0 || |c.ext| == |a.ext|)
    requires var a1, pl := a.(st := a.st + [b]), RefTo(a.st + [b], |a.st|);
             Pushed(a1, c, lvl + 1, pl) && PushedAligned(a1, c, lvl + 1, pl)
    ensures AlignedFrom(c.(ext := c.ext[lvl := Reset(a.ext[lvl], At(|a.st|))], rp := c.rp[lvl := At(|a.st|)]), lvl, r)
  {
    hide StoreOk, Fits, Aligned, TopAligned, FullFrom;
    FullSame(a, a.(st := a.st + [b]), lvl + 1);
    FitsAfterWrite(a, lvl, b, r);
    AlignedGrow(a, b, lvl, r);
    assert c.st[..|a.st| + 1] == a.st + [b];
    AlignedAfterReset(a, lvl, b, c, r);
  }

  /** The open node of level `lvl` was only written to the store: the last step of closing a column. */
  ghost predicate Stored(a: Col, b: Col, lvl: nat, addr: LogicAddr)
  {
    && ColOk(b)
    && a.st <= b.st && addr == At(|a.st|) && |b.st| == |a.st| + 1
    && lvl < |a.ext|
    && b.ext == a.ext[lvl := Reset(a.ext[lvl], addr)] && b.rp == a.rp
    && PointsAt(b.st, |a.st|) == OwnPoints(a.st, a.ext[lvl])
    && b.st[|a.st|].meta.level == lvl && b.st[|a.st|].meta.fanoutIndex == NodeIndex(a.ext[lvl])
  }

  lemma StoreSteps(a: Col, lvl: nat, b: Block)
    requires ColOk(a) && Writes(a, lvl, b)
    ensures Stored(a, a.(st := a.st + [b], ext := a.ext[lvl := Reset(a.ext[lvl], At(|a.st|))]), lvl, At(|a.st|))
  {
    ColGrow(a, b);
    ColOkReset(a, lvl, a.(st := a.st + [b]), At(|a.st|));
  }

  lemma CommitAll(a: Col, lvl: nat, b: Block, c: Col, d: Col)
    requires ColOk(a) && Writes(a, lvl, b)
    requires var a1, pl := a.(st := a.st + [b]), RefTo(a.st + [b], |a.st|);
             Pushed(a1, c, lvl + 1, pl) && PushedContents(a1, c, lvl + 1, pl) && PushedAligned(a1, c, lvl + 1, pl)
    requires d == c.(ext := c.ext[lvl := Reset(c.ext[lvl], At(|a.st|))])
    ensures Committed(a, d, lvl, At(|a.st|)) && CommittedContents(a, d, lvl) && CommittedAligned(a, d, lvl, At(|a.st|))
  {
    assert SameBelow(a.(st := a.st + [b]), c, lvl + 1);
    CommitSteps(a, lvl, b, c);
    CommitContents(a, lvl, b, c);
    CommitAligned(a, lvl, b, c);
  }

  lemma ContentsAddRef(st: seq<Block>, ext: seq<Extent>, lvl: nat, pl: SubtreeRef)
    requires lvl < |ext| && ext[lvl].SBlockExtent? && pl.addr.At? && pl.addr.ix < |st|
    ensures ContentsFrom(st, ext[lvl := AddRef(ext[lvl], pl)], lvl) ==
            ContentsFrom(st, ext, lvl) + PointsAt(st, pl.addr.ix)
  {
    var ext' := ext[lvl := AddRef(ext[lvl], pl)];
    var refs, more := Refs(ext[lvl]), PointsAt(st, pl.addr.ix);
    assert OwnPoints(st, ext'[lvl]) == OwnPoints(st, ext[lvl]) + more by {
      PointsOfSplit(st, refs, [pl], |st|);
      PointsOfOne(st, pl, |st|);
      assert PointsUnder(st, pl, |st|) == more;
    }
    ContentsSame(st, ext, ext', lvl + 1);
    var up, own := ContentsFrom(st, ext, lvl + 1), OwnPoints(st, ext[lvl]);
    assert up + (own + more) == (up + own) + more;
  }

  lemma AlignedAddRef(c: Col, lvl: nat, pl: SubtreeRef, r: nat)
    requires |c.rp| == |c.ext| && lvl < |c.ext| && c.ext[lvl].SBlockExtent? && AlignedFrom(c, lvl, r)
    ensures AlignedFrom(c.(ext := c.ext[lvl := AddRef(c.ext[lvl], pl)]), lvl, r)
  {
    var d := c.(ext := c.ext[lvl := AddRef(c.ext[lvl], pl)]);
    forall i | lvl <= i < |d.ext| - 1
      ensures AlignedAt(d, i, r)
    {
      assert AlignedAt(c, i, r);
    }
    var refs := Refs(c.ext[lvl]);
    assert r <= |refs| ==> (refs + [pl])[..r] == refs[..r];
  }

  /** Adding a reference to the open superblock of level `lvl`. */
  lemma AddRefStep(a: Col, lvl: nat, pl: SubtreeRef)
    requires ColOk(a) && 1 <= lvl && HasRoom(a, lvl) && RefOk(a.st, pl, lvl - 1, |a.st|)
    ensures Pushed(a, a.(ext := a.ext[lvl := AddRef(a.ext[lvl], pl)]), lvl, pl)
  {
    assert ExtentOk(a.st, a.ext[lvl], lvl);
    var b := a.(ext := a.ext[lvl := AddRef(a.ext[lvl], pl)]);
    var refs := Refs(a.ext[lvl]);
    assert ExtentOk(b.st, b.ext[lvl], lvl) by {
      forall j | 0 <= j < |refs + [pl]|
        ensures RefOk(a.st, (refs + [pl])[j], lvl - 1, |a.st|)
      {
        assert j < |refs| ==> RefOk(a.st, refs[j], lvl - 1, |a.st|);
      }
    }
    forall i | 0 <= i < |b.ext|
      ensures ExtentOk(b.st, b.ext[i], i)
    {
      assert i != lvl ==> ExtentOk(a.st, a.ext[i], i);
    }
  }

  lemma AddRefMore(a: Col, lvl: nat, pl: SubtreeRef)
    requires |a.rp| == |a.ext| && HasRoom(a, lvl) && pl.addr.At? && pl.addr.ix < |a.st|
    ensures PushedContents(a, a.(ext := a.ext[lvl := AddRef(a.ext[lvl], pl)]), lvl, pl)
    ensures PushedAligned(a, a.(ext := a.ext[lvl := AddRef(a.ext[lvl], pl)]), lvl, pl)
  {
    hide AlignedFrom;
    ContentsAddRef(a.st, a.ext, lvl, pl);
    forall r: nat | AlignedFrom(a, lvl, r)
      ensures AlignedFrom(a.(ext := a.ext[lvl := AddRef(a.ext[lvl], pl)]), lvl, r)
    {
      AlignedAddRef(a, lvl, pl, r);
    }
  }

  lemma WithRescueOk(c: Col, lvl: nat, addr: LogicAddr)
    requires ColOk(c) && OnLevel(c.st, addr, lvl)
    ensures ColOk(WithRescue(c, lvl, addr)) && Contents(WithRescue(c, lvl, addr)) == Contents(c)
    ensures Busy(c) ==> Busy(WithRescue(c, lvl, addr))
  {
    var d := WithRescue(c, lvl, addr);
    forall i | 0 <= i < |d.rp|
      ensures OnLevel(d.st, d.rp[i], i)
    {
      assert OnLevel(c.st, c.rp[i], i);
    }
  }

  lemma CommittedHasRoom(a: Col, c: Col, lvl: nat, pl: SubtreeRef, addr: LogicAddr)
    requires Committed(a, c, lvl, addr) && 1 <= lvl && RefOk(a.st, pl, lvl - 1, |a.st|)
    ensures HasRoom(c, lvl) && Refs(c.ext[lvl]) == [] && RefOk(c.st, pl, lvl - 1, |c.st|)
  {
    assert ExtentOk(a.st, a.ext[lvl], lvl);
    assert c.st[pl.addr.ix] == a.st[pl.addr.ix];
  }

  /** A full superblock is committed first; the reference then lands in the fresh node. */
  lemma CommitThenAdd(a: Col, c: Col, d: Col, lvl: nat, pl: SubtreeRef, addr: LogicAddr)
    requires Committed(a, c, lvl, addr) && 1 <= lvl && !HasRoom(a, lvl) && RefOk(a.st, pl, lvl - 1, |a.st|)
    requires Refs(c.ext[lvl]) == [] && HasRoom(c, lvl) && Pushed(c, d, lvl, pl)
    ensures Pushed(a, WithRescue(d, lvl, addr), lvl, pl)
  {
    hide Rescuable, StoreOk, ExtentOk, Busy;
    WithRescueOk(d, lvl, addr);
    if Rescuable(a.st, a.rp, -1) {
      RescuableSet(d.st, d.rp, lvl, addr, lvl - 1);
    }
  }

  lemma CommitThenAddMore(a: Col, c: Col, lvl: nat, pl: SubtreeRef, addr: LogicAddr)
    requires |a.rp| == |a.ext| && |c.rp| == |c.ext| && CommittedContents(a, c, lvl) && CommittedAligned(a, c, lvl, addr)
    requires a.st <= c.st && pl.addr.At? && pl.addr.ix < |a.st| && HasRoom(c, lvl) && Refs(c.ext[lvl]) == []
    ensures var d := c.(ext := c.ext[lvl := AddRef(c.ext[lvl], pl)]);
            PushedContents(a, WithRescue(d, lvl, addr), lvl, pl) && PushedAligned(a, WithRescue(d, lvl, addr), lvl, pl)
  {
    hide PointsAt, AlignedFrom, CommittedAligned, PushedAligned;
    ContentsAddRef(c.st, c.ext, lvl, pl);
    EmptyLevel(c, lvl);
    assert c.st == a.st + c.st[|a.st|..];
    PointsAtGrow(a.st, c.st[|a.st|..], pl.addr.ix);
    CommitThenAddAligned(a, c, lvl, pl, addr);
  }

  lemma CommitThenAddAligned(a: Col, c: Col, lvl: nat, pl: SubtreeRef, addr: LogicAddr)
    requires |a.rp| == |a.ext| && |c.rp| == |c.ext| && CommittedAligned(a, c, lvl, addr) && HasRoom(c, lvl)
    ensures PushedAligned(a, WithRescue(c.(ext := c.ext[lvl := AddRef(c.ext[lvl], pl)]), lvl, addr), lvl, pl)
  {
    hide AlignedFrom;
    var e := WithRescue(c, lvl, addr);
    forall r: nat | AlignedFrom(e, lvl, r)
      ensures AlignedFrom(e.(ext := e.ext[lvl := AddRef(e.ext[lvl], pl)]), lvl, r)
    {
      AlignedAddRef(e, lvl, pl, r);
    }
  }

  lemma EmptyLevel(c: Col, lvl: nat)
    requires lvl < |c.ext| && c.ext[lvl].SBlockExtent? && Refs(c.ext[lvl]) == []
    ensures ContentsFrom(c.st, c.ext, lvl) == ContentsFrom(c.st, c.ext, lvl + 1)
  {
    assert OwnPoints(c.st, c.ext[lvl]) == [];
  }

  lemma NewLevelOk(a: Col)
    requires ColOk(a) && |a.ext| >= 1
    ensures ColOk(WithNewLevel(a)) && HasRoom(WithNewLevel(a), |a.ext|)
  {
    var c := WithNewLevel(a);
    forall i | 0 <= i < |c.ext|
      ensures ExtentOk(c.st, c.ext[i], i) && OnLevel(c.st, c.rp[i], i)
    {
      assert i < |a.ext| ==> ExtentOk(a.st, a.ext[i], i) && OnLevel(a.st, a.rp[i], i);
    }
  }

  lemma NewLevel(a: Col, b: Col, pl: SubtreeRef)
    requires ColOk(a) && |a.ext| >= 1
    requires Pushed(WithNewLevel(a), b, |a.ext|, pl)
    requires PushedContents(WithNewLevel(a), b, |a.ext|, pl) && PushedAligned(WithNewLevel(a), b, |a.ext|, pl)
    ensures Pushed(a, b, |a.ext|, pl) && PushedContents(a, b, |a.ext|, pl) && PushedAligned(a, b, |a.ext|, pl)
  {
    var c := WithNewLevel(a);
    assert b == NewTop(a, pl) by {
      assert b.ext == a.ext + [AddRef(NewSBlockExtent(|a.ext|), pl)];
    }
    assert ContentsFrom(c.st, c.ext, |a.ext|) == [] == ContentsFrom(a.st, a.ext, |a.ext|) by {
      assert ContentsFrom(c.st, c.ext, |a.ext| + 1) == [] && OwnPoints(c.st, c.ext[|a.ext|]) == [];
    }
    assert Kept(c, |a.ext|) == [] == Kept(a, |a.ext|);
    assert AlignedFrom(c, |a.ext|, 0);
    assert AlignedFrom(a, |a.ext|, 0);
  }
}
