/** What a list of rescue points stands for, and why the points of every committed leaf can be rebuilt
    from it. */
module Recovery {
  import opened Aggregation
  import opened TreeStore
  import opened Column
  import Scan

  // ---- Which way to start ------------------------------------------------------------------------

  function CountAddresses(rp: seq<LogicAddr>): nat
  {
    if rp == [] then 0 else CountAddresses(rp[..|rp| - 1]) + if rp[|rp| - 1] == EMPTY_ADDR then 0 else 1
  }

  /** `repair_status` is OK. */
  predicate RepairStatusOk(rp: seq<LogicAddr>)
  {
    rp != [] && CountAddresses(rp) == 1 && rp[|rp| - 1] != EMPTY_ADDR
  }

  /** [E, E, .., root]: the form `close` leaves behind. */
  predicate IsClosed(rp: seq<LogicAddr>)
  {
    rp != [] && rp[|rp| - 1] != EMPTY_ADDR && forall i :: 0 <= i < |rp| - 1 ==> rp[i] == EMPTY_ADDR
  }

  lemma {:induction false} NoAddresses(rp: seq<LogicAddr>)
    ensures CountAddresses(rp) == 0 <==> forall i :: 0 <= i < |rp| ==> rp[i] == EMPTY_ADDR
  {
    if rp != [] {
      var n := |rp| - 1;
      NoAddresses(rp[..n]);
      if CountAddresses(rp[..n]) != 0 {
        var i :| 0 <= i < n && rp[..n][i] != EMPTY_ADDR;
        assert rp[i] != EMPTY_ADDR;
      }
    }
  }

  /** The count in `repair_status` recognises exactly the lists left by `close`. */
  lemma RepairStatusMeaning(rp: seq<LogicAddr>)
    ensures RepairStatusOk(rp) <==> IsClosed(rp)
  {
    if rp != [] {
      var n := |rp| - 1;
      NoAddresses(rp[..n]);
      if IsClosed(rp) {
        assert forall i :: 0 <= i < n ==> rp[..n][i] == EMPTY_ADDR;
      }
      if RepairStatusOk(rp) {
        assert forall i :: 0 <= i < n ==> rp[i] == rp[..n][i] == EMPTY_ADDR;
      }
    }
  }

  // ---- What the rescue points hold ---------------------------------------------------------------

  /** The points reached from the rescue points of level `k` and above, top level first. */
  ghost function ChainContents(st: seq<Block>, rp: seq<LogicAddr>, k: nat): seq<Point>
    decreases |rp| - k
  {
    if k >= |rp| then [] else ChainContents(st, rp, k + 1) + PointsOf(st, ChainFrom(st, rp[k]), |st|)
  }

  /** The contents a column has after `init` from these rescue points. */
  ghost function Recovered(st: seq<Block>, rp: seq<LogicAddr>): seq<Point>
  {
    if IsClosed(rp) then (if rp[|rp| - 1].At? then PointsAt(st, rp[|rp| - 1].ix) else []) else ChainContents(st, rp, 0)
  }

  /** A crashed column can be rebuilt: every rescue point is a node of its level, and the top level gets a node. */
  ghost predicate RescueOk(st: seq<Block>, rp: seq<LogicAddr>)
  {
    && StoreOk(st) && rp != []
    && (|rp| >= 2 && rp[|rp| - 1] == EMPTY_ADDR ==> rp[|rp| - 2] != EMPTY_ADDR)
    && (forall i {:trigger OnLevel(st, rp[i], i)} :: 0 <= i < |rp| ==> OnLevel(st, rp[i], i))
  }

  /** A closed column can be opened: the last address is a node of the top level, over sorted points. */
  ghost predicate ClosedOk(st: seq<Block>, rp: seq<LogicAddr>)
  {
    StoreOk(st) && IsClosed(rp) && RootOk(st, rp[|rp| - 1], |rp| - 1)
  }

  /** The rescue points a column may be started from. */
  ghost predicate Startable(st: seq<Block>, rp: seq<LogicAddr>)
  {
    if rp == [] then StoreOk(st) else if IsClosed(rp) then ClosedOk(st, rp) else RescueOk(st, rp)
  }

  /** In every session, at any time: the rescue points of a column can be started from. */
  lemma AnyCrashCanStart(c: Col)
    requires ColOk(c) && Rescuable(c.st, c.rp, -1)
    ensures Startable(c.st, c.rp)
  {
  }

  /** The chain below an aligned parent holds what the parent has collected in the session. */
  lemma ChainPoints(st: seq<Block>, child: Extent, rescue: LogicAddr, parent: Extent, r: nat)
    requires Aligned(st, child, rescue, parent, r) && parent.SBlockExtent?
    ensures r <= |Refs(parent)| && PointsOf(st, ChainFrom(st, rescue), |st|) == PointsOf(st, Refs(parent)[r..], |st|)
    ensures OwnPoints(st, parent) == PointsOf(st, Refs(parent)[..r], |st|) + PointsOf(st, ChainFrom(st, rescue), |st|)
  {
    hide PointsOf, ChainFrom;
    var refs := Refs(parent);
    assert refs == refs[..r] + refs[r..];
    PointsOfSplit(st, refs[..r], refs[r..], |st|);
  }

  /** What the top level can rescue: the root of a reopened column. */
  lemma TopChain(c: Col, r: nat)
    requires ColOk(c) && |c.ext| > 0 && AlignedFrom(c, 0, r)
    ensures var top := |c.ext| - 1;
            && ChainContents(c.st, c.rp, top) == (if r == 0 then [] else PointsOf(c.st, Refs(c.ext[top])[..r], |c.st|))
            && (r > 0 ==> top > 0)
  {
    hide PointsOf, ChainFrom;
    var top := |c.ext| - 1;
    assert ExtentOk(c.st, c.ext[top], top);
    NoPoints(c.st);
    assert ChainContents(c.st, c.rp, top + 1) == [];
    if r == 0 {
      assert c.rp[top] == EMPTY_ADDR;
      NoChain(c.st);
    }
  }

  lemma NoChain(st: seq<Block>)
    ensures ChainFrom(st, EMPTY_ADDR) == []
  {
  }

  lemma NoPoints(st: seq<Block>)
    ensures PointsOf(st, [], |st|) == []
  {
  }

  lemma {:induction false} ChainsHoldTheLevels(c: Col, k: nat, r: nat)
    requires ColOk(c) && AlignedFrom(c, 0, r) && k + 1 < |c.ext|
    ensures ChainContents(c.st, c.rp, k) == ContentsFrom(c.st, c.ext, k + 1)
    decreases |c.ext| - k
  {
    hide PointsOf, ChainFrom, StoreOk;
    var here, skip := PointsOf(c.st, ChainFrom(c.st, c.rp[k]), |c.st|), Skip(c, k + 1, r);
    assert ChainContents(c.st, c.rp, k) == ChainContents(c.st, c.rp, k + 1) + here;
    assert AlignedAt(c, k, r) && ExtentOk(c.st, c.ext[k + 1], k + 1);
    ChainPoints(c.st, c.ext[k], c.rp[k], c.ext[k + 1], skip);
    assert ContentsFrom(c.st, c.ext, k + 1) == ContentsFrom(c.st, c.ext, k + 2) + OwnPoints(c.st, c.ext[k + 1]);
    NoPoints(c.st);
    if k + 2 < |c.ext| {
      ChainsHoldTheLevels(c, k + 1, r);
      assert Refs(c.ext[k + 1])[..0] == [];
    } else {
      TopChain(c, r);
      assert ContentsFrom(c.st, c.ext, k + 2) == [];
      assert r == 0 ==> Refs(c.ext[k + 1])[..0] == [];
    }
  }

  lemma {:induction false} ChainsOfRoot(st: seq<Block>, rp: seq<LogicAddr>, k: nat)
    requires StoreOk(st) && IsClosed(rp) && RootOk(st, rp[|rp| - 1], |rp| - 1) && k < |rp|
    ensures ChainContents(st, rp, k) == Recovered(st, rp)
    decreases |rp| - k
  {
    hide PointsOf, PointsAt;
    if k < |rp| - 1 {
      ChainsOfRoot(st, rp, k + 1);
      NoPoints(st);
    } else {
      RootChain(st, rp[k].ix);
      assert ChainContents(st, rp, k + 1) == [];
    }
  }

  /** In every session the rescue points hold what their chains hold. */
  lemma SavedIsChains(c: Col)
    requires ColOk(c) && Rescuable(c.st, c.rp, -1)
    ensures Recovered(c.st, c.rp) == ChainContents(c.st, c.rp, 0)
  {
    if IsClosed(c.rp) {
      ChainsOfRoot(c.st, c.rp, 0);
    }
  }

  /** Crash recovery. While a session is aligned, the rescue points alone hold every committed point, in order, once:
      the contents without the open leaf. */
  lemma CrashLosesOnlyTheOpenLeaf(c: Col, r: nat)
    requires ColOk(c) && Rescuable(c.st, c.rp, -1) && AlignedFrom(c, 0, r) && |c.ext| > 0
    ensures Contents(c) == Recovered(c.st, c.rp) + OwnPoints(c.st, c.ext[0])
  {
    hide OwnPoints, PointsOf, ChainFrom;
    SavedIsChains(c);
    if |c.ext| == 1 {
      TopChain(c, r);
      assert ContentsFrom(c.st, c.ext, 1) == [];
    } else {
      ChainsHoldTheLevels(c, 0, r);
    }
  }

  // ---- What a crash right after a commit leaves, in any session ----------------------------------

  /** What the back-links reach from the node that is open on level `lvl`, once it is committed. */
  ghost function NodeChain(a: Col, lvl: nat): seq<Point>
    requires lvl < |a.ext|
  {
    PointsOf(a.st, ChainFrom(a.st, BackLink(a.ext[lvl])), |a.st|) + OwnPoints(a.st, a.ext[lvl])
  }

  /** What the rescue points of level `lvl` and above hold after a reference was pushed to level `lvl`: nothing
      changes while there is room, and a new level has nothing to rescue. A full node is committed: its chain
      replaces the one that was there. */
  ghost function AfterPush(a: Col, lvl: nat): seq<Point>
    decreases |a.ext| - lvl
  {
    if lvl >= |a.ext| then []
    else if HasRoom(a, lvl) then ChainContents(a.st, a.rp, lvl)
    else AfterPush(a, lvl + 1) + NodeChain(a, lvl)
  }

  /** What they hold after the node of level `lvl` itself was committed. */
  ghost function AfterCommit(a: Col, lvl: nat): seq<Point>
    requires lvl < |a.ext|
  {
    AfterPush(a, lvl + 1) + NodeChain(a, lvl)
  }

  ghost predicate PushedSaved(a: Col, b: Col, lvl: nat)
  {
    ChainContents(b.st, b.rp, lvl) == AfterPush(a, lvl)
  }

  ghost predicate CommittedSaved(a: Col, b: Col, lvl: nat, addr: LogicAddr)
  {
    && lvl < |a.ext| && lvl < |b.rp| && ChainContents(b.st, b.rp[lvl := addr], lvl) == AfterCommit(a, lvl)
    && PointsOf(b.st, ChainFrom(b.st, addr), |b.st|) == NodeChain(a, lvl)
  }

  lemma {:induction false} ChainContentsSame(st: seq<Block>, rp: seq<LogicAddr>, rp': seq<LogicAddr>, k: nat)
    requires |rp| == |rp'| && forall i :: k <= i < |rp| ==> rp[i] == rp'[i]
    ensures ChainContents(st, rp, k) == ChainContents(st, rp', k)
    decreases |rp| - k
  {
    hide PointsOf, ChainFrom;
    if k < |rp| {
      ChainContentsSame(st, rp, rp', k + 1);
    }
  }

  lemma ChainPointsGrow(st: seq<Block>, more: seq<Block>, a: LogicAddr, level: nat)
    requires StoreOk(st) && OnLevel(st, a, level)
    ensures PointsOf(st + more, ChainFrom(st + more, a), |st + more|) == PointsOf(st, ChainFrom(st, a), |st|)
  {
    hide PointsOf, ChainFrom, StoreOk;
    ChainGrow(st, more, a);
    ChainsOk(st, a, level);
    var refs := ChainFrom(st, a);
    forall j | 0 <= j < |refs|
      ensures refs[j].addr.At? && refs[j].addr.ix < |st|
    {
      assert RefOk(st, refs[j], level, |st|);
    }
    PointsOfGrow(st, more, refs, |st|, |st + more|);
  }

  lemma {:induction false} ChainContentsGrow(st: seq<Block>, more: seq<Block>, rp: seq<LogicAddr>, k: nat)
    requires StoreOk(st) && forall i {:trigger OnLevel(st, rp[i], i)} :: k <= i < |rp| ==> OnLevel(st, rp[i], i)
    ensures ChainContents(st + more, rp, k) == ChainContents(st, rp, k)
    decreases |rp| - k
  {
    hide PointsOf, ChainFrom, StoreOk, OnLevel;
    if k < |rp| {
      assert OnLevel(st, rp[k], k);
      ChainContentsGrow(st, more, rp, k + 1);
      ChainPointsGrow(st, more, rp[k], k);
    }
  }

  lemma NodeChainGrow(a: Col, b: Block, lvl: nat)
    requires ColOk(a) && lvl < |a.ext|
    ensures NodeChain(a.(st := a.st + [b]), lvl) == NodeChain(a, lvl)
  {
    hide PointsOf, ChainFrom, StoreOk;
    assert ExtentOk(a.st, a.ext[lvl], lvl);
    ExtentGrow(a.st, [b], a.ext[lvl], lvl);
    ChainPointsGrow(a.st, [b], BackLink(a.ext[lvl]), lvl);
  }

  lemma {:induction false} AfterPushGrow(a: Col, b: Block, lvl: nat)
    requires ColOk(a)
    ensures AfterPush(a.(st := a.st + [b]), lvl) == AfterPush(a, lvl)
    decreases |a.ext| - lvl
  {
    hide NodeChain, ChainContents;
    if lvl < |a.ext| {
      if HasRoom(a, lvl) {
        ChainContentsGrow(a.st, [b], a.rp, lvl);
      } else {
        AfterPushGrow(a, b, lvl + 1);
        NodeChainGrow(a, b, lvl);
      }
    }
  }

  /** The chain of a node that was just written. */
  lemma WrittenChain(a: Col, lvl: nat, b: Block, st: seq<Block>)
    requires ColOk(a) && Writes(a, lvl, b) && a.st + [b] <= st
    ensures PointsOf(st, ChainFrom(st, At(|a.st|)), |st|) == NodeChain(a, lvl)
  {
    hide PointsOf, ChainFrom, StoreOk, PointsAt;
    var st1, n := a.st + [b], |a.st|;
    assert ExtentOk(a.st, a.ext[lvl], lvl);
    ChainExtended(a.st, b);
    var before, ref := ChainFrom(a.st, BackLink(a.ext[lvl])), RefTo(st1, n);
    assert st == st1 + st[|st1|..];
    ChainPointsGrow(st1, st[|st1|..], At(n), lvl);
    PointsOfSplit(st1, before, [ref], |st1|);
    PointsOfOne(st1, ref, |st1|);
    ChainPointsGrow(a.st, [b], BackLink(a.ext[lvl]), lvl);
    ChainGrow(a.st, [b], BackLink(a.ext[lvl]));
  }

  lemma CommitSaved(a: Col, lvl: nat, b: Block, c: Col, d: Col)
    requires ColOk(a) && Writes(a, lvl, b)
    requires Pushed(a.(st := a.st + [b]), c, lvl + 1, RefTo(a.st + [b], |a.st|)) &&
             PushedSaved(a.(st := a.st + [b]), c, lvl + 1)
    requires d.st == c.st && d.rp == c.rp
    ensures CommittedSaved(a, d, lvl, At(|a.st|))
  {
    hide NodeChain, AfterPush, Writes, PointsOf, ChainFrom;
    AfterPushGrow(a, b, lvl + 1);
    WrittenChain(a, lvl, b, c.st);
    ChainContentsSame(d.st, d.rp, d.rp[lvl := At(|a.st|)], lvl + 1);
  }

  lemma NewTopSaved(a: Col, pl: SubtreeRef)
    requires |a.rp| == |a.ext|
    ensures PushedSaved(a, NewTop(a, pl), |a.ext|)
  {
    NoPoints(a.st);
    assert ChainContents(a.st, NewTop(a, pl).rp, |a.rp| + 1) == [];
  }

  lemma RoomSaved(a: Col, lvl: nat, pl: SubtreeRef)
    requires HasRoom(a, lvl)
    ensures PushedSaved(a, a.(ext := a.ext[lvl := AddRef(a.ext[lvl], pl)]), lvl)
  {
  }

  lemma FullSaved(a: Col, d: Col, lvl: nat, addr: LogicAddr)
    requires !HasRoom(a, lvl) && CommittedSaved(a, d, lvl, addr) && addr.At?
    ensures PushedSaved(a, WithRescue(d, lvl, addr), lvl)
  {
  }

  // ---- The extents that repair rebuilds ----------------------------------------------------------

  /** Level `i` once the chains of all levels above `j` have been inserted. */
  ghost function RebuiltExtent(st: seq<Block>, rp: seq<LogicAddr>, j: int, i: nat): Extent
    requires i < |rp|
  {
    if i == 0 then NewLeafExtent()
    else if i - 1 > j then Holding(i, ChainFrom(st, rp[i - 1]))
    else NewSBlockExtent(i)
  }

  function Holding(level: nat, refs: seq<SubtreeRef>): Extent
  {
    SBlockExtent(EMPTY_ADDR, 0, level, OpenSBlock(EMPTY_ADDR, 0, level, refs))
  }

  ghost predicate IsRebuilt(c: Col, j: int)
  {
    |c.ext| == |c.rp| && forall i {:trigger RebuiltExtent(c.st, c.rp, j, i)} :: 0 <= i < |c.ext| ==>
        c.ext[i] == RebuiltExtent(c.st, c.rp, j, i)
  }

  lemma RebuiltOk(c: Col, j: int)
    requires RescueOk(c.st, c.rp) && IsRebuilt(c, j)
    ensures ColOk(c)
  {
    forall i | 0 <= i < |c.ext|
      ensures ExtentOk(c.st, c.ext[i], i)
    {
      assert c.ext[i] == RebuiltExtent(c.st, c.rp, j, i);
      if i > 0 {
        assert OnLevel(c.st, c.rp[i - 1], i - 1);
        ChainsOk(c.st, c.rp[i - 1], i - 1);
      }
    }
  }

  predicate TopEmpty(rp: seq<LogicAddr>)
  {
    rp != [] && rp[|rp| - 1] == EMPTY_ADDR
  }

  /** Repair puts a level on top of a chain that has none above it. */
  function Padded(rp: seq<LogicAddr>): seq<LogicAddr>
  {
    if TopEmpty(rp) then rp else rp + [EMPTY_ADDR]
  }

  lemma {:induction false} PaddedContents(st: seq<Block>, rp: seq<LogicAddr>, k: nat)
    ensures ChainContents(st, Padded(rp), k) == ChainContents(st, rp, k)
    decreases |rp| - k
  {
    hide PointsOf;
    if k < |rp| {
      PaddedContents(st, rp, k + 1);
    } else if k == |rp| && !TopEmpty(rp) {
      assert ChainContents(st, Padded(rp), k + 1) == [];
      assert PointsOf(st, ChainFrom(st, EMPTY_ADDR), |st|) == [] by {
        NoPoints(st);
      }
    }
  }

  lemma RescueShape(st: seq<Block>, rp: seq<LogicAddr>)
    requires RescueOk(st, rp) && !IsClosed(rp)
    ensures StoreOk(st) && rp != []
    ensures if |rp| == 1 then rp[0] == EMPTY_ADDR else rp[|rp| - 1] != EMPTY_ADDR || rp[|rp| - 2] != EMPTY_ADDR
  {
  }

  /** Padded rescue points are still ones to rebuild from, and they hold the same points. */
  lemma PaddedOk(st: seq<Block>, rp: seq<LogicAddr>)
    requires RescueOk(st, rp) && !IsClosed(rp)
    ensures RescueOk(st, Padded(rp)) && Recovered(st, Padded(rp)) == Recovered(st, rp) == ChainContents(st, rp, 0)
  {
    var rp' := Padded(rp);
    PaddedContents(st, rp, 0);
    forall i | 0 <= i < |rp'|
      ensures OnLevel(st, rp'[i], i)
    {
      assert i < |rp| ==> OnLevel(st, rp[i], i);
    }
  }

  lemma {:induction false} RebuiltContents(c: Col, k: nat)
    requires IsRebuilt(c, -1) && k < |c.ext| && TopEmpty(c.rp)
    ensures ChainContents(c.st, c.rp, k) == ContentsFrom(c.st, c.ext, k + 1)
    decreases |c.ext| - k
  {
    if k + 1 < |c.ext| {
      RebuiltContents(c, k + 1);
      assert c.ext[k + 1] == RebuiltExtent(c.st, c.rp, -1, k + 1);
    } else {
      assert ChainFrom(c.st, c.rp[k]) == [];
      assert ChainContents(c.st, c.rp, k + 1) == [];
    }
  }

  /** Repair restores every point the rescue points hold. */
  lemma RebuiltAll(c: Col)
    requires RescueOk(c.st, c.rp) && IsRebuilt(c, -1) && TopEmpty(c.rp)
    ensures Contents(c) == ChainContents(c.st, c.rp, 0) && Busy(c)
  {
    RebuiltContents(c, 0);
    assert c.ext[0] == RebuiltExtent(c.st, c.rp, -1, 0);
    assert ContentsFrom(c.st, c.ext, 0) == ContentsFrom(c.st, c.ext, 1) + [];
    if |c.rp| >= 2 {
      var n := |c.rp| - 1;
      assert c.ext[n] == RebuiltExtent(c.st, c.rp, -1, n);
      assert OnLevel(c.st, c.rp[n - 1], n - 1);
      ChainsOk(c.st, c.rp[n - 1], n - 1);
    }
  }

  lemma RebuiltPair(st: seq<Block>, child: Extent, rescue: LogicAddr, parent: Extent, level: nat)
    requires StoreOk(st) && level >= 1 && OnLevel(st, rescue, level - 1) &&
             parent == Holding(level, ChainFrom(st, rescue))
    requires child.fanoutIndex == 0 && child.last == EMPTY_ADDR && NodeAligned(child)
    ensures Aligned(st, child, rescue, parent, 0) <==> |ChainFrom(st, rescue)| in {0, FANOUT}
  {
    assert Refs(parent)[0..] == Refs(parent);
    ChainsOk(st, rescue, level - 1);
  }

  lemma RepairedLevel(c: Col, i: nat)
    requires RescueOk(c.st, c.rp) && IsRebuilt(c, -1) && i < |c.rp| && TopEmpty(c.rp)
    ensures i < |c.rp| - 1 ==> (AlignedAt(c, i, 0) <==> |ChainFrom(c.st, c.rp[i])| in {0, FANOUT})
    ensures i == |c.rp| - 1 ==> TopAligned(c.st, c.ext[i], c.rp[i], 0)
  {
    assert c.ext[i] == RebuiltExtent(c.st, c.rp, -1, i);
    if i < |c.rp| - 1 {
      assert c.ext[i + 1] == RebuiltExtent(c.st, c.rp, -1, i + 1);
      assert OnLevel(c.st, c.rp[i], i);
      RebuiltPair(c.st, c.ext[i], c.rp[i], c.ext[i + 1], i + 1);
    }
  }

  /** Repair restores the contents but not the indices: the alignment of the first session is back exactly
      when every chain the column was rebuilt from was empty or full. */
  lemma RepairedAlignment(c: Col)
    requires RescueOk(c.st, c.rp) && IsRebuilt(c, -1) && TopEmpty(c.rp)
    ensures AlignedFrom(c, 0, 0) <==> forall i :: 0 <= i < |c.rp| - 1 ==> |ChainFrom(c.st, c.rp[i])| in {0, FANOUT}
  {
    forall i | 0 <= i < |c.rp|
      ensures i < |c.rp| - 1 ==> (AlignedAt(c, i, 0) <==> |ChainFrom(c.st, c.rp[i])| in {0, FANOUT})
      ensures i == |c.rp| - 1 ==> TopAligned(c.st, c.ext[i], c.rp[i], 0)
    {
      RepairedLevel(c, i);
    }
  }

  /** The rescue points a column can be started from with the alignment of a first session: none, a single leaf, or
      a crash that left every chain empty or full. */
  ghost predicate SafeStart(st: seq<Block>, rp: seq<LogicAddr>)
  {
    if IsClosed(rp) then |rp| == 1 else forall i :: 0 <= i < |rp| ==> |ChainFrom(st, rp[i])| in {0, FANOUT}
  }

  lemma RepairedSafe(c: Col, rp: seq<LogicAddr>)
    requires RescueOk(c.st, c.rp) && IsRebuilt(c, -1) && c.rp == Padded(rp) && !IsClosed(rp)
    ensures AlignedFrom(c, 0, 0) <==> SafeStart(c.st, rp)
  {
    RepairedAlignment(c);
    if AlignedFrom(c, 0, 0) {
      forall i | 0 <= i < |rp|
        ensures |ChainFrom(c.st, rp[i])| in {0, FANOUT}
      {
        assert c.rp[i] == rp[i];
      }
    }
  }

  // ---- Following the back-links ------------------------------------------------------------------

  function Backwards(refs: seq<SubtreeRef>): (r: seq<SubtreeRef>)
    ensures |r| == |refs|
  {
    if refs == [] then [] else [refs[|refs| - 1]] + Backwards(refs[..|refs| - 1])
  }

  lemma {:induction false} BackwardsIndex(refs: seq<SubtreeRef>, k: nat)
    requires k < |refs|
    ensures Backwards(refs)[k] == refs[|refs| - 1 - k]
  {
    if k > 0 {
      BackwardsIndex(refs[..|refs| - 1], k - 1);
    }
  }

  /** Level `|stack| - 1` is being followed: the nodes in `refs` were visited, newest first, and what is
      left of its chain starts at the top of the stack. */
  ghost predicate Following(st: seq<Block>, rp: seq<LogicAddr>, stack: seq<LogicAddr>, refs: seq<SubtreeRef>)
    requires 1 <= |stack| <= |rp|
  {
    var j := |stack| - 1;
    && stack[..j] == rp[..j]
    && AddrOk(st, stack[j])
    && ChainFrom(st, stack[j]) + Backwards(refs) == ChainFrom(st, rp[j])
  }

  lemma FollowingStart(st: seq<Block>, rp: seq<LogicAddr>, j: nat)
    requires RescueOk(st, rp) && j < |rp|
    ensures Following(st, rp, rp[..j + 1], [])
  {
    var stack := rp[..j + 1];
    assert OnLevel(st, rp[j], j);
    assert ChainFrom(st, stack[j]) + [] == ChainFrom(st, rp[j]);
  }

  lemma FollowingEnd(st: seq<Block>, rp: seq<LogicAddr>, stack: seq<LogicAddr>, refs: seq<SubtreeRef>)
    requires 1 <= |stack| <= |rp| && Following(st, rp, stack, refs) && stack[|stack| - 1] == EMPTY_ADDR
    ensures Backwards(refs) == ChainFrom(st, rp[|stack| - 1])
  {
    assert ChainFrom(st, EMPTY_ADDR) == [];
    assert [] + Backwards(refs) == Backwards(refs);
  }

  lemma ChainUnfold(st: seq<Block>, a: nat)
    requires StoreOk(st) && a < |st|
    ensures AddrOk(st, st[a].meta.addr)
    ensures ChainFrom(st, At(a)) == ChainFrom(st, st[a].meta.addr) + [RefTo(st, a)]
  {
    hide PointsAt, RefsOk;
    assert BlockOk(st, a);
  }

  /** The chain of a node without a predecessor. */
  lemma RootChain(st: seq<Block>, a: nat)
    requires StoreOk(st) && a < |st| && st[a].meta.fanoutIndex == 0
    ensures ChainFrom(st, At(a)) == [RefTo(st, a)] && PointsOf(st, ChainFrom(st, At(a)), |st|) == PointsAt(st, a)
  {
    hide PointsAt, PointsOf;
    assert BlockOk(st, a);
    assert st[a].meta.addr == EMPTY_ADDR;
    PointsOfOne(st, RefTo(st, a), |st|);
  }

  lemma ChainOneBack(st: seq<Block>, a: nat, refs: seq<SubtreeRef>)
    requires StoreOk(st) && a < |st|
    ensures AddrOk(st, st[a].meta.addr)
    ensures ChainFrom(st, st[a].meta.addr) + Backwards(refs + [RefTo(st, a)]) == ChainFrom(st, At(a)) + Backwards(refs)
  {
    hide ChainFrom, StoreOk;
    ChainUnfold(st, a);
    var before, ref := ChainFrom(st, st[a].meta.addr), RefTo(st, a);
    assert (refs + [ref])[..|refs|] == refs;
    assert Backwards(refs + [ref]) == [ref] + Backwards(refs);
    assert (before + [ref]) + Backwards(refs) == before + ([ref] + Backwards(refs));
  }

  lemma FollowingStep(st: seq<Block>, rp: seq<LogicAddr>, stack: seq<LogicAddr>, refs: seq<SubtreeRef>)
    requires StoreOk(st) && 1 <= |stack| <= |rp| && Following(st, rp, stack, refs) && stack[|stack| - 1].At?
    ensures var j := |stack| - 1;
            var a := stack[j].ix;
            Following(st, rp, stack[..j] + [st[a].meta.addr], refs + [RefTo(st, a)])
  {
    var j := |stack| - 1;
    var a := stack[j].ix;
    ChainOneBack(st, a, refs);
    assert (stack[..j] + [st[a].meta.addr])[..j] == stack[..j];
  }

  /** The column with a level above `j` to insert into. */
  function Opened(base: Col, j: nat): Col
  {
    if j + 1 < |base.ext| then base else WithNewLevel(base)
  }

  /** While the chain of level `j` is being inserted, level `j + 1` holds a prefix of it. */
  ghost predicate Inserting(c: Col, base: Col, j: nat, n: nat)
  {
    && RescueOk(base.st, base.rp) && IsRebuilt(base, j) && j < |base.rp| && n <= |ChainFrom(base.st, base.rp[j])|
    && c == if n == 0 then base else WithRefs(Opened(base, j), j + 1, ChainFrom(base.st, base.rp[j])[..n])
  }

  function WithRefs(c: Col, level: nat, refs: seq<SubtreeRef>): Col
  {
    if level < |c.ext| then c.(ext := c.ext[level := Holding(level, refs)]) else c
  }

  lemma OpenedOk(base: Col, j: nat)
    requires RescueOk(base.st, base.rp) && IsRebuilt(base, j) && j < |base.rp|
    ensures ColOk(Opened(base, j)) && j + 1 < |Opened(base, j).ext|
    ensures Opened(base, j).ext[j + 1] == NewSBlockExtent(j + 1)
  {
    RebuiltOk(base, j);
    if j + 1 < |base.ext| {
      assert base.ext[j + 1] == RebuiltExtent(base.st, base.rp, j, j + 1);
    } else {
      NewLevelOk(base);
    }
  }

  lemma WithRefsOk(c: Col, level: nat, refs: seq<SubtreeRef>)
    requires ColOk(c) && 1 <= level < |c.ext| && RefsOk(c.st, refs, level - 1, |c.st|)
    ensures ColOk(WithRefs(c, level, refs))
  {
    var d := WithRefs(c, level, refs);
    forall i | 0 <= i < |d.ext|
      ensures ExtentOk(d.st, d.ext[i], i)
    {
      assert i != level ==> ExtentOk(c.st, c.ext[i], i);
    }
  }

  lemma PrefixOk(st: seq<Block>, refs: seq<SubtreeRef>, n: nat, level: nat)
    requires RefsOk(st, refs, level, |st|) && n <= |refs|
    ensures RefsOk(st, refs[..n], level, |st|)
  {
    forall k | 0 <= k < n
      ensures RefOk(st, refs[..n][k], level, |st|)
    {
      assert RefOk(st, refs[k], level, |st|);
    }
  }

  lemma InsertingOk(c: Col, base: Col, j: nat, n: nat)
    requires Inserting(c, base, j, n)
    ensures ColOk(c)
  {
    RebuiltOk(base, j);
    if n > 0 {
      var chain := ChainFrom(base.st, base.rp[j]);
      OpenedOk(base, j);
      assert OnLevel(base.st, base.rp[j], j);
      ChainsOk(base.st, base.rp[j], j);
      PrefixOk(base.st, chain, n, j);
      WithRefsOk(Opened(base, j), j + 1, chain[..n]);
    }
  }

  lemma InsertingStart(base: Col, j: nat)
    requires RescueOk(base.st, base.rp) && IsRebuilt(base, j) && j < |base.rp|
    ensures Inserting(base, base, j, 0)
  {
  }

  /** The next reference of the chain fits into level `j + 1`, which is opened for the first one if need be. */
  ghost predicate Inserts(c: Col, d: Col, lvl: nat, pl: SubtreeRef)
  {
    1 <= lvl <= |c.ext|
    && if lvl < |c.ext| then HasRoom(c, lvl) &&
       d == c.(ext := c.ext[lvl := AddRef(c.ext[lvl], pl)]) else d == NewTop(c, pl)
  }

  lemma InsertsNext(base: Col, c: Col, j: nat, refs: seq<SubtreeRef>, pl: SubtreeRef)
    requires |base.ext| == |base.rp| && j < |base.ext| && |refs| < FANOUT
    requires j + 1 < |Opened(base, j).ext| && Opened(base, j).ext[j + 1] == NewSBlockExtent(j + 1)
    requires c == if refs == [] then base else WithRefs(Opened(base, j), j + 1, refs)
    ensures Inserts(c, WithRefs(Opened(base, j), j + 1, refs + [pl]), j + 1, pl)
  {
    var d := WithRefs(Opened(base, j), j + 1, refs + [pl]);
    if refs == [] {
      assert refs + [pl] == [pl] == [] + [pl];
      if j + 1 == |base.ext| {
        assert d.ext == base.ext + [AddRef(NewSBlockExtent(j + 1), pl)];
      } else {
        assert d.ext == c.ext[j + 1 := AddRef(c.ext[j + 1], pl)];
      }
    } else {
      assert d.ext == c.ext[j + 1 := AddRef(c.ext[j + 1], pl)];
    }
  }

  lemma InsertingReady(c: Col, base: Col, j: nat, n: nat)
    requires Inserting(c, base, j, n) && n < |ChainFrom(base.st, base.rp[j])|
    ensures RefOk(c.st, ChainFrom(base.st, base.rp[j])[n], j, |c.st|) && n < FANOUT
    ensures j + 1 < |c.ext| ==> HasRoom(c, j + 1)
    ensures j + 1 <= |c.ext|
  {
    OpenedOk(base, j);
    assert OnLevel(base.st, base.rp[j], j);
    ChainsOk(base.st, base.rp[j], j);
    assert RefOk(base.st, ChainFrom(base.st, base.rp[j])[n], j, |base.st|);
  }

  lemma PushedInserts(c: Col, d: Col, lvl: nat, pl: SubtreeRef)
    requires Pushed(c, d, lvl, pl) && (lvl < |c.ext| ==> HasRoom(c, lvl))
    ensures Inserts(c, d, lvl, pl)
  {
  }

  lemma InsertingNext(c: Col, d: Col, base: Col, j: nat, n: nat)
    requires Inserting(c, base, j, n) && n < |ChainFrom(base.st, base.rp[j])|
    requires Inserts(c, d, j + 1, ChainFrom(base.st, base.rp[j])[n])
    ensures Inserting(d, base, j, n + 1)
  {
    var chain := ChainFrom(base.st, base.rp[j]);
    OpenedOk(base, j);
    InsertingReady(c, base, j, n);
    assert chain[..n + 1] == chain[..n] + [chain[n]];
    InsertsNext(base, c, j, chain[..n], chain[n]);
  }

  lemma InsertingDone(c: Col, base: Col, j: nat)
    requires j < |base.rp| && Inserting(c, base, j, |ChainFrom(base.st, base.rp[j])|)
    ensures IsRebuilt(c, j - 1)
    ensures c.st == base.st && c.rp == if j + 1 == |base.rp| then Padded(base.rp) else base.rp
  {
    var chain := ChainFrom(base.st, base.rp[j]);
    assert OnLevel(base.st, base.rp[j], j);
    ChainsOk(base.st, base.rp[j], j);
    OpenedOk(base, j);
    assert chain[..|chain|] == chain;
    forall i | 0 <= i < |c.ext|
      ensures c.ext[i] == RebuiltExtent(c.st, c.rp, j - 1, i)
    {
      assert i < |base.ext| ==> base.ext[i] == RebuiltExtent(base.st, base.rp, j, i);
    }
  }

  lemma ClosedSorted(st: seq<Block>, rp: seq<LogicAddr>)
    requires ClosedOk(st, rp)
    ensures Sorted(Recovered(st, rp))
  {
  }

  // ---- Reopening ---------------------------------------------------------------------------------

  function LastTimestamp(pts: seq<Point>): Timestamp
  {
    if pts == [] then 0 else pts[|pts| - 1].ts
  }

  lemma AppendKeepsOrder(pts: seq<Point>, p: Point)
    ensures Sorted(pts) && LastTimestamp(pts) <= p.ts ==> Sorted(pts + [p])
    ensures LastTimestamp(pts + [p]) == p.ts
  {
    assert (pts + [p])[..|pts|] == pts;
  }

  /** Reading one point backwards from the end of time finds the newest timestamp. */
  lemma NewestByScan(pts: seq<Point>)
    requires Sorted(pts)
    ensures var out := Scan.Select(pts, MAX_TIMESTAMP, 0);
            LastTimestamp(pts) == if out == [] then 0 else out[0].ts
  {
    if pts != [] && pts[|pts| - 1].ts == 0 {
      SortedMeaning(pts);
      Scan.SelectNone(pts, MAX_TIMESTAMP, 0);
    }
  }

  /** Read the newest point below a list of references. */
  method NewestTimestamp(st: seq<Block>, refs: seq<SubtreeRef>, ghost level: nat) returns (ts: Timestamp)
    requires StoreOk(st) && level >= 1 && RefsOk(st, refs, level - 1, |st|) && Sorted(PointsOf(st, refs, |st|))
    ensures ts == LastTimestamp(PointsOf(st, refs, |st|))
  {
    Scan.NewOpenSBlockIterOk(st, refs, MAX_TIMESTAMP, 0, level);
    NewestByScan(PointsOf(st, refs, |st|));
    var status, _, out := Scan.SBlockRead(st, Scan.NewOpenSBlockIter(refs, MAX_TIMESTAMP, 0), 1, level);
    ts := if status == Scan.Ok then out[0].ts else 0;
  }
}
