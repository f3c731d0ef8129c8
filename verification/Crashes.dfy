/** What a crash takes from a column that has already been started again: after a repair, after a reopen, and after
    any commit of any later session. */
module Crashes {
  import opened Aggregation
  import opened TreeStore
  import opened Column
  import opened Recovery
  import opened NBTree

  /** The points that are reached from `a` through back-links. */
  ghost function Reached(st: seq<Block>, a: LogicAddr): seq<Point>
  {
    PointsOf(st, ChainFrom(st, a), |st|)
  }

  lemma ReachedNothing(st: seq<Block>, a: LogicAddr, level: nat)
    requires StoreOk(st) && OnLevel(st, a, level)
    ensures Reached(st, a) == [] <==> a == EMPTY_ADDR
    ensures |ChainFrom(st, a)| <= |Reached(st, a)|
  {
    ChainsOk(st, a, level);
    RefsHoldPoints(st, ChainFrom(st, a), level);
  }

  /** Every node holds a point. */
  lemma {:induction false} RefsHoldPoints(st: seq<Block>, refs: seq<SubtreeRef>, level: nat)
    requires StoreOk(st) && RefsOk(st, refs, level, |st|)
    ensures |refs| <= |PointsOf(st, refs, |st|)|
  {
    if refs != [] {
      var n := |refs| - 1;
      PrefixOk(st, refs, n, level);
      RefsHoldPoints(st, refs[..n], level);
      assert RefOk(st, refs[n], level, |st|);
      assert BlockOk(st, refs[n].addr.ix);
    }
  }

  // ---- One commit, in any session ----------------------------------------------------------------

  lemma LeafContents(c: Col)
    requires ColOk(c) && c.ext != []
    ensures Contents(c) == ContentsFrom(c.st, c.ext, 1) + OpenPoints(c.ext)
    ensures AfterCommit(c, 0) == (AfterPush(c, 1) + Reached(c.st, BackLink(c.ext[0]))) + OpenPoints(c.ext)
  {
    hide AfterPush;
    assert ExtentOk(c.st, c.ext[0], 0);
  }

  lemma Regroup(a: seq<Point>, b: seq<Point>, c: seq<Point>)
    ensures a == b <==> a + c == b + c
    ensures a == b <==> c + a == c + b
  {
    assert a + c == b + c ==> |a| == |b| && (a + c)[..|a|] == a && (b + c)[..|b|] == b;
    assert c + a == c + b ==> (c + a)[|c|..] == a && (c + b)[|c|..] == b;
  }

  lemma ChainHead(st: seq<Block>, rp: seq<LogicAddr>, k: nat)
    requires k < |rp|
    ensures ChainContents(st, rp, k) == ChainContents(st, rp, k + 1) + Reached(st, rp[k])
  {
  }

  /** The first level from `lvl` on that takes another reference. */
  function FirstRoom(c: Col, lvl: nat): (k: nat)
    ensures lvl <= |c.ext| ==> lvl <= k <= |c.ext|
    decreases |c.ext| - lvl
  {
    if lvl >= |c.ext| then |c.ext| else if HasRoom(c, lvl) then lvl else FirstRoom(c, lvl + 1)
  }

  /** The contents of the levels from `lvl` up to but not including `k`. */
  ghost function Between(c: Col, lvl: nat, k: nat): seq<Point>
    decreases k - lvl
  {
    if lvl >= k || lvl >= |c.ext| then [] else Between(c, lvl + 1, k) + OwnPoints(c.st, c.ext[lvl])
  }

  /** ... and what is saved of them once all their nodes are committed: each node with what its back-link reaches. */
  ghost function Woven(c: Col, lvl: nat, k: nat): seq<Point>
    decreases k - lvl
  {
    if lvl >= k || lvl >= |c.ext| then [] else Woven(c, lvl + 1, k) + NodeChain(c, lvl)
  }

  /** No node that is open on a level from `lvl` up to but not including `k` has a predecessor. */
  ghost predicate Unlinked(c: Col, lvl: nat, k: nat)
  {
    forall i :: lvl <= i < k && i < |c.ext| ==> BackLink(c.ext[i]) == EMPTY_ADDR
  }

  /** A push commits every full node up to the first level with room, and leaves the rescue points from there on. */
  lemma {:induction false} Climb(c: Col, lvl: nat)
    requires lvl <= |c.ext| == |c.rp|
    ensures var k := FirstRoom(c, lvl);
            && AfterPush(c, lvl) == ChainContents(c.st, c.rp, k) + Woven(c, lvl, k)
            && ContentsFrom(c.st, c.ext, lvl) == ContentsFrom(c.st, c.ext, k) + Between(c, lvl, k)
    decreases |c.ext| - lvl
  {
    hide OwnPoints, NodeChain, PointsOf, ChainFrom;
    var k := FirstRoom(c, lvl);
    if lvl < |c.ext| && !HasRoom(c, lvl) {
      Climb(c, lvl + 1);
      Regroup3(ChainContents(c.st, c.rp, k), Woven(c, lvl + 1, k), NodeChain(c, lvl));
      Regroup3(ContentsFrom(c.st, c.ext, k), Between(c, lvl + 1, k), OwnPoints(c.st, c.ext[lvl]));
    }
  }

  lemma Regroup3(a: seq<Point>, b: seq<Point>, c: seq<Point>)
    ensures (a + b) + c == a + (b + c)
  {
  }

  /** The same for the commit of a leaf: what a crash leaves next, in any session and at any depth. */
  lemma ClimbingCommit(c: Col)
    requires c.ext != [] && |c.rp| == |c.ext|
    ensures var k := FirstRoom(c, 1);
            && AfterCommit(c, 0) == ChainContents(c.st, c.rp, k) + Woven(c, 0, k)
            && Contents(c) == ContentsFrom(c.st, c.ext, k) + Between(c, 0, k)
  {
    hide OwnPoints, NodeChain, AfterPush;
    Climb(c, 1);
    var k := FirstRoom(c, 1);
    Regroup3(ChainContents(c.st, c.rp, k), Woven(c, 1, k), NodeChain(c, 0));
    Regroup3(ContentsFrom(c.st, c.ext, k), Between(c, 1, k), OwnPoints(c.st, c.ext[0]));
  }

  /** Nothing of a level is saved twice exactly when its open node has no predecessor. */
  lemma NodeOnce(c: Col, lvl: nat)
    requires ColOk(c) && lvl < |c.ext|
    ensures |NodeChain(c, lvl)| >= |OwnPoints(c.st, c.ext[lvl])|
    ensures |NodeChain(c, lvl)| == |OwnPoints(c.st, c.ext[lvl])| <==> BackLink(c.ext[lvl]) == EMPTY_ADDR
    ensures BackLink(c.ext[lvl]) == EMPTY_ADDR ==> NodeChain(c, lvl) == OwnPoints(c.st, c.ext[lvl])
  {
    hide OwnPoints, PointsOf, ChainFrom, StoreOk;
    assert ExtentOk(c.st, c.ext[lvl], lvl);
    ReachedNothing(c.st, BackLink(c.ext[lvl]), lvl);
  }

  lemma {:induction false} WovenOnce(c: Col, lvl: nat, k: nat)
    requires ColOk(c) && k <= |c.ext|
    ensures |Woven(c, lvl, k)| >= |Between(c, lvl, k)|
    ensures |Woven(c, lvl, k)| == |Between(c, lvl, k)| <==> Unlinked(c, lvl, k)
    ensures Unlinked(c, lvl, k) ==> Woven(c, lvl, k) == Between(c, lvl, k)
    decreases k - lvl
  {
    hide NodeChain, OwnPoints, BackLink, ColOk;
    if lvl < k {
      NodeOnce(c, lvl);
      WovenOnce(c, lvl + 1, k);
      assert Unlinked(c, lvl, k) <==> BackLink(c.ext[lvl]) == EMPTY_ADDR && Unlinked(c, lvl + 1, k);
    }
  }

  /** The commit of a leaf climbs through full levels up to level `k`. If the rescue points from there on hold what is
      there, then nothing is brought back twice exactly when no node on the way has a predecessor. */
  lemma CommitThrough(c: Col)
    requires ColOk(c) && c.ext != []
    requires var k := FirstRoom(c, 1); ChainContents(c.st, c.rp, k) == ContentsFrom(c.st, c.ext, k)
    ensures AfterCommit(c, 0) == Contents(c) <==> Unlinked(c, 0, FirstRoom(c, 1))
    ensures |AfterCommit(c, 0)| >= |Contents(c)|
  {
    hide AfterCommit, Contents, Unlinked, Woven, Between, ContentsFrom, ChainContents;
    var k := FirstRoom(c, 1);
    ClimbingCommit(c);
    WovenOnce(c, 0, k);
    Regroup(Woven(c, 0, k), Between(c, 0, k), ContentsFrom(c.st, c.ext, k));
  }

  lemma {:induction false} NoRoom(c: Col, lvl: nat)
    requires lvl <= |c.ext|
    ensures FullFrom(c, lvl) <==> FirstRoom(c, lvl) == |c.ext|
    decreases |c.ext| - lvl
  {
    if lvl < |c.ext| {
      NoRoom(c, lvl + 1);
      assert FullFrom(c, lvl) <==> !HasRoom(c, lvl) && FullFrom(c, lvl + 1);
    }
  }

  /** Once every level is full all open nodes are committed. What their back-links still reach is then held twice:
      recovery brings it back twice, unless no open node has a predecessor. */
  lemma CommitOnFull(c: Col)
    requires ColOk(c) && c.ext != [] && FullFrom(c, 1)
    ensures AfterCommit(c, 0) == Woven(c, 0, |c.ext|) && Contents(c) == Between(c, 0, |c.ext|)
    ensures AfterCommit(c, 0) == Contents(c) <==> forall i :: 0 <= i < |c.ext| ==> BackLink(c.ext[i]) == EMPTY_ADDR
  {
    hide AfterCommit, Contents, Woven, Between, FullFrom;
    NoRoom(c, 1);
    ClimbingCommit(c);
    CommitThrough(c);
  }

  /** The top of the levels that are committed. */
  lemma {:induction false} WovenTop(c: Col, lvl: nat, k: nat)
    requires lvl < k <= |c.ext|
    ensures Woven(c, lvl, k) == NodeChain(c, k - 1) + Woven(c, lvl, k - 1)
    ensures Between(c, lvl, k) == OwnPoints(c.st, c.ext[k - 1]) + Between(c, lvl, k - 1)
    decreases k - lvl
  {
    hide NodeChain, OwnPoints;
    if lvl < k - 1 {
      WovenTop(c, lvl + 1, k);
      Regroup3(NodeChain(c, k - 1), Woven(c, lvl + 1, k - 1), NodeChain(c, lvl));
      Regroup3(OwnPoints(c.st, c.ext[k - 1]), Between(c, lvl + 1, k - 1), OwnPoints(c.st, c.ext[lvl]));
    } else {
      assert Woven(c, k, k) == [] && Between(c, k, k) == [];
    }
  }

  /** Both sides of a commit that ends on a level with room, taken apart at the topmost node that is committed. */
  lemma RoomParts(c: Col, up: seq<Point>)
    requires ColOk(c) && c.ext != []
    requires var k := FirstRoom(c, 1); ChainContents(c.st, c.rp, k - 1) == ContentsFrom(c.st, c.ext, k)
    requires up == ChainContents(c.st, c.rp, FirstRoom(c, 1))
    ensures var k := FirstRoom(c, 1);
            var own, before, after := OwnPoints(c.st, c.ext[k - 1]), Reached(c.st, c.rp[k - 1]),
                Reached(c.st, BackLink(c.ext[k - 1]));
            && AfterCommit(c, 0) == up + after + (own + Woven(c, 0, k - 1))
            && Contents(c) == up + before + (own + Between(c, 0, k - 1))
  {
    hide AfterCommit, Contents, ColOk, ContentsFrom, OwnPoints, PointsOf, ChainFrom, ChainContents, Woven, Between;
    var k := FirstRoom(c, 1);
    SameSize(c);
    ClimbingCommit(c);
    WovenTop(c, 0, k);
    ChainHead(c.st, c.rp, k - 1);
    var own, before, after := OwnPoints(c.st, c.ext[k - 1]), Reached(c.st, c.rp[k - 1]),
        Reached(c.st, BackLink(c.ext[k - 1]));
    assert NodeChain(c, k - 1) == after + own;
    assert up + ((after + own) + Woven(c, 0, k - 1)) == up + after + (own + Woven(c, 0, k - 1));
    Regroup3(up + before, own, Between(c, 0, k - 1));
  }

  lemma SameSize(c: Col)
    requires ColOk(c)
    ensures |c.rp| == |c.ext|
  {
  }

  /** A commit that ends on a level with room, if only the open nodes below it are at risk before: it puts nothing else
      at risk exactly when the topmost node on the way points back at the points that its rescue point reached, given
      that no node below it has a predecessor. If it does point back at them, then a predecessor of any node below it
      brings points back twice. */
  lemma CommitWithRoom(c: Col)
    requires ColOk(c) && c.ext != []
    requires var k := FirstRoom(c, 1); ChainContents(c.st, c.rp, k - 1) == ContentsFrom(c.st, c.ext, k)
    ensures var k := FirstRoom(c, 1);
            var same := Reached(c.st, BackLink(c.ext[k - 1])) == Reached(c.st, c.rp[k - 1]);
            && (Unlinked(c, 0, k - 1) ==> (AfterCommit(c, 0) == Contents(c) <==> same))
            && (same ==> (AfterCommit(c, 0) == Contents(c) <==> Unlinked(c, 0, k - 1)))
  {
    hide AfterCommit, Contents, OwnPoints, ContentsFrom, ChainContents, Unlinked, Reached, ColOk, Woven, Between;
    var k := FirstRoom(c, 1);
    SameSize(c);
    var up, own := ChainContents(c.st, c.rp, k), OwnPoints(c.st, c.ext[k - 1]);
    var before, after := Reached(c.st, c.rp[k - 1]), Reached(c.st, BackLink(c.ext[k - 1]));
    var woven, between := Woven(c, 0, k - 1), Between(c, 0, k - 1);
    RoomParts(c, up);
    WovenOnce(c, 0, k - 1);
    Regroup(woven, between, own);
    Regroup(own + woven, own + between, up + before);
    Regroup(up + after, up + before, own + woven);
    Regroup(after, before, up);
  }

  // ---- A new level after a reopen ----------------------------------------------------------------

  /** The children that the root's copy has collected since the column was opened with `r` of them. */
  ghost function Collected(c: Col, r: nat): seq<Point>
    requires c.ext != [] && r <= |Refs(c.ext[|c.ext| - 1])|
  {
    PointsOf(c.st, Refs(c.ext[|c.ext| - 1])[r..], |c.st|)
  }

  /** In a session with every level full only the node below the root's copy has a predecessor. */
  lemma FullLinks(c: Col, r: nat)
    requires ColOk(c) && c.ext != [] && AlignedFrom(c, 0, r) && r > 0 && FullFrom(c, 1)
    ensures var top := |c.ext| - 1;
            && top > 0 && r <= |Refs(c.ext[top])| == FANOUT && BackLink(c.ext[top]) == EMPTY_ADDR
            && Unlinked(c, 0, top - 1) && Reached(c.st, BackLink(c.ext[top - 1])) == Collected(c, r)
  {
    hide PointsOf, ChainFrom, StoreOk;
    var top := |c.ext| - 1;
    assert ExtentOk(c.st, c.ext[top], top);
    assert AlignedAt(c, top - 1, r) && !HasRoom(c, top);
    AlignedBackLink(c.st, c.ext[top - 1], c.rp[top - 1], c.ext[top], r);
    forall i | 0 <= i < top - 1
      ensures BackLink(c.ext[i]) == EMPTY_ADDR
    {
      assert AlignedAt(c, i, r) && !HasRoom(c, i + 1) && ExtentOk(c.st, c.ext[i + 1], i + 1);
    }
  }

  /** A reopened column gets a new level. The full copy of the root is committed, and the node below it still points
      back at the children that the copy has collected since the column was opened: exactly these are saved twice, in
      front of what is newer. So nothing is doubled if and only if the root had 32 children when it was opened. */
  lemma GrowthDoubles(c: Col, r: nat)
    requires ColOk(c) && c.ext != [] && AlignedFrom(c, 0, r) && r > 0 && FullFrom(c, 1)
    ensures r <= |Refs(c.ext[|c.ext| - 1])|
    ensures var top := |c.ext| - 1;
            var root, newer := OwnPoints(c.st, c.ext[top]), Between(c, 0, top);
            && Contents(c) == root + newer && AfterCommit(c, 0) == root + Collected(c, r) + newer
            && PointsOf(c.st, Refs(c.ext[top])[..r], |c.st|) + Collected(c, r) == root
            && |Collected(c, r)| >= 32 - r
    ensures AfterCommit(c, 0) == Contents(c) <==> r == 32
  {
    hide PointsOf, ChainFrom, AlignedFrom, FullFrom, AfterCommit, Contents, Unlinked, Woven, Between, ColOk;
    var top := |c.ext| - 1;
    FullLinks(c, r);
    CommitOnFull(c);
    WovenTop(c, 0, top + 1);
    WovenTop(c, 0, top);
    NodeOnce(c, top);
    WovenOnce(c, 0, top - 1);
    CollectedPoints(c, r);
    var root, more := OwnPoints(c.st, c.ext[top]), Collected(c, r);
    var own, newer := OwnPoints(c.st, c.ext[top - 1]), Between(c, 0, top);
    var below := Between(c, 0, top - 1);
    assert NodeChain(c, top - 1) == more + own;
    assert root + ((more + own) + below) == root + more + (own + below);
    Regroup(root + more, root, newer);
    Regroup(more, [], root);
    assert root + [] == root;
  }

  lemma CollectedPoints(c: Col, r: nat)
    requires ColOk(c) && |c.ext| > 1 && r <= |Refs(c.ext[|c.ext| - 1])| == FANOUT
    ensures PointsOf(c.st, Refs(c.ext[|c.ext| - 1])[..r], |c.st|) + Collected(c, r) ==
            OwnPoints(c.st, c.ext[|c.ext| - 1])
    ensures |Collected(c, r)| >= FANOUT - r && (Collected(c, r) == [] <==> r == FANOUT)
  {
    hide PointsOf, StoreOk;
    var top := |c.ext| - 1;
    assert ExtentOk(c.st, c.ext[top], top);
    var refs := Refs(c.ext[top]);
    assert refs == refs[..r] + refs[r..];
    PointsOfSplit(c.st, refs[..r], refs[r..], |c.st|);
    forall j | 0 <= j < |refs[r..]|
      ensures RefOk(c.st, refs[r..][j], top - 1, |c.st|)
    {
      assert RefOk(c.st, refs[r + j], top - 1, |c.st|);
    }
    RefsHoldPoints(c.st, refs[r..], top - 1);
    NoPoints(c.st);
  }

  // ---- The first commit after a start ------------------------------------------------------------

  /** No open node has a predecessor. */
  ghost predicate AllFresh(c: Col)
  {
    forall i :: 0 <= i < |c.ext| ==> BackLink(c.ext[i]) == EMPTY_ADDR
  }

  lemma FreshPush(c: Col, lvl: nat)
    requires ColOk(c) && AllFresh(c) && lvl <= |c.ext|
    ensures var k := FirstRoom(c, lvl);
            && AfterPush(c, lvl) == ChainContents(c.st, c.rp, k) + Between(c, lvl, k)
            && ContentsFrom(c.st, c.ext, lvl) == ContentsFrom(c.st, c.ext, k) + Between(c, lvl, k)
  {
    hide ColOk, Woven, Between, AfterPush, ContentsFrom, ChainContents;
    SameSize(c);
    Climb(c, lvl);
    WovenOnce(c, lvl, FirstRoom(c, lvl));
  }

  /** A column as repair left it, apart from the points that were added to its open leaf. */
  ghost predicate IsRepaired(c: Col)
  {
    && c.ext != [] && c.ext[0].LeafExtent? && BackLink(c.ext[0]) == EMPTY_ADDR
    && RescueOk(c.st, c.rp) && TopEmpty(c.rp) && IsRebuilt(c.(ext := c.ext[0 := NewLeafExtent()]), -1)
  }

  /** The points of the first chain, from the leaves up, that is not full. */
  ghost function FirstPartial(st: seq<Block>, rp: seq<LogicAddr>, i: nat): seq<Point>
    decreases |rp| - i
  {
    if i >= |rp| then [] else if |ChainFrom(st, rp[i])| == FANOUT then FirstPartial(st, rp, i + 1)
        else Reached(st, rp[i])
  }

  lemma RepairedExtent(c: Col, i: nat)
    requires IsRepaired(c) && 0 < i < |c.ext|
    ensures |c.rp| == |c.ext| && c.ext[i] == Holding(i, ChainFrom(c.st, c.rp[i - 1])) &&
            |ChainFrom(c.st, c.rp[i - 1])| <= FANOUT
    ensures OwnPoints(c.st, c.ext[i]) == Reached(c.st, c.rp[i - 1])
  {
    var d := c.(ext := c.ext[0 := NewLeafExtent()]);
    assert d.ext[i] == RebuiltExtent(d.st, d.rp, -1, i);
    assert OnLevel(c.st, c.rp[i - 1], i - 1);
    ChainsOk(c.st, c.rp[i - 1], i - 1);
  }

  lemma {:induction false} RepairedLevels(c: Col, k: nat)
    requires IsRepaired(c) && k < |c.ext|
    ensures |c.rp| == |c.ext| && ChainContents(c.st, c.rp, k) == ContentsFrom(c.st, c.ext, k + 1)
  {
    var d := c.(ext := c.ext[0 := NewLeafExtent()]);
    RebuiltContents(d, k);
    ContentsSame(c.st, c.ext, d.ext, k + 1);
  }

  lemma {:induction false} FirstPartialIsFirstRoom(c: Col, i: nat)
    requires IsRepaired(c) && i < |c.ext|
    ensures var k := FirstRoom(c, i + 1);
            FirstPartial(c.st, c.rp, i) == if k < |c.ext| then OwnPoints(c.st, c.ext[k]) else []
    decreases |c.ext| - i
  {
    hide OwnPoints, Reached, IsRepaired, ChainFrom;
    RepairedLevels(c, i);
    if i + 1 < |c.ext| {
      RepairedExtent(c, i + 1);
      if !HasRoom(c, i + 1) {
        FirstPartialIsFirstRoom(c, i + 1);
      }
    } else {
      LastIsEmpty(c);
    }
  }

  lemma LastIsEmpty(c: Col)
    requires IsRepaired(c)
    ensures |c.rp| == |c.ext| && FirstPartial(c.st, c.rp, |c.rp| - 1) == []
  {
    NoPoints(c.st);
  }

  lemma RepairedOk(c: Col)
    requires IsRepaired(c)
    ensures AllFresh(c) && |c.rp| == |c.ext|
  {
    forall i | 0 <= i < |c.ext|
      ensures BackLink(c.ext[i]) == EMPTY_ADDR
    {
      if i > 0 {
        RepairedExtent(c, i);
      }
    }
  }

  /** The second crash. The first leaf that is committed after a repair replaces the rescue point of the leaf level,
      and it has no back-link: with it the first chain that is not full drops out of reach, and nothing else. Every
      chain above, every full chain below and the leaf itself are kept. */
  lemma SecondCrash(c: Col)
    requires ColOk(c) && IsRepaired(c)
    ensures var k := FirstRoom(c, 1);
            var lost := FirstPartial(c.st, c.rp, 0);
            && Contents(c) == ChainContents(c.st, c.rp, k) + lost + Between(c, 1, k) + OpenPoints(c.ext)
            && AfterCommit(c, 0) == ChainContents(c.st, c.rp, k) + Between(c, 1, k) + OpenPoints(c.ext)
            && (AfterCommit(c, 0) == Contents(c) <==> lost == [])
  {
    hide IsRepaired, OwnPoints, Reached, FirstPartial, AfterCommit, AfterPush, Contents, OpenPoints, ChainFrom;
    RepairedOk(c);
    RepairedBasics(c);
    LeafContents(c);
    FreshPush(c, 1);
    FirstPartialIsFirstRoom(c, 0);
    var k, lost, leaf := FirstRoom(c, 1), FirstPartial(c.st, c.rp, 0), OpenPoints(c.ext);
    var up, mid := ChainContents(c.st, c.rp, k), Between(c, 1, k);
    assert ContentsFrom(c.st, c.ext, k) == up + lost by {
      if k < |c.ext| {
        RepairedLevels(c, k);
      }
    }
    assert (up + mid) + [] == up + mid;
    Losing(up, lost, mid, leaf);
  }

  lemma RepairedBasics(c: Col)
    requires IsRepaired(c)
    ensures c.ext != [] && Reached(c.st, BackLink(c.ext[0])) == []
  {
    NoPoints(c.st);
  }

  lemma Losing(up: seq<Point>, lost: seq<Point>, mid: seq<Point>, leaf: seq<Point>)
    ensures up + mid + leaf == up + lost + mid + leaf <==> lost == []
  {
    assert |up + mid + leaf| == |up| + |mid| + |leaf|;
    assert |up + lost + mid + leaf| == |up| + |lost| + |mid| + |leaf|;
    assert lost == [] ==> up + lost == up;
  }

  /** A column as `open` left it from a root on level 1 or above, apart from the points in its open leaf. */
  ghost predicate IsReopenedWith(c: Col)
  {
    && |c.rp| == |c.ext| >= 2 && c.ext[0].LeafExtent? && BackLink(c.ext[0]) == EMPTY_ADDR
    && IsReopened(c.(ext := c.ext[0 := NewLeafExtent()]))
  }

  lemma ReopenedBasics(c: Col)
    requires IsReopenedWith(c)
    ensures |c.rp| == |c.ext| >= 2 && ClosedOk(c.st, c.rp) && AllFresh(c)
    ensures ContentsFrom(c.st, c.ext, 1) == Recovered(c.st, c.rp) == OwnPoints(c.st, c.ext[|c.ext| - 1])
    ensures forall i :: 0 < i < |c.ext| - 1 ==> c.ext[i] == NewSBlockExtent(i)
  {
    var d := c.(ext := c.ext[0 := NewLeafExtent()]);
    OpenedRoot(d);
    assert d.ext[0] == NewLeafExtent();
    assert ContentsFrom(d.st, d.ext, 0) == ContentsFrom(d.st, d.ext, 1) + [];
    ContentsSame(c.st, c.ext, d.ext, 1);
    assert BlockOk(c.st, c.rp[|c.rp| - 1].ix);
    forall i | 0 <= i < |c.ext|
      ensures BackLink(c.ext[i]) == EMPTY_ADDR
      ensures 0 < i < |c.ext| - 1 ==> c.ext[i] == NewSBlockExtent(i)
    {
      assert i > 0 ==> d.ext[i] == c.ext[i];
    }
  }

  /** The first leaf that is committed after reopening is safe: the root that the column was opened from stays a
      rescue point, or is replaced by a copy of it. */
  lemma FirstCommitAfterReopen(c: Col)
    requires ColOk(c) && IsReopenedWith(c)
    ensures AfterCommit(c, 0) == Contents(c)
  {
    hide IsReopenedWith, AfterCommit, AfterPush, Contents, OpenPoints, Recovered, PointsOf, OwnPoints, ClosedOk;
    ReopenedBasics(c);
    LeafContents(c);
    NoPoints(c.st);
    FreshPush(c, 1);
    var n := |c.ext| - 1;
    assert AfterPush(c, 1) == ContentsFrom(c.st, c.ext, 1) by {
      if HasRoom(c, 1) {
        ChainsOfRoot(c.st, c.rp, 1);
        assert Between(c, 1, 1) == [];
      } else {
        assert FirstRoom(c, 1) == 2 == |c.ext|;
      }
    }
    assert AfterPush(c, 1) + [] == AfterPush(c, 1);
  }
}
