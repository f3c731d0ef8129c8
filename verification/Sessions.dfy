/** Whole sessions of a column: any run of appends, then a crash and a recovery, or a close and a reopen. */
module Sessions {
  import opened Aggregation
  import opened TreeStore
  import opened Closing
  import opened Crashes
  import opened Column
  import opened Recovery
  import opened NBTree
  import opened Heights

  /** The points of a run of appends that are not late, given the newest timestamp before the run. */
  function Accepted(pts: seq<Point>, last: Timestamp, allowDuplicates: bool): seq<Point>
  {
    if pts == [] then []
    else
      var p := pts[0];
      if Late(p, last, allowDuplicates) then Accepted(pts[1..], last, allowDuplicates)
      else [p] + Accepted(pts[1..], p.ts, allowDuplicates)
  }

  /** Nothing is late in a run that is already in order. */
  lemma {:induction false} InOrderAllAccepted(pts: seq<Point>, last: Timestamp)
    requires forall i, j :: 0 <= i < j < |pts| ==> pts[i].ts <= pts[j].ts
    requires pts != [] ==> last <= pts[0].ts
    ensures Accepted(pts, last, true) == pts
  {
    if pts != [] {
      InOrderAllAccepted(pts[1..], pts[0].ts);
    }
  }

  predicate Late(p: Point, last: Timestamp, allowDuplicates: bool)
  {
    if allowDuplicates then p.ts < last else p.ts <= last
  }

  lemma AcceptedStep(held: seq<Point>, p: Point, rest: seq<Point>, last: Timestamp, allowDuplicates: bool)
    ensures held + Accepted([p] + rest, last, allowDuplicates) ==
            if Late(p, last, allowDuplicates) then held + Accepted(rest, last, allowDuplicates)
            else (held + [p]) + Accepted(rest, p.ts, allowDuplicates)
  {
    assert ([p] + rest)[1..] == rest;
    assert held + ([p] + Accepted(rest, p.ts, allowDuplicates)) == (held + [p]) + Accepted(rest, p.ts, allowDuplicates);
  }

  /** How many leaves a run of points fills up, after those that are in the open leaf: a point that is refused starts
      the next leaf. */
  function LeavesFilled(accepts: (seq<Point>, Point) -> bool, open: seq<Point>, pts: seq<Point>): nat
    decreases |pts|
  {
    if pts == [] then 0
    else if accepts(open, pts[0]) then LeavesFilled(accepts, open + [pts[0]], pts[1..])
    else 1 + LeavesFilled(accepts, [pts[0]], pts[1..])
  }

  lemma FilledStep(accepts: (seq<Point>, Point) -> bool, open: seq<Point>, p: Point, rest: seq<Point>)
    ensures LeavesFilled(accepts, open, [p] + rest) ==
            if accepts(open, p) then LeavesFilled(accepts, open + [p], rest) else 1 + LeavesFilled(accepts, [p], rest)
  {
    assert ([p] + rest)[1..] == rest;
  }

  lemma NothingAppended(accepts: (seq<Point>, Point) -> bool, open: seq<Point>, last: Timestamp, allowDuplicates: bool)
    ensures Accepted([], last, allowDuplicates) == [] && LeavesFilled(accepts, open, []) == 0
  {
  }

  lemma AcceptedHead(pts: seq<Point>, last: Timestamp, allowDuplicates: bool)
    requires pts != []
    ensures Accepted(pts, last, allowDuplicates) ==
            if Late(pts[0], last, allowDuplicates) then Accepted(pts[1..], last, allowDuplicates)
            else [pts[0]] + Accepted(pts[1..], pts[0].ts, allowDuplicates)
  {
  }

  /** One append counts one if it commits a leaf. */
  lemma AppendCounts(a: Col, b: Col, p: Point, result: AppendResult, n: nat)
    requires Counting(a, n)
    requires match result
             case OK => AddedTo(Begun(a), b, p)
             case OK_FLUSH_NEEDED => FlushedAt(a, b, p)
             case FAIL_LATE_WRITE => b == a
    ensures Counting(b, n + if result == OK_FLUSH_NEEDED then 1 else 0)
  {
    hide FlushedAt, AddedTo, Counting, Shape;
    match result
    case OK =>
      AddedShape(a, b, p);
      CountNone(a, b, n);
    case OK_FLUSH_NEEDED =>
      FlushedShape(a, b, p);
      CountOne(a, b, n);
    case FAIL_LATE_WRITE =>
  }

  lemma AppendOpens(a: Col, b: Col, p: Point, result: AppendResult)
    requires match result
             case OK => AddedTo(Begun(a), b, p)
             case OK_FLUSH_NEEDED => FlushedAt(a, b, p)
             case FAIL_LATE_WRITE => b == a
    ensures OpenPoints(b.ext) == match result
            case OK => OpenPoints(a.ext) + [p]
            case OK_FLUSH_NEEDED => [p]
            case FAIL_LATE_WRITE => OpenPoints(a.ext)
  {
    hide FlushedAt;
    if result == OK_FLUSH_NEEDED {
      FlushedOpen(a, b, p);
    }
  }

  /** A run of appends adds exactly the points that are not late, in order; `flushes` of them committed a leaf. */
  method AppendAll(list: ExtentsList, pts: seq<Point>, allowDuplicates: bool) returns (flushes: nat)
    requires list.Ready() && list.initialized
    modifies list, list.bstore
    ensures list.Ready() && list.initialized
    ensures list.Held() == old(list.Held()) + Accepted(pts, old(list.last), allowDuplicates)
    ensures (old(list.CrashSafe()) ==> list.CrashSafe()) && (old(list.Fitting()) ==> list.Fitting())
    ensures |list.extents| >= |old(list.extents)|
    ensures forall r: nat :: old(list.Since(r)) && |list.extents| == |old(list.extents)| ==> list.Since(r)
    ensures old(list.Ordered()) ==> list.Ordered()
    ensures forall n: nat :: Counting(old(list.Snap()), n) ==> Counting(list.Snap(), n + flushes)
    ensures flushes == LeavesFilled(list.accepts, old(OpenPoints(list.extents)),
                                    Accepted(pts, old(list.last), allowDuplicates))
  {
    hide ColOk, Busy, Rescuable, Contents, Recovered, Session, Untouched, Sorted, FlushedAt, AfterCommit, AddedTo,
        LeavesFit, LeafFits, Counting, Accepted, LeavesFilled, OpenPoints, Begun;
    flushes := 0;
    NothingAppended(list.accepts, OpenPoints(list.extents), list.last, allowDuplicates);
    if pts == [] {
      return;
    }
    AcceptedHead(pts, list.last, allowDuplicates);
    AcceptedStep(list.Held(), pts[0], pts[1..], list.last, allowDuplicates);
    assert pts == [pts[0]] + pts[1..];
    ghost var a := list.Snap();
    var result := list.Append(pts[0].ts, pts[0].x, allowDuplicates);
    AppendOpens(a, list.Snap(), pts[0], result);
    FilledStep(list.accepts, OpenPoints(a.ext), pts[0],
               Accepted(pts[1..], pts[0].ts, allowDuplicates));
    forall n: nat | Counting(a, n)
      ensures Counting(list.Snap(), n + if result == OK_FLUSH_NEEDED then 1 else 0)
    {
      AppendCounts(a, list.Snap(), pts[0], result, n);
    }
    flushes := AppendAll(list, pts[1..], allowDuplicates);
    flushes := flushes + if result == OK_FLUSH_NEEDED then 1 else 0;
  }

  /** A column created empty. */
  method Create(bstore: BlockStore, accepts: (seq<Point>, Point) -> bool) returns (list: ExtentsList)
    requires bstore.blocks == [] && forall p: Point :: accepts([], p)
    modifies bstore
    ensures fresh(list) && list.bstore == bstore && list.accepts == accepts && list.Ready() && list.initialized
    ensures list.Held() == [] && list.last == 0 && list.CrashSafe() && list.Ordered()
    ensures list.extents == [] && list.writeCount == 0 && list.Fitting()
  {
    hide ColOk, Busy, Rescuable, Contents, AlignedFrom, Untouched, RescueOk, IsRebuilt, IsReopened;
    list := new ExtentsList(bstore, accepts, []);
    list.Init();
  }

  /** In a first session, and in one that was reopened and has no more levels than then, only the open leaf is at
      risk. */
  lemma SafeCrash(list: ExtentsList)
    requires list.Ready() && list.initialized && InSession(list.accepts, list.Snap())
    ensures list.Held() == list.Saved() + OpenPoints(list.extents) &&
            FitsOneLeaf(list.accepts, OpenPoints(list.extents))
  {
    hide Recovered, Contents, Busy, Rescuable, Untouched, Session, FitsOneLeaf;
    var r: nat :| Session(list.accepts, list.Snap(), r);
    SessionLoses(list.accepts, list.Snap(), r);
  }

  ghost predicate InSession(accepts: (seq<Point>, Point) -> bool, c: Col)
  {
    exists r: nat :: Session(accepts, c, r)
  }

  lemma SessionLoses(accepts: (seq<Point>, Point) -> bool, c: Col, r: nat)
    requires ColOk(c) && Rescuable(c.st, c.rp, -1) && Session(accepts, c, r)
    ensures Contents(c) == Recovered(c.st, c.rp) + OpenPoints(c.ext) && FitsOneLeaf(accepts, OpenPoints(c.ext))
  {
    hide Recovered;
    if c.ext == [] {
      EmptyState(c);
    } else {
      CrashLosesOnlyTheOpenLeaf(c, r);
      assert ExtentOk(c.st, c.ext[0], 0);
    }
  }

  /** What a crash in any session leaves in memory once the column has been started again. */
  ghost predicate Restarted(c: Col, rp: seq<LogicAddr>)
  {
    && OpenPoints(c.ext) == []
    && (rp != [] && !IsClosed(rp) ==> IsRepaired(c) && c.rp == Padded(rp))
    && (IsClosed(rp) && |rp| >= 2 ==> IsReopenedWith(c))
  }

  /** All extents in memory are lost; a new list starts from the rescue points handed out so far. In every session it
      holds what was saved, and it measures late writes against 0, unless the column was opened and not written to
      since. While the column is aligned, only the open leaf is lost. */
  method CrashAndRecover(list: ExtentsList) returns (again: ExtentsList)
    requires list.Ready() && list.initialized
    modifies list.bstore
    ensures fresh(again) && again.bstore == list.bstore && again.accepts == list.accepts
    ensures again.Ready() && again.initialized && (again.extents == [] <==> list.extents == [])
    ensures list.bstore.blocks == old(list.bstore.blocks) && again.Held() == again.Saved() == list.Saved()
    ensures again.last == if IsClosed(list.rescuePoints) then LastTimestamp(again.Held()) else 0
    ensures again.last == LastTimestamp(again.Held()) <==>
            IsClosed(list.rescuePoints) || again.Held() == [] || LastTimestamp(again.Held()) == 0
    ensures again.CrashSafe() <==> SafeStart(list.bstore.blocks, list.rescuePoints)
    ensures InSession(list.accepts, list.Snap()) ==>
            list.Held() == again.Held() + OpenPoints(list.extents) &&
                FitsOneLeaf(list.accepts, OpenPoints(list.extents))
    ensures Restarted(again.Snap(), list.rescuePoints) && (list.Fitting() ==> again.Fitting())
  {
    hide ColOk, Busy, Rescuable, Contents, Recovered, AlignedFrom, Untouched, Startable, RescueOk, IsRebuilt,
        IsReopened, Restarted, Session, InSession,
        SafeStart, FitsOneLeaf, IsClosed, StoreOk, LeavesFit, LeafFits;
    AnyCrashCanStart(list.Snap());
    SameLength(list.Snap());
    if InSession(list.accepts, list.Snap()) {
      SafeCrash(list);
    }
    again := new ExtentsList(list.bstore, list.accepts, list.rescuePoints);
    again.Init();
    RestartedState(again.Snap(), list.rescuePoints);
  }

  lemma SameLength(c: Col)
    requires ColOk(c)
    ensures |c.rp| == |c.ext|
  {
  }

  lemma RestartedState(c: Col, rp: seq<LogicAddr>)
    requires ColOk(c) && OpenPoints(c.ext) == []
    requires rp != [] && !IsClosed(rp) ==> RescueOk(c.st, c.rp) && c.rp == Padded(rp) && IsRebuilt(c, -1)
    requires IsClosed(rp) && |rp| >= 2 ==> IsReopened(c)
    ensures Restarted(c, rp)
  {
    if rp != [] && !IsClosed(rp) {
      assert c.ext[0] == RebuiltExtent(c.st, c.rp, -1, 0) == NewLeafExtent();
    } else if IsClosed(rp) && |rp| >= 2 {
      assert c.ext[0] == NewLeafExtent();
    }
    assert c.ext != [] && c.ext[0] == NewLeafExtent() ==> c.ext[0 := NewLeafExtent()] == c.ext;
  }

  /** Any run of appends, then a crash: recovery brings back every accepted point but those of the leaf
      that was still open, in order and once. */
  method RunAndCrash(accepts: (seq<Point>, Point) -> bool, pts: seq<Point>, allowDuplicates: bool)
    returns (again: ExtentsList, ghost lost: seq<Point>)
    requires forall p: Point :: accepts([], p)
    ensures again.Ready() && again.initialized
    ensures Accepted(pts, 0, allowDuplicates) == again.Held() + lost && FitsOneLeaf(accepts, lost)
  {
    var bstore := new BlockStore();
    var list := Create(bstore, accepts);
    var _ := AppendAll(list, pts, allowDuplicates);
    lost := OpenPoints(list.extents);
    again := CrashAndRecover(list);
  }

  /** Any run of appends into a new column: the number of leaves it has committed says how many levels there are. There
      is a level above the leaves from the first one on, another from the 33rd, and another from the 1057th. */
  method RunAndGrow(accepts: (seq<Point>, Point) -> bool, pts: seq<Point>, allowDuplicates: bool)
    returns (list: ExtentsList, flushes: nat)
    requires forall p: Point :: accepts([], p)
    ensures list.Ready() && list.initialized && list.Held() == Accepted(pts, 0, allowDuplicates)
    ensures flushes == LeavesFilled(accepts, [], Accepted(pts, 0, allowDuplicates))
    ensures |list.extents| <= 1 <==> flushes == 0
    ensures |list.extents| == 2 <==> 1 <= flushes <= 32
    ensures |list.extents| == 3 <==> 33 <= flushes <= 1056
    ensures flushes > 0 ==> FirstWith(|list.extents| - 1) <= flushes < FirstWith(|list.extents|)
    ensures flushes > 0 ==> Digits(Shape(list.Snap())) && Weight(Shape(list.Snap()), 1) == flushes
  {
    hide ColOk, Busy, Rescuable, Contents, Recovered, Session, Untouched, Sorted, LeavesFit, LeafFits;
    var bstore := new BlockStore();
    list := Create(bstore, accepts);
    assert Counting(list.Snap(), 0);
    flushes := AppendAll(list, pts, allowDuplicates);
    assert Counting(list.Snap(), 0 + flushes);
    if list.extents != [] {
      HeightOf(Shape(list.Snap()), flushes);
    }
  }

  /** Closing and opening again changes neither the contents nor the newest timestamp. */
  method CloseAndReopen(list: ExtentsList) returns (again: ExtentsList)
    requires list.Ready() && list.initialized && list.Ordered()
    modifies list, list.bstore
    ensures fresh(again) && again.bstore == list.bstore && again.Ready() && again.initialized && again.Ordered()
    ensures again.Held() == old(list.Held()) && again.last == old(list.last) && again.accepts == list.accepts
    ensures old(list.Fitting()) ==> again.Fitting()
    ensures if IsClosed(list.rescuePoints) && |list.rescuePoints| >= 2
            then |again.extents| == |list.rescuePoints| && again.Since(|Refs(again.extents[|again.extents| - 1])|)
            else again.CrashSafe()
  {
    hide ColOk, Busy, Rescuable, Contents, Recovered, AlignedFrom, Session, Untouched, Sorted, Startable, SafeStart,
        IsRebuilt, IsReopened, IsClosed, RescueOk, LeavesFit, LeafFits;
    var roots := list.Close();
    SafeStartOf(list.bstore.blocks, roots);
    again := new ExtentsList(list.bstore, list.accepts, roots);
    again.Init();
    SameLength(again.Snap());
  }

  lemma {:induction false} ChainIsHeld(st: seq<Block>, rp: seq<LogicAddr>, k: nat, i: nat)
    requires k <= i < |rp|
    ensures |Reached(st, rp[i])| <= |ChainContents(st, rp, k)|
    decreases |rp| - k
  {
    hide PointsOf, ChainFrom;
    ChainHead(st, rp, k);
    if k < i {
      ChainIsHeld(st, rp, k + 1, i);
    }
  }

  /** A root on level 0, and rescue points that hold nothing, start a column as a first session does. */
  lemma SafeStartOf(st: seq<Block>, rp: seq<LogicAddr>)
    requires Startable(st, rp) && (IsClosed(rp) || Recovered(st, rp) == [])
    ensures (IsClosed(rp) && |rp| >= 2) || SafeStart(st, rp)
  {
    hide PointsOf, ChainFrom, StoreOk;
    if !IsClosed(rp) {
      forall i | 0 <= i < |rp|
        ensures |ChainFrom(st, rp[i])| == 0
      {
        ChainIsHeld(st, rp, 0, i);
        assert OnLevel(st, rp[i], i);
        ReachedNothing(st, rp[i], i);
      }
    }
  }

  /** The column was opened from a root above the leaves, and has more levels now. */
  ghost predicate GrownSince(ext: seq<Extent>, roots: seq<LogicAddr>)
  {
    IsClosed(roots) && 2 <= |roots| < |ext|
  }

  /** A column is closed and opened again, then any run of appends, then a crash: as in a first session only the open
      leaf is lost, unless it was opened from a root above the leaves and has got another level since. */
  method ReopenRunAndCrash(list: ExtentsList, pts: seq<Point>, allowDuplicates: bool)
    returns (run: ExtentsList, again: ExtentsList, ghost lost: seq<Point>)
    requires list.Ready() && list.initialized && list.Ordered()
    modifies list, list.bstore
    ensures fresh(run) && run.Ready() && run.initialized && again.Ready() && again.initialized
    ensures run.Held() == old(list.Held()) + Accepted(pts, old(list.last), allowDuplicates)
    ensures again.Held() == run.Saved() && lost == OpenPoints(run.extents)
    ensures !GrownSince(run.extents, list.rescuePoints) ==>
            run.Held() == again.Held() + lost && FitsOneLeaf(list.accepts, lost)
  {
    hide ColOk, Busy, Rescuable, Contents, Recovered, Session, Untouched, Sorted, Restarted, FitsOneLeaf, SafeStart,
        IsClosed;
    run := CloseAndReopen(list);
    var _ := AppendAll(run, pts, allowDuplicates);
    lost := OpenPoints(run.extents);
    again := CrashAndRecover(run);
  }
}
