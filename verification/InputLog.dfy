/** Reading the sharded input log (`ShardedInputLog`, storage/input_log.cc): a k-way merge of the shards by
    the sequence number of their frames. */
module InputLog {
  import opened Bytes

  datatype Payload =
    | DataPoint(ts: U64, x: real)
    | SeriesName(name: seq<Byte>)
    | RecoveryInfo(points: seq<U64>)

  datatype Row = Row(id: U64, payload: Payload)

  datatype Frame = Frame(number: nat, rows: seq<Row>)

  function Rows(frames: seq<Frame>): seq<Row>
  {
    if |frames| == 0 then [] else frames[0].rows + Rows(frames[1..])
  }

  // ---- Lanes -------------------------------------------------------------------------------------

  /** What a reader sees of a shard: a frame without rows ends it. */
  function Readable(frames: seq<Frame>): seq<Frame>
  {
    if |frames| == 0 || |frames[0].rows| == 0 then [] else [frames[0]] + Readable(frames[1..])
  }

  /** Lane `k` has the smallest head among the first `n` lanes, and is the first that has it. */
  predicate IsNext(lanes: seq<seq<Frame>>, n: nat, k: int)
    requires n <= |lanes|
  {
    && 0 <= k < n && |lanes[k]| > 0
    && (forall j :: 0 <= j < n && |lanes[j]| > 0 ==> lanes[k][0].number <= lanes[j][0].number)
    && (forall j :: 0 <= j < k && |lanes[j]| > 0 ==> lanes[k][0].number < lanes[j][0].number)
  }

  function Next(lanes: seq<seq<Frame>>, n: nat): (k: int)
    requires n <= |lanes|
    ensures -1 <= k < n && (k >= 0 ==> |lanes[k]| > 0)
  {
    if n == 0 then -1
    else
      var k := Next(lanes, n - 1);
      if |lanes[n - 1]| > 0 && (k < 0 || lanes[n - 1][0].number < lanes[k][0].number) then n - 1 else k
  }

  lemma {:induction false} NextMeaning(lanes: seq<seq<Frame>>, n: nat)
    requires n <= |lanes|
    ensures Next(lanes, n) < 0 ==> forall j :: 0 <= j < n ==> |lanes[j]| == 0
    ensures Next(lanes, n) >= 0 ==> IsNext(lanes, n, Next(lanes, n))
  {
    if n > 0 {
      NextMeaning(lanes, n - 1);
    }
  }

  lemma NextUnique(lanes: seq<seq<Frame>>, k: int)
    requires IsNext(lanes, |lanes|, k)
    ensures Next(lanes, |lanes|) == k
  {
    NextMeaning(lanes, |lanes|);
  }

  /** The lane without its first frame. */
  function Popped(lanes: seq<seq<Frame>>, k: nat): seq<seq<Frame>>
    requires k < |lanes| && |lanes[k]| > 0
  {
    lanes[k := lanes[k][1..]]
  }

  function Count(lanes: seq<seq<Frame>>): nat
  {
    if |lanes| == 0 then 0 else Count(lanes[..|lanes| - 1]) + |lanes[|lanes| - 1]|
  }

  lemma {:induction false} CountPopped(lanes: seq<seq<Frame>>, k: nat)
    requires k < |lanes| && |lanes[k]| > 0
    ensures Count(Popped(lanes, k)) == Count(lanes) - 1
  {
    var n := |lanes| - 1;
    if k < n {
      assert Popped(lanes, k)[..n] == Popped(lanes[..n], k);
      CountPopped(lanes[..n], k);
    } else {
      assert Popped(lanes, k)[..n] == lanes[..n];
    }
  }

  /** Always the smallest head next. */
  function Merge(lanes: seq<seq<Frame>>): seq<Frame>
    decreases Count(lanes)
  {
    var k := Next(lanes, |lanes|);
    if k < 0 then [] else CountPopped(lanes, k); [lanes[k][0]] + Merge(Popped(lanes, k))
  }

  // ---- The merge loses nothing and orders everything ---------------------------------------------

  function AllFrames(lanes: seq<seq<Frame>>): multiset<Frame>
  {
    if |lanes| == 0 then multiset{} else AllFrames(lanes[..|lanes| - 1]) + multiset(lanes[|lanes| - 1])
  }

  lemma {:induction false} AllPopped(lanes: seq<seq<Frame>>, k: nat)
    requires k < |lanes| && |lanes[k]| > 0
    ensures AllFrames(lanes) == multiset{lanes[k][0]} + AllFrames(Popped(lanes, k))
  {
    var n := |lanes| - 1;
    if k < n {
      assert Popped(lanes, k)[..n] == Popped(lanes[..n], k);
      AllPopped(lanes[..n], k);
    } else {
      assert Popped(lanes, k)[..n] == lanes[..n];
      assert lanes[k] == [lanes[k][0]] + lanes[k][1..];
    }
  }

  lemma {:induction false} NoFrames(lanes: seq<seq<Frame>>)
    requires forall j :: 0 <= j < |lanes| ==> |lanes[j]| == 0
    ensures AllFrames(lanes) == multiset{}
  {
    if |lanes| > 0 {
      NoFrames(lanes[..|lanes| - 1]);
      assert lanes[|lanes| - 1] == [];
    }
  }

  lemma {:induction false} MergeConserves(lanes: seq<seq<Frame>>)
    ensures multiset(Merge(lanes)) == AllFrames(lanes)
    decreases Count(lanes)
  {
    hide AllFrames;
    var k := Next(lanes, |lanes|);
    NextMeaning(lanes, |lanes|);
    if k < 0 {
      NoFrames(lanes);
    } else {
      CountPopped(lanes, k);
      MergeConserves(Popped(lanes, k));
      AllPopped(lanes, k);
    }
  }

  predicate Ordered(frames: seq<Frame>)
  {
    forall i, j :: 0 <= i < j < |frames| ==> frames[i].number <= frames[j].number
  }

  predicate AllFrom(frames: seq<Frame>, low: nat)
  {
    forall i :: 0 <= i < |frames| ==> low <= frames[i].number
  }

  predicate LanesOrdered(lanes: seq<seq<Frame>>)
  {
    forall j :: 0 <= j < |lanes| ==> Ordered(lanes[j])
  }

  lemma OrderedTail(frames: seq<Frame>)
    requires Ordered(frames) && |frames| > 0
    ensures Ordered(frames[1..]) && AllFrom(frames, frames[0].number)
  {
  }

  /** If every shard is in order, so is the merge, ties or not. */
  lemma {:induction false} MergeOrders(lanes: seq<seq<Frame>>, low: nat)
    requires LanesOrdered(lanes) && forall j :: 0 <= j < |lanes| && |lanes[j]| > 0 ==> low <= lanes[j][0].number
    ensures Ordered(Merge(lanes)) && AllFrom(Merge(lanes), low)
    decreases Count(lanes)
  {
    var k := Next(lanes, |lanes|);
    if k >= 0 {
      NextMeaning(lanes, |lanes|);
      CountPopped(lanes, k);
      OrderedTail(lanes[k]);
      var head: Frame, rest: seq<seq<Frame>> := lanes[k][0], Popped(lanes, k);
      forall j | 0 <= j < |rest| && |rest[j]| > 0
        ensures head.number <= rest[j][0].number
      {
        assert j == k ==> rest[j][0] == lanes[k][1];
      }
      MergeOrders(rest, head.number);
      MergeUnfold(lanes, k);
    }
  }

  lemma MergeUnfold(lanes: seq<seq<Frame>>, k: int)
    requires k == Next(lanes, |lanes|)
    ensures k < 0 ==> Merge(lanes) == []
    ensures k >= 0 ==> Merge(lanes) == [lanes[k][0]] + Merge(Popped(lanes, k))
    ensures k >= 0 ==> Rows(Merge(lanes)) == lanes[k][0].rows + Rows(Merge(Popped(lanes, k)))
  {
    if k >= 0 {
      CountPopped(lanes, k);
      assert Merge(lanes)[1..] == Merge(Popped(lanes, k));
    }
  }

  /** A frame number stands for one frame. */
  ghost predicate NumbersTell(m: multiset<Frame>)
  {
    forall f, g :: f in m && g in m && f.number == g.number ==> f == g
  }

  lemma HeadRemoved(a: seq<Frame>)
    requires |a| > 0
    ensures multiset(a) == multiset{a[0]} + multiset(a[1..]) && a[0] in multiset(a)
  {
    assert a == [a[0]] + a[1..];
  }

  lemma CancelHead(f: Frame, a: multiset<Frame>, b: multiset<Frame>)
    requires multiset{f} + a == multiset{f} + b
    ensures a == b
  {
    assert a == (multiset{f} + a) - multiset{f};
    assert b == (multiset{f} + b) - multiset{f};
  }

  lemma HeadIsLeast(b: seq<Frame>, f: Frame)
    requires Ordered(b) && f in multiset(b)
    ensures |b| > 0 && b[0].number <= f.number
  {
    var k :| 0 <= k < |b| && b[k] == f;
  }

  lemma SameHead(a: seq<Frame>, b: seq<Frame>)
    requires multiset(a) == multiset(b) && Ordered(a) && Ordered(b) && NumbersTell(multiset(a)) && |a| > 0 && |b| > 0
    ensures a[0] == b[0] && multiset(a[1..]) == multiset(b[1..])
  {
    hide Ordered;
    HeadRemoved(a);
    HeadRemoved(b);
    HeadIsLeast(b, a[0]);
    HeadIsLeast(a, b[0]);
    CancelHead(a[0], multiset(a[1..]), multiset(b[1..]));
  }

  lemma {:induction false} OrderedUnique(a: seq<Frame>, b: seq<Frame>)
    requires multiset(a) == multiset(b) && Ordered(a) && Ordered(b) && NumbersTell(multiset(a))
    ensures a == b
    decreases |a|
  {
    hide NumbersTell, Ordered;
    SameSize(a, b);
    if |a| > 0 {
      SameHead(a, b);
      OrderedTail(a);
      OrderedTail(b);
      TellTail(a);
      OrderedUnique(a[1..], b[1..]);
      Rejoin(a, b);
    }
  }

  lemma SameSize(a: seq<Frame>, b: seq<Frame>)
    requires multiset(a) == multiset(b)
    ensures |a| == |b|
  {
    assert |a| == |multiset(a)| && |b| == |multiset(b)|;
  }

  lemma Rejoin(a: seq<Frame>, b: seq<Frame>)
    requires |a| > 0 && |b| > 0 && a[0] == b[0] && a[1..] == b[1..]
    ensures a == b
  {
    assert a == [a[0]] + a[1..] && b == [b[0]] + b[1..];
  }

  lemma TellTail(a: seq<Frame>)
    requires NumbersTell(multiset(a)) && |a| > 0
    ensures NumbersTell(multiset(a[1..]))
  {
    HeadRemoved(a);
  }

  lemma {:induction false} ReadableAll(frames: seq<Frame>)
    requires forall k :: 0 <= k < |frames| ==> |frames[k].rows| > 0
    ensures Readable(frames) == frames
  {
    if |frames| > 0 {
      ReadableAll(frames[1..]);
    }
  }

  /** A log without empty frames, whose shards are each in order, gives back all of its frames in the one order that
      their numbers say, however they were spread over the shards. */
  lemma AllInOrder(streams: seq<seq<Frame>>, all: seq<Frame>)
    requires forall i, k :: 0 <= i < |streams| && 0 <= k < |streams[i]| ==> |streams[i][k].rows| > 0
    requires LanesOrdered(streams) && Ordered(all) && multiset(all) == AllFrames(streams) && NumbersTell(multiset(all))
    ensures Merge(ReadableLanes(streams)) == all
  {
    hide NumbersTell, AllFrames, Merge, Readable, Ordered;
    forall i | 0 <= i < |streams|
      ensures Readable(streams[i]) == streams[i]
    {
      ReadableAll(streams[i]);
    }
    assert ReadableLanes(streams) == streams;
    MergeConserves(streams);
    MergeOrders(streams, 0);
    OrderedUnique(Merge(streams), all);
  }

  // ---- The reader --------------------------------------------------------------------------------

  datatype Buffer = Buffer(pos: nat, ok: bool, frame: Frame)
  {
    /** The frames that the buffer and the stream behind it still hold. */
    function Lane(stream: seq<Frame>): seq<Frame>
    {
      if ok then Readable([frame] + stream) else []
    }
  }

  function Lanes(queue: seq<Buffer>, streams: seq<seq<Frame>>): (lanes: seq<seq<Frame>>)
    requires |queue| == |streams|
    ensures |lanes| == |queue| && forall i :: 0 <= i < |queue| ==> lanes[i] == queue[i].Lane(streams[i])
  {
    seq(|queue|, i requires 0 <= i < |queue| => queue[i].Lane(streams[i]))
  }

  function ReadableLanes(streams: seq<seq<Frame>>): (lanes: seq<seq<Frame>>)
    ensures |lanes| == |streams| && forall i :: 0 <= i < |streams| ==> lanes[i] == Readable(streams[i])
  {
    seq(|streams|, i requires 0 <= i < |streams| => Readable(streams[i]))
  }

  /** `InputLog::read_next_frame`, into a fresh buffer. */
  function Filled(stream: seq<Frame>): Buffer
  {
    if |stream| == 0 then Buffer(0, false, Frame(0, [])) else Buffer(0, true, stream[0])
  }

  function Behind(stream: seq<Frame>): seq<Frame>
  {
    if |stream| == 0 then [] else stream[1..]
  }

  lemma FilledLane(stream: seq<Frame>)
    ensures Filled(stream).Lane(Behind(stream)) == Readable(stream)
  {
    if |stream| > 0 {
      assert [stream[0]] + stream[1..] == stream;
    }
  }

  lemma LaneHead(b: Buffer, stream: seq<Frame>)
    ensures |b.Lane(stream)| > 0 <==> b.ok && |b.frame.rows| != 0
    ensures |b.Lane(stream)| > 0 ==> b.Lane(stream)[0] == b.frame && b.Lane(stream)[1..] == Readable(stream)
  {
    assert ([b.frame] + stream)[1..] == stream;
  }

  lemma NextBuffer(queue: seq<Buffer>, streams: seq<seq<Frame>>, n: nat)
    requires |queue| == |streams| && n < |queue|
    ensures var lanes := Lanes(queue, streams);
            var k := Next(lanes, n);
            Next(lanes, n + 1) ==
              if queue[n].ok && |queue[n].frame.rows| != 0 &&
                  (k < 0 || queue[n].frame.number < queue[k].frame.number) then n else k
  {
    hide Readable;
    var lanes := Lanes(queue, streams);
    var k := Next(lanes, n);
    LaneHead(queue[n], streams[n]);
    if k >= 0 {
      LaneHead(queue[k], streams[k]);
    }
  }

  lemma RefilledLanes(queue: seq<Buffer>, streams: seq<seq<Frame>>, k: nat)
    requires |queue| == |streams| && k < |queue| && |Lanes(queue, streams)[k]| > 0
    ensures Lanes(queue[k := Filled(streams[k])], streams[k := Behind(streams[k])]) == Popped(Lanes(queue, streams), k)
  {
    hide Readable;
    FilledLane(streams[k]);
    LaneHead(queue[k], streams[k]);
  }

  /** The rows still to come: what is left of the current frame, then the merge of everything else. */
  function PendingRows(queue: seq<Buffer>, streams: seq<seq<Frame>>, ix: int): seq<Row>
    requires |queue| == |streams|
    requires ix >= 0 ==> ix < |queue| && |Lanes(queue, streams)[ix]| > 0 && queue[ix].pos <= |queue[ix].frame.rows|
  {
    if ix < 0 then Rows(Merge(Lanes(queue, streams)))
    else queue[ix].frame.rows[queue[ix].pos..] + Rows(Merge(Popped(Lanes(queue, streams), ix)))
  }

  /** Choosing a buffer at position 0 changes nothing. */
  lemma ChosenRows(queue: seq<Buffer>, streams: seq<seq<Frame>>, ix: int)
    requires |queue| == |streams| && ix == Next(Lanes(queue, streams), |queue|)
    requires ix >= 0 ==> queue[ix].pos == 0
    ensures PendingRows(queue, streams, ix) == Rows(Merge(Lanes(queue, streams)))
    ensures ix < 0 ==> PendingRows(queue, streams, ix) == []
  {
    MergeUnfold(Lanes(queue, streams), ix);
    if ix >= 0 {
      LaneHead(queue[ix], streams[ix]);
      assert queue[ix].frame.rows[0..] == queue[ix].frame.rows;
    }
  }

  lemma MovedOn(queue: seq<Buffer>, streams: seq<seq<Frame>>, ix: nat, pos: nat)
    requires |queue| == |streams| && ix < |queue| && |Lanes(queue, streams)[ix]| > 0
    requires queue[ix].pos <= pos <= |queue[ix].frame.rows|
    ensures Lanes(queue[ix := queue[ix].(pos := pos)], streams) == Lanes(queue, streams)
    ensures PendingRows(queue, streams, ix) ==
            queue[ix].frame.rows[queue[ix].pos..pos] + PendingRows(queue[ix := queue[ix].(pos := pos)], streams, ix)
  {
    hide Readable, Merge, Rows;
    var queue' := queue[ix := queue[ix].(pos := pos)];
    assert Lanes(queue', streams) == Lanes(queue, streams);
    var rows, rest := queue[ix].frame.rows, Rows(Merge(Popped(Lanes(queue, streams), ix)));
    assert rows[queue[ix].pos..] + rest == rows[queue[ix].pos..pos] + (rows[pos..] + rest);
  }

  lemma Regroup(a: seq<Row>, b: seq<Row>, c: seq<Row>)
    ensures a + (b + c) == (a + b) + c
  {
  }

  const MAX_U32: nat := 0xFFFF_FFFF

  class ShardedInputLog {
    var streams: seq<seq<Frame>>
    var readQueue: seq<Buffer>
    var readStarted: bool
    var bufferIx: int

    ghost predicate Valid()
      reads this
    {
      && (readStarted ==> |readQueue| == |streams|)
      && (!readStarted ==> bufferIx == -1)
      && (bufferIx >= 0 ==> CurrentOk())
      && (readStarted ==> forall i :: 0 <= i < |readQueue| && i != bufferIx ==> readQueue[i].pos == 0)
    }

    ghost predicate CurrentOk()
      reads this
    {
      && |readQueue| == |streams| && 0 <= bufferIx < |readQueue|
      && |Lanes(readQueue, streams)[bufferIx]| > 0 && readQueue[bufferIx].pos <= |readQueue[bufferIx].frame.rows|
    }

    /** The rows that reading on to the end will return. */
    ghost function Pending(): seq<Row>
      requires Valid()
      reads this
    {
      if readStarted then PendingRows(readQueue, streams, bufferIx) else Rows(Merge(ReadableLanes(streams)))
    }

    constructor (shards: seq<seq<Frame>>)
      ensures Valid() && Pending() == Rows(Merge(ReadableLanes(shards)))
    {
      streams := shards;
      readQueue := [];
      readStarted := false;
      bufferIx := -1;
    }

    method InitReadBuffers()
      requires Valid() && !readStarted
      modifies this
      ensures Valid() && readStarted && bufferIx == -1 && Pending() == old(Pending())
    {
      hide Readable, Merge, Rows;
      ghost var was := streams;
      readQueue := [];
      for i := 0 to |streams|
        invariant bufferIx == -1 && !readStarted
        invariant |streams| == |was| && |readQueue| == i
        invariant forall j :: 0 <= j < i ==> readQueue[j] == Filled(was[j]) && streams[j] == Behind(was[j])
        invariant forall j :: i <= j < |was| ==> streams[j] == was[j]
      {
        readQueue := readQueue + [Filled(streams[i])];
        streams := streams[i := Behind(streams[i])];
      }
      readStarted := true;
      forall j | 0 <= j < |was|
        ensures Lanes(readQueue, streams)[j] == Readable(was[j])
      {
        FilledLane(was[j]);
      }
      assert Lanes(readQueue, streams) == ReadableLanes(was);
    }

    /** The buffer with the smallest sequence number; -1 when all are done. */
    method ChooseNext() returns (res: int)
      requires Valid() && readStarted
      ensures res == Next(Lanes(readQueue, streams), |readQueue|)
      ensures res >= 0 ==> res < |readQueue|
    {
      var queue := readQueue;
      ghost var rest := streams;
      ghost var lanes := Lanes(queue, rest);
      var ixstart := 0;
      assert Next(lanes, 0) == -1;
      hide *;
      while ixstart < |queue| && !(queue[ixstart].ok && |queue[ixstart].frame.rows| != 0)
        invariant ixstart <= |queue| && Next(lanes, ixstart) == -1
      {
        NextBuffer(queue, rest, ixstart);
        ixstart := ixstart + 1;
      }
      if ixstart == |queue| {
        return -1;
      }
      NextBuffer(queue, rest, ixstart);
      res := ixstart;
      for ix := ixstart + 1 to |queue|
        invariant ixstart <= res < ix && res == Next(lanes, ix)
      {
        NextBuffer(queue, rest, ix);
        if queue[ix].ok && |queue[ix].frame.rows| != 0 && queue[ix].frame.number < queue[res].frame.number {
          res := ix;
        }
      }
    }

    method RefillBuffer(ix: nat)
      requires Valid() && readStarted && ix == bufferIx && readQueue[ix].pos == |readQueue[ix].frame.rows|
      modifies `streams, `readQueue
      ensures |readQueue| == |streams| && forall i :: 0 <= i < |readQueue| ==> readQueue[i].pos == 0
      ensures Rows(Merge(Lanes(readQueue, streams))) == old(Pending())
    {
      hide Readable, Merge, Rows, Lanes;
      RefilledLanes(readQueue, streams, ix);
      readQueue := readQueue[ix := Filled(streams[ix])];
      streams := streams[ix := Behind(streams[ix])];
      assert old(readQueue[ix].frame.rows[readQueue[ix].pos..]) == [];
    }

    /** Make `choose_next`'s answer the current buffer. */
    method Advance()
      requires readStarted && |readQueue| == |streams| && forall i :: 0 <= i < |readQueue| ==> readQueue[i].pos == 0
      modifies `bufferIx
      ensures Valid() && Pending() == old(Rows(Merge(Lanes(readQueue, streams))))
      ensures bufferIx < 0 ==> Pending() == []
      ensures bufferIx >= 0 ==> readQueue[bufferIx].pos < |readQueue[bufferIx].frame.rows|
    {
      hide Merge, Rows;
      bufferIx := -1;
      bufferIx := ChooseNext();
      if bufferIx >= 0 {
        LaneHead(readQueue[bufferIx], streams[bufferIx]);
      }
      ChosenRows(readQueue, streams, bufferIx);
    }

    method CopyOut(left: nat) returns (rows: seq<Row>)
      requires Valid() && bufferIx >= 0 && left > 0 && readQueue[bufferIx].pos < |readQueue[bufferIx].frame.rows|
      modifies `readQueue
      ensures Valid() && 0 < |rows| <= left && rows + Pending() == old(Pending())
      ensures |readQueue| == old(|readQueue|)
      ensures readQueue[bufferIx].frame == old(readQueue[bufferIx].frame) &&
              readQueue[bufferIx].pos > old(readQueue[bufferIx].pos)
    {
      hide Readable, Merge, Rows, Lanes;
      var buffer := readQueue[bufferIx];
      var toread := if |buffer.frame.rows| - buffer.pos < left then |buffer.frame.rows| - buffer.pos else left;
      MovedOn(readQueue, streams, bufferIx, buffer.pos + toread);
      rows := buffer.frame.rows[buffer.pos..buffer.pos + toread];
      readQueue := readQueue[bufferIx := buffer.(pos := buffer.pos + toread)];
    }

    predicate Exhausted()
      reads this
    {
      0 <= bufferIx < |readQueue| && readQueue[bufferIx].pos >= |readQueue[bufferIx].frame.rows|
    }

    method Start()
      requires Valid()
      modifies this
      ensures Valid() && readStarted && Pending() == old(Pending())
      ensures bufferIx < 0 ==> Pending() == []
    {
      hide Readable, Merge, Rows, Lanes;
      if !readStarted {
        InitReadBuffers();
      }
      if bufferIx < 0 {
        Advance();
      }
    }

    /** `read_next`: the next rows, as many as asked for unless the log ends. */
    method ReadNext(bufferSize: nat) returns (noData: bool, rows: seq<Row>)
      requires Valid()
      modifies this
      ensures Valid() && rows + Pending() == old(Pending())
      ensures |rows| <= Min(bufferSize, MAX_U32) && (|rows| < Min(bufferSize, MAX_U32) ==> Pending() == [])
      ensures bufferSize > 0 ==> (noData <==> |rows| < Min(bufferSize, MAX_U32))
    {
      hide Readable, Merge, Rows, Lanes, PendingRows;
      noData, rows := false, [];
      var left: nat := Min(bufferSize, MAX_U32);
      Start();
      if bufferIx < 0 {
        noData := true;
        return;
      }
      while bufferIx >= 0 && left > 0
        invariant Valid() && readStarted && !noData && bufferIx >= 0
        invariant rows + Pending() == old(Pending()) && |rows| + left == Min(bufferSize, MAX_U32)
        decreases |Pending()|, Exhausted()
      {
        if readQueue[bufferIx].pos < |readQueue[bufferIx].frame.rows| {
          var more := CopyOut(left);
          Regroup(rows, more, Pending());
          rows := rows + more;
          left := left - |more|;
        } else {
          RefillBuffer(bufferIx);
          Advance();
          if bufferIx < 0 {
            noData := true;
            break;
          }
        }
      }
    }
  }

  function Min(a: nat, b: nat): nat
  {
    if a < b then a else b
  }

  function Sum(sizes: seq<nat>): nat
  {
    if |sizes| == 0 then 0 else Sum(sizes[..|sizes| - 1]) + Min(sizes[|sizes| - 1], MAX_U32)
  }

  /** Whatever the sizes of the buffers, reading returns the same rows in the same order. */
  method ReadMany(log: ShardedInputLog, sizes: seq<nat>) returns (rows: seq<Row>)
    requires log.Valid()
    modifies log
    ensures log.Valid() && rows + log.Pending() == old(log.Pending())
    ensures |rows| == Min(Sum(sizes), |old(log.Pending())|)
  {
    ghost var all := log.Pending();
    ghost var rest := all;
    NothingTaken(|all|);
    hide *;
    rows := [];
    assert sizes[..0] == [];
    for i := 0 to |sizes|
      invariant log.Valid() && rest == log.Pending() && rows + rest == all && |rows| == Min(Sum(sizes[..i]), |all|)
    {
      var noData, more := log.ReadNext(sizes[i]);
      rest := log.Pending();
      Regroup(rows, more, rest);
      SumMore(sizes, i);
      Taken(Sum(sizes[..i]), |all|, Min(sizes[i], MAX_U32), |rows|, |more|, |rest|);
      rows := rows + more;
    }
    assert sizes[..|sizes|] == sizes;
  }

  lemma SumMore(sizes: seq<nat>, i: nat)
    requires i < |sizes|
    ensures Sum(sizes[..i + 1]) == Sum(sizes[..i]) + Min(sizes[i], MAX_U32)
  {
    assert sizes[..i + 1][..i] == sizes[..i];
  }

  lemma NothingTaken(all: nat)
    ensures Min(Sum([]), all) == 0
  {
  }

  lemma Taken(asked: nat, all: nat, size: nat, had: nat, more: nat, left: nat)
    requires had == Min(asked, all) && had + more + left == all && more <= size && (more < size ==> left == 0)
    ensures had + more == Min(asked + size, all)
  {
  }
}
