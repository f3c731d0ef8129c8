/** Writing the sharded input log (`LZ4Volume` and `ShardedInputLog`, storage/input_log.cc), and what recovery
    reads back. Every frame of every shard gets the next number of one shared sequencer. */
module LogWriter {
  import opened Bytes
  import opened InputLog
  import LogFrame

  const NUM_TUPLES: nat := 340

  datatype Kind = EMPTY | DATA_ENTRY | SNAME_ENTRY | RECOVERY_ENTRY

  /** The open frame of a shard, and the frames already on disk. */
  datatype Shard = Shard(kind: Kind, open: seq<Row>, written: seq<Frame>)

  function KindOf(row: Row): Kind
  {
    match row.payload
    case DataPoint(_, _) => DATA_ENTRY
    case SeriesName(_) => SNAME_ENTRY
    case RecoveryInfo(_) => RECOVERY_ENTRY
  }

  function Blob(row: Row): seq<Byte>
  {
    match row.payload
    case DataPoint(_, _) => []
    case SeriesName(name) => name
    case RecoveryInfo(points) => LogFrame.WordBytes(points)
  }

  /** The rows of a name or recovery frame as the entries of a flexible frame. */
  function Entries(rows: seq<Row>): (es: seq<LogFrame.Entry>)
    ensures |es| == |rows|
  {
    seq(|rows|, i requires 0 <= i < |rows| => LogFrame.Entry(rows[i].id, Blob(rows[i])))
  }

  /** The bytes of the blobs. */
  function BlobBytes(rows: seq<Row>): nat
  {
    if |rows| == 0 then 0 else BlobBytes(rows[..|rows| - 1]) + |Blob(rows[|rows| - 1])|
  }

  /** Another blob of `len` bytes goes into a flexible frame: by the count of the blobs, and 16 bytes for every row, for
      the new one and for one more. */
  predicate CanWrite(open: seq<Row>, len: nat)
  {
    if open == [] then len <= 8152 else len == 0 || BlobBytes(open) + len + 16 * (|open| + 2) <= 8168
  }

  lemma {:induction false} BlobTotal(rows: seq<Row>)
    ensures BlobBytes(rows) == LogFrame.Total(Entries(rows))
  {
    if |rows| > 0 {
      var n := |rows| - 1;
      BlobTotal(rows[..n]);
      assert Entries(rows)[..n] == Entries(rows[..n]);
    }
  }

  /** This is the guard of the frame that holds the rows. */
  lemma SameGuard(open: seq<Row>, len: nat)
    ensures CanWrite(open, len) <==> LogFrame.CanWrite(LogFrame.Total(Entries(open)), |open|, len)
  {
    BlobTotal(open);
    LogFrame.GuardCount(LogFrame.Total(Entries(open)), |open|, len);
  }

  predicate OpenOk(kind: Kind, open: seq<Row>)
  {
    && (forall i :: 0 <= i < |open| ==> KindOf(open[i]) == kind)
    && (kind.DATA_ENTRY? ==> |open| < NUM_TUPLES)
    && CanTakeMore(kind, open) && (kind != DATA_ENTRY ==> Admitted(open))
  }

  /** The rows of a flexible frame that was filled one blob after the other: each was let through by the guard, while
      the frame could still take the threshold. */
  predicate Admitted(rows: seq<Row>)
  {
    |rows| == 0 ||
    (var n := |rows| - 1;
     Admitted(rows[..n]) && CanWrite(rows[..n], LogFrame.SIZE_THRESHOLD) && CanWrite(rows[..n], |Blob(rows[n])|))
  }

  /** The rows of one frame: of one type, and no more than it takes. */
  predicate Writable(rows: seq<Row>)
  {
    exists kind :: RowsOf(kind, rows)
  }

  predicate RowsOf(kind: Kind, rows: seq<Row>)
  {
    && (forall i :: 0 <= i < |rows| ==> KindOf(rows[i]) == kind)
    && if kind == DATA_ENTRY then |rows| <= NUM_TUPLES else Admitted(rows)
  }

  lemma OpenWritable(kind: Kind, open: seq<Row>)
    requires OpenOk(kind, open)
    ensures Writable(open)
  {
    assert RowsOf(kind, open);
  }

  lemma OneMoreWritable(kind: Kind, open: seq<Row>, row: Row)
    requires OpenOk(kind, open) && KindOf(row) == kind && (kind != DATA_ENTRY ==> CanWrite(open, |Blob(row)|))
    ensures Writable(open + [row]) && (kind != DATA_ENTRY ==> Admitted(open + [row]))
  {
    hide CanWrite;
    assert (open + [row])[..|open|] == open;
    assert RowsOf(kind, open + [row]);
  }

  /** Between appends a flexible frame can take at least the threshold. */
  predicate CanTakeMore(kind: Kind, open: seq<Row>)
  {
    kind.SNAME_ENTRY? || kind.RECOVERY_ENTRY? ==> CanWrite(open, LogFrame.SIZE_THRESHOLD)
  }

  lemma EmptyFrameTakes(kind: Kind)
    ensures OpenOk(kind, []) && forall len :: 0 <= len <= 8152 ==> CanWrite([], len)
  {
  }

  lemma NoRowsYet(kind: Kind, open: seq<Row>)
    requires OpenOk(kind, open)
    ensures kind.EMPTY? ==> open == []
  {
    if |open| > 0 {
      assert KindOf(open[0]) == kind;
    }
  }

  /** The open frame after an append: the rows that were not flushed, with its type. */
  function NextOpen(kind: Kind, open: seq<Row>, row: Row): (Kind, seq<Row>)
  {
    var k := KindOf(row);
    var kept := if kind == EMPTY || kind == k then open else [];
    if k == DATA_ENTRY then
      if |kept| + 1 == NUM_TUPLES then (EMPTY, []) else (k, kept + [row])
    else
      var room := if CanWrite(kept, |Blob(row)|) then kept else [];
      (k, if CanWrite(room + [row], LogFrame.SIZE_THRESHOLD) then room + [row] else [])
  }

  /** How many frames an append writes: one for a change of type, one when the blob is not let through, and one when the
      frame has become full. A frame of data points is full with 340 of them, and another one when the blobs and 16
      bytes a row leave fewer than 64 bytes, 16 for an index entry and 16 more. */
  function Flushes(kind: Kind, open: seq<Row>, row: Row): nat
  {
    var k := KindOf(row);
    var first, kept := if kind in {EMPTY, k} then 0 else 1, if kind in {EMPTY, k} then open else [];
    if k == DATA_ENTRY then first + if |kept| == 339 then 1 else 0
    else
      var len := |Blob(row)|;
      var refused := kept != [] && len > 0 && BlobBytes(kept) + len + 16 * |kept| > 8168 - 32;
      var bytes, rows := len + if refused then 0 else BlobBytes(kept), 1 + if refused then 0 else |kept|;
      first + (if refused then 1 else 0) + if bytes + 16 * rows > 8168 - 32 - 64 then 1 else 0
  }

  /** A change of type comes first, and the rest is as on a frame of the right type. */
  lemma TypeFirst(kind: Kind, open: seq<Row>, row: Row)
    ensures var k := KindOf(row);
            if kind in {EMPTY, k}
            then NextOpen(kind, open, row) == NextOpen(k, open, row) &&
                 Flushes(kind, open, row) == Flushes(k, open, row)
            else NextOpen(kind, open, row) == NextOpen(k, [], row) &&
                 Flushes(kind, open, row) == 1 + Flushes(k, [], row)
  {
    hide CanWrite, BlobBytes, Blob;
  }

  lemma FlushesOfBlob(open: seq<Row>, row: Row)
    requires KindOf(row) != DATA_ENTRY
    ensures var room := if CanWrite(open, |Blob(row)|) then open else [];
            Flushes(KindOf(row), open, row) == (if CanWrite(open, |Blob(row)|) || open == [] then 0 else 1) +
                if CanWrite(room + [row], LogFrame.SIZE_THRESHOLD) then 0 else 1
  {
    hide Blob;
    BlobSnoc(open, row);
    BlobSnoc([], row);
    assert BlobBytes([]) == 0;
  }

  lemma BlobSnoc(rows: seq<Row>, row: Row)
    ensures BlobBytes(rows + [row]) == BlobBytes(rows) + |Blob(row)|
  {
    assert (rows + [row])[..|rows|] == rows;
  }

  // ---- Which shard wrote which frame -------------------------------------------------------------

  /** The frames of shard `i`, in the order they were written. */
  function Split(history: seq<Frame>, owners: seq<nat>, i: nat): seq<Frame>
    requires |history| == |owners|
  {
    if |history| == 0 then []
    else (if owners[0] == i then [history[0]] else []) + Split(history[1..], owners[1..], i)
  }

  lemma {:induction false} SplitSnoc(history: seq<Frame>, owners: seq<nat>, f: Frame, o: nat, i: nat)
    requires |history| == |owners|
    ensures Split(history + [f], owners + [o], i) == Split(history, owners, i) + if o == i then [f] else []
  {
    if |history| > 0 {
      assert (history + [f])[1..] == history[1..] + [f] && (owners + [o])[1..] == owners[1..] + [o];
      SplitSnoc(history[1..], owners[1..], f, o, i);
    } else {
      assert (history + [f])[1..] == [] && (owners + [o])[1..] == [];
      assert Split([], [], i) == [];
    }
  }

  predicate Numbered(history: seq<Frame>, base: nat)
  {
    forall k :: 0 <= k < |history| ==> history[k].number == base + k
  }

  lemma {:induction false} SplitNumbers(history: seq<Frame>, owners: seq<nat>, base: nat, i: nat)
    requires |history| == |owners| && Numbered(history, base)
    ensures AllFrom(Split(history, owners, i), base)
  {
    if |history| > 0 {
      SplitNumbers(history[1..], owners[1..], base + 1, i);
    }
  }

  lemma {:induction false} ReadableHead(frames: seq<Frame>)
    ensures |Readable(frames)| > 0 ==> |frames| > 0 && Readable(frames)[0] == frames[0]
  {
  }

  // ---- Recovery reads the surviving frames in the order they were written ------------------------

  /** The frames that come before the first empty frame of their own shard. */
  function Survivors(history: seq<Frame>, owners: seq<nat>, dead: set<nat>): seq<Frame>
    requires |history| == |owners|
  {
    if |history| == 0 then []
    else if owners[0] in dead || |history[0].rows| == 0 then Survivors(history[1..], owners[1..], dead + {owners[0]})
    else [history[0]] + Survivors(history[1..], owners[1..], dead)
  }

  function LaneOf(history: seq<Frame>, owners: seq<nat>, dead: set<nat>, i: nat): seq<Frame>
    requires |history| == |owners|
  {
    if i in dead then [] else Readable(Split(history, owners, i))
  }

  function LanesOf(history: seq<Frame>, owners: seq<nat>, dead: set<nat>, n: nat): (lanes: seq<seq<Frame>>)
    requires |history| == |owners|
    ensures |lanes| == n && forall i :: 0 <= i < n ==> lanes[i] == LaneOf(history, owners, dead, i)
  {
    seq(n, i requires 0 <= i < n => LaneOf(history, owners, dead, i))
  }

  lemma LaneStep(history: seq<Frame>, owners: seq<nat>, dead: set<nat>, i: nat)
    requires |history| == |owners| && |history| > 0
    ensures var lane, o := LaneOf(history, owners, dead, i), owners[0];
            if o in dead || |history[0].rows| == 0 then lane == LaneOf(history[1..], owners[1..], dead + {o}, i)
            else if i == o then lane == [history[0]] + LaneOf(history[1..], owners[1..], dead, i)
            else lane == LaneOf(history[1..], owners[1..], dead, i)
  {
    var rest := Split(history[1..], owners[1..], i);
    if owners[0] == i {
      assert ([history[0]] + rest)[1..] == rest;
    } else {
      assert [] + rest == rest;
    }
  }

  lemma {:induction false} MergeIsSurvivors(history: seq<Frame>, owners: seq<nat>, dead: set<nat>, n: nat, base: nat)
    requires |history| == |owners| && Numbered(history, base) && forall k :: 0 <= k < |owners| ==> owners[k] < n
    ensures Merge(LanesOf(history, owners, dead, n)) == Survivors(history, owners, dead)
    decreases |history|
  {
    hide Readable, Split, Merge, LaneOf;
    var lanes := LanesOf(history, owners, dead, n);
    if |history| == 0 {
      NoLanes(owners, dead, n);
    } else {
      var h, os, o := history[1..], owners[1..], owners[0];
      forall i | 0 <= i < n
        ensures if o in dead || |history[0].rows| == 0 then lanes[i] == LaneOf(h, os, dead + {o}, i)
                else if i == o then lanes[i] == [history[0]] + LaneOf(h, os, dead, i)
                else lanes[i] == LaneOf(h, os, dead, i)
      {
        LaneStep(history, owners, dead, i);
      }
      if o in dead || |history[0].rows| == 0 {
        assert lanes == LanesOf(h, os, dead + {o}, n);
        MergeIsSurvivors(h, os, dead + {o}, n, base + 1);
      } else {
        FirstIsNext(history, owners, dead, n, base);
        MergeUnfold(lanes, o);
        assert ([history[0]] + LaneOf(h, os, dead, o))[1..] == LaneOf(h, os, dead, o);
        assert Popped(lanes, o) == LanesOf(h, os, dead, n);
        MergeIsSurvivors(h, os, dead, n, base + 1);
      }
    }
  }

  lemma NoLanes(owners: seq<nat>, dead: set<nat>, n: nat)
    requires |owners| == 0
    ensures Merge(LanesOf([], owners, dead, n)) == []
  {
    var lanes := LanesOf([], owners, dead, n);
    NextMeaning(lanes, n);
  }

  lemma FirstIsNext(history: seq<Frame>, owners: seq<nat>, dead: set<nat>, n: nat, base: nat)
    requires |history| == |owners| && |history| > 0 && Numbered(history, base) && owners[0] < n
    requires owners[0] !in dead && |history[0].rows| != 0
    ensures Next(LanesOf(history, owners, dead, n), n) == owners[0]
  {
    var lanes: seq<seq<Frame>> := LanesOf(history, owners, dead, n);
    var o := owners[0];
    LaneStep(history, owners, dead, o);
    forall j | 0 <= j < n && |lanes[j]| > 0
      ensures lanes[o][0].number <= lanes[j][0].number && (j != o ==> lanes[o][0].number < lanes[j][0].number)
    {
      if j != o {
        LaneStep(history, owners, dead, j);
        ReadableHead(Split(history[1..], owners[1..], j));
        SplitNumbers(history[1..], owners[1..], base + 1, j);
      }
    }
    NextUnique(lanes, o);
  }

  // ---- When recovery is complete -----------------------------------------------------------------

  /** No row follows an empty frame. */
  predicate Clean(frames: seq<Frame>, dead: bool)
  {
    |frames| == 0 || (if |frames[0].rows| == 0 then Clean(frames[1..], true) else !dead && Clean(frames[1..], dead))
  }

  predicate HasEmpty(frames: seq<Frame>)
  {
    exists k :: 0 <= k < |frames| && |frames[k].rows| == 0
  }

  lemma {:induction false} CleanSnoc(frames: seq<Frame>, f: Frame, dead: bool)
    ensures Clean(frames + [f], dead) <==> Clean(frames, dead) && (|f.rows| == 0 || !(dead || HasEmpty(frames)))
  {
    if |frames| > 0 {
      assert (frames + [f])[1..] == frames[1..] + [f] && (frames + [f])[0] == frames[0];
      CleanSnoc(frames[1..], f, dead || |frames[0].rows| == 0);
      HasEmptyCons(frames);
    } else {
      assert (frames + [f])[1..] == [];
    }
  }

  lemma HasEmptyCons(frames: seq<Frame>)
    requires |frames| > 0
    ensures HasEmpty(frames) <==> |frames[0].rows| == 0 || HasEmpty(frames[1..])
  {
    if HasEmpty(frames) && |frames[0].rows| != 0 {
      var k :| 0 <= k < |frames| && |frames[k].rows| == 0;
      assert frames[1..][k - 1] == frames[k];
    }
    if HasEmpty(frames[1..]) {
      var k :| 0 <= k < |frames[1..]| && |frames[1..][k].rows| == 0;
      assert frames[k + 1] == frames[1..][k];
    }
  }

  lemma HasEmptySnoc(frames: seq<Frame>, f: Frame)
    ensures HasEmpty(frames + [f]) <==> HasEmpty(frames) || |f.rows| == 0
  {
    var all := frames + [f];
    if HasEmpty(frames) {
      var k :| 0 <= k < |frames| && |frames[k].rows| == 0;
      assert all[k] == frames[k];
    }
    assert all[|frames|] == f;
  }

  lemma {:induction false} SurvivingRows(history: seq<Frame>, owners: seq<nat>, dead: set<nat>)
    requires |history| == |owners|
    ensures |Rows(Survivors(history, owners, dead))| <= |Rows(history)|
  {
    if |history| > 0 {
      SurvivingRows(history[1..], owners[1..], dead);
      SurvivingRows(history[1..], owners[1..], dead + {owners[0]});
      RowsCons(history[0], Survivors(history[1..], owners[1..], dead));
    }
  }

  lemma RowsCons(f: Frame, frames: seq<Frame>)
    ensures Rows([f] + frames) == f.rows + Rows(frames)
  {
    assert ([f] + frames)[1..] == frames;
  }

  lemma RowsHead(frames: seq<Frame>)
    requires |frames| > 0
    ensures Rows(frames) == frames[0].rows + Rows(frames[1..])
  {
  }

  lemma SurvivorsStep(history: seq<Frame>, owners: seq<nat>, dead: set<nat>)
    requires |history| == |owners| && |history| > 0
    ensures var h, os, o := history[1..], owners[1..], owners[0];
            if o in dead || |history[0].rows| == 0 then Survivors(history, owners, dead) == Survivors(h, os, dead + {o})
            else Rows(Survivors(history, owners, dead)) == history[0].rows + Rows(Survivors(h, os, dead))
  {
    RowsCons(history[0], Survivors(history[1..], owners[1..], dead));
  }

  ghost predicate AllClean(history: seq<Frame>, owners: seq<nat>, dead: set<nat>, n: nat)
    requires |history| == |owners|
  {
    forall i :: 0 <= i < n ==> Clean(Split(history, owners, i), i in dead)
  }

  lemma AllCleanStep(history: seq<Frame>, owners: seq<nat>, dead: set<nat>, n: nat)
    requires |history| == |owners| && |history| > 0 && owners[0] < n
    ensures AllClean(history, owners, dead, n)
       <==> if |history[0].rows| == 0 then AllClean(history[1..], owners[1..], dead + {owners[0]}, n)
            else owners[0] !in dead && AllClean(history[1..], owners[1..], dead, n)
  {
    var h, os, o := history[1..], owners[1..], owners[0];
    forall i | 0 <= i < n
      ensures Clean(Split(history, owners, i), i in dead)
         <==> if |history[0].rows| == 0 then Clean(Split(h, os, i), i in dead + {o})
              else (i == o ==> o !in dead) && Clean(Split(h, os, i), i in dead)
    {
      var rest := Split(h, os, i);
      if i == o {
        assert ([history[0]] + rest)[1..] == rest;
      } else {
        assert [] + rest == rest;
      }
    }
    hide Clean, Split;
    if |history[0].rows| != 0 && AllClean(history, owners, dead, n) {
      assert Clean(Split(history, owners, o), o in dead);
    }
  }

  /** Recovery returns every row that was written if and only if no shard has a row after an empty frame. */
  lemma {:induction false} Complete(history: seq<Frame>, owners: seq<nat>, dead: set<nat>, n: nat)
    requires |history| == |owners| && forall k :: 0 <= k < |owners| ==> owners[k] < n
    ensures Rows(Survivors(history, owners, dead)) == Rows(history) <==> AllClean(history, owners, dead, n)
    decreases |history|
  {
    if |history| > 0 {
      var h, os, o := history[1..], owners[1..], owners[0];
      AllCleanStep(history, owners, dead, n);
      RowsHead(history);
      SurvivorsStep(history, owners, dead);
      hide *;
      if |history[0].rows| == 0 {
        Complete(h, os, dead + {o}, n);
        assert history[0].rows + Rows(h) == Rows(h);
      } else if o in dead {
        SurvivingRows(h, os, dead + {o});
      } else {
        Complete(h, os, dead, n);
        CancelPrefix(history[0].rows, Rows(Survivors(h, os, dead)), Rows(h));
      }
    } else {
      NothingClean(owners, dead, n);
    }
  }

  lemma NothingClean(owners: seq<nat>, dead: set<nat>, n: nat)
    requires |owners| == 0
    ensures AllClean([], owners, dead, n)
  {
  }

  lemma CancelPrefix(p: seq<Row>, a: seq<Row>, b: seq<Row>)
    ensures p + a == p + b <==> a == b
  {
    assert (p + a)[|p|..] == a && (p + b)[|p|..] == b;
  }

  // ---- The writer --------------------------------------------------------------------------------

  /** What every step of the writer keeps for one shard: its frames are its part of the history, and its frames
      and its open frame hold the rows appended to it, in order. */
  ghost predicate ShardOk(s: Shard, lane: seq<Frame>, appended: seq<Row>, tainted: bool)
  {
    s.written == lane && appended == Rows(s.written) + s.open && (tainted <==> HasEmpty(s.written))
  }

  ghost predicate LogOk(shards: seq<Shard>, history: seq<Frame>, owners: seq<nat>, appended: seq<seq<Row>>,
                        tainted: set<nat>)
  {
    && |history| == |owners| && Numbered(history, 0) && |appended| == |shards|
    && (forall k :: 0 <= k < |history| ==> Writable(history[k].rows))
    && (forall k :: 0 <= k < |owners| ==> owners[k] < |shards|)
    && (forall i :: i in tainted ==> i < |shards|)
    && forall i :: 0 <= i < |shards| ==> ShardOk(shards[i], Split(history, owners, i), appended[i], i in tainted)
  }

  /** Between calls. A shard with an empty frame already holds a row behind it. */
  ghost predicate Resting(s: Shard, tainted: bool)
  {
    OpenOk(s.kind, s.open) && (tainted ==> |s.open| > 0 || !Clean(s.written, false))
  }

  lemma {:induction false} RowsSnoc(frames: seq<Frame>, f: Frame)
    ensures Rows(frames + [f]) == Rows(frames) + f.rows
  {
    if |frames| > 0 {
      assert (frames + [f])[1..] == frames[1..] + [f];
      RowsSnoc(frames[1..], f);
    } else {
      assert (frames + [f])[1..] == [];
    }
  }

  /** Writing the open frame of shard `i`, empty or not. */
  lemma WriteKeeps(shards: seq<Shard>, history: seq<Frame>, owners: seq<nat>, appended: seq<seq<Row>>,
                   tainted: set<nat>, i: nat, kind: Kind)
    requires LogOk(shards, history, owners, appended, tainted) && i < |shards| && Writable(shards[i].open)
    ensures var f := Frame(|history|, shards[i].open);
            LogOk(shards[i := Shard(kind, [], shards[i].written + [f])], history + [f], owners + [i], appended,
                  tainted + if |shards[i].open| == 0 then {i} else {})
  {
    hide ShardOk, Split, Writable;
    var f := Frame(|history|, shards[i].open);
    var tainted' := tainted + if |shards[i].open| == 0 then {i} else {};
    var shards' := shards[i := Shard(kind, [], shards[i].written + [f])];
    forall j | 0 <= j < |shards|
      ensures ShardOk(shards'[j], Split(history + [f], owners + [i], j), appended[j], j in tainted')
    {
      assert ShardOk(shards[j], Split(history, owners, j), appended[j], j in tainted);
      SplitSnoc(history, owners, f, i, j);
      if j == i {
        WrittenShard(shards[i], Split(history, owners, i), appended[i], i in tainted, f, kind);
      } else {
        assert Split(history, owners, j) + [] == Split(history, owners, j);
      }
    }
  }

  lemma WrittenShard(s: Shard, lane: seq<Frame>, appended: seq<Row>, tainted: bool, f: Frame, kind: Kind)
    requires ShardOk(s, lane, appended, tainted) && f.rows == s.open
    ensures ShardOk(Shard(kind, [], s.written + [f]), lane + [f], appended, tainted || |s.open| == 0)
  {
    hide Rows, HasEmpty;
    RowsSnoc(s.written, f);
    HasEmptySnoc(s.written, f);
    assert Rows(s.written + [f]) + [] == Rows(s.written) + s.open;
  }

  lemma AddKeeps(shards: seq<Shard>, history: seq<Frame>, owners: seq<nat>, appended: seq<seq<Row>>, tainted: set<nat>,
                 i: nat, row: Row)
    requires LogOk(shards, history, owners, appended, tainted) && i < |shards|
    ensures LogOk(shards[i := shards[i].(open := shards[i].open + [row])], history, owners,
                  appended[i := appended[i] + [row]], tainted)
  {
    hide Split, Rows, HasEmpty;
    var s := shards[i];
    assert ShardOk(s, Split(history, owners, i), appended[i], i in tainted);
    assert (Rows(s.written) + s.open) + [row] == Rows(s.written) + (s.open + [row]);
  }

  lemma RetypeKeeps(shards: seq<Shard>, history: seq<Frame>, owners: seq<nat>, appended: seq<seq<Row>>,
                    tainted: set<nat>, i: nat, kind: Kind)
    requires LogOk(shards, history, owners, appended, tainted) && i < |shards|
    ensures LogOk(shards[i := shards[i].(kind := kind)], history, owners, appended, tainted)
  {
    hide Split, Rows, HasEmpty;
    assert ShardOk(shards[i], Split(history, owners, i), appended[i], i in tainted);
  }

  /** A row written behind an empty frame is out of reach. */
  lemma WriteRests(s: Shard, f: Frame, kind: Kind, tainted: bool)
    requires |s.open| > 0 && f.rows == s.open && (tainted <==> HasEmpty(s.written))
    ensures Resting(Shard(kind, [], s.written + [f]), tainted)
  {
    EmptyFrameTakes(kind);
    CleanSnoc(s.written, f, false);
  }

  lemma AllTaken(shards: seq<Shard>, history: seq<Frame>, owners: seq<nat>, appended: seq<seq<Row>>, tainted: set<nat>)
    requires LogOk(shards, history, owners, appended, tainted)
    requires forall i :: 0 <= i < |shards| ==> Resting(shards[i], i in tainted) && |shards[i].open| == 0
    ensures AllClean(history, owners, {}, |shards|) <==> tainted == {}
  {
    hide Split, Rows;
    forall i | 0 <= i < |shards|
      ensures Clean(Split(history, owners, i), false) <==> i !in tainted
    {
      assert ShardOk(shards[i], Split(history, owners, i), appended[i], i in tainted);
      NoEmptyIsClean(shards[i].written);
    }
    hide Clean;
    if tainted != {} {
      var i :| i in tainted;
      assert !Clean(Split(history, owners, i), i in {});
    }
  }

  lemma {:induction false} NoEmptyIsClean(frames: seq<Frame>)
    ensures !HasEmpty(frames) ==> Clean(frames, false)
  {
    if |frames| > 0 {
      HasEmptyCons(frames);
      NoEmptyIsClean(frames[1..]);
    }
  }

  /** The rows of a shard that recovery will return: those before its first empty frame. */
  function Reach(s: Shard, tainted: bool): seq<Row>
  {
    if tainted then Rows(Readable(s.written)) else Rows(s.written) + s.open
  }

  lemma {:induction false} ReadableSnoc(frames: seq<Frame>, f: Frame)
    ensures Readable(frames + [f]) ==
            if HasEmpty(frames) then Readable(frames) else if |f.rows| == 0 then frames else frames + [f]
  {
    var all := frames + [f];
    if |frames| > 0 {
      assert all[0] == frames[0] && all[1..] == frames[1..] + [f];
      HasEmptyCons(frames);
      if |frames[0].rows| != 0 {
        ReadableSnoc(frames[1..], f);
        assert frames == [frames[0]] + frames[1..];
      }
    } else {
      assert all == [f] && all[1..] == [];
    }
  }

  /** Writing a frame does not change what recovery will return. */
  lemma ReachWrite(s: Shard, f: Frame, kind: Kind, tainted: bool)
    requires f.rows == s.open && (tainted <==> HasEmpty(s.written))
    ensures Reach(Shard(kind, [], s.written + [f]), tainted || |s.open| == 0) == Reach(s, tainted)
  {
    hide Readable, Rows, HasEmpty;
    ReadableSnoc(s.written, f);
    RowsSnoc(s.written, f);
    if |s.open| == 0 {
      assert Rows(s.written) + s.open == Rows(s.written);
    } else {
      assert Rows(s.written + [f]) + [] == Rows(s.written + [f]);
    }
  }

  lemma ReachAdd(s: Shard, row: Row, tainted: bool)
    ensures Reach(s.(open := s.open + [row]), tainted) == Reach(s, tainted) + if tainted then [] else [row]
  {
    hide Readable, Rows;
    assert tainted ==> Rows(Readable(s.written)) + [] == Rows(Readable(s.written));
    assert Rows(s.written) + (s.open + [row]) == (Rows(s.written) + s.open) + [row];
  }

  lemma TaintedShard(shards: seq<Shard>, history: seq<Frame>, owners: seq<nat>, appended: seq<seq<Row>>,
                     tainted: set<nat>, i: nat)
    requires LogOk(shards, history, owners, appended, tainted) && i < |shards|
    ensures i in tainted <==> HasEmpty(shards[i].written)
  {
    hide Split, Rows, HasEmpty;
    assert ShardOk(shards[i], Split(history, owners, i), appended[i], i in tainted);
  }

  class LogWriter {
    var counter: nat
    var shards: seq<Shard>
    ghost var history: seq<Frame>
    ghost var owners: seq<nat>
    ghost var appended: seq<seq<Row>>
    ghost var tainted: set<nat>

    ghost predicate Ok()
      reads this
    {
      counter == |history| && LogOk(shards, history, owners, appended, tainted)
    }

    ghost predicate Valid()
      reads this
    {
      Ok() && forall i :: 0 <= i < |shards| ==> Resting(shards[i], i in tainted)
    }

    constructor (concurrency: nat)
      ensures Valid() && |shards| == concurrency && tainted == {}
      ensures forall i :: 0 <= i < concurrency ==> shards[i] == Shard(EMPTY, [], [])
      ensures |appended| == concurrency && forall i :: 0 <= i < concurrency ==> appended[i] == []
    {
      counter, history, owners, tainted := 0, [], [], {};
      shards := seq(concurrency, _ => Shard(EMPTY, [], []));
      appended := seq(concurrency, _ => []);
      EmptyFrameTakes(EMPTY);
    }

    /** `write` and `clear`, then the type of the next frame. */
    method FlushCurrentFrame(i: nat, kind: Kind)
      requires Ok() && i < |shards| && Writable(shards[i].open)
      modifies this
      ensures Ok() && appended == old(appended)
      ensures shards == old(shards)[i := Shard(kind, [],
                                               old(shards[i].written) + [Frame(old(counter), old(shards[i].open))])]
      ensures tainted == old(tainted) + if |old(shards[i].open)| == 0 then {i} else {}
      ensures Reach(shards[i], i in tainted) == old(Reach(shards[i], i in tainted))
    {
      hide LogOk, Reach, HasEmpty, Writable;
      TaintedShard(shards, history, owners, appended, tainted, i);
      ReachWrite(shards[i], Frame(counter, shards[i].open), kind, i in tainted);
      WriteKeeps(shards, history, owners, appended, tainted, i, kind);
      var f := Frame(counter, shards[i].open);
      counter := counter + 1;
      history, owners := history + [f], owners + [i];
      tainted := tainted + if |shards[i].open| == 0 then {i} else {};
      shards := shards[i := Shard(kind, [], shards[i].written + [f])];
    }

    method RequireFrameType(i: nat, kind: Kind)
      requires Ok() && i < |shards| && Writable(shards[i].open)
      modifies this
      ensures Ok() && appended == old(appended) && |shards| == old(|shards|)
      ensures forall j :: 0 <= j < |shards| && j != i ==> shards[j] == old(shards[j])
      ensures shards[i].kind == kind
      ensures old(shards[i].kind) in {EMPTY, kind} ==>
              shards[i].open == old(shards[i].open) && shards[i].written == old(shards[i].written)
      ensures old(shards[i].kind) !in {EMPTY, kind} ==>
              shards[i].open == [] && |shards[i].written| == |old(shards[i].written)| + 1
      ensures tainted == old(tainted) + if old(shards[i].kind) !in {EMPTY, kind} &&
              |old(shards[i].open)| == 0 then {i} else {}
      ensures Reach(shards[i], i in tainted) == old(Reach(shards[i], i in tainted))
    {
      hide LogOk, Writable;
      if shards[i].kind == EMPTY {
        RetypeKeeps(shards, history, owners, appended, tainted, i, kind);
        shards := shards[i := shards[i].(kind := kind)];
      } else if shards[i].kind != kind {
        FlushCurrentFrame(i, kind);
      }
    }

    method Add(i: nat, row: Row)
      requires Ok() && i < |shards|
      modifies `shards, `appended
      ensures Ok() && appended == old(appended)[i := old(appended[i]) + [row]]
      ensures shards == old(shards)[i := old(shards[i]).(open := old(shards[i].open) + [row])]
      ensures Reach(shards[i], i in tainted) == old(Reach(shards[i], i in tainted)) + if i in tainted then [] else [row]
    {
      hide LogOk, Reach;
      ReachAdd(shards[i], row, i in tainted);
      AddKeeps(shards, history, owners, appended, tainted, i, row);
      AppendedLanes(shards, history, owners, appended, tainted);
      appended := appended[i := appended[i] + [row]];
      shards := shards[i := shards[i].(open := shards[i].open + [row])];
    }

    /** `LZ4Volume::append` in its three forms. The caller owes a blob that an empty frame can take. An empty frame
        is written exactly when the type changes right after the previous type's frame was flushed as full, and from
        then on no row of the shard will be recovered. */
    method Append(i: nat, row: Row)
      requires Valid() && i < |shards| && |Blob(row)| <= 8152
      modifies this
      ensures Valid() && |shards| == old(|shards|) && appended == old(appended)[i := old(appended[i]) + [row]]
      ensures tainted == old(tainted) + if old(shards[i].kind) !in {EMPTY, KindOf(row)} &&
              |old(shards[i].open)| == 0 then {i} else {}
      ensures (shards[i].kind, shards[i].open) == NextOpen(old(shards[i].kind), old(shards[i].open), row)
      ensures |shards[i].written| == |old(shards[i].written)| + Flushes(old(shards[i].kind), old(shards[i].open), row)
      ensures Reach(shards[i], i in tainted) == old(Reach(shards[i], i in tainted)) + if i in tainted then [] else [row]
      ensures forall j :: 0 <= j < |shards| && j != i ==> shards[j] == old(shards[j])
    {
      hide LogOk, Clean, CanTakeMore, Reach, Admitted, Writable, CanWrite, NextOpen, Flushes, OpenOk;
      assert Resting(shards[i], i in tainted);
      OpenWritable(shards[i].kind, shards[i].open);
      NoRowsYet(shards[i].kind, shards[i].open);
      EmptyFrameTakes(KindOf(row));
      TypeFirst(shards[i].kind, shards[i].open, row);
      RequireFrameType(i, KindOf(row));
      if KindOf(row) == DATA_ENTRY {
        AppendPoint(i, row);
      } else {
        AppendBlob(i, row);
      }
    }

    method AppendPoint(i: nat, row: Row)
      requires Ok() && i < |shards| && KindOf(row) == shards[i].kind == DATA_ENTRY && OpenOk(DATA_ENTRY, shards[i].open)
      modifies this
      ensures Ok() && |shards| == old(|shards|) && Resting(shards[i], i in tainted)
      ensures appended == old(appended)[i := old(appended[i]) + [row]] && tainted == old(tainted)
      ensures (shards[i].kind, shards[i].open) == NextOpen(old(shards[i].kind), old(shards[i].open), row)
      ensures |shards[i].written| == |old(shards[i].written)| + Flushes(old(shards[i].kind), old(shards[i].open), row)
      ensures Reach(shards[i], i in tainted) == old(Reach(shards[i], i in tainted)) + if i in tainted then [] else [row]
      ensures forall j :: 0 <= j < |shards| && j != i ==> shards[j] == old(shards[j])
    {
      hide LogOk, Clean, Reach, Admitted, Writable;
      OneMoreWritable(DATA_ENTRY, shards[i].open, row);
      Add(i, row);
      if |shards[i].open| == NUM_TUPLES {
        FlushFull(i, EMPTY);
      }
    }

    method AppendBlob(i: nat, row: Row)
      requires Ok() && i < |shards| && KindOf(row) == shards[i].kind != DATA_ENTRY &&
               OpenOk(KindOf(row), shards[i].open)
      requires |Blob(row)| <= 8152
      modifies this
      ensures Ok() && |shards| == old(|shards|) && Resting(shards[i], i in tainted)
      ensures appended == old(appended)[i := old(appended[i]) + [row]] && tainted == old(tainted)
      ensures (shards[i].kind, shards[i].open) == NextOpen(old(shards[i].kind), old(shards[i].open), row)
      ensures |shards[i].written| == |old(shards[i].written)| + Flushes(old(shards[i].kind), old(shards[i].open), row)
      ensures Reach(shards[i], i in tainted) == old(Reach(shards[i], i in tainted)) + if i in tainted then [] else [row]
      ensures forall j :: 0 <= j < |shards| && j != i ==> shards[j] == old(shards[j])
    {
      EmptyFrameTakes(KindOf(row));
      hide LogOk, Clean, CanWrite, Reach, Admitted, Writable;
      OpenWritable(KindOf(row), shards[i].open);
      if !CanWrite(shards[i].open, |Blob(row)|) {
        FlushFull(i, KindOf(row));
      }
      OneMoreWritable(KindOf(row), shards[i].open, row);
      Add(i, row);
      FlushesOfBlob(old(shards[i].open), row);
      if !CanWrite(shards[i].open, LogFrame.SIZE_THRESHOLD) {
        FlushFull(i, KindOf(row));
      }
    }

    /** Flushing a frame that holds rows. */
    method FlushFull(i: nat, kind: Kind)
      requires Ok() && i < |shards| && |shards[i].open| > 0 && Writable(shards[i].open)
      modifies this
      ensures Ok() && appended == old(appended) && tainted == old(tainted) && |shards| == old(|shards|)
      ensures shards[i].kind == kind && shards[i].open == [] && Resting(shards[i], i in tainted)
      ensures |shards[i].written| == |old(shards[i].written)| + 1
      ensures Reach(shards[i], i in tainted) == old(Reach(shards[i], i in tainted))
      ensures forall j :: 0 <= j < |shards| && j != i ==> shards[j] == old(shards[j])
    {
      hide Clean, HasEmpty, CanWrite, Reach, Writable;
      assert ShardOk(shards[i], Split(history, owners, i), appended[i], i in tainted);
      WriteRests(shards[i], Frame(counter, shards[i].open), kind, i in tainted);
      hide LogOk;
      FlushCurrentFrame(i, kind);
    }

    /** `LZ4Volume::flush` and `close`: nothing is written for a frame without rows. */
    method Flush(i: nat)
      requires Valid() && i < |shards|
      modifies this
      ensures Valid() && appended == old(appended) && tainted == old(tainted) && |shards| == old(|shards|)
      ensures |shards[i].open| == 0 && Reach(shards[i], i in tainted) == old(Reach(shards[i], i in tainted))
      ensures forall j :: 0 <= j < |shards| && j != i ==> shards[j] == old(shards[j])
    {
      assert Resting(shards[i], i in tainted);
      OpenWritable(shards[i].kind, shards[i].open);
      hide LogOk, Resting, Reach, Writable;
      if |shards[i].open| != 0 {
        FlushFull(i, EMPTY);
      }
    }

    /** The log is closed and opened for recovery. The rows come back in the order in which their frames were
        written, and all of them do if and only if no empty frame was ever written. */
    method CloseAndRecover() returns (log: ShardedInputLog)
      requires Valid()
      modifies this
      ensures Valid() && appended == old(appended) && tainted == old(tainted)
      ensures forall i :: 0 <= i < |shards| ==> appended[i] == Rows(Split(history, owners, i))
      ensures fresh(log) && log.Valid() && log.Pending() == Rows(Survivors(history, owners, {}))
      ensures log.Pending() == Rows(history) <==> tainted == {}
      ensures |shards| == old(|shards|) && (|shards| == 1 ==> log.Pending() == old(Reach(shards[0], 0 in tainted)))
    {
      hide LogOk, Resting, Reach, Survivors, Rows, HasEmpty, Readable, Merge;
      for i := 0 to |shards|
        invariant Valid() && appended == old(appended) && tainted == old(tainted) && |shards| == old(|shards|)
        invariant forall j :: 0 <= j < i ==> |shards[j].open| == 0
        invariant forall j :: 0 <= j < |shards| ==>
                  Reach(shards[j], j in tainted) == old(Reach(shards[j], j in tainted))
      {
        Flush(i);
      }
      var lanes := seq(|shards|, i requires 0 <= i < |shards| reads this => shards[i].written);
      log := new ShardedInputLog(lanes);
      RecoveredRows(shards, history, owners, appended, tainted, lanes);
      if |shards| == 1 {
        TaintedShard(shards, history, owners, appended, tainted, 0);
        OneLane(shards[0], 0 in tainted, lanes);
      }
    }
  }

  lemma {:induction false} MergeOne(frames: seq<Frame>)
    ensures Merge([frames]) == frames
  {
    NextMeaning([frames], 1);
    MergeUnfold([frames], Next([frames], 1));
    if |frames| > 0 {
      assert Popped([frames], 0) == [frames[1..]];
      MergeOne(frames[1..]);
    }
  }

  lemma NoEmptyRead(frames: seq<Frame>)
    ensures !HasEmpty(frames) ==> Readable(frames) == frames
  {
    if !HasEmpty(frames) {
      ReadableAll(frames);
    }
  }

  /** What is read back from a log of one shard. */
  lemma OneLane(s: Shard, tainted: bool, lanes: seq<seq<Frame>>)
    requires |lanes| == 1 && lanes[0] == s.written && |s.open| == 0 && (tainted <==> HasEmpty(s.written))
    ensures Rows(Merge(ReadableLanes(lanes))) == Reach(s, tainted)
  {
    hide Rows, HasEmpty, Readable;
    assert ReadableLanes(lanes) == [Readable(s.written)];
    MergeOne(Readable(s.written));
    NoEmptyRead(s.written);
    assert Rows(s.written) + s.open == Rows(s.written);
  }

  lemma RecoveredRows(shards: seq<Shard>, history: seq<Frame>, owners: seq<nat>, appended: seq<seq<Row>>,
                      tainted: set<nat>, lanes: seq<seq<Frame>>)
    requires LogOk(shards, history, owners, appended, tainted)
    requires forall i :: 0 <= i < |shards| ==> Resting(shards[i], i in tainted) && |shards[i].open| == 0
    requires |lanes| == |shards| && forall i :: 0 <= i < |shards| ==> lanes[i] == shards[i].written
    ensures Rows(Merge(ReadableLanes(lanes))) == Rows(Survivors(history, owners, {}))
    ensures Rows(Survivors(history, owners, {})) == Rows(history) <==> tainted == {}
    ensures forall i :: 0 <= i < |shards| ==> appended[i] == Rows(Split(history, owners, i))
  {
    var n := |shards|;
    AllTaken(shards, history, owners, appended, tainted);
    Complete(history, owners, {}, n);
    MergeIsSurvivors(history, owners, {}, n, 0);
    hide Split, Rows, Merge, Survivors, Resting, AllClean, Readable;
    forall i | 0 <= i < n
      ensures lanes[i] == Split(history, owners, i) && appended[i] == Rows(Split(history, owners, i))
    {
      assert ShardOk(shards[i], Split(history, owners, i), appended[i], i in tainted);
      assert Rows(lanes[i]) + [] == Rows(lanes[i]);
    }
    assert ReadableLanes(lanes) == LanesOf(history, owners, {}, n);
  }

  lemma AppendedLanes(shards: seq<Shard>, history: seq<Frame>, owners: seq<nat>, appended: seq<seq<Row>>,
                      tainted: set<nat>)
    requires LogOk(shards, history, owners, appended, tainted)
    ensures |appended| == |shards|
  {
  }

  /** Two names of 4030 bytes fill a frame, which is flushed and replaced by an empty one of the same type. */
  lemma TwoNamesFill(a: Row, b: Row)
    requires a.payload.SeriesName? && b.payload.SeriesName? && |a.payload.name| == |b.payload.name| == 4030
    ensures NextOpen(EMPTY, [], a) == (SNAME_ENTRY, [a]) && NextOpen(SNAME_ENTRY, [a], b) == (SNAME_ENTRY, [])
  {
    assert [] + [a] == [a] && [a] + [b] == [a, b] && [a, b][..1] == [a] && [a][..0] == [];
    assert BlobBytes([]) == 0 && BlobBytes([a]) == 4030 && BlobBytes([a, b]) == 8060;
  }

  /** A data point appended next is logged behind an empty frame, and recovery does not return it. */
  method TypeChangeLosesRows(a: Row, b: Row, point: Row) returns (log: ShardedInputLog, writer: LogWriter)
    requires a.payload.SeriesName? && b.payload.SeriesName? && |a.payload.name| == |b.payload.name| == 4030
    requires point.payload.DataPoint?
    ensures log.Valid() && writer.appended == [[a, b, point]] && log.Pending() == [a, b]
  {
    writer := TypeChange(a, b, point);
    hide LogOk, Resting, Reach;
    log := writer.CloseAndRecover();
  }

  method TypeChange(a: Row, b: Row, point: Row) returns (writer: LogWriter)
    requires a.payload.SeriesName? && b.payload.SeriesName? && |a.payload.name| == |b.payload.name| == 4030
    requires point.payload.DataPoint?
    ensures fresh(writer) && writer.Valid() && writer.appended == [[a, b, point]] && |writer.shards| == 1
    ensures Reach(writer.shards[0], 0 in writer.tainted) == [a, b]
  {
    hide NextOpen, LogOk, Resting, Reach, CanWrite, Flushes, LogFrame.WordBytes;
    TwoNamesFill(a, b);
    NothingReached();
    writer := new LogWriter(1);
    assert [] + [a] == [a] && [a] + [b] == [a, b] && [a, b] + [point] == [a, b, point];
    assert writer.appended == [[]];
    AppendTo(writer, [], a);
    AppendTo(writer, [a], b);
    AppendTo(writer, [a, b], point);
  }

  lemma NothingReached()
    ensures Reach(Shard(EMPTY, [], []), false) == []
  {
  }

  method AppendTo(writer: LogWriter, rows: seq<Row>, row: Row)
    requires writer.Valid() && writer.appended == [rows] && |writer.shards| == 1 && |Blob(row)| <= 8152
    modifies writer
    ensures writer.Valid() && writer.appended == [rows + [row]] && |writer.shards| == 1
    ensures (writer.shards[0].kind, writer.shards[0].open) ==
            NextOpen(old(writer.shards[0].kind), old(writer.shards[0].open), row)
    ensures writer.tainted ==
            old(writer.tainted) + if old(writer.shards[0].kind) !in {EMPTY, KindOf(row)} &&
                |old(writer.shards[0].open)| == 0 then {0} else {}
    ensures Reach(writer.shards[0], 0 in writer.tainted) ==
            old(Reach(writer.shards[0], 0 in writer.tainted)) + if 0 in writer.tainted then [] else [row]
  {
    hide *;
    writer.Append(0, row);
  }

  // ---- The bytes of a flexible frame -------------------------------------------------------------

  lemma {:induction false} AdmittedPrefix(rows: seq<Row>, i: nat)
    requires Admitted(rows) && i < |rows|
    ensures CanWrite(rows[..i], LogFrame.SIZE_THRESHOLD) && CanWrite(rows[..i], |Blob(rows[i])|)
    decreases |rows|
  {
    hide CanWrite;
    var n := |rows| - 1;
    if i < n {
      AdmittedPrefix(rows[..n], i);
      assert rows[..n][..i] == rows[..i];
    }
  }

  /** Every blob that the writer lets through fits, with its index entry. */
  lemma AdmittedFits(rows: seq<Row>, i: nat)
    requires Admitted(rows) && i < |rows|
    ensures LogFrame.Fits(LogFrame.Total(Entries(rows[..i])), i, |Blob(rows[i])|)
  {
    AdmittedPrefix(rows, i);
    SameGuard(rows[..i], LogFrame.SIZE_THRESHOLD);
    SameGuard(rows[..i], |Blob(rows[i])|);
    LogFrame.ThresholdMakesGuardSound(LogFrame.Total(Entries(rows[..i])), i, |Blob(rows[i])|);
  }

  lemma EntriesSnoc(rows: seq<Row>, i: nat)
    requires i < |rows|
    ensures Entries(rows[..i + 1]) == Entries(rows[..i]) + [LogFrame.Entry(rows[i].id, Blob(rows[i]))]
  {
  }

  /** `append_blob` for every row of a frame. */
  method WriteFrame(rows: seq<Row>) returns (frame: LogFrame.MutableEntry)
    requires Admitted(rows)
    ensures fresh(frame) && frame.Valid() && frame.entries == Entries(rows)
  {
    hide Admitted, Blob, Entries, LogFrame.Holds, LogFrame.Total;
    frame := new LogFrame.MutableEntry();
    NoEntries();
    assert rows[..0] == [];
    for i := 0 to |rows|
      invariant fresh(frame) && fresh(frame.data) && frame.Valid() && frame.entries == Entries(rows[..i])
    {
      AdmittedPrefix(rows, i);
      SameGuard(rows[..i], |Blob(rows[i])|);
      AdmittedFits(rows, i);
      EntriesSnoc(rows, i);
      frame.Append(rows[i].id, Blob(rows[i]));
    }
    assert rows[..|rows|] == rows;
  }

  lemma NoEntries()
    ensures Entries([]) == []
  {
  }

  /** Reading a row: a name as a string, rescue points as an array. */
  method ReadRow(frame: LogFrame.MutableEntry, kind: Kind, ix: nat, ghost rows: seq<Row>) returns (row: Row)
    requires frame.Valid() && frame.entries == Entries(rows) && ix < |rows| && KindOf(rows[ix]) == kind != DATA_ENTRY
    ensures row == rows[ix]
  {
    hide LogFrame.Holds, LogFrame.Words, LogFrame.WordBytes;
    ghost var blob := Blob(rows[ix]);
    assert frame.entries[ix] == LogFrame.Entry(rows[ix].id, blob);
    if kind == SNAME_ENTRY {
      var id, name := frame.ReadString(ix);
      row := Row(id, SeriesName(name));
    } else {
      PointsReadBack(rows[ix].payload.points, blob);
      var id, words := frame.ReadArray(ix);
      row := Row(id, RecoveryInfo(words));
    }
  }

  lemma PointsReadBack(points: seq<U64>, blob: seq<Byte>)
    requires blob == LogFrame.WordBytes(points)
    ensures LogFrame.Words(blob, |blob| / 8) == points
  {
    hide LogFrame.Words, LogFrame.WordBytes;
    LogFrame.WordsReadBack(points, |points|);
    assert points[..|points|] == points;
  }

  /** Every frame of names or rescue points that a writer has written, in any run, holds its rows: written as bytes and
      read back they are the same. */
  method FrameRoundTrip(writer: LogWriter, ghost k: nat, kind: Kind, rows: seq<Row>) returns (out: seq<Row>)
    requires writer.Valid() && k < |writer.history| && rows == writer.history[k].rows && kind != DATA_ENTRY
    requires forall i :: 0 <= i < |rows| ==> KindOf(rows[i]) == kind
    ensures out == rows
  {
    hide Resting, Split, ShardOk, Admitted, Entries, LogFrame.Holds, Writable, Numbered, KindOf;
    assert Writable(writer.history[k].rows);
    WrittenAdmitted(rows, kind);
    var frame := WriteFrame(rows);
    out := [];
    for i := 0 to |rows|
      invariant out == rows[..i] && frame.Valid() && frame.entries == Entries(rows)
    {
      var row := ReadRow(frame, kind, i, rows);
      out := out + [row];
    }
  }

  lemma WrittenAdmitted(rows: seq<Row>, kind: Kind)
    requires Writable(rows) && kind != DATA_ENTRY && forall i :: 0 <= i < |rows| ==> KindOf(rows[i]) == kind
    ensures Admitted(rows)
  {
    var k :| RowsOf(k, rows);
    if |rows| > 0 {
      assert KindOf(rows[0]) == kind;
    }
  }
}
