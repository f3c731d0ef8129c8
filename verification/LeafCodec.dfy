/** The tree over the codec: a leaf takes points as long as its block writer does, and every leaf of every run is read
    back through the block reader. */
module LeafCodec {
  import opened Aggregation
  import opened TreeStore
  import opened Closing
  import opened Recovery
  import opened NBTree
  import opened Column
  import Bytes
  import Chunks
  import BlockWriter
  import BlockReader
  import Checksum
  import Sessions

  // ---- The decision of the block writer ----------------------------------------------------------

  /** A writer that was given these samples. */
  function Filled(samples: seq<Chunks.Sample>, capacity: nat): (b: BlockWriter.Block)
    ensures |b.tsBuf| == |b.valBuf| == Chunks.CHUNK_SIZE
    ensures BlockWriter.Stored(b) <= |b.pts| < BlockWriter.Stored(b) + 16
  {
    if |samples| == 0 then BlockWriter.NewBlock()
    else
      var b := Filled(samples[..|samples| - 1], capacity);
      BlockWriter.AfterPut(b, capacity - |BlockWriter.Written(b)|, samples[|samples| - 1])
  }

  /** It has room for another one. */
  predicate HasRoomAfter(samples: seq<Chunks.Sample>, capacity: nat)
  {
    capacity - |BlockWriter.Written(Filled(samples, capacity))| >= 16
  }

  lemma FilledMore(samples: seq<Chunks.Sample>, capacity: nat, s: Chunks.Sample)
    ensures var b := Filled(samples, capacity);
            Filled(samples + [s], capacity) == BlockWriter.AfterPut(b, capacity - |BlockWriter.Written(b)|, s)
  {
    hide BlockWriter.AfterPut, BlockWriter.Written;
    assert (samples + [s])[..|samples|] == samples;
  }

  /** What `put` decides is a function of the samples so far: another call, and the writer is as the function says. */
  method PutDecides(writer: BlockWriter.DataBlockWriter, ghost samples: seq<Chunks.Sample>, s: Chunks.Sample)
    returns (ok: bool)
    requires writer.Valid() && writer.State() == Filled(samples, writer.stream.capacity)
    modifies writer, writer.stream, writer.times, writer.values
    ensures writer.Valid() && writer.State() == Filled(samples + [s], writer.stream.capacity)
    ensures ok <==> HasRoomAfter(samples, writer.stream.capacity)
    ensures writer.pts == if ok then old(writer.pts) + [s] else old(writer.pts)
  {
    hide BlockWriter.AfterPut, BlockWriter.Written, BlockWriter.EncodersOk, Filled, BlockWriter.BufferHolds,
         BlockWriter.SpaceOk, BlockWriter.Splits;
    FilledMore(samples, writer.stream.capacity, s);
    ok := writer.Put(s.ts, s.bits);
  }

  // ---- Leaves ------------------------------------------------------------------------------------

  /** What is left of a block behind the header of the node and that of the codec. */
  const LEAF_CAPACITY: nat := 4096 - Checksum.REF_SIZE - BlockWriter.HEADER_SIZE

  /** Points as the codec stores them: `bits` gives the pattern of a double. */
  function Samples(pts: seq<Point>, bits: Value -> Bytes.U64): (s: seq<Chunks.Sample>)
    ensures |s| == |pts| && forall i :: 0 <= i < |pts| ==> s[i] == Chunks.Sample(pts[i].ts, bits(pts[i].x))
  {
    seq(|pts|, i requires 0 <= i < |pts| => Chunks.Sample(pts[i].ts, bits(pts[i].x)))
  }

  /** Whether the writer of a leaf accepts a point after those it holds. */
  function LeafAccepts(bits: Value -> Bytes.U64): (seq<Point>, Point) -> bool
  {
    (pts, p) => HasRoomAfter(Samples(pts, bits), LEAF_CAPACITY)
  }

  lemma EmptyLeafAccepts(bits: Value -> Bytes.U64)
    ensures forall p: Point :: LeafAccepts(bits)([], p)
  {
    assert Samples([], bits) == [];
    assert BlockWriter.Written(BlockWriter.NewBlock()) == [];
  }

  lemma SamplesPrefix(pts: seq<Point>, bits: Value -> Bytes.U64, i: nat)
    requires i <= |pts|
    ensures Samples(pts[..i], bits) == Samples(pts, bits)[..i]
  {
  }

  lemma {:induction false} RoomBefore(pts: seq<Point>, bits: Value -> Bytes.U64, i: nat)
    requires FitsOneLeaf(LeafAccepts(bits), pts) && i < |pts|
    ensures HasRoomAfter(Samples(pts, bits)[..i], LEAF_CAPACITY)
    decreases |pts|
  {
    hide HasRoomAfter;
    var n := |pts| - 1;
    SamplesPrefix(pts, bits, i);
    if i < n {
      RoomBefore(pts[..n], bits, i);
      SamplesPrefix(pts[..n], bits, i);
      assert pts[..n][..i] == pts[..i];
    }
  }

  /** The points of one leaf written into a scattered block behind the header of the node: the writer takes them all. */
  method WriteSamples(id: Bytes.U64, pts: seq<Point>, bits: Value -> Bytes.U64)
    returns (writer: BlockWriter.DataBlockWriter)
    requires FitsOneLeaf(LeafAccepts(bits), pts)
    ensures fresh(writer) && fresh(writer.stream) && fresh(writer.times) && fresh(writer.values)
    ensures writer.Valid() && writer.pts == Samples(pts, bits) && writer.stream.capacity == 3972
  {
    hide BlockWriter.Written, BlockWriter.BlockOk, BlockWriter.EncodersOk, Filled, HasRoomAfter, FitsOneLeaf,
         BlockWriter.DataBlockWriter.Valid;
    var samples := Samples(pts, bits);
    writer := new BlockWriter.DataBlockWriter.Scattered(id, Checksum.REF_SIZE);
    NothingFilled(LEAF_CAPACITY);
    for i := 0 to |samples|
      invariant fresh(writer) && fresh(writer.stream) && fresh(writer.times) && fresh(writer.values)
      invariant writer.Valid() && writer.State() == Filled(samples[..i], LEAF_CAPACITY) && writer.pts == samples[..i]
    {
      RoomBefore(pts, bits, i);
      assert samples[..i + 1] == samples[..i] + [samples[i]];
      var ok := PutDecides(writer, samples[..i], samples[i]);
    }
    assert samples[..|samples|] == samples;
  }

  /** ... and read back once the block is committed. */
  method LeafRoundTrip(id: Bytes.U64, pts: seq<Point>, bits: Value -> Bytes.U64) returns (out: seq<Chunks.Sample>)
    requires FitsOneLeaf(LeafAccepts(bits), pts)
    ensures out == Samples(pts, bits)
  {
    hide BlockWriter.Written, BlockWriter.BlockOk, BlockWriter.EncodersOk, FitsOneLeaf, Samples;
    var writer := WriteSamples(id, pts, bits);
    var _ := writer.Commit();
    BlockWriter.CountersFit(writer.State(), writer.stream.bytes);
    var reader := BlockReader.ReaderOf(writer, []);
    out := BlockReader.ReadAll(reader);
  }

  lemma NothingFilled(capacity: nat)
    ensures Filled([], capacity) == BlockWriter.NewBlock()
  {
  }

  // ---- A whole column ----------------------------------------------------------------------------

  lemma SamplesConcat(a: seq<Point>, b: seq<Point>, bits: Value -> Bytes.U64)
    ensures Samples(a + b, bits) == Samples(a, bits) + Samples(b, bits)
  {
  }

  lemma ChildStep(st: seq<Block>, a: nat, j: nat, bits: Value -> Bytes.U64)
    requires StoreOk(st) && a < |st| && st[a].Inner? && j < |st[a].refs|
    ensures var r := st[a].refs[j];
            && r.addr.At? && r.addr.ix < a
            && Samples(PointsOf(st, st[a].refs[..j + 1], a), bits) ==
               Samples(PointsOf(st, st[a].refs[..j], a), bits) + Samples(PointsAt(st, r.addr.ix), bits)
  {
    hide Samples, StoreOk;
    var refs := st[a].refs;
    assert TreeStore.BlockOk(st, a) by {
      StoreBlock(st, a);
    }
    assert RefOk(st, refs[j], st[a].meta.level - 1, a);
    assert refs[..j + 1] == refs[..j] + [refs[j]] && refs[..j + 1][..j] == refs[..j];
    SamplesConcat(PointsOf(st, refs[..j], a), PointsAt(st, refs[j].addr.ix), bits);
  }

  lemma StoreBlock(st: seq<Block>, a: nat)
    requires StoreOk(st) && a < |st|
    ensures TreeStore.BlockOk(st, a)
  {
  }

  /** Reading every leaf below a node, from left to right. */
  method ReadSubtree(st: seq<Block>, a: nat, id: Bytes.U64, bits: Value -> Bytes.U64)
    returns (out: seq<Chunks.Sample>)
    requires StoreOk(st) && a < |st| && LeavesFit(LeafAccepts(bits), st)
    ensures out == Samples(PointsAt(st, a), bits)
    decreases a
  {
    hide StoreOk, Samples, FitsOneLeaf, LeafAccepts, PointsOf;
    match st[a]
    case Leaf(_, points) =>
      out := LeafRoundTrip(id, points, bits);
    case Inner(_, refs) =>
      out := [];
      NoSamples(st, a, bits);
      assert refs[..0] == [];
      for j := 0 to |refs|
        invariant out == Samples(PointsOf(st, refs[..j], a), bits)
      {
        ChildStep(st, a, j, bits);
        var part := ReadSubtree(st, refs[j].addr.ix, id, bits);
        out := out + part;
      }
      assert refs[..|refs|] == refs;
  }

  lemma NoSamples(st: seq<Block>, a: nat, bits: Value -> Bytes.U64)
    ensures Samples(PointsOf(st, [], a), bits) == []
  {
  }

  /** Any run of appends into a new column whose leaves are filled by the block writer, then a close: reading the blocks
      of the tree through the block reader gives the accepted points, in order and bit for bit. */
  method RunAndReadBlocks(pts: seq<Point>, allowDuplicates: bool, id: Bytes.U64, bits: Value -> Bytes.U64)
    returns (out: seq<Chunks.Sample>)
    ensures out == Samples(Sessions.Accepted(pts, 0, allowDuplicates), bits)
  {
    hide Samples, LeafAccepts, LeavesFit, StoreOk, Sorted, PointsAt, Recovered, IsClosed, Startable, Untouched,
         Contents, ColOk, Session, Busy, Rescuable, LeafFits, SafeStart;
    EmptyLeafAccepts(bits);
    var bstore := new BlockStore();
    var list := Sessions.Create(bstore, LeafAccepts(bits));
    var _ := Sessions.AppendAll(list, pts, allowDuplicates);
    var roots := list.Close();
    if IsClosed(roots) {
      RootOfClosed(bstore.blocks, roots);
      out := ReadSubtree(bstore.blocks, roots[|roots| - 1].ix, id, bits);
    } else {
      NothingWritten(bits);
      out := [];
    }
  }

  lemma RootOfClosed(st: seq<Block>, rp: seq<LogicAddr>)
    requires Startable(st, rp) && IsClosed(rp)
    ensures rp != [] && rp[|rp| - 1].At? && rp[|rp| - 1].ix < |st| && StoreOk(st)
    ensures Recovered(st, rp) == PointsAt(st, rp[|rp| - 1].ix)
  {
  }

  lemma NothingWritten(bits: Value -> Bytes.U64)
    ensures Samples([], bits) == []
  {
  }
}
