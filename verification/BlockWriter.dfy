/** `DataBlockWriter` (storage/compression.cc) over the streams of storage/compression.h. */
module BlockWriter {
  import opened Bytes
  import opened Chunks
  import IOVec

  const HEADER_SIZE: nat := 14
  const VERSION: nat := 101

  /** Worst case of a chunk as `room_for_chunk` has it. */
  const MARGIN: nat := 10 * 16 + 9 * 16

  lemma LEStep(before: seq<Byte>, x: nat, n: nat)
    requires n > 0
    ensures before + LE(x, n) == (before + [x % 256]) + LE(x / 256, n - 1)
    ensures LE(x % 256, 1) == [x % 256]
  {
    assert before + ([x % 256] + LE(x / 256, n - 1)) == (before + [x % 256]) + LE(x / 256, n - 1);
    assert LE((x % 256) / 256, 0) == [];
  }

  lemma NoBytes(x: nat)
    ensures LE(x, 0) == []
  {
  }

  lemma NothingToPair()
    ensures Pairs([]) == [] && ValuePairs([]) == []
  {
  }

  lemma PairsStep(before: seq<Byte>, ds: seq<U64>, i: nat)
    requires i + 1 < |ds|
    ensures before + Pairs(ds[i..]) == (before + Pair(ds[i], ds[i + 1])) + Pairs(ds[i + 2..])
    ensures |Pairs(ds[i..])| >= |Pair(ds[i], ds[i + 1])|
  {
    assert ds[i..][2..] == ds[i + 2..] && ds[i..][0] == ds[i] && ds[i..][1] == ds[i + 1];
    assert before + (Pair(ds[i], ds[i + 1]) + Pairs(ds[i + 2..])) ==
        (before + Pair(ds[i], ds[i + 1])) + Pairs(ds[i + 2..]);
  }

  /** The byte stream the timestamp and the value streams share: `bytes` written after the header, and the
      number of bytes it may grow to. They go to one flat buffer (`VByteStreamWriter`) or, one at a time, to the
      components of a scattered block (`IOVecVByteStreamWriter`). */
  class ByteStream {
    const vectored: bool
    const capacity: nat
    const start: nat
    var flat: seq<Byte>
    var data: seq<IOVec.Component>
    var pos: nat
    ghost var n: nat
    ghost var bytes: seq<Byte>

    constructor (capacity: nat)
      ensures Valid() && this.capacity == capacity && bytes == [] && !vectored
    {
      this.vectored, this.capacity, this.start := false, capacity, 0;
      flat, data, pos, n, bytes := [], [], 0, 0, [];
    }

    /** Over a scattered block, behind a header that ends at `start`. */
    constructor Scattered(start: nat)
      requires 0 < start <= 1024
      ensures Valid() && this.capacity == 4096 - start && bytes == [] && vectored && this.start == start
    {
      this.vectored, this.capacity, this.start := true, 4096 - start, start;
      flat, data, pos, n, bytes := [], [IOVec.Zeros(1024), [], [], []], start, 1, [];
    }

    ghost predicate Valid()
      reads this
    {
      |bytes| <= capacity && if vectored then InBlock() else flat == bytes
    }

    ghost predicate InBlock()
      reads this
    {
      capacity + start == 4096 && pos == start + |bytes| && IOVec.Holds(data, n, start, bytes)
    }

    ghost function SpaceLeft(): int
      reads this
    {
      capacity - |bytes|
    }

    /** `space_left`. */
    function Room(): (r: int)
      requires Valid()
      reads this
      ensures r == SpaceLeft()
    {
      if vectored then 4096 - pos else capacity - |flat|
    }

    /** What has been written, read back from where it went. */
    function Written(): (s: seq<Byte>)
      requires Valid()
      reads this
      ensures s == bytes
    {
      if vectored then IOVec.Flat(data)[start..pos] else flat
    }

    /** What a reader finds behind the header: what was written, and behind it `rest` in a flat buffer, or what the
        components of a scattered block hold there. */
    function Body(rest: seq<Byte>): (s: seq<Byte>)
      requires Valid()
      reads this
      ensures bytes <= s && (!vectored ==> s == bytes + rest) && (vectored ==> s == IOVec.Flat(data)[start..])
    {
      if vectored then
        assert IOVec.Flat(data)[start..][..|bytes|] == IOVec.Flat(data)[start..start + |bytes|];
        IOVec.Flat(data)[start..]
      else flat + rest
    }

    /** Either everything was written, or there was not enough room; then less may have been written. */
    twostate predicate Wrote(ok: bool, s: seq<Byte>)
      reads this
    {
      && Valid() && (ok <==> |s| <= old(SpaceLeft()))
      && (ok ==> bytes == old(bytes) + s)
      && (!ok ==> old(bytes) <= bytes)
    }

    /** One byte, as `*pos_++ = b` or as `IOVecBlock::put`. */
    method PutByte(b: Byte)
      requires Valid() && SpaceLeft() > 0
      modifies this
      ensures Valid() && bytes == old(bytes) + [b]
    {
      hide IOVec.Holds, IOVec.Placed;
      if vectored {
        IOVec.HoldsMore(data, n, start, bytes, b);
        data := IOVec.Placed(data, pos, b);
        n := if pos / 1024 == n then n + 1 else n;
        pos := pos + 1;
      } else {
        flat := flat + [b];
      }
      bytes := bytes + [b];
    }

    /** Back to an earlier position; what was written behind it stays in the buffer. */
    method Rewind(k: nat)
      requires Valid() && k <= |bytes|
      modifies this
      ensures Valid() && bytes == old(bytes)[..k]
    {
      hide IOVec.Holds;
      if vectored {
        IOVec.HoldsLess(data, n, start, bytes, k);
        pos := start + k;
      } else {
        flat := flat[..k];
      }
      bytes := bytes[..k];
    }

    /** `put_raw` of an `n`-byte integer. */
    method PutRaw(x: nat, n: nat) returns (ok: bool)
      requires Valid()
      modifies this
      ensures Wrote(ok, LE(x, n)) && (!ok ==> bytes == old(bytes))
    {
      if Room() < n {
        return false;
      }
      if vectored {
        PutBytes(x, n);
      } else {
        flat := flat + LE(x, n);
        bytes := bytes + LE(x, n);
      }
      return true;
    }

    /** The byte loops of `encode` and of `IOVecBlock::put`. */
    method PutBytes(x: nat, n: nat)
      requires Valid() && n <= SpaceLeft()
      modifies this
      ensures Valid() && bytes == old(bytes) + LE(x, n)
    {
      hide IOVec.Holds, LE;
      var rest := x;
      for i := 0 to n
        invariant Valid() && |bytes| == |old(bytes)| + i && bytes + LE(rest, n - i) == old(bytes) + LE(x, n)
      {
        LEStep(bytes, rest, n - i);
        PutByte(rest % 256);
        rest := rest / 256;
      }
      NoBytes(rest);
    }

    /** `VByteStreamWriter::encode`. */
    method Encode(fst: U64, snd: U64) returns (ok: bool)
      requires Valid()
      modifies this
      ensures Wrote(ok, Pair(fst, snd)) && (!ok ==> bytes == old(bytes))
    {
      hide Valid, InBlock, LE, LeadingZeros, ByteLength;
      ControlNibble(fst);
      ControlNibble(snd);
      var fstctrl, sndctrl := 8 - LeadingZeros(fst) / 8, 8 - LeadingZeros(snd) / 8;
      if Room() < 1 + fstctrl + sndctrl {
        return false;
      }
      PutByte(fstctrl + 16 * sndctrl);
      PutBytes(fst, fstctrl);
      PutBytes(snd, sndctrl);
      return true;
    }

    /** `Base128Int::put`. */
    method PutBase128(value: U64) returns (ok: bool)
      requires Valid()
      modifies this
      ensures Wrote(ok, Leb(value))
    {
      if vectored {
        ok := SafePutBase128(value);
      } else {
        ok := FlatPutBase128(value);
      }
    }

    /** Over a block every byte is tried with `safe_put`; what was written before an overflow stays. */
    method SafePutBase128(value: U64) returns (ok: bool)
      requires Valid()
      modifies this
      ensures Wrote(ok, Leb(value))
    {
      hide IOVec.Holds;
      var rest: nat := value;
      while true
        invariant Valid() && old(bytes) <= bytes && bytes + Leb(rest) == old(bytes) + Leb(value)
        decreases rest
      {
        if Room() == 0 {
          return false;
        }
        var low := rest % 128;
        ghost var before := bytes;
        if rest / 128 != 0 {
          PutByte(128 + low);
          rest := rest / 128;
          assert before + ([128 + low] + Leb(rest)) == bytes + Leb(rest);
        } else {
          PutByte(low);
          assert Leb(rest) == [low];
          return true;
        }
      }
    }

    /** In a flat buffer the position is not moved on overflow. */
    method FlatPutBase128(value: U64) returns (ok: bool)
      requires Valid() && !vectored
      modifies this
      ensures Wrote(ok, Leb(value))
    {
      var p, rest: nat := flat, value;
      while true
        invariant bytes == flat == old(bytes) && |p| <= capacity && p + Leb(rest) == old(bytes) + Leb(value)
        decreases rest
      {
        if |p| == capacity {
          return false;
        }
        var low := rest % 128;
        ghost var before := p;
        if rest / 128 != 0 {
          p := p + [128 + low];
          rest := rest / 128;
          assert before + ([128 + low] + Leb(rest)) == p + Leb(rest);
        } else {
          p := p + [low];
          assert Leb(rest) == [low];
          break;
        }
      }
      flat, bytes := p, p;
      return true;
    }

    static method IsAllZero(ds: seq<U64>) returns (b: bool)
      ensures b == AllZero(ds)
    {
      for i := 0 to |ds|
        invariant forall j :: 0 <= j < i ==> ds[j] == 0
      {
        if ds[i] != 0 {
          return false;
        }
      }
      return true;
    }

    /** `VByteStreamWriter::tput`: all zeros take one byte; on overflow the position is restored. */
    method PutChunk(ds: seq<U64>) returns (ok: bool)
      requires Valid() && |ds| == CHUNK_SIZE
      modifies this
      ensures Wrote(ok, VBytes(ds)) && (!ok ==> bytes == old(bytes))
    {
      var shortcut := IsAllZero(ds);
      if shortcut {
        if Room() == 0 {
          return false;
        }
        PutByte(0xFF);
        return true;
      }
      ok := PutPairs(ds);
    }

    method PutPairs(ds: seq<U64>) returns (ok: bool)
      requires Valid() && |ds| == CHUNK_SIZE
      modifies this
      ensures Wrote(ok, Pairs(ds)) && (!ok ==> bytes == old(bytes))
    {
      hide Pairs, Pair, InBlock, IOVec.Holds;
      NothingToPair();
      var oldpos := capacity - Room();
      ghost var before := bytes;
      assert ds[0..] == ds && ds[|ds|..] == [];
      var i := 0;
      ghost var pairs := 0;
      while i < |ds|
        invariant 0 <= i == 2 * pairs <= |ds| && Valid() && before <= bytes
        invariant bytes + Pairs(ds[i..]) == before + Pairs(ds)
      {
        PairsStep(bytes, ds, i);
        ok := Encode(ds[i], ds[i + 1]);
        if !ok {
          Rewind(oldpos);
          return false;
        }
        i, pairs := i + 2, pairs + 1;
      }
      assert ds[i..] == [] && bytes + [] == bytes;
      return true;
    }

    /** `encode_value`: single bytes and at most one four- or eight-byte word. */
    method EncodeValue(diff: U64) returns (ok: bool)
      requires Valid()
      modifies this
      ensures Wrote(ok, ValueBytes(diff))
    {
      var flag := Flag(diff);
      var nbytes := FlagBytes(flag);
      var rest := ShiftRight(diff, FlagShift(flag));
      if nbytes == 8 {
        ok := PutRaw(rest, 8);
        return;
      }
      var singles := if nbytes >= 4 then nbytes - 4 else nbytes;
      ghost var all := LE(rest, nbytes);
      var i := 0;
      while i < singles
        invariant 0 <= i <= singles && Valid() && old(bytes) <= bytes
        invariant bytes + LE(rest, nbytes - i) == old(bytes) + all
      {
        LEStep(bytes, rest, nbytes - i);
        ok := PutRaw(rest % 256, 1);
        if !ok {
          return;
        }
        rest := rest / 256;
        i := i + 1;
      }
      ok := true;
      if nbytes >= 4 {
        ok := PutRaw(rest, 4);
      }
    }
  }

  lemma ValuePairsStep(before: seq<Byte>, ds: seq<U64>, i: nat)
    requires i + 1 < |ds|
    ensures before + ValuePairs(ds[i..]) == (before + ValuePair(ds[i], ds[i + 1])) + ValuePairs(ds[i + 2..])
    ensures |ValuePairs(ds[i..])| >= |ValuePair(ds[i], ds[i + 1])|
  {
    assert ds[i..][2..] == ds[i + 2..] && ds[i..][0] == ds[i] && ds[i..][1] == ds[i + 1];
    assert before + (ValuePair(ds[i], ds[i + 1]) + ValuePairs(ds[i + 2..])) ==
        (before + ValuePair(ds[i], ds[i + 1])) + ValuePairs(ds[i + 2..]);
  }

  lemma DeltaStep(ts: seq<U64>, prev: U64, i: nat)
    requires i < |ts|
    ensures Deltas(ts[..i + 1], prev) == Deltas(ts[..i], prev) + [Sub64(ts[i], if i == 0 then prev else ts[i - 1])]
  {
  }

  /** `DeltaDeltaStreamWriter`. */
  class TimeWriter {
    const stream: ByteStream
    var prev: U64

    constructor (stream: ByteStream)
      ensures this.stream == stream && prev == 0
    {
      this.stream := stream;
      prev := 0;
    }

    /** The first loop of `DeltaDeltaStreamWriter::tput`: the deltas and their minimum. */
    method TakeDeltas(ts: seq<U64>) returns (outbuf: seq<U64>, min: U64)
      requires ts != []
      modifies this
      ensures outbuf == Deltas(ts, old(prev)) && min == MinOf(outbuf) && prev == ts[|ts| - 1]
    {
      outbuf, min := [], Sub64(ts[0], prev);
      ghost var before := prev;
      for i := 0 to |ts|
        invariant outbuf == Deltas(ts[..i], before) && prev == (if i == 0 then before else ts[i - 1])
        invariant if i == 0 then min == Sub64(ts[0], before) else min == MinOf(outbuf)
      {
        DeltaStep(ts, before, i);
        var result := Sub64(ts[i], prev);
        assert (outbuf + [result])[..i] == outbuf;
        outbuf := outbuf + [result];
        prev := ts[i];
        min := if result < min then result else min;
      }
      assert ts[..|ts|] == ts;
    }

    /** `DeltaDeltaStreamWriter::tput`: the minimum, then what is left of each delta. */
    method PutChunk(ts: seq<U64>) returns (ok: bool)
      requires stream.Valid() && |ts| == CHUNK_SIZE
      modifies this, stream
      ensures stream.Wrote(ok, TimesOf(ts, old(prev))) && prev == ts[CHUNK_SIZE - 1]
    {
      ghost var start := stream.bytes;
      var outbuf, min := TakeDeltas(ts);
      ghost var head, tail := Leb(min), VBytes(Lowered(outbuf, min));
      assert TimesOf(ts, old(prev)) == head + tail;
      assert start + (head + tail) == (start + head) + tail;
      ok := stream.PutBase128(min);
      if ok {
        ok := stream.PutChunk(Lowered(outbuf, min));
      }
    }
  }

  /** `FcmStreamWriter`. */
  class ValueWriter {
    const stream: ByteStream
    var predictor: Predictor

    constructor (stream: ByteStream)
      ensures this.stream == stream && predictor == NewPredictor()
    {
      this.stream := stream;
      predictor := NewPredictor();
    }

    /** `FcmStreamWriter::encode`, without the flag. */
    method Encode(value: U64) returns (diff: U64)
      requires PredictorOk(predictor)
      modifies this
      ensures predictor == Update(old(predictor), value) && diff == Diff(old(predictor), value)
    {
      var predicted := Predict(predictor);
      predictor := Update(predictor, value);
      Xor64(value, predicted);
      diff := Xor(value, predicted);
    }

    method EncodeAll(values: seq<U64>) returns (diffs: seq<U64>)
      requires PredictorOk(predictor)
      modifies this
      ensures predictor == UpdateAll(old(predictor), values) && diffs == Diffs(old(predictor), values)
    {
      diffs := [];
      for i := 0 to |values|
        invariant predictor == UpdateAll(old(predictor), values[..i]) && diffs == Diffs(old(predictor), values[..i])
      {
        assert values[..i + 1][..i] == values[..i];
        var diff := Encode(values[i]);
        diffs := diffs + [diff];
      }
      assert values[..|values|] == values;
    }

    /** The loop over pairs in `FcmStreamWriter::tput`. */
    method PutPairs(diffs: seq<U64>) returns (ok: bool)
      requires stream.Valid() && |diffs| == CHUNK_SIZE
      modifies stream
      ensures stream.Wrote(ok, ValuePairs(diffs))
    {
      hide ValuePairs, ValuePair, ByteStream.InBlock, IOVec.Holds;
      NothingToPair();
      ghost var start := stream.bytes;
      assert diffs[0..] == diffs && diffs[|diffs|..] == [];
      var i := 0;
      ghost var pairs := 0;
      while i < |diffs|
        invariant 0 <= i == 2 * pairs <= |diffs| && stream.Valid() && start <= stream.bytes
        invariant stream.bytes + ValuePairs(diffs[i..]) == start + ValuePairs(diffs)
      {
        ValuePairsStep(stream.bytes, diffs, i);
        ok := PutPair(diffs[i], diffs[i + 1]);
        if !ok {
          return;
        }
        i, pairs := i + 2, pairs + 1;
      }
      assert diffs[i..] == [] && stream.bytes + [] == stream.bytes;
      return true;
    }

    method PutPair(prev: U64, curr: U64) returns (ok: bool)
      requires stream.Valid()
      modifies stream
      ensures stream.Wrote(ok, ValuePair(prev, curr))
    {
      ghost var start, flags := stream.bytes, 16 * Flag(prev) + Flag(curr);
      assert LE(flags, 1) == [flags] by { LEStep([], flags, 1); }
      ok := stream.PutRaw(16 * Flag(prev) + Flag(curr), 1);
      if !ok {
        return;
      }
      ok := stream.EncodeValue(prev);
      if !ok {
        return;
      }
      ok := stream.EncodeValue(curr);
    }

    /** `FcmStreamWriter::tput`. */
    method PutChunk(values: seq<U64>) returns (ok: bool)
      requires stream.Valid() && PredictorOk(predictor) && |values| == CHUNK_SIZE
      modifies this, stream
      ensures stream.Wrote(ok, ValuesOf(Diffs(old(predictor), values))) &&
              predictor == UpdateAll(old(predictor), values)
    {
      var diffs := EncodeAll(values);
      var zero := ByteStream.IsAllZero(diffs);
      if zero {
        assert LE(0xFF, 1) == [0xFF] by { LEStep([], 0xFF, 1); }
        ok := stream.PutRaw(0xFF, 1);
      } else {
        ok := PutPairs(diffs);
      }
    }
  }

  // ---- The block ---------------------------------------------------------------------------------

  /** A writer as a value: `pts` are the samples accepted so far, `junk` bytes of one that did not fit. */
  datatype Block = Block(pts: seq<Sample>, nchunks: nat, ntail: nat, junk: seq<Byte>, tsBuf: seq<U64>, valBuf: seq<U64>)

  /** Samples in compressed chunks, then uncompressed ones, then what is still in the write buffer. */
  function MainSize(b: Block): nat { 16 * b.nchunks }

  function Stored(b: Block): nat { MainSize(b) + b.ntail }

  ghost predicate Splits(b: Block)
  {
    Stored(b) <= |b.pts| < Stored(b) + 16
  }

  function Buffered(b: Block): nat
    requires Stored(b) <= |b.pts|
  {
    |b.pts| - Stored(b)
  }

  function Written(b: Block): seq<Byte>
    requires Stored(b) <= |b.pts|
  {
    ChunksBytes(b.pts, b.nchunks) + RawBytes(b.pts[MainSize(b)..Stored(b)]) + b.junk
  }

  /** The uncompressed part starts only when there is no room for a chunk and the write buffer is empty. */
  predicate SpaceOk(b: Block, space: int)
    requires Stored(b) <= |b.pts|
  {
    && space >= 0
    && (Buffered(b) > 0 ==> space >= MARGIN)
    && (b.ntail > 0 || |b.junk| > 0 ==> Buffered(b) == 0 && space + 16 * b.ntail + |b.junk| < MARGIN)
    && (|b.junk| > 0 ==> space < 8)
  }

  ghost predicate BufferHolds(b: Block)
  {
    && |b.tsBuf| == |b.valBuf| == CHUNK_SIZE && Stored(b) <= |b.pts| <= Stored(b) + 16
    && forall i :: 0 <= i < |b.pts| - Stored(b) ==> b.pts[Stored(b) + i] == Sample(b.tsBuf[i], b.valBuf[i])
  }

  /** Everything known between two calls: `bytes` is the stream, `prev` and `predictor` its two encoders. */
  ghost predicate BlockOk(b: Block, bytes: seq<Byte>, capacity: nat)
  {
    Splits(b) && bytes == Written(b) && BufferHolds(b) && SpaceOk(b, capacity - |bytes|)
  }

  ghost predicate EncodersOk(b: Block, prev: U64, predictor: Predictor)
    requires MainSize(b) <= |b.pts|
  {
    prev == PrevTime(b.pts[..MainSize(b)]) && predictor == PredictorAfter(b.pts[..MainSize(b)])
  }

  // ---- Steps -------------------------------------------------------------------------------------

  function WithSample(b: Block, p: Sample): Block
    requires |b.tsBuf| == |b.valBuf| == CHUNK_SIZE && Stored(b) <= |b.pts| < Stored(b) + 16
  {
    var k := Buffered(b);
    b.(pts := b.pts + [p], tsBuf := b.tsBuf[k := p.ts], valBuf := b.valBuf[k := p.bits])
  }

  /** The writer after one more `put`, as a function of the writer and the room left. */
  function AfterPut(b: Block, space: int, p: Sample): (b': Block)
    requires |b.tsBuf| == |b.valBuf| == CHUNK_SIZE && Stored(b) <= |b.pts| < Stored(b) + 16
    ensures |b'.tsBuf| == |b'.valBuf| == CHUNK_SIZE && Stored(b') <= |b'.pts| < Stored(b') + 16
  {
    if space >= MARGIN then
      var b' := WithSample(b, p);
      if Buffered(b) == 15 then b'.(nchunks := b.nchunks + 1) else b'
    else if space >= 16 then b.(pts := b.pts + [p], ntail := b.ntail + 1)
    else if space >= 8 then b.(junk := b.junk + LE(p.ts, 8))
    else b
  }

  /** An accepted sample leaves no junk behind. */
  lemma AcceptedCleanly(b: Block, space: int, p: Sample)
    requires |b.tsBuf| == |b.valBuf| == CHUNK_SIZE && Stored(b) <= |b.pts| < Stored(b) + 16 && space >= 16
    ensures AfterPut(b, space, p).junk == b.junk
  {
  }

  /** A block that takes no more samples is well filled: a chunk takes at most 282 bytes, and the rest is 16 bytes a
      sample. */
  lemma FullBlock(b: Block, bytes: seq<Byte>, capacity: nat)
    requires BlockOk(b, bytes, capacity) && b.junk == [] && capacity - |bytes| < 16
    ensures 282 * |b.pts| > 16 * (capacity - 16)
  {
    hide ChunksBytes, RawBytes;
  }

  lemma WrittenPrefix(b: Block, b': Block, more: seq<Sample>)
    requires Stored(b) <= |b.pts| && b' == b.(pts := b.pts + more, tsBuf := b'.tsBuf, valBuf := b'.valBuf)
    ensures Written(b') == Written(b)
  {
    hide ChunksBytes;
    hide RawBytes;
    ChunksBytesPrefix(b.pts, more, b.nchunks);
    assert b'.pts[MainSize(b)..Stored(b)] == b.pts[MainSize(b)..Stored(b)];
  }

  /** A sample in the write buffer changes nothing in the stream. */
  lemma BufferStep(b: Block, bytes: seq<Byte>, capacity: nat, p: Sample)
    requires BlockOk(b, bytes, capacity) && capacity - |bytes| >= MARGIN
    ensures var b' := WithSample(b, p);
            && BufferHolds(b') && bytes == Written(b') && b'.pts[..MainSize(b)] == b.pts[..MainSize(b)] &&
               b.ntail == 0 && |b.junk| == 0
            && (Buffered(b) < 15 ==> BlockOk(b', bytes, capacity))
  {
    hide Written;
    WrittenPrefix(b, WithSample(b, p), [p]);
  }

  lemma ChunksOnly(b: Block)
    requires MainSize(b) <= |b.pts| && b.ntail == 0 && |b.junk| == 0
    ensures Written(b) == ChunksBytes(b.pts, b.nchunks)
  {
    hide ChunksBytes;
    var raw := b.pts[MainSize(b)..Stored(b)];
    assert |raw| == 0 && |RawBytes(raw)| == 0;
  }

  /** A full write buffer becomes one more chunk. */
  lemma FlushStep(b: Block, bytes: seq<Byte>, capacity: nat, w: seq<Byte>)
    requires BufferHolds(b) && |b.pts| == MainSize(b) + 16 && b.ntail == 0 && |b.junk| == 0
    requires bytes == Written(b) && ChunksBytes(b.pts, b.nchunks + 1) == ChunksBytes(b.pts, b.nchunks) + w &&
             |bytes| + |w| <= capacity
    ensures BlockOk(b.(nchunks := b.nchunks + 1), bytes + w, capacity)
  {
    hide Written;
    hide ChunksBytes;
    ChunksOnly(b);
    ChunksOnly(b.(nchunks := b.nchunks + 1));
  }

  lemma ChunksMore(pts: seq<Sample>, n: nat)
    requires 16 * (n + 1) <= |pts|
    ensures ChunksBytes(pts, n + 1) == ChunksBytes(pts, n) + NthChunk(pts, n)
  {
    hide NthChunk;
  }

  lemma EncodersSame(b: Block, b': Block, prev: U64, predictor: Predictor)
    requires MainSize(b) <= |b.pts| && EncodersOk(b, prev, predictor)
    requires b'.nchunks == b.nchunks && MainSize(b) <= |b'.pts| && b'.pts[..MainSize(b)] == b.pts[..MainSize(b)]
    ensures EncodersOk(b', prev, predictor)
  {
    hide PredictorAfter;
    hide PrevTime;
  }

  /** The write buffer holds the chunk. */
  lemma FullBuffer(b: Block)
    requires BufferHolds(b) && |b.pts| == MainSize(b) + 16 && b.ntail == 0
    ensures b.tsBuf == Times(b.pts[MainSize(b)..]) && b.valBuf == Values(b.pts[MainSize(b)..])
    ensures b.tsBuf[CHUNK_SIZE - 1] == PrevTime(b.pts) && |b.pts[MainSize(b)..]| == CHUNK_SIZE
  {
  }

  lemma {:induction false} UpdateAllConcat(p: Predictor, a: seq<U64>, b: seq<U64>)
    requires PredictorOk(p)
    ensures UpdateAll(p, a + b) == UpdateAll(UpdateAll(p, a), b)
  {
    if b == [] {
      assert a + b == a;
    } else {
      var n := |b| - 1;
      assert (a + b)[..|a + b| - 1] == a + b[..n];
      UpdateAllConcat(p, a, b[..n]);
    }
  }

  lemma PredictorMore(pts: seq<Sample>, from: nat)
    requires from <= |pts|
    ensures PredictorAfter(pts) == UpdateAll(PredictorAfter(pts[..from]), Values(pts[from..]))
  {
    assert Values(pts) == Values(pts[..from]) + Values(pts[from..]);
    UpdateAllConcat(NewPredictor(), Values(pts[..from]), Values(pts[from..]));
  }

  /** What the two encoders make of the buffered chunk is the chunk of the format, and afterwards they
      stand where the next chunk starts. */
  lemma EncodersStep(b: Block, prev: U64, predictor: Predictor)
    requires BufferHolds(b) && |b.pts| == MainSize(b) + 16 && b.ntail == 0 && EncodersOk(b, prev, predictor)
    ensures PredictorOk(predictor)
    ensures NthChunk(b.pts, b.nchunks) == TimesOf(b.tsBuf, prev) + ValuesOf(Diffs(predictor, b.valBuf))
    ensures EncodersOk(b.(nchunks := b.nchunks + 1), b.tsBuf[CHUNK_SIZE - 1], UpdateAll(predictor, b.valBuf))
  {
    FullBuffer(b);
    assert b.pts[16 * b.nchunks..16 * (b.nchunks + 1)] == b.pts[MainSize(b)..];
    PredictorMore(b.pts, MainSize(b));
    assert b.pts[..|b.pts|] == b.pts;
  }

  /** One more uncompressed sample. */
  lemma RawStep(b: Block, bytes: seq<Byte>, capacity: nat, p: Sample)
    requires BlockOk(b, bytes, capacity) && 16 <= capacity - |bytes| < MARGIN
    ensures BlockOk(b.(pts := b.pts + [p], ntail := b.ntail + 1), bytes + SampleBytes(p), capacity)
    ensures (b.pts + [p])[..MainSize(b)] == b.pts[..MainSize(b)]
  {
    hide ChunksBytes;
    hide SampleBytes;
    hide RawBytes;
    var b1 := b.(pts := b.pts + [p]);
    WrittenPrefix(b, b1, [p]);
    RawMore(b1.pts, MainSize(b), Stored(b));
    Tail(ChunksBytes(b1.pts, b.nchunks), RawBytes(b1.pts[MainSize(b)..Stored(b)]), SampleBytes(p));
  }

  lemma RawMore(pts: seq<Sample>, n: nat, k: nat)
    requires n <= k < |pts|
    ensures RawBytes(pts[n..k + 1]) == RawBytes(pts[n..k]) + SampleBytes(pts[k])
  {
    var raw := pts[n..k + 1];
    assert raw[..|raw| - 1] == pts[n..k] && raw[|raw| - 1] == pts[k];
  }

  lemma Tail(a: seq<Byte>, b: seq<Byte>, c: seq<Byte>)
    ensures a + (b + c) + [] == (a + b + []) + c
  {
  }

  /** A timestamp whose value did not fit stays behind as junk. */
  lemma JunkStep(b: Block, bytes: seq<Byte>, capacity: nat, more: seq<Byte>)
    requires BlockOk(b, bytes, capacity) && |more| == 8 <= capacity - |bytes| < 16
    ensures BlockOk(b.(junk := b.junk + more), bytes + more, capacity)
  {
    hide ChunksBytes;
    hide RawBytes;
    var x, y := ChunksBytes(b.pts, b.nchunks), RawBytes(b.pts[MainSize(b)..Stored(b)]);
    assert x + y + (b.junk + more) == (x + y + b.junk) + more;
  }

  lemma Mod16(index: nat, n: nat, b: nat)
    requires index == 16 * n + b && b < 16
    ensures index % 16 == b && index / 16 == n && ((index + 1) % 16 == 0 <==> b == 15)
  {
  }

  lemma EmptyBlock(b: Block)
    requires b.pts == [] && b.nchunks == 0 && b.ntail == 0 && |b.junk| == 0 && |b.tsBuf| == |b.valBuf| == CHUNK_SIZE
    ensures Written(b) == [] && EncodersOk(b, 0, NewPredictor())
  {
    assert Values([]) == [];
  }

  function NewBlock(): Block
  {
    Block([], 0, 0, [], seq(CHUNK_SIZE, _ => 0), seq(CHUNK_SIZE, _ => 0))
  }

  lemma RawPlaced(before: seq<Byte>, p: Sample)
    ensures (before + LE(p.ts, 8)) + LE(p.bits, 8) == before + SampleBytes(p)
  {
  }

  class DataBlockWriter {
    const id: U64
    const stream: ByteStream
    const times: TimeWriter
    const values: ValueWriter
    var writeIndex: nat
    var tsBuf: seq<U64>
    var valBuf: seq<U64>
    var nchunks: nat
    var ntail: nat
    ghost var pts: seq<Sample>
    ghost var junk: seq<Byte>

    ghost function State(): Block
      reads this
    {
      Block(pts, nchunks, ntail, junk, tsBuf, valBuf)
    }

    ghost predicate Wired()
      reads this, stream
    {
      times.stream == stream && values.stream == stream && stream.Valid()
    }

    ghost predicate Valid()
      reads this, stream, times, values
    {
      && Wired() && BlockOk(State(), stream.bytes, stream.capacity)
      && EncodersOk(State(), times.prev, values.predictor)
      && writeIndex == MainSize(State()) + Buffered(State())
    }

    constructor (id: U64, size: nat)
      requires size >= HEADER_SIZE
      ensures Valid() && fresh(stream) && fresh(times) && fresh(values)
      ensures pts == [] && this.id == id && stream.capacity == size - HEADER_SIZE
      ensures !stream.vectored && State() == NewBlock()
    {
      this.id := id;
      var s := new ByteStream(size - HEADER_SIZE);
      stream := s;
      times := new TimeWriter(s);
      values := new ValueWriter(s);
      writeIndex, nchunks, ntail := 0, 0, 0;
      tsBuf, valBuf := seq(CHUNK_SIZE, _ => 0), seq(CHUNK_SIZE, _ => 0);
      pts, junk := [], [];
      new;
      EmptyBlock(State());
    }

    /** `IOVecBlockWriter` over a scattered block whose first `offset` bytes are taken. */
    constructor Scattered(id: U64, offset: nat)
      requires offset + HEADER_SIZE <= 1024
      ensures Valid() && fresh(stream) && fresh(times) && fresh(values)
      ensures pts == [] && this.id == id && stream.capacity == 4096 - offset - HEADER_SIZE
      ensures stream.vectored && stream.start == offset + HEADER_SIZE
      ensures State() == NewBlock()
    {
      this.id := id;
      var s := new ByteStream.Scattered(offset + HEADER_SIZE);
      stream := s;
      times := new TimeWriter(s);
      values := new ValueWriter(s);
      writeIndex, nchunks, ntail := 0, 0, 0;
      tsBuf, valBuf := seq(CHUNK_SIZE, _ => 0), seq(CHUNK_SIZE, _ => 0);
      pts, junk := [], [];
      new;
      EmptyBlock(State());
    }

    /** The full write buffer goes out as one chunk; `room_for_chunk` guaranteed the space. */
    method FlushChunk() returns (ok: bool)
      requires Wired() && PredictorOk(values.predictor) && |tsBuf| == |valBuf| == CHUNK_SIZE &&
               stream.SpaceLeft() >= MARGIN
      modifies stream, times, values, `nchunks
      ensures ok && nchunks == old(nchunks) + 1 && stream.Valid()
      ensures stream.bytes == old(stream.bytes) +
              (TimesOf(tsBuf, old(times.prev)) + ValuesOf(Diffs(old(values.predictor), valBuf)))
      ensures times.prev == tsBuf[CHUNK_SIZE - 1] && values.predictor == UpdateAll(old(values.predictor), valBuf)
    {
      hide TimesOf;
      hide ValuesOf;
      hide Diffs;
      hide UpdateAll;
      ghost var start, a, b := stream.bytes, TimesOf(tsBuf, times.prev), ValuesOf(Diffs(values.predictor, valBuf));
      assert start + (a + b) == (start + a) + b;
      ok := times.PutChunk(tsBuf);
      if ok {
        ok := values.PutChunk(valBuf);
        if ok {
          nchunks := nchunks + 1;
          return;
        }
      }
      assert false;
    }

    /** `room_for_chunk` holds: the sample goes to the write buffer. */
    method PutBuffered(p: Sample) returns (ok: bool)
      requires Valid() && stream.SpaceLeft() >= MARGIN
      modifies this, stream, times, values
      ensures Valid() && ok && pts == old(pts) + [p] && stream.SpaceLeft() <= old(stream.SpaceLeft())
      ensures State() == AfterPut(old(State()), old(stream.SpaceLeft()), p)
    {
      hide Written;
      hide ChunksBytes;
      hide NthChunk;
      hide PredictorAfter;
      hide TimesOf;
      hide ValuesOf;
      hide Diffs;
      hide UpdateAll, ByteStream.Valid;
      ghost var b := State();
      Mod16(writeIndex, nchunks, Buffered(b));
      BufferStep(b, stream.bytes, stream.capacity, p);
      EncodersSame(b, WithSample(b, p), times.prev, values.predictor);
      tsBuf, valBuf := tsBuf[writeIndex % 16 := p.ts], valBuf[writeIndex % 16 := p.bits];
      pts := pts + [p];
      writeIndex := writeIndex + 1;
      if writeIndex % 16 == 0 {
        EncodersStep(State(), times.prev, values.predictor);
        ChunksMore(pts, nchunks);
        FlushStep(State(), stream.bytes, stream.capacity, NthChunk(pts, nchunks));
        ok := FlushChunk();
      } else {
        ok := true;
      }
    }

    /** No room for a chunk: the sample is stored as it is, if it fits. */
    method PutRawSample(p: Sample) returns (ok: bool)
      requires Valid() && stream.SpaceLeft() < MARGIN
      modifies this, stream
      ensures Valid() && (ok <==> old(stream.SpaceLeft()) >= 16) && stream.SpaceLeft() <= old(stream.SpaceLeft())
      ensures pts == if ok then old(pts) + [p] else old(pts)
      ensures State() == AfterPut(old(State()), old(stream.SpaceLeft()), p)
    {
      hide Written;
      hide LE;
      hide SampleBytes;
      hide PredictorAfter;
      ghost var b, before := State(), stream.bytes;
      ok := stream.PutRaw(p.ts, 8);
      if ok {
        ok := stream.PutRaw(p.bits, 8);
        if ok {
          RawStep(b, before, stream.capacity, p);
          EncodersSame(b, b.(pts := b.pts + [p], ntail := b.ntail + 1), times.prev, values.predictor);
          RawPlaced(before, p);
          ntail := ntail + 1;
          pts := pts + [p];
          return;
        }
        JunkStep(b, before, stream.capacity, LE(p.ts, 8));
        EncodersSame(b, b.(junk := b.junk + LE(p.ts, 8)), times.prev, values.predictor);
        junk := junk + LE(p.ts, 8);
      }
    }

    /** `DataBlockWriter::put`: accepted exactly when there is room for one uncompressed sample. */
    method Put(ts: U64, bits: U64) returns (ok: bool)
      requires Valid()
      modifies this, stream, times, values
      ensures Valid() && (ok <==> old(stream.SpaceLeft()) >= 16) && stream.SpaceLeft() <= old(stream.SpaceLeft())
      ensures pts == if ok then old(pts) + [Sample(ts, bits)] else old(pts)
      ensures State() == AfterPut(old(State()), old(stream.SpaceLeft()), Sample(ts, bits))
      ensures ntail == old(ntail) + if 16 <= old(stream.SpaceLeft()) < 304 then 1 else 0
    {
      if stream.Room() >= MARGIN {
        ok := PutBuffered(Sample(ts, bits));
      } else {
        ok := PutRawSample(Sample(ts, bits));
      }
    }

    /** `DataBlockWriter::commit`: what is left in the write buffer goes out uncompressed. There is always
        room for it. */
    method Commit() returns (size: nat)
      requires Valid()
      modifies this, stream
      ensures pts == old(pts) && Complete() && size == HEADER_SIZE + |stream.bytes|
      ensures State() == old(State()).(ntail := old(State()).ntail + Buffered(old(State())))
    {
      hide Written;
      hide LE;
      hide SampleBytes, ByteStream.Valid, EncodersOk;
      Mod16(writeIndex, nchunks, Buffered(State()));
      var main, buftail := writeIndex / 16, writeIndex % 16;
      ghost var b := State();
      for ix := 0 to buftail
        invariant State() == b.(ntail := b.ntail + ix) && Wired() && stream.bytes == Written(State())
        invariant stream.SpaceLeft() >= 16 * (buftail - ix) && writeIndex == main * 16 + buftail - ix
      {
        var p := Sample(tsBuf[ix], valBuf[ix]);
        assert pts[Stored(b) + ix] == p;
        RawMoreStep(State());
        RawPlaced(stream.bytes, p);
        var ok := stream.PutRaw(p.ts, 8);
        ok := stream.PutRaw(p.bits, 8);
        ntail := ntail + 1;
        writeIndex := writeIndex - 1;
      }
      nchunks := main;
      size := HEADER_SIZE + (stream.capacity - stream.Room());
    }

    /** Every accepted sample is in the stream. */
    ghost predicate Complete()
      reads this, stream
    {
      stream.Valid() && Stored(State()) == |pts| && stream.bytes == Written(State())
    }
  }

  function Header(nchunks: nat, ntail: nat, id: U64): (s: seq<Byte>)
    ensures |s| == HEADER_SIZE
  {
    LE(VERSION, 2) + LE(nchunks, 2) + LE(ntail, 2) + LE(id, 8)
  }

  lemma RawMoreStep(b: Block)
    requires Stored(b) < |b.pts| && |b.junk| == 0
    ensures Written(b.(ntail := b.ntail + 1)) == Written(b) + SampleBytes(b.pts[Stored(b)])
  {
    hide ChunksBytes;
    hide SampleBytes;
    hide RawBytes;
    RawMore(b.pts, MainSize(b), Stored(b));
    Tail(ChunksBytes(b.pts, b.nchunks), RawBytes(b.pts[MainSize(b)..Stored(b)]), SampleBytes(b.pts[Stored(b)]));
  }

  /** The 16-bit counters of the header never overflow. */
  lemma CountersFit(b: Block, bytes: seq<Byte>)
    requires Stored(b) == |b.pts| && bytes == Written(b) && |bytes| <= 0xFFFF
    ensures b.nchunks < 0x1_0000 && b.ntail < 0x1_0000
  {
    hide NthChunk;
  }

  /** A writer over a flat buffer and one over a scattered block with as much room, in the same state. */
  ghost predicate Twins(a: DataBlockWriter, b: DataBlockWriter)
    reads a, a.stream, a.times, a.values, b, b.stream, b.times, b.values
  {
    Beside(a, b) && a.Valid() && b.Valid() && a.State() == b.State()
  }

  ghost predicate Beside(a: DataBlockWriter, b: DataBlockWriter)
  {
    && a != b && a.stream != b.stream && a.times != b.times && a.values != b.values
    && a.stream.capacity == b.stream.capacity && !a.stream.vectored && b.stream.vectored
  }

  /** The bytes are a function of the state. */
  lemma SameBytes(a: DataBlockWriter, b: DataBlockWriter)
    requires Twins(a, b)
    ensures a.stream.bytes == b.stream.bytes
  {
  }

  method PutBoth(a: DataBlockWriter, b: DataBlockWriter, p: Sample) returns (x: bool, y: bool)
    requires Twins(a, b)
    modifies a, a.stream, a.times, a.values, b, b.stream, b.times, b.values
    ensures Twins(a, b) && x == y
  {
    hide Beside, DataBlockWriter.Valid, AfterPut;
    x := PutFirst(a, b, p);
    y := PutSecond(a, b, p);
  }

  method PutFirst(a: DataBlockWriter, b: DataBlockWriter, p: Sample) returns (x: bool)
    requires Twins(a, b)
    modifies a, a.stream, a.times, a.values
    ensures Beside(a, b) && a.Valid() && b.Valid() && (x <==> b.stream.SpaceLeft() >= 16)
    ensures a.State() == AfterPut(b.State(), b.stream.SpaceLeft(), p)
  {
    hide BlockOk, EncodersOk, AfterPut, IOVec.Holds, ByteStream.InBlock;
    SameBytes(a, b);
    x := a.Put(p.ts, p.bits);
  }

  method PutSecond(a: DataBlockWriter, b: DataBlockWriter, p: Sample) returns (y: bool)
    requires Beside(a, b) && a.Valid() && b.Valid() && a.State() == AfterPut(b.State(), b.stream.SpaceLeft(), p)
    modifies b, b.stream, b.times, b.values
    ensures Twins(a, b) && (y <==> old(b.stream.SpaceLeft()) >= 16)
  {
    hide BlockOk, EncodersOk, AfterPut, IOVec.Holds;
    y := b.Put(p.ts, p.bits);
  }

  method CommitBoth(a: DataBlockWriter, b: DataBlockWriter) returns (x: nat, y: nat)
    requires Twins(a, b)
    modifies a, a.stream, b, b.stream
    ensures a.Complete() && b.Complete() && x == y
    ensures a.State() == b.State() && a.stream.bytes == b.stream.bytes
  {
    hide DataBlockWriter.Valid, ByteStream.Valid, Written;
    x := a.Commit();
    y := b.Commit();
  }

  /** Any run of samples, once into a flat buffer and once into a scattered block with as much room: every sample
      is accepted by both or by neither, and both end up with the same counters and the same bytes. */
  method Lockstep(samples: seq<Sample>, id: U64, offset: nat)
    returns (flat: DataBlockWriter, scattered: DataBlockWriter, flatOk: seq<bool>, scatteredOk: seq<bool>,
             flatSize: nat, scatteredSize: nat)
    requires offset + HEADER_SIZE <= 1024
    ensures flatOk == scatteredOk && flatSize == scatteredSize
    ensures !flat.stream.vectored && scattered.stream.vectored && flat.Complete() && scattered.Complete()
    ensures flat.State() == scattered.State() && flat.stream.Written() == scattered.stream.Written()
  {
    hide BlockOk, EncodersOk, AfterPut, Written, IOVec.Holds;
    flat := new DataBlockWriter(id, 4096 - offset);
    scattered := new DataBlockWriter.Scattered(id, offset);
    flatOk, scatteredOk := [], [];
    for i := 0 to |samples|
      invariant fresh(flat) && fresh(flat.stream) && fresh(flat.times) && fresh(flat.values)
      invariant fresh(scattered) && fresh(scattered.stream) && fresh(scattered.times) && fresh(scattered.values)
      invariant Twins(flat, scattered) && flatOk == scatteredOk
    {
      var a, b := PutBoth(flat, scattered, samples[i]);
      flatOk, scatteredOk := flatOk + [a], scatteredOk + [b];
    }
    flatSize, scatteredSize := CommitBoth(flat, scattered);
  }
}
