/** `DataBlockReader` (storage/compression.cc) over the streams of storage/compression.h, and the round
    trip through a block. */
module BlockReader {
  import opened Bytes
  import opened Chunks
  import opened BlockWriter

  lemma Distribute(p: nat, a: nat, f: nat)
    ensures p * (a + 256 * f) == p * a + (256 * p) * f
  {
  }

  lemma FirstDigit(x: nat)
    ensures 0 + Pow256(0) * x == x
  {
  }

  lemma NextDigit(acc: nat, i: nat, rest: nat, x: nat, n: nat)
    requires acc + Pow256(i) * rest == x && i < n && rest < Pow256(n - i)
    ensures (acc + Pow256(i) * (rest % 256)) + Pow256(i + 1) * (rest / 256) == x && rest / 256 < Pow256(n - i - 1)
  {
    var p := Pow256(i);
    assert Pow256(i + 1) == 256 * p && Pow256(n - i) == 256 * Pow256(n - i - 1);
    hide Pow256;
    Distribute(p, rest % 256, rest / 256);
    assert rest == rest % 256 + 256 * (rest / 256);
  }

  lemma LastDigit(acc: nat, i: nat, rest: nat, x: nat)
    requires acc + Pow256(i) * rest == x && rest < Pow256(0)
    ensures acc == x
  {
    assert rest == 0;
  }

  lemma LEFront(x: nat, n: nat, tail: seq<Byte>)
    ensures LE(x, n) + tail == if n == 0 then tail else [x % 256] + (LE(x / 256, n - 1) + tail)
  {
  }

  lemma LebFront(x: nat, tail: seq<Byte>)
    ensures Leb(x) + tail == if x < 128 then [x] + tail else [128 + x % 128] + (Leb(x / 128) + tail)
  {
  }

  /** `VByteStreamReader`. Reading past the end aborts the process, so the callers guarantee the bytes. */
  class ByteReader {
    const image: seq<Byte>
    var pos: nat
    var cnt: nat
    var ctrl: nat
    var scut: nat

    constructor (image: seq<Byte>, pos: nat)
      requires pos <= |image|
      ensures this.image == image && this.pos == pos && cnt == 0 && ctrl == 0 && scut == 0
    {
      this.image, this.pos := image, pos;
      cnt, ctrl, scut := 0, 0, 0;
    }

    ghost function Rest(): seq<Byte>
      reads this
      requires pos <= |image|
    {
      image[pos..]
    }

    ghost predicate Left(tail: seq<Byte>)
      reads this
    {
      pos <= |image| && Rest() == tail
    }

    /** What is left starts with `s`. */
    ghost predicate At(s: seq<Byte>, tail: seq<Byte>)
      reads this
    {
      pos <= |image| && Rest() == s + tail
    }

    /** `read_raw` of an `n`-byte integer, and the loops that assemble one byte by byte. */
    method ReadBytes(n: nat, ghost x: nat, ghost tail: seq<Byte>) returns (acc: nat)
      requires At(LE(x, n), tail) && x < Pow256(n)
      modifies `pos
      ensures acc == x && Left(tail)
    {
      hide LE;
      acc := 0;
      ghost var rest: nat := x;
      FirstDigit(x);
      hide Pow256;
      for i := 0 to n
        invariant At(LE(rest, n - i), tail)
        invariant acc + Pow256(i) * rest == x && rest < Pow256(n - i)
      {
        LEFront(rest, n - i, tail);
        assert image[pos] == rest % 256;
        NextDigit(acc, i, rest, x, n);
        acc := acc + Pow256(i) * image[pos];
        pos := pos + 1;
        rest := rest / 256;
      }
      LEFront(rest, 0, tail);
      LastDigit(acc, n, rest, x);
    }

    /** `Base128Int::get`. */
    method ReadBase128(ghost x: nat, ghost tail: seq<Byte>) returns (acc: nat)
      requires At(Leb(x), tail)
      modifies `pos
      ensures acc == x && Left(tail)
    {
      hide Leb;
      acc := 0;
      ghost var rest: nat := x;
      var cnt := 0;
      assert Pow128(0) * x == x;
      while true
        invariant At(Leb(rest), tail) && acc + Pow128(cnt) * rest == x
        decreases rest
      {
        MulSplit(Pow128(cnt), rest, 128);
        LebFront(rest, tail);
        var byte := image[pos];
        acc := acc + Pow128(cnt) * (byte % 128);
        pos := pos + 1;
        if byte < 128 {
          break;
        }
        rest := rest / 128;
        cnt := cnt + 1;
      }
    }

    // ---- Timestamps of a chunk ---------------------------------------------------------------------

    /** `i` of the 16 numbers `ds` have been read; `tail` follows the chunk. */
    ghost predicate Within(ds: seq<U64>, i: nat, tail: seq<Byte>)
      reads this
    {
      && |ds| == CHUNK_SIZE && i <= CHUNK_SIZE && pos <= |image| && cnt % 2 == i % 2
      && if AllZero(ds) then
           if i == 0 then scut == 0 && Rest() == [0xFF] + tail
           else ctrl == 0xFF && scut == CHUNK_SIZE - i && Rest() == tail
         else
           && scut == 0
           && if i % 2 == 0 then Rest() == Pairs(ds[i..]) + tail
              else
                && ctrl == ByteLength(ds[i - 1]) + 16 * ByteLength(ds[i])
                && Rest() == LE(ds[i], ByteLength(ds[i])) + (Pairs(ds[i + 1..]) + tail)
    }

    /** `VByteStreamReader::next`. */
    method Next(ghost ds: seq<U64>, ghost i: nat, ghost tail: seq<Byte>) returns (x: U64)
      requires i < CHUNK_SIZE && Within(ds, i, tail)
      modifies this
      ensures x == ds[i] && Within(ds, i + 1, tail)
    {
      if ctrl == 0xFF && scut > 0 {
        scut := scut - 1;
        cnt := cnt + 1;
        return 0;
      }
      x := NextCoded(ds, i, tail);
    }

    method NextCoded(ghost ds: seq<U64>, ghost i: nat, ghost tail: seq<Byte>) returns (x: U64)
      requires i < CHUNK_SIZE && Within(ds, i, tail) && scut == 0
      modifies this
      ensures x == ds[i] && Within(ds, i + 1, tail)
    {
      if cnt % 2 == 0 {
        x := NextEven(ds, i, tail);
      } else {
        x := NextOdd(ds, i, tail);
      }
    }

    /** The first of a pair: read the control byte. */
    method NextEven(ghost ds: seq<U64>, ghost i: nat, ghost tail: seq<Byte>) returns (x: U64)
      requires i < CHUNK_SIZE && Within(ds, i, tail) && scut == 0 && cnt % 2 == 0
      modifies this
      ensures x == ds[i] && Within(ds, i + 1, tail)
    {
      hide LE;
      hide Pairs;
      hide ByteLength;
      Parity(cnt, i);
      cnt := cnt + 1;
      if !AllZero(ds) {
        EvenPair(ds, i, tail);
        Nibbles(ByteLength(ds[i]), ByteLength(ds[i + 1]));
      }
      ctrl := image[pos];
      pos := pos + 1;
      if ctrl / 16 == 0xF {
        scut := CHUNK_SIZE - 1;
        assert i == 0 && Rest() == ([0xFF] + tail)[1..];
        return 0;
      }
      ByteLengthFits(ds[i]);
      x := ReadBytes(ctrl % 16, ds[i], LE(ds[i + 1], ByteLength(ds[i + 1])) + (Pairs(ds[i + 2..]) + tail));
    }

    /** The second of a pair. */
    method NextOdd(ghost ds: seq<U64>, ghost i: nat, ghost tail: seq<Byte>) returns (x: U64)
      requires i < CHUNK_SIZE && Within(ds, i, tail) && scut == 0 && cnt % 2 == 1
      modifies this
      ensures x == ds[i] && Within(ds, i + 1, tail)
    {
      hide LE;
      hide Pairs;
      hide ByteLength;
      Parity(cnt, i);
      cnt := cnt + 1;
      ByteLengthFits(ds[i]);
      ControlNibble(ds[i - 1]);
      ControlNibble(ds[i]);
      Nibbles(ByteLength(ds[i - 1]), ByteLength(ds[i]));
      x := ReadBytes(ctrl / 16, ds[i], Pairs(ds[i + 1..]) + tail);
    }
  }

  lemma Regroup(c: seq<Byte>, x: seq<Byte>, y: seq<Byte>, z: seq<Byte>, tail: seq<Byte>)
    ensures (c + x + y + z) + tail == c + (x + (y + (z + tail)))
  {
  }

  lemma Parity(a: nat, b: nat)
    requires a % 2 == b % 2
    ensures (a + 1) % 2 == (b + 1) % 2 != a % 2
    ensures b % 2 == 0 && b < 16 ==> b + 1 < 16
  {
  }

  lemma Nibbles(a: nat, b: nat)
    requires a < 16 && b < 16
    ensures (a + 16 * b) % 16 == a && (a + 16 * b) / 16 == b
  {
  }

  /** At an even position the next pair starts with its control byte, which is not the shortcut. */
  lemma EvenPair(ds: seq<U64>, i: nat, tail: seq<Byte>)
    requires i + 1 < |ds|
    ensures var a, b := ds[i], ds[i + 1];
            && ByteLength(a) <= 8 && ByteLength(b) <= 8
            && Pairs(ds[i..]) + tail ==
               [ByteLength(a) + 16 * ByteLength(b)] +
                   (LE(a, ByteLength(a)) + (LE(b, ByteLength(b)) + (Pairs(ds[i + 2..]) + tail)))
  {
    hide LE;
    hide ByteLength;
    hide Pairs;
    var a, b := ds[i], ds[i + 1];
    ControlNibble(a);
    ControlNibble(b);
    PairsStep([], ds, i);
    assert [] + Pairs(ds[i..]) == Pairs(ds[i..]) && [] + Pair(a, b) == Pair(a, b);
    var c, x, y, z := [ByteLength(a) + 16 * ByteLength(b)], LE(a, ByteLength(a)), LE(b, ByteLength(b)),
        Pairs(ds[i + 2..]);
    assert Pair(a, b) == c + x + y;
    Regroup(c, x, y, z, tail);
  }

  // ---- Timestamps --------------------------------------------------------------------------------

  lemma DeltaBack(value: U64, prev: U64, m: U64)
    requires m <= Sub64(value, prev)
    ensures Add64(Add64(prev, Sub64(value, prev) - m), m) == value
  {
  }

  /** `DeltaDeltaStreamReader`. */
  class TimeReader {
    const stream: ByteReader
    var prev: U64
    var min: U64
    var counter: nat

    constructor (stream: ByteReader)
      ensures this.stream == stream && prev == 0 && counter == 0
    {
      this.stream := stream;
      prev, min, counter := 0, 0, 0;
    }

    /** Between two chunks. */
    ghost predicate Ready()
      reads this, stream
    {
      counter % 16 == 0 && stream.cnt % 2 == 0 && stream.scut == 0 && stream.pos <= |stream.image|
    }

    /** `i` timestamps of the chunk `ts` that followed `before` have been read. */
    ghost predicate Reading(ts: seq<U64>, before: U64, i: nat, tail: seq<Byte>)
      reads this, stream
      requires |ts| == CHUNK_SIZE
    {
      var ds := Deltas(ts, before);
      var m := MinOf(ds);
      && i <= CHUNK_SIZE && counter % 16 == i % 16
      && prev == (if i == 0 then before else ts[i - 1])
      && if i == 0 then Ready() && stream.At(TimesOf(ts, before), tail)
         else min == m && stream.Within(Lowered(ds, m), i, tail)
    }

    /** `DeltaDeltaStreamReader::next`. */
    method Next(ghost ts: seq<U64>, ghost before: U64, ghost i: nat, ghost tail: seq<Byte>) returns (value: U64)
      requires |ts| == CHUNK_SIZE && i < CHUNK_SIZE && Reading(ts, before, i, tail)
      modifies this, stream
      ensures value == ts[i] && Reading(ts, before, i + 1, tail)
    {
      hide Leb;
      hide VBytes;
      hide MinOf;
      hide TimesOf;
      hide Deltas;
      hide Lowered;
      ghost var ds := Deltas(ts, before);
      ghost var m := MinOf(ds);
      CountOn(counter, i);
      if counter % 16 == 0 {
        TimesFront(ts, before, tail);
        min := stream.ReadBase128(m, VBytes(Lowered(ds, m)) + tail);
        ChunkStarts(stream, Lowered(ds, m), tail);
      }
      counter := counter + 1;
      var delta := stream.Next(Lowered(ds, m), i, tail);
      DeltaAt(ts, before, i);
      DeltaBack(ts[i], prev, min);
      value := Add64(Add64(prev, delta), min);
      prev := value;
    }

    /** 16 calls of `next`. */
    method ReadChunk(ghost ts: seq<U64>, ghost tail: seq<Byte>) returns (buffer: seq<U64>)
      requires |ts| == CHUNK_SIZE && Ready() && stream.At(TimesOf(ts, prev), tail)
      modifies this, stream
      ensures buffer == ts && Ready() && stream.Left(tail) && prev == ts[CHUNK_SIZE - 1]
    {
      hide TimesOf;
      hide Deltas;
      hide Lowered;
      hide MinOf;
      ghost var before := prev;
      buffer := [];
      for k := 0 to CHUNK_SIZE
        invariant Reading(ts, before, k, tail) && buffer == ts[..k]
      {
        var t := Next(ts, before, k, tail);
        buffer := buffer + [t];
      }
      TimesEnd(stream, Lowered(Deltas(ts, before), MinOf(Deltas(ts, before))), tail);
    }
  }

  lemma DeltaAt(ts: seq<U64>, before: U64, i: nat)
    requires i < |ts|
    ensures var ds := Deltas(ts, before);
            && ds[i] == Sub64(ts[i], if i == 0 then before else ts[i - 1])
            && MinOf(ds) <= ds[i] && Lowered(ds, MinOf(ds))[i] == ds[i] - MinOf(ds)
  {
  }

  lemma TimesFront(ts: seq<U64>, before: U64, tail: seq<Byte>)
    requires |ts| == CHUNK_SIZE
    ensures var ds := Deltas(ts, before);
            TimesOf(ts, before) + tail == Leb(MinOf(ds)) + (VBytes(Lowered(ds, MinOf(ds))) + tail)
  {
    hide Leb;
    hide VBytes;
    hide MinOf;
  }

  lemma CountOn(counter: nat, i: nat)
    requires counter % 16 == i % 16 && i < 16
    ensures (counter + 1) % 16 == (i + 1) % 16 && (counter % 16 == 0 <==> i == 0)
  {
  }

  lemma ChunkStarts(stream: ByteReader, ds: seq<U64>, tail: seq<Byte>)
    requires |ds| == CHUNK_SIZE && stream.Left(VBytes(ds) + tail) && stream.cnt % 2 == 0 && stream.scut == 0
    ensures stream.Within(ds, 0, tail)
  {
    hide Pairs;
    assert ds[0..] == ds;
  }

  // ---- Values ------------------------------------------------------------------------------------

  lemma {:induction false} DiffAt(p: Predictor, vals: seq<U64>, i: nat)
    requires PredictorOk(p) && i < |vals|
    ensures Diffs(p, vals)[i] == Diff(UpdateAll(p, vals[..i]), vals[i])
  {
    hide Diff;
    hide UpdateAll;
    var n := |vals| - 1;
    if i < n {
      DiffAt(p, vals[..n], i);
      assert vals[..n][..i] == vals[..i];
    }
  }

  lemma UpdateNext(p: Predictor, vals: seq<U64>, i: nat)
    requires PredictorOk(p) && i < |vals|
    ensures UpdateAll(p, vals[..i + 1]) == Update(UpdateAll(p, vals[..i]), vals[i])
  {
    hide Update;
    assert vals[..i + 1][..i] == vals[..i];
  }

  /** Exclusive or with the same prediction gives the value back. */
  lemma DiffBack(p: Predictor, v: U64)
    requires PredictorOk(p)
    ensures Xor(Predict(p), Diff(p, v)) == v
  {
    XorBack(Predict(p), v);
  }

  lemma ValueEvenPair(ds: seq<U64>, i: nat, tail: seq<Byte>)
    requires i + 1 < |ds|
    ensures var a, b := ds[i], ds[i + 1];
            ValuePairs(ds[i..]) + tail == [16 * Flag(a) + Flag(b)] +
                (ValueBytes(a) + (ValueBytes(b) + (ValuePairs(ds[i + 2..]) + tail)))
  {
    hide ValueBytes;
    hide Flag;
    hide ValuePairs;
    var a, b := ds[i], ds[i + 1];
    ValuePairsStep([], ds, i);
    assert [] + ValuePairs(ds[i..]) == ValuePairs(ds[i..]) && [] + ValuePair(a, b) == ValuePair(a, b);
    var c, x, y, z := [16 * Flag(a) + Flag(b)], ValueBytes(a), ValueBytes(b), ValuePairs(ds[i + 2..]);
    Regroup(c, x, y, z, tail);
  }

  /** `FcmStreamReader`. */
  class ValueReader {
    const stream: ByteReader
    var predictor: Predictor
    var flags: nat
    var iter: nat
    var nzeroes: nat

    constructor (stream: ByteReader)
      ensures this.stream == stream && predictor == NewPredictor() && flags == 0 && iter == 0 && nzeroes == 0
    {
      this.stream := stream;
      predictor := NewPredictor();
      flags, iter, nzeroes := 0, 0, 0;
    }

    /** `i` of the 16 differences `ds` have been read. */
    ghost predicate Within(ds: seq<U64>, i: nat, tail: seq<Byte>)
      reads this, stream
    {
      && |ds| == CHUNK_SIZE && i <= CHUNK_SIZE && stream.pos <= |stream.image| && iter % 2 == i % 2
      && if AllZero(ds) then
           if i == 0 then nzeroes == 0 && stream.Rest() == [0xFF] + tail
           else nzeroes == CHUNK_SIZE - i && stream.Rest() == tail
         else
           && nzeroes == 0
           && if i % 2 == 0 then stream.Rest() == ValuePairs(ds[i..]) + tail
              else
                && flags == 16 * Flag(ds[i - 1]) + Flag(ds[i])
                && stream.Rest() == ValueBytes(ds[i]) + (ValuePairs(ds[i + 1..]) + tail)
    }

    /** `decode_value`. */
    method DecodeValue(flag: nat, ghost diff: U64, ghost tail: seq<Byte>) returns (x: U64)
      requires flag == Flag(diff) && stream.At(ValueBytes(diff), tail)
      modifies stream`pos
      ensures x == diff && stream.Left(tail)
    {
      hide LE;
      ValueBytesEnough(diff);
      var word := stream.ReadBytes(FlagBytes(flag), ShiftRight(diff, FlagShift(flag)), tail);
      x := ShiftLeft(word, FlagShift(flag));
    }

    /** The first half of `FcmStreamReader::next`: the difference from the prediction. */
    method NextDiff(ghost ds: seq<U64>, ghost i: nat, ghost tail: seq<Byte>) returns (diff: U64)
      requires i < CHUNK_SIZE && Within(ds, i, tail)
      modifies `flags, `iter, `nzeroes, stream`pos
      ensures diff == ds[i] && Within(ds, i + 1, tail)
    {
      hide ValueBytes;
      hide ValuePairs;
      hide Flag;
      Parity(iter, i);
      var even := iter % 2 == 0;
      if nzeroes > 0 {
        iter := iter + 1;
        diff := 0;
        nzeroes := nzeroes - 1;
      } else if even {
        diff := NextEven(ds, i, tail);
      } else {
        diff := NextOdd(ds, i, tail);
      }
    }

    /** The first of a pair: read the flags; 0xFF stands for 16 zeros. */
    method NextEven(ghost ds: seq<U64>, ghost i: nat, ghost tail: seq<Byte>) returns (diff: U64)
      requires i < CHUNK_SIZE && Within(ds, i, tail) && nzeroes == 0 && iter % 2 == 0
      modifies `flags, `iter, `nzeroes, stream`pos
      ensures diff == ds[i] && Within(ds, i + 1, tail)
    {
      hide ValueBytes;
      hide ValuePairs;
      hide Flag;
      Parity(iter, i);
      iter := iter + 1;
      if !AllZero(ds) {
        ValueEvenPair(ds, i, tail);
        FlagBelow(ds[i]);
        FlagBelow(ds[i + 1]);
        Nibbles(Flag(ds[i + 1]), Flag(ds[i]));
      }
      flags := stream.image[stream.pos];
      stream.pos := stream.pos + 1;
      if flags == 0xFF {
        nzeroes := 16 - 1;
        diff := 0;
      } else {
        diff := DecodeValue(flags / 16, ds[i], ValueBytes(ds[i + 1]) + (ValuePairs(ds[i + 2..]) + tail));
      }
    }

    /** The second of a pair. */
    method NextOdd(ghost ds: seq<U64>, ghost i: nat, ghost tail: seq<Byte>) returns (diff: U64)
      requires i < CHUNK_SIZE && Within(ds, i, tail) && nzeroes == 0 && iter % 2 == 1
      modifies `flags, `iter, `nzeroes, stream`pos
      ensures diff == ds[i] && Within(ds, i + 1, tail)
    {
      hide ValueBytes;
      hide ValuePairs;
      hide Flag;
      Parity(iter, i);
      iter := iter + 1;
      FlagBelow(ds[i]);
      FlagBelow(ds[i - 1]);
      Nibbles(Flag(ds[i]), Flag(ds[i - 1]));
      diff := DecodeValue(flags % 16, ds[i], ValuePairs(ds[i + 1..]) + tail);
    }

    /** `FcmStreamReader::next`: writer and reader predict the same, so the value comes back. */
    method Next(ghost p: Predictor, ghost vals: seq<U64>, ghost i: nat, ghost tail: seq<Byte>) returns (value: U64)
      requires PredictorOk(p) && |vals| == CHUNK_SIZE && i < CHUNK_SIZE && Within(Diffs(p, vals), i, tail)
      requires predictor == UpdateAll(p, vals[..i])
      modifies this, stream`pos
      ensures value == vals[i] && Within(Diffs(p, vals), i + 1, tail) && predictor == UpdateAll(p, vals[..i + 1])
    {
      hide Diffs;
      hide UpdateAll;
      hide Xor;
      hide Update;
      DiffAt(p, vals, i);
      UpdateNext(p, vals, i);
      DiffBack(predictor, vals[i]);
      var diff := NextDiff(Diffs(p, vals), i, tail);
      value := Xor(Predict(predictor), diff);
      predictor := Update(predictor, value);
    }
  }

  lemma FlagBelow(diff: U64)
    ensures Flag(diff) < 15
  {
  }

  // ---- The block ---------------------------------------------------------------------------------

  /** Chunks `c` up to `n`. */
  ghost function ChunksFrom(pts: seq<Sample>, c: nat, n: nat): seq<Byte>
    requires 16 * n <= |pts|
    decreases n - c
  {
    if c >= n then [] else NthChunk(pts, c) + ChunksFrom(pts, c + 1, n)
  }

  lemma {:induction false} ChunksSplit(pts: seq<Sample>, c: nat, n: nat)
    requires c <= n && 16 * n <= |pts|
    ensures ChunksBytes(pts, n) == ChunksBytes(pts, c) + ChunksFrom(pts, c, n)
    decreases n - c
  {
    hide NthChunk;
    if c < n {
      ChunksSplit(pts, c + 1, n);
      assert ChunksBytes(pts, c + 1) == ChunksBytes(pts, c) + NthChunk(pts, c);
      assert ChunksFrom(pts, c, n) == NthChunk(pts, c) + ChunksFrom(pts, c + 1, n);
    } else {
      assert ChunksFrom(pts, c, n) == [];
    }
  }

  lemma {:induction false} RawFront(pts: seq<Sample>)
    requires |pts| > 0
    ensures RawBytes(pts) == SampleBytes(pts[0]) + RawBytes(pts[1..])
  {
    hide SampleBytes;
    var n := |pts| - 1;
    if n > 0 {
      RawFront(pts[..n]);
      assert pts[..n][1..] == pts[1..][..n - 1] && pts[1..][n - 1] == pts[n];
      assert RawBytes(pts[1..]) == RawBytes(pts[1..][..n - 1]) + SampleBytes(pts[n]);
    } else {
      assert RawBytes(pts[..0]) == [] && RawBytes(pts[1..]) == [];
    }
  }

  /** What follows chunk `c - 1` in the stream of block `b`. */
  ghost function From(b: Block, c: nat): seq<Byte>
    requires Stored(b) <= |b.pts| && c <= b.nchunks
  {
    ChunksFrom(b.pts, c, b.nchunks) + (RawBytes(b.pts[MainSize(b)..Stored(b)]) + b.junk)
  }

  lemma FromStart(b: Block)
    requires Stored(b) <= |b.pts|
    ensures From(b, 0) == Written(b)
  {
    hide ChunksFrom;
    hide RawBytes;
    hide NthChunk;
    ChunksSplit(b.pts, 0, b.nchunks);
    assert ChunksBytes(b.pts, 0) == [];
  }

  function ChunkAt(b: Block, c: nat): (s: seq<Sample>)
    requires MainSize(b) <= |b.pts| && c < b.nchunks
    ensures |s| == CHUNK_SIZE
  {
    b.pts[16 * c..16 * (c + 1)]
  }

  function Before(b: Block, c: nat): seq<Sample>
    requires MainSize(b) <= |b.pts| && c <= b.nchunks
  {
    b.pts[..16 * c]
  }

  lemma FromChunk(b: Block, c: nat)
    requires Stored(b) <= |b.pts| && c < b.nchunks
    ensures From(b, c) == TimesOf(Times(ChunkAt(b, c)), PrevTime(Before(b, c))) +
                          (ValuesOf(Diffs(PredictorAfter(Before(b, c)), Values(ChunkAt(b, c)))) + From(b, c + 1))
  {
    hide TimesOf;
    hide ValuesOf;
    hide Diffs;
    hide PredictorAfter;
    hide RawBytes;
    assert ChunksFrom(b.pts, c, b.nchunks) == NthChunk(b.pts, c) + ChunksFrom(b.pts, c + 1, b.nchunks);
    var x, y := TimesOf(Times(ChunkAt(b, c)), PrevTime(Before(b, c))),
        ValuesOf(Diffs(PredictorAfter(Before(b, c)), Values(ChunkAt(b, c))));
    assert NthChunk(b.pts, c) == x + y;
    Regroup3(x, y, ChunksFrom(b.pts, c + 1, b.nchunks), RawBytes(b.pts[MainSize(b)..Stored(b)]) + b.junk);
  }

  lemma Regroup3(x: seq<Byte>, y: seq<Byte>, z: seq<Byte>, w: seq<Byte>)
    ensures ((x + y) + z) + w == x + (y + (z + w))
  {
  }

  lemma NextBefore(b: Block, c: nat)
    requires MainSize(b) <= |b.pts| && c < b.nchunks
    ensures PrevTime(Before(b, c + 1)) == Times(ChunkAt(b, c))[CHUNK_SIZE - 1]
    ensures PredictorAfter(Before(b, c + 1)) == UpdateAll(PredictorAfter(Before(b, c)), Values(ChunkAt(b, c)))
  {
    hide UpdateAll;
    var s := Before(b, c + 1);
    assert s[..16 * c] == Before(b, c) && s[16 * c..] == ChunkAt(b, c);
    PredictorMore(s, 16 * c);
  }

  lemma HeaderReads(nchunks: nat, ntail: nat, id: U64, rest: seq<Byte>)
    requires nchunks < 0x1_0000 && ntail < 0x1_0000
    ensures var image := Header(nchunks, ntail, id) + rest;
            && FromLE(image[0..2]) == 101 && FromLE(image[2..4]) == nchunks && FromLE(image[4..6]) == ntail
            && image[14..] == rest
  {
    hide LE;
    hide FromLE;
    var image := Header(nchunks, ntail, id) + rest;
    assert image[0..2] == LE(VERSION, 2) && image[2..4] == LE(nchunks, 2) && image[4..6] == LE(ntail, 2);
    assert Pow256(2) == 0x1_0000;
    LERoundTrip(VERSION, 2);
    LERoundTrip(nchunks, 2);
    LERoundTrip(ntail, 2);
  }

  lemma SampleInChunk(b: Block, c: nat, i: nat)
    requires MainSize(b) <= |b.pts| && c < b.nchunks && i < CHUNK_SIZE
    ensures Sample(Times(ChunkAt(b, c))[i], Values(ChunkAt(b, c))[i]) == b.pts[16 * c + i]
  {
  }

  class DataBlockReader {
    const image: seq<Byte>
    const stream: ByteReader
    const times: TimeReader
    const values: ValueReader
    var readBuffer: seq<U64>
    var readIndex: nat
    /** The block that was written, and the chunk and the place in it to be read next. */
    ghost const b: Block
    ghost var c: nat
    ghost var i: nat

    ghost predicate Wired()
      reads this
    {
      && times.stream == stream && values.stream == stream && Stored(b) == |b.pts| && |image| >= HEADER_SIZE
      && FromLE(image[2..4]) == b.nchunks && FromLE(image[4..6]) == b.ntail
    }

    /** Between chunks. */
    ghost predicate AtChunk()
      reads this, stream, times, values
      requires Wired() && c <= b.nchunks
    {
      && i == 0 && times.Ready() && stream.Left(From(b, c)) && values.iter % 2 == 0 && values.nzeroes == 0
      && times.prev == PrevTime(Before(b, c)) && values.predictor == PredictorAfter(Before(b, c))
    }

    /** Inside a chunk: its timestamps are in the read buffer. */
    ghost predicate InChunk()
      reads this, stream, times, values
      requires Wired() && c < b.nchunks
    {
      var vals, p := Values(ChunkAt(b, c)), PredictorAfter(Before(b, c));
      && times.Ready() && times.prev == PrevTime(Before(b, c + 1)) && readBuffer == Times(ChunkAt(b, c))
      && i <= CHUNK_SIZE && values.Within(Diffs(p, vals), i, From(b, c + 1)) &&
         values.predictor == UpdateAll(p, vals[..i])
    }

    ghost predicate AtTail()
      reads this, stream
      requires Wired()
    {
      MainSize(b) <= readIndex <= |b.pts| && stream.Left(RawBytes(b.pts[readIndex..]) + b.junk)
    }

    ghost predicate Valid()
      reads this, stream, times, values
    {
      && Wired()
      && if readIndex < MainSize(b) then
           c < b.nchunks && i < 16 && readIndex == 16 * c + i && if i == 0 then AtChunk() else InChunk()
         else AtTail()
    }

    /** The image of a committed block; the unused rest of the buffer is part of `b.junk`. */
    constructor (image: seq<Byte>, ghost b: Block, ghost id: U64)
      requires Stored(b) == |b.pts| && b.nchunks < 0x1_0000 && b.ntail < 0x1_0000
      requires image == Header(b.nchunks, b.ntail, id) + Written(b)
      ensures Valid() && this.b == b && readIndex == 0 && fresh(stream) && fresh(times) && fresh(values)
    {
      hide Written;
      hide Header;
      hide From;
      hide PredictorAfter;
      HeaderReads(b.nchunks, b.ntail, id, Written(b));
      this.image, this.b := image, b;
      var s := new ByteReader(image, HEADER_SIZE);
      stream := s;
      times := new TimeReader(s);
      values := new ValueReader(s);
      readBuffer, readIndex, c, i := [], 0, 0, 0;
      new;
      FromStart(b);
      EmptyStart();
      if b.nchunks == 0 {
        TailStart(b);
      }
    }

    /** `DataBlockReader::next`. */
    method Next() returns (ok: bool, ts: U64, bits: U64)
      requires Valid()
      modifies this, stream, times, values
      ensures Valid() && (ok <==> old(readIndex) < |b.pts|)
      ensures if ok then Sample(ts, bits) == b.pts[old(readIndex)] &&
              readIndex == old(readIndex) + 1 else readIndex == old(readIndex)
    {
      var main := FromLE(image[2..4]) * 16;
      var total := FromLE(image[4..6]) + main;
      if readIndex < main {
        ts, bits := NextCompressed();
        ok := true;
      } else if readIndex < total {
        ts, bits := NextRaw();
        ok := true;
      } else {
        ok, ts, bits := false, 0, 0;
      }
    }

    method NextRaw() returns (ts: U64, bits: U64)
      requires Wired() && AtTail() && readIndex < |b.pts|
      modifies `readIndex, stream`pos
      ensures AtTail() && readIndex == old(readIndex) + 1 && Sample(ts, bits) == b.pts[old(readIndex)]
    {
      hide LE;
      hide RawBytes;
      ghost var p, rest := b.pts[readIndex], RawBytes(b.pts[readIndex + 1..]) + b.junk;
      RawAt(b, readIndex);
      Pow256Of8();
      readIndex := readIndex + 1;
      ts := stream.ReadBytes(8, p.ts, LE(p.bits, 8) + rest);
      bits := stream.ReadBytes(8, p.bits, rest);
    }

    method NextCompressed() returns (ts: U64, bits: U64)
      requires Valid() && readIndex < MainSize(b)
      modifies this, stream, times, values
      ensures Valid() && readIndex == old(readIndex) + 1 && Sample(ts, bits) == b.pts[old(readIndex)]
    {
      hide From, PredictorAfter, UpdateAll, Diffs, ValuePairs, ValueBytes, Flag, AllZero, LE, Header, Times, Values;
      Mod16(readIndex, c, i);
      if readIndex % 16 == 0 {
        ReadTimes();
      }
      ts, bits := NextInChunk();
    }

    method NextInChunk() returns (ts: U64, bits: U64)
      requires Wired() && c < b.nchunks && i < 16 && readIndex == 16 * c + i && InChunk()
      modifies this, stream`pos, values
      ensures Valid() && readIndex == old(readIndex) + 1 && Sample(ts, bits) == b.pts[old(readIndex)]
    {
      hide From, PredictorAfter, UpdateAll, Diffs, ValuePairs, ValueBytes, Flag, AllZero, LE, Header, Times, Values,
          AtChunk, AtTail;
      Mod16(readIndex, c, i);
      SampleInChunk(b, c, i);
      var chunkIndex := readIndex % 16;
      bits := ReadValue();
      ts := readBuffer[chunkIndex];
      readIndex := readIndex + 1;
      if i == 16 {
        EndChunk();
      }
    }

    method ReadValue() returns (bits: U64)
      requires Wired() && c < b.nchunks && i < 16 && InChunk()
      modifies `i, stream`pos, values
      ensures i == old(i) + 1 && InChunk() && bits == Values(ChunkAt(b, c))[old(i)]
    {
      hide From;
      hide PredictorAfter;
      hide UpdateAll;
      hide Diffs;
      hide Values;
      hide ValuePairs;
      hide ValueBytes;
      hide Flag;
      hide AllZero;
      bits := values.Next(PredictorAfter(Before(b, c)), Values(ChunkAt(b, c)), i, From(b, c + 1));
      i := i + 1;
    }

    /** All 16 timestamps of the chunk. */
    method ReadTimes()
      requires Wired() && c < b.nchunks && AtChunk()
      modifies `readBuffer, stream, times
      ensures InChunk()
    {
      hide From;
      hide PredictorAfter;
      hide UpdateAll;
      hide Diffs;
      hide TimesOf;
      hide ValuesOf;
      hide Times;
      hide Values;
      ghost var ds := Diffs(PredictorAfter(Before(b, c)), Values(ChunkAt(b, c)));
      FromChunk(b, c);
      readBuffer := times.ReadChunk(Times(ChunkAt(b, c)), ValuesOf(ds) + From(b, c + 1));
      NextBefore(b, c);
      ValuesStart(ds);
      NoUpdates(PredictorAfter(Before(b, c)), Values(ChunkAt(b, c)));
    }

    lemma ValuesStart(ds: seq<U64>)
      requires Wired() && c < b.nchunks && |ds| == CHUNK_SIZE && stream.Left(ValuesOf(ds) + From(b, c + 1))
      requires values.iter % 2 == 0 && values.nzeroes == 0
      ensures values.Within(ds, 0, From(b, c + 1))
    {
      hide ValuePairs;
      hide From;
      assert ds[0..] == ds;
    }

    /** The last value of a chunk has been read. */
    ghost method EndChunk()
      requires Wired() && c < b.nchunks && i == 16 && readIndex == 16 * c + 16 && InChunk()
      modifies `c, `i
      ensures Valid()
    {
      hide From;
      hide PredictorAfter;
      hide UpdateAll;
      hide Diffs;
      hide ValuePairs;
      ghost var vals := Values(ChunkAt(b, c));
      assert vals[..16] == vals;
      assert Diffs(PredictorAfter(Before(b, c)), vals)[16..] == [];
      NoPairs();
      NextBefore(b, c);
      if c + 1 == b.nchunks {
        TailStart(b);
      }
      c, i := c + 1, 0;
    }
  }

  lemma NoPairs()
    ensures ValuePairs([]) == [] && Pairs([]) == []
  {
  }

  lemma EmptyStart()
    ensures PredictorAfter([]) == NewPredictor() && PrevTime([]) == 0
  {
    assert |Values([])| == 0;
  }

  lemma NoUpdates(p: Predictor, vals: seq<U64>)
    requires PredictorOk(p)
    ensures UpdateAll(p, vals[..0]) == p
  {
  }

  lemma TimesEnd(stream: ByteReader, ds: seq<U64>, tail: seq<Byte>)
    requires stream.Within(ds, CHUNK_SIZE, tail)
    ensures stream.Left(tail) && stream.cnt % 2 == 0 && stream.scut == 0
  {
    hide Pairs;
    assert ds[16..] == [];
    NoPairs();
  }

  lemma TailStart(b: Block)
    requires Stored(b) == |b.pts|
    ensures From(b, b.nchunks) == RawBytes(b.pts[MainSize(b)..]) + b.junk
  {
    hide RawBytes;
    hide NthChunk;
    assert b.pts[MainSize(b)..Stored(b)] == b.pts[MainSize(b)..];
    assert ChunksFrom(b.pts, b.nchunks, b.nchunks) == [];
  }

  lemma RawAt(b: Block, k: nat)
    requires k < |b.pts|
    ensures RawBytes(b.pts[k..]) + b.junk ==
            LE(b.pts[k].ts, 8) + (LE(b.pts[k].bits, 8) + (RawBytes(b.pts[k + 1..]) + b.junk))
  {
    hide LE;
    RawFront(b.pts[k..]);
    assert b.pts[k..][1..] == b.pts[k + 1..];
  }

  lemma StartsEmpty()
    ensures NewBlock().pts == [] && NewBlock().junk == []
  {
  }

  lemma SplitsOf(b: Block, bytes: seq<Byte>, capacity: nat)
    requires BlockOk(b, bytes, capacity)
    ensures |b.tsBuf| == |b.valBuf| == CHUNK_SIZE && Stored(b) <= |b.pts| < Stored(b) + 16
  {
  }

  /** Put samples until the block is full. */
  method PutAll(writer: DataBlockWriter, samples: seq<Sample>) returns (accepted: nat)
    requires writer.Valid() && writer.State() == NewBlock()
    modifies writer, writer.stream, writer.times, writer.values
    ensures writer.Valid() && accepted <= |samples| && writer.pts == samples[..accepted]
    ensures accepted < |samples| ==>
            writer.stream.SpaceLeft() < 16 && 282 * accepted > 16 * (writer.stream.capacity - 16)
  {
    hide BlockOk, EncodersOk, ByteStream.Valid, NewBlock, AfterPut;
    accepted := 0;
    StartsEmpty();
    while accepted < |samples|
      invariant accepted <= |samples| && writer.Valid() && writer.pts == samples[..accepted] && writer.junk == []
    {
      ghost var b, bytes := writer.State(), writer.stream.bytes;
      SplitsOf(b, bytes, writer.stream.capacity);
      var ok := writer.Put(samples[accepted].ts, samples[accepted].bits);
      if !ok {
        FullBlock(b, bytes, writer.stream.capacity);
        return;
      }
      AcceptedCleanly(b, writer.stream.capacity - |bytes|, samples[accepted]);
      assert samples[..accepted + 1] == samples[..accepted] + [samples[accepted]];
      accepted := accepted + 1;
    }
  }

  /** Read a block to its end. */
  method ReadAll(reader: DataBlockReader) returns (out: seq<Sample>)
    requires reader.Valid() && reader.readIndex == 0
    modifies reader, reader.stream, reader.times, reader.values
    ensures out == reader.b.pts
  {
    hide *;
    out := [];
    var ok := true;
    while ok
      invariant reader.Valid() && reader.readIndex <= |reader.b.pts| && out == reader.b.pts[..reader.readIndex]
      invariant !ok ==> reader.readIndex == |reader.b.pts|
      decreases ok, |reader.b.pts| - reader.readIndex
    {
      var ts, bits;
      ok, ts, bits := reader.Next();
      if ok {
        out := out + [Sample(ts, bits)];
      }
    }
  }

  /** Whatever was accepted into a block and committed is read back, in order and bit for bit, whatever the unused rest
      of the buffer holds. A sample is turned away only when less than 16 bytes are left, so a block takes at least 16
      samples for every 282 bytes: 231 in a block of 4096. */
  method RoundTrip(id: U64, size: nat, samples: seq<Sample>, rest: seq<Byte>) returns (accepted: nat, out: seq<Sample>)
    requires HEADER_SIZE <= size <= 0xFFFF
    ensures accepted <= |samples| && out == samples[..accepted]
    ensures accepted < |samples| ==> 282 * accepted > 16 * (size - HEADER_SIZE - 16)
  {
    hide Written;
    hide Header;
    var writer := new DataBlockWriter(id, size);
    accepted := PutAll(writer, samples);
    var _ := writer.Commit();
    CountersFit(writer.State(), writer.stream.bytes);
    var reader := ReaderOf(writer, rest);
    out := ReadAll(reader);
  }

  /** The same for the vectored writer, over a scattered block whose first `offset` bytes are taken; the reader reads
      the components. */
  method RoundTripScattered(id: U64, offset: nat, samples: seq<Sample>) returns (accepted: nat, out: seq<Sample>)
    requires offset + HEADER_SIZE <= 1024
    ensures accepted <= |samples| && out == samples[..accepted]
    ensures accepted < |samples| ==> 282 * accepted > 16 * (4096 - offset - HEADER_SIZE - 16)
  {
    hide Written;
    hide Header;
    var writer := new DataBlockWriter.Scattered(id, offset);
    accepted := PutAll(writer, samples);
    var _ := writer.Commit();
    CountersFit(writer.State(), writer.stream.bytes);
    var reader := ReaderOf(writer, []);
    out := ReadAll(reader);
  }

  lemma WithRest(b: Block, body: seq<Byte>)
    requires Stored(b) <= |b.pts| && Written(b) <= body
    ensures Written(b.(junk := b.junk + body[|Written(b)|..])) == body
  {
    hide ChunksBytes, RawBytes;
    var front, rest := ChunksBytes(b.pts, b.nchunks) + RawBytes(b.pts[MainSize(b)..Stored(b)]), body[|Written(b)|..];
    assert front + (b.junk + rest) == (front + b.junk) + rest == body;
  }

  /** Open the committed block of a writer. */
  method ReaderOf(writer: DataBlockWriter, rest: seq<Byte>) returns (reader: DataBlockReader)
    requires writer.Complete() && writer.nchunks < 0x1_0000 && writer.ntail < 0x1_0000
    ensures reader.Valid() && reader.readIndex == 0 && reader.b.pts == writer.pts
    ensures fresh(reader) && fresh(reader.stream) && fresh(reader.times) && fresh(reader.values)
  {
    hide Written, Header;
    var body := writer.stream.Body(rest);
    ghost var b := writer.State();
    WithRest(b, body);
    reader := new DataBlockReader(Header(writer.nchunks, writer.ntail, writer.id) + body,
                                  b.(junk := b.junk + body[|Written(b)|..]), writer.id);
  }
}
