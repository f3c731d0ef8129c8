/** How small the codec gets an evenly stepped series: after the first chunk the timestamps of a chunk are one number
    and one byte, and its values are one byte. */
module Compression {
  import opened Bytes
  import opened Chunks
  import opened BlockWriter
  import BlockReader

  /** Each timestamp is `d` after the one before, modulo 2^64, and each bit pattern `c`. */
  predicate Even(pts: seq<Sample>, d: U64, c: U64)
  {
    forall i {:trigger EvenAt(pts, i, d, c)} :: 0 < i < |pts| ==> EvenAt(pts, i, d, c)
  }

  predicate EvenAt(pts: seq<Sample>, i: int, d: U64, c: U64)
  {
    0 < i < |pts| && pts[i].ts == Add64(pts[i - 1].ts, d) && pts[i].bits == Add64(pts[i - 1].bits, c)
  }

  lemma EvenPart(pts: seq<Sample>, from: nat, to: nat, d: U64, c: U64)
    requires Even(pts, d, c) && from <= to <= |pts|
    ensures Even(pts[from..to], d, c)
  {
    forall i | 0 < i < to - from
      ensures EvenAt(pts[from..to], i, d, c)
    {
      assert EvenAt(pts, from + i, d, c);
    }
  }

  lemma StepBack(a: U64, d: U64)
    ensures Sub64(Add64(a, d), a) == d
  {
  }

  // ---- Timestamps --------------------------------------------------------------------------------

  lemma EvenDeltas(ts: seq<U64>, prev: U64, d: U64)
    requires |ts| == CHUNK_SIZE && ts[0] == Add64(prev, d)
    requires forall i :: 0 < i < |ts| ==> ts[i] == Add64(ts[i - 1], d)
    ensures TimesOf(ts, prev) == Leb(d) + [0xFF]
  {
    var ds := Deltas(ts, prev);
    forall i | 0 <= i < |ds|
      ensures ds[i] == d
    {
      StepBack(if i == 0 then prev else ts[i - 1], d);
    }
    var m := MinOf(ds);
    assert m == d;
    assert AllZero(Lowered(ds, m));
  }

  // ---- Exclusive or, low bits --------------------------------------------------------------------

  lemma HalfModulus(x: nat, m: nat)
    requires m > 0
    ensures x % (2 * m) == x % 2 + 2 * (x / 2 % m)
  {
    var q, r := x / 2 / m, x / 2 % m;
    assert x / 2 == m * q + r;
    assert x == 2 * (m * q + r) + x % 2;
    assert 2 * (m * q) == (2 * m) * q;
    ModUnique(x, 2 * m, q, 2 * r + x % 2);
  }

  /** The low bits of an exclusive or are those of its operands. */
  lemma {:induction false} XorLow(x: nat, y: nat, b: nat, m: nat)
    requires m in {1, 2, 4, 8, 16, 32, 64, 128} && x % m == y % m
    ensures Xor(x, b) % m == Xor(y, b) % m
    decreases m
  {
    hide Xor;
    if m > 1 {
      HalfModulus(x, m / 2);
      HalfModulus(y, m / 2);
      XorLow(x / 2, y / 2, b / 2, m / 2);
      XorHalf(x, b);
      XorHalf(y, b);
      HalfModulus(Xor(x, b), m / 2);
      HalfModulus(Xor(y, b), m / 2);
    }
  }

  lemma XorHalf(a: nat, b: nat)
    ensures Xor(a, b) / 2 == Xor(a / 2, b / 2) && Xor(a, b) % 2 == if a % 2 != b % 2 then 1 else 0
  {
  }

  lemma {:induction false} XorZero(b: nat)
    ensures Xor(0, b) == b && Xor(b, b) == 0
  {
    if b > 0 {
      XorZero(b / 2);
    }
  }

  // ---- Values ------------------------------------------------------------------------------------

  /** The next hash after a difference `c`. */
  function NextHash(hash: nat, c: U64): nat
  {
    Xor(hash * 32, c / 0x4_0000_0000_0000) % 128
  }

  /** The hash that a run of equal differences leads to: its two low bits, five places up, and all of its bits. */
  function SettledHash(c: U64): nat
  {
    var k := c / 0x4_0000_0000_0000;
    Xor(32 * (k % 4), k) % 128
  }

  lemma LowTwo(hash: nat, c: U64)
    ensures NextHash(hash, c) % 4 == c / 0x4_0000_0000_0000 % 4
  {
    hide Xor;
    var k := c / 0x4_0000_0000_0000;
    XorLow(hash * 32, 0, k, 4);
    XorZero(k);
    var x := Xor(hash * 32, k);
    assert x % 128 % 4 == x % 4;
  }

  /** Two equal differences settle the hash. */
  lemma TwoSettle(hash: nat, c: U64)
    ensures NextHash(NextHash(hash, c), c) == SettledHash(c) && NextHash(SettledHash(c), c) == SettledHash(c)
  {
    Once(hash, c);
    Once(NextHash(hash, c), c);
  }

  lemma Once(hash: nat, c: U64)
    ensures NextHash(NextHash(hash, c), c) == SettledHash(c)
  {
    hide Xor;
    var k, h := c / 0x4_0000_0000_0000, NextHash(hash, c);
    LowTwo(hash, c);
    assert h * 32 % 128 == 32 * (h % 4) == 32 * (k % 4) % 128;
    XorLow(h * 32, 32 * (k % 4), k, 128);
  }

  /** The predictor has seen the difference `c` often enough. */
  predicate Settled(p: Predictor, c: U64)
  {
    PredictorOk(p) && p.hash == SettledHash(c) && p.table[p.hash] == c
  }

  lemma UpdateStep(p: Predictor, c: U64)
    requires PredictorOk(p)
    ensures var q := Update(p, Add64(p.last, c));
            && q.hash == NextHash(p.hash, c) && q.table == p.table[p.hash := c] && q.last == Add64(p.last, c)
  {
    hide Xor;
    StepBack(p.last, c);
  }

  /** Three equal differences are enough, from any state ... */
  lemma ThreeSettle(p: Predictor, v: U64, c: U64)
    requires PredictorOk(p) && v == p.last
    ensures var v1, v2 := Add64(v, c), Add64(Add64(v, c), c);
            Settled(Update(Update(Update(p, v1), v2), Add64(v2, c)), c)
  {
    hide NextHash, SettledHash, Update;
    var v1, v2 := Add64(v, c), Add64(Add64(v, c), c);
    var p1 := Update(p, v1);
    var p2 := Update(p1, v2);
    UpdateStep(p, c);
    UpdateStep(p1, c);
    UpdateStep(p2, c);
    TwoSettle(p.hash, c);
    TwoSettle(p1.hash, c);
  }

  /** ... and from then on every prediction is right. */
  lemma SettledStep(p: Predictor, c: U64)
    requires Settled(p, c)
    ensures Diff(p, Add64(p.last, c)) == 0 && Settled(Update(p, Add64(p.last, c)), c)
    ensures Update(p, Add64(p.last, c)).last == Add64(p.last, c)
  {
    hide NextHash, SettledHash, Xor;
    UpdateStep(p, c);
    TwoSettle(p.hash, c);
    XorZero(Add64(p.last, c));
    assert Add64(c, p.last) == Add64(p.last, c);
  }

  lemma {:induction false} SettledRun(p: Predictor, vals: seq<U64>, c: U64)
    requires Settled(p, c) && (|vals| > 0 ==> vals[0] == Add64(p.last, c))
    requires forall i :: 0 < i < |vals| ==> vals[i] == Add64(vals[i - 1], c)
    ensures AllZero(Diffs(p, vals)) && Settled(UpdateAll(p, vals), c)
    ensures UpdateAll(p, vals).last == if |vals| == 0 then p.last else vals[|vals| - 1]
    decreases |vals|
  {
    hide SettledHash, Update, Diff;
    if |vals| > 0 {
      var n := |vals| - 1;
      SettledRun(p, vals[..n], c);
      SettledStep(UpdateAll(p, vals[..n]), c);
    }
  }

  /** So the values of a chunk that goes on like the four samples before it are one byte. */
  lemma EvenValues(before: seq<U64>, vals: seq<U64>, c: U64)
    requires |before| >= 4 && |vals| == CHUNK_SIZE
    requires forall i :: 0 < i < |before + vals| ==> (before + vals)[i] == Add64((before + vals)[i - 1], c)
    ensures ValuesOf(Diffs(UpdateAll(NewPredictor(), before), vals)) == [0xFF]
  {
    hide Settled, Update, Diffs, Add64;
    var all := before + vals;
    assert forall i :: 0 <= i < |before| ==> all[i] == before[i];
    assert forall i :: 0 <= i < |vals| ==> all[|before| + i] == vals[i];
    EvenSettles(before, c);
    assert vals[0] == all[|before|] == Add64(all[|before| - 1], c);
    assert forall i :: 0 < i < |vals| ==> vals[i] == all[|before| + i] == Add64(all[|before| + i - 1], c);
    SettledRun(UpdateAll(NewPredictor(), before), vals, c);
  }

  lemma EvenSettles(before: seq<U64>, c: U64)
    requires |before| >= 4 && forall i :: 0 < i < |before| ==> before[i] == Add64(before[i - 1], c)
    ensures var p := UpdateAll(NewPredictor(), before); Settled(p, c) && p.last == before[|before| - 1]
  {
    hide Settled, Update, Add64;
    var first, rest := before[..4], before[4..];
    assert before == first + rest;
    FirstFour(first, c);
    UpdateAllConcat(NewPredictor(), first, rest);
    var p := UpdateAll(NewPredictor(), first);
    assert forall i :: 0 <= i < |rest| ==> rest[i] == before[4 + i];
    assert |rest| > 0 ==> rest[0] == before[4] == Add64(before[3], c);
    SettledRun(p, rest, c);
  }

  lemma FirstFour(vals: seq<U64>, c: U64)
    requires |vals| == 4 && forall i :: 0 < i < 4 ==> vals[i] == Add64(vals[i - 1], c)
    ensures var p := UpdateAll(NewPredictor(), vals); Settled(p, c) && p.last == vals[3]
  {
    hide Settled, Add64, SettledHash, NextHash;
    var p0 := Update(NewPredictor(), vals[0]);
    assert vals[..1] == [vals[0]] && vals[..1][..0] == [] && vals[..2][..1] == vals[..1];
    assert vals[..3][..2] == vals[..2] && vals[..4] == vals && vals[..4][..3] == vals[..3];
    assert UpdateAll(NewPredictor(), vals[..1]) == p0;
    assert UpdateAll(NewPredictor(), vals[..2]) == Update(p0, vals[1]);
    assert UpdateAll(NewPredictor(), vals[..3]) == Update(Update(p0, vals[1]), vals[2]);
    assert UpdateAll(NewPredictor(), vals) == Update(Update(Update(p0, vals[1]), vals[2]), vals[3]);
    ThreeSettle(p0, vals[0], c);
  }

  // ---- Known bytes -------------------------------------------------------------------------------

  /** The pair 1 and 256: one byte and two bytes, the length of the second in the upper half of the control byte. */
  lemma KnownPair()
    ensures Pair(1, 256) == [0x21, 1, 0, 1]
  {
    assert ByteLength(1) == 1 + ByteLength(0) && ByteLength(256) == 1 + ByteLength(1);
    assert LE(1, 1) == [1] + LE(0, 0) && LE(256, 2) == [0] + LE(1, 1);
  }

  /** The differences 1 and 0x3ff0 << 48: one low byte, and two high bytes with the flag that says so; the flag of the
      first is in the upper half. */
  lemma KnownValuePair()
    ensures ValuePair(1, 0x3ff0_0000_0000_0000) == [0x09, 1, 0xf0, 0x3f]
  {
    hide ValueBytes, Flag;
    LowByte();
    HighBytes();
  }

  /** Base 128 has the low seven bits first, and the upper bit says that more follows. */
  lemma KnownBase128()
    ensures Leb(300) == [0xac, 0x02]
  {
    assert Leb(2) == [2];
  }

  /** After the value 3 the predictor expects 6, and 5 differs from it by exclusive or in two bits. */
  lemma KnownDiffs()
    ensures Diffs(NewPredictor(), [3, 5]) == [3, 3]
  {
    var p := NewPredictor();
    assert [3, 5][..1] == [3] && [3][..0] == [];
    assert Diffs(p, []) == [] && UpdateAll(p, []) == p;
    SmallXors();
    hide Xor;
    assert Diff(p, 3) == 3 && Diffs(p, [3]) == [3];
    var q := UpdateAll(p, [3]);
    assert q == Update(p, 3) && q.hash == 0 && q.table[0] == 3 && q.last == 3;
    assert Diff(q, 5) == 3;
  }

  lemma SmallXors()
    ensures Xor(3, 0) == 3 && Xor(5, 6) == 3 && Xor(0, 0) == 0
  {
    assert Xor(1, 0) == 1 + 2 * Xor(0, 0) && Xor(2, 3) == 1 + 2 * Xor(1, 1) && Xor(1, 1) == 2 * Xor(0, 0);
  }

  lemma LowByte()
    ensures Flag(1) == 0 && ValueBytes(1) == [1]
  {
    assert ByteLength(1) == 1 + ByteLength(0) && TrailingZeroBytes(1) == 0;
    assert ShiftRight(1, 0) == 1 && LE(1, 1) == [1] + LE(0, 0);
  }

  lemma HighBytes()
    ensures Flag(0x3ff0_0000_0000_0000) == 9 && ValueBytes(0x3ff0_0000_0000_0000) == [0xf0, 0x3f]
  {
    HighParts();
    hide TrailingZeroBytes, ByteLength, ShiftRight, LE;
    assert Flag(0x3ff0_0000_0000_0000) == 9;
    assert FlagShift(9) == 6 && FlagBytes(9) == 2;
  }

  lemma HighParts()
    ensures TrailingZeroBytes(0x3ff0_0000_0000_0000) == 6 && ByteLength(0x3ff0_0000_0000_0000) == 8
    ensures ShiftRight(0x3ff0_0000_0000_0000, 6) == 0x3ff0 && LE(0x3ff0, 2) == [0xf0, 0x3f]
  {
    assert TrailingZeroBytes(0x3ff0_0000) == 1 + TrailingZeroBytes(0x3ff0_00) == 2 + TrailingZeroBytes(0x3ff0) == 2;
    assert TrailingZeroBytes(0x3ff0_0000_0000) == 1 + TrailingZeroBytes(0x3ff0_0000_00) == 4;
    assert TrailingZeroBytes(0x3ff0_0000_0000_0000) == 1 + TrailingZeroBytes(0x3ff0_0000_0000_00) == 6;
    assert ByteLength(0x3ff0) == 1 + ByteLength(0x3f) == 2 + ByteLength(0);
    assert ByteLength(0x3ff0_0000) == 1 + ByteLength(0x3ff0_00) == 4;
    assert ByteLength(0x3ff0_0000_0000) == 1 + ByteLength(0x3ff0_0000_00) == 6;
    assert ByteLength(0x3ff0_0000_0000_0000) == 1 + ByteLength(0x3ff0_0000_0000_00) == 8;
    assert ShiftRight(0x3ff0_0000, 2) == ShiftRight(0x3ff0_00, 1) == ShiftRight(0x3ff0, 0);
    assert ShiftRight(0x3ff0_0000_0000, 4) == ShiftRight(0x3ff0_0000_00, 3) == 0x3ff0;
    assert ShiftRight(0x3ff0_0000_0000_0000, 6) == ShiftRight(0x3ff0_0000_0000_00, 5) == 0x3ff0;
    assert LE(0x3ff0, 2) == [0xf0] + LE(0x3f, 1) && LE(0x3f, 1) == [0x3f] + LE(0, 0);
  }

  // ---- Chunks ------------------------------------------------------------------------------------

  /** Every chunk of an evenly stepped series but the first is the step and two bytes: at most 12 for 16 samples. */
  lemma EvenChunk(pts: seq<Sample>, k: nat, d: U64, c: U64)
    requires Even(pts, d, c) && k >= 1 && 16 * (k + 1) <= |pts|
    ensures NthChunk(pts, k) == Leb(d) + [0xFF] + [0xFF] && |NthChunk(pts, k)| <= 12
  {
    hide TimesOf, ValuesOf, Diffs, UpdateAll, Times, Values, PrevTime, Leb;
    EvenTimesOf(pts, k, d, c);
    EvenValuesOf(pts, k, d, c);
    Leb64(d);
  }

  lemma EvenTimesOf(pts: seq<Sample>, k: nat, d: U64, c: U64)
    requires Even(pts, d, c) && k >= 1 && 16 * (k + 1) <= |pts|
    ensures TimesOf(Times(pts[16 * k..16 * (k + 1)]), PrevTime(pts[..16 * k])) == Leb(d) + [0xFF]
  {
    hide TimesOf, Add64, Even, Leb;
    var from, ts := 16 * k, Times(pts[16 * k..16 * (k + 1)]);
    forall i | 0 <= i < |ts|
      ensures ts[i] == Add64(if i == 0 then PrevTime(pts[..from]) else ts[i - 1], d)
    {
      EvenStep(pts, from + i, d, c);
    }
    EvenStep(pts, from, d, c);
    assert PrevTime(pts[..from]) == pts[from - 1].ts && ts[0] == pts[from].ts;
    EvenDeltas(ts, PrevTime(pts[..from]), d);
  }

  lemma EvenValuesOf(pts: seq<Sample>, k: nat, d: U64, c: U64)
    requires Even(pts, d, c) && k >= 1 && 16 * (k + 1) <= |pts|
    ensures ValuesOf(Diffs(PredictorAfter(pts[..16 * k]), Values(pts[16 * k..16 * (k + 1)]))) == [0xFF]
  {
    hide ValuesOf, Diffs, UpdateAll, Add64, Even;
    var vb, vc := Values(pts[..16 * k]), Values(pts[16 * k..16 * (k + 1)]);
    var all := vb + vc;
    forall i | 0 <= i < |all|
      ensures all[i] == pts[i].bits
    {
    }
    forall i | 0 < i < |all|
      ensures all[i] == Add64(all[i - 1], c)
    {
      EvenStep(pts, i, d, c);
    }
    EvenValues(vb, vc, c);
  }

  lemma EvenStep(pts: seq<Sample>, i: nat, d: U64, c: U64)
    requires Even(pts, d, c) && 0 < i < |pts|
    ensures pts[i].ts == Add64(pts[i - 1].ts, d) && pts[i].bits == Add64(pts[i - 1].bits, c)
  {
    assert EvenAt(pts, i, d, c);
  }

  lemma {:induction false} EvenChunks(pts: seq<Sample>, n: nat, d: U64, c: U64)
    requires Even(pts, d, c) && 16 * n <= |pts|
    ensures |ChunksBytes(pts, n)| <= if n == 0 then 0 else 270 + 12 * n
  {
    hide NthChunk;
    if n > 0 {
      EvenChunks(pts, n - 1, d, c);
      if n > 1 {
        EvenChunk(pts, n - 1, d, c);
      }
    }
  }

  /** A block that takes no more samples of such a series has at least this many chunks of them. */
  lemma EvenFull(b: Block, bytes: seq<Byte>, capacity: nat, d: U64, c: U64)
    requires BlockOk(b, bytes, capacity) && capacity - |bytes| < 16 && Even(b.pts, d, c)
    ensures 12 * b.nchunks > capacity - 574 && 16 * b.nchunks <= |b.pts|
  {
    hide ChunksBytes, RawBytes;
    EvenChunks(b.pts, b.nchunks, d, c);
  }

  /** A block takes many more samples of an evenly stepped series than it would take uncompressed: one of 4096 bytes at
      least 4688, where 255 would fit, and gives them back. */
  method EvenRun(id: U64, size: nat, samples: seq<Sample>, d: U64, c: U64) returns (accepted: nat, out: seq<Sample>)
    requires 588 <= size <= 0xFFFF && Even(samples, d, c)
    ensures accepted <= |samples| && out == samples[..accepted]
    ensures accepted < |samples| ==> accepted >= 16 * ((size - 588) / 12 + 1)
    ensures size == 4096 && |samples| <= 4688 ==> out == samples
  {
    hide Written, Header, BlockOk, EncodersOk, Even;
    var writer;
    writer, accepted := FillEven(id, size, samples, d, c);
    var _ := writer.Commit();
    CountersFit(writer.State(), writer.stream.bytes);
    var reader := BlockReader.ReaderOf(writer, []);
    out := BlockReader.ReadAll(reader);
    assert samples[..|samples|] == samples;
  }

  method FillEven(id: U64, size: nat, samples: seq<Sample>, d: U64, c: U64)
    returns (writer: DataBlockWriter, accepted: nat)
    requires 588 <= size <= 0xFFFF && Even(samples, d, c)
    ensures writer.Valid() && accepted <= |samples| && writer.pts == samples[..accepted]
    ensures writer.stream.capacity == size - HEADER_SIZE
    ensures fresh(writer) && fresh(writer.stream) && fresh(writer.times) && fresh(writer.values)
    ensures accepted < |samples| ==> accepted >= 16 * ((size - 588) / 12 + 1)
  {
    hide BlockOk, EncodersOk, Even, NewBlock, ByteStream.Valid;
    writer := new DataBlockWriter(id, size);
    accepted := BlockReader.PutAll(writer, samples);
    if accepted < |samples| {
      EvenPart(samples, 0, accepted, d, c);
      assert samples[0..accepted] == samples[..accepted];
      EvenFull(writer.State(), writer.stream.bytes, writer.stream.capacity, d, c);
      ChunksNeeded(writer.nchunks, size);
    }
  }

  lemma ChunksNeeded(n: nat, size: nat)
    requires size >= 588 && 12 * n > size - 588
    ensures n >= (size - 588) / 12 + 1
  {
  }
}
