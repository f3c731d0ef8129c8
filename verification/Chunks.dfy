/** The format of one compressed chunk of 16 samples (storage/compression.h): delta-delta timestamps with
    one control byte per pair, and predicted values with one flag byte per pair. */
module Chunks {
  import opened Bytes

  const CHUNK_SIZE: nat := 16

  /** A timestamp and the 64-bit pattern of a double. */
  datatype Sample = Sample(ts: U64, bits: U64)

  function Add64(a: U64, b: U64): U64
  {
    if a + b < TWO_64 then a + b else a + b - TWO_64
  }

  function Sub64(a: U64, b: U64): U64
  {
    if b <= a then a - b else a - b + TWO_64
  }

  function AllZero(ds: seq<U64>): bool
  {
    forall i :: 0 <= i < |ds| ==> ds[i] == 0
  }

  // ---- Timestamps --------------------------------------------------------------------------------

  /** Differences of consecutive timestamps, modulo 2^64. */
  function Deltas(ts: seq<U64>, prev: U64): (ds: seq<U64>)
    ensures |ds| == |ts|
  {
    seq(|ts|, i requires 0 <= i < |ts| => Sub64(ts[i], if i == 0 then prev else ts[i - 1]))
  }

  function MinOf(ds: seq<U64>): (m: U64)
    requires ds != []
    ensures forall i :: 0 <= i < |ds| ==> m <= ds[i]
    ensures m in ds
  {
    if |ds| == 1 then ds[0]
    else
      var m := MinOf(ds[..|ds| - 1]);
      if ds[|ds| - 1] < m then ds[|ds| - 1] else m
  }

  function Lowered(ds: seq<U64>, m: U64): (r: seq<U64>)
    requires forall i :: 0 <= i < |ds| ==> m <= ds[i]
    ensures |r| == |ds|
  {
    seq(|ds|, i requires 0 <= i < |ds| => ds[i] - m)
  }

  /** `VByteStreamWriter::encode`: both byte lengths in one control byte, then the bytes. */
  function Pair(a: U64, b: U64): (s: seq<Byte>)
    ensures 1 <= |s| <= 17 && s[0] != 0xFF && s[0] / 16 != 0xF
  {
    ControlNibble(a);
    ControlNibble(b);
    [ByteLength(a) + 16 * ByteLength(b)] + LE(a, ByteLength(a)) + LE(b, ByteLength(b))
  }

  function Pairs(ds: seq<U64>): (s: seq<Byte>)
    ensures 2 * |s| <= 17 * |ds|
  {
    if |ds| < 2 then [] else Pair(ds[0], ds[1]) + Pairs(ds[2..])
  }

  /** `VByteStreamWriter::tput`. */
  function VBytes(ds: seq<U64>): (s: seq<Byte>)
    requires |ds| == CHUNK_SIZE
    ensures 1 <= |s| <= 136
  {
    if AllZero(ds) then [0xFF] else Pairs(ds)
  }

  /** `DeltaDeltaStreamWriter::tput`. */
  function TimesOf(ts: seq<U64>, prev: U64): (s: seq<Byte>)
    requires |ts| == CHUNK_SIZE
    ensures 2 <= |s| <= 146
  {
    var ds := Deltas(ts, prev);
    var m := MinOf(ds);
    Leb64(m);
    Leb(m) + VBytes(Lowered(ds, m))
  }

  // ---- Values ------------------------------------------------------------------------------------

  const PREDICTOR_N: nat := 128

  /** `DfcmPredictor`. */
  datatype Predictor = Predictor(table: seq<U64>, hash: nat, last: U64)

  predicate PredictorOk(p: Predictor)
  {
    |p.table| == PREDICTOR_N && p.hash < PREDICTOR_N
  }

  function NewPredictor(): (p: Predictor)
    ensures PredictorOk(p)
  {
    Predictor(seq(PREDICTOR_N, _ => 0), 0, 0)
  }

  function Predict(p: Predictor): U64
    requires PredictorOk(p)
  {
    Add64(p.table[p.hash], p.last)
  }

  function Update(p: Predictor, v: U64): (p': Predictor)
    requires PredictorOk(p)
    ensures PredictorOk(p')
  {
    var delta := Sub64(v, p.last);
    Predictor(p.table[p.hash := delta], Xor(p.hash * 32, delta / 0x4_0000_0000_0000) % PREDICTOR_N, v)
  }

  function UpdateAll(p: Predictor, vals: seq<U64>): (p': Predictor)
    requires PredictorOk(p)
    ensures PredictorOk(p')
  {
    if |vals| == 0 then p else Update(UpdateAll(p, vals[..|vals| - 1]), vals[|vals| - 1])
  }

  function Diff(p: Predictor, v: U64): U64
    requires PredictorOk(p)
  {
    Xor64(v, Predict(p));
    Xor(v, Predict(p))
  }

  /** What the predictor leaves of each value, updating it on the way. */
  function Diffs(p: Predictor, vals: seq<U64>): (ds: seq<U64>)
    requires PredictorOk(p)
    ensures |ds| == |vals|
  {
    if |vals| == 0 then []
    else
      var n := |vals| - 1;
      Diffs(p, vals[..n]) + [Diff(UpdateAll(p, vals[..n]), vals[n])]
  }

  /** The flag nibble: bit 3 says that the leading bytes are stored, the rest is the byte count less one. */
  function Flag(diff: U64): (f: nat)
    ensures f < 15
  {
    if diff == 0 then 0
    else
      Pow256Of8();
      ByteLengthBound(diff, 8);
      TrailingBelowLength(diff);
      var trailing, leading := TrailingZeroBytes(diff), 8 - ByteLength(diff);
      if trailing > leading then 8 + (8 - trailing - 1) else 8 - leading - 1
  }

  function FlagBytes(flag: nat): nat
  {
    flag % 8 + 1
  }

  /** Bytes dropped at the low end. */
  function FlagShift(flag: nat): nat
    requires flag < 15
  {
    if flag >= 8 then 8 - FlagBytes(flag) else 0
  }

  function ValueBytes(diff: U64): (s: seq<Byte>)
    ensures 1 <= |s| <= 8
  {
    LE(ShiftRight(diff, FlagShift(Flag(diff))), FlagBytes(Flag(diff)))
  }

  /** The stored bytes are enough to get the difference back. */
  lemma ValueBytesEnough(diff: U64)
    ensures ShiftRight(diff, FlagShift(Flag(diff))) < Pow256(FlagBytes(Flag(diff)))
    ensures ShiftLeft(ShiftRight(diff, FlagShift(Flag(diff))), FlagShift(Flag(diff))) == diff
  {
    Pow256Of8();
    if diff > 0 {
      ByteLengthBound(diff, 8);
      TrailingBelowLength(diff);
      var trailing, leading := TrailingZeroBytes(diff), 8 - ByteLength(diff);
      if trailing > leading {
        assert FlagShift(Flag(diff)) == trailing;
        ShiftRoundTrip(diff, trailing);
        ShiftRightBound(diff, trailing, 8);
      } else {
        assert FlagBytes(Flag(diff)) == ByteLength(diff);
        ByteLengthFits(diff);
      }
    }
  }

  /** A difference takes as many bytes as it has from either end to the last one that is not zero: no fewer would do. */
  lemma ValueBytesShortest(diff: U64, n: nat)
    requires 1 <= n <= 8
    ensures |ValueBytes(diff)| <= n <==>
            diff < Pow256(n) || diff % Pow256(8 - n) == 0
  {
    hide Pow256, ValueBytes;
    ValueLength(diff);
    if diff > 0 {
      ByteLengthExact(diff, n);
      TrailingExact(diff, 8 - n);
    }
  }

  lemma ValueLength(diff: U64)
    ensures |ValueBytes(diff)| == if diff == 0 then 1 else if TrailingZeroBytes(diff) > 8 - ByteLength(diff)
                 then 8 - TrailingZeroBytes(diff) else ByteLength(diff)
  {
    hide LE, ShiftRight;
    if diff > 0 {
      TrailingBelowLength(diff);
      Pow256Of8();
      ByteLengthBound(diff, 8);
    }
  }

  function ValuePair(a: U64, b: U64): (s: seq<Byte>)
    ensures 3 <= |s| <= 17 && s[0] != 0xFF
  {
    [16 * Flag(a) + Flag(b)] + ValueBytes(a) + ValueBytes(b)
  }

  function ValuePairs(ds: seq<U64>): (s: seq<Byte>)
    ensures 2 * |s| <= 17 * |ds|
    ensures |ds| >= 2 ==> |s| >= 1
  {
    if |ds| < 2 then [] else ValuePair(ds[0], ds[1]) + ValuePairs(ds[2..])
  }

  /** `FcmStreamWriter::tput`. */
  function ValuesOf(ds: seq<U64>): (s: seq<Byte>)
    requires |ds| == CHUNK_SIZE
    ensures 1 <= |s| <= 136
  {
    if AllZero(ds) then [0xFF] else ValuePairs(ds)
  }

  // ---- A block -----------------------------------------------------------------------------------

  function Times(pts: seq<Sample>): (ts: seq<U64>)
    ensures |ts| == |pts|
  {
    seq(|pts|, i requires 0 <= i < |pts| => pts[i].ts)
  }

  function Values(pts: seq<Sample>): (xs: seq<U64>)
    ensures |xs| == |pts|
  {
    seq(|pts|, i requires 0 <= i < |pts| => pts[i].bits)
  }

  function PrevTime(pts: seq<Sample>): U64
  {
    if |pts| == 0 then 0 else pts[|pts| - 1].ts
  }

  function PredictorAfter(pts: seq<Sample>): (p: Predictor)
    ensures PredictorOk(p)
  {
    UpdateAll(NewPredictor(), Values(pts))
  }

  /** The bytes of a chunk that follows the samples `before`. */
  function ChunkBytes(before: seq<Sample>, chunk: seq<Sample>): (s: seq<Byte>)
    requires |chunk| == CHUNK_SIZE
    ensures 3 <= |s| <= 282
  {
    TimesOf(Times(chunk), PrevTime(before)) + ValuesOf(Diffs(PredictorAfter(before), Values(chunk)))
  }

  /** The first `n` chunks of `pts`. */
  function ChunksBytes(pts: seq<Sample>, n: nat): (s: seq<Byte>)
    requires 16 * n <= |pts|
    ensures 3 * n <= |s| <= 282 * n
  {
    if n == 0 then []
    else
      ChunksBytes(pts, n - 1) + NthChunk(pts, n - 1)
  }

  function NthChunk(pts: seq<Sample>, k: nat): (s: seq<Byte>)
    requires 16 * (k + 1) <= |pts|
    ensures 3 <= |s| <= 282
  {
    ChunkBytes(pts[..16 * k], pts[16 * k..16 * (k + 1)])
  }

  /** Uncompressed samples. */
  function RawBytes(pts: seq<Sample>): (s: seq<Byte>)
    ensures |s| == 16 * |pts|
  {
    if |pts| == 0 then []
    else
      var n := |pts| - 1;
      RawBytes(pts[..n]) + SampleBytes(pts[n])
  }

  function SampleBytes(p: Sample): (s: seq<Byte>)
    ensures |s| == 16
  {
    LE(p.ts, 8) + LE(p.bits, 8)
  }

  lemma NthChunkPrefix(pts: seq<Sample>, more: seq<Sample>, k: nat)
    requires 16 * (k + 1) <= |pts|
    ensures NthChunk(pts + more, k) == NthChunk(pts, k)
  {
    assert (pts + more)[..16 * k] == pts[..16 * k];
    assert (pts + more)[16 * k..16 * (k + 1)] == pts[16 * k..16 * (k + 1)];
  }

  lemma {:induction false} ChunksBytesPrefix(pts: seq<Sample>, more: seq<Sample>, n: nat)
    requires 16 * n <= |pts|
    ensures ChunksBytes(pts + more, n) == ChunksBytes(pts, n)
  {
    hide NthChunk;
    if n > 0 {
      ChunksBytesPrefix(pts, more, n - 1);
      NthChunkPrefix(pts, more, n - 1);
      assert ChunksBytes(pts, n) == ChunksBytes(pts, n - 1) + NthChunk(pts, n - 1);
      assert ChunksBytes(pts + more, n) == ChunksBytes(pts + more, n - 1) + NthChunk(pts + more, n - 1);
    }
  }
}
