/** CRC-32C (section 12.1 of RFC 3720): the bit-at-a-time definition, and the table-driven and three-way
    interleaved forms of common/crc32c.cc that must agree with it. */
module Crc32c {

  /** The polynomial in reversed bit order. */
  const POLY: bv32 := 0x82f63b78

  const ONES: bv32 := 0xffffffff

  // ---- Words -------------------------------------------------------------------------------------

  function Xor(a: bv32, b: bv32): bv32 { a ^ b }

  function Half(c: bv32): bv32 { c >> 1 }

  predicate Odd(c: bv32) { c & 1 == 1 }

  function Word(b: bv8): bv32 { b as bv32 }

  /** The low byte, and the register without it. */
  function Low(c: bv32): bv8 { (c & 0xff) as bv8 }

  function High(c: bv32): bv32 { c & 0xffffff00 }

  function Shr8(c: bv32): bv32 { c >> 8 }

  function Shl8(c: bv32): bv32 { c << 8 }

  lemma XorAssoc(a: bv32, b: bv32, c: bv32)
    ensures Xor(Xor(a, b), c) == Xor(a, Xor(b, c))
  {
  }

  lemma XorComm(a: bv32, b: bv32)
    ensures Xor(a, b) == Xor(b, a)
  {
  }

  lemma XorZero(a: bv32)
    ensures Xor(a, 0) == a && Xor(0, a) == a && Xor(a, a) == 0
  {
  }

  /** (a + b) + (c + d) == (a + c) + (b + d) */
  lemma XorSwap(a: bv32, b: bv32, c: bv32, d: bv32)
    ensures Xor(Xor(a, b), Xor(c, d)) == Xor(Xor(a, c), Xor(b, d))
  {
    hide Xor;
    XorAssoc(a, b, Xor(c, d));
    XorAssoc(b, c, d);
    XorComm(b, c);
    XorAssoc(c, b, d);
    XorAssoc(a, c, Xor(b, d));
  }

  lemma XorOnes(x: bv32)
    ensures Xor(Xor(x, ONES), ONES) == x
  {
  }

  lemma HalfXor(a: bv32, b: bv32)
    ensures Half(Xor(a, b)) == Xor(Half(a), Half(b)) && (Odd(Xor(a, b)) <==> Odd(a) != Odd(b))
  {
  }

  lemma XorPoly(x: bv32, y: bv32, p: bv32)
    ensures Xor(Xor(x, p), Xor(y, p)) == Xor(x, y) && Xor(Xor(x, p), y) == Xor(Xor(x, y), p) &&
            Xor(x, Xor(y, p)) == Xor(Xor(x, y), p)
  {
    hide Xor;
    XorSwap(x, p, y, p);
    XorZero(p);
    XorZero(Xor(x, y));
    XorAssoc(x, y, p);
    XorAssoc(x, p, y);
    XorComm(p, y);
  }

  lemma SplitLow(c: bv32)
    ensures Xor(Word(Low(c)), High(c)) == c && Shr8(High(c)) == Shr8(c)
  {
  }

  lemma HalfMask(c: bv32, m: bv32)
    requires c & m == 0 && m & 1 == 1
    ensures !Odd(c) && Half(c) & Half(m) == 0
  {
  }

  lemma EightHalves(c: bv32)
    ensures Half(Half(Half(Half(Half(Half(Half(Half(c)))))))) == Shr8(c)
  {
  }

  lemma LowIsZero(c: bv32)
    ensures High(c) & 0xff == 0
  {
  }

  lemma HighHalves(c: bv32)
    ensures var h := High(c);
            && !Odd(h) && !Odd(Half(h)) && !Odd(Half(Half(h))) && !Odd(Half(Half(Half(h))))
            && var d := Half(Half(Half(Half(h))));
            && !Odd(d) && !Odd(Half(d)) && !Odd(Half(Half(d))) && !Odd(Half(Half(Half(d))))
            && Half(Half(Half(Half(d)))) == Shr8(h)
  {
    LowIsZero(c);
    var h := High(c);
    hide High, Odd, Shr8;
    Halves();
    hide Half;
    HalfMask(h, 0xff);
    HalfMask(Half(h), 0x7f);
    HalfMask(Half(Half(h)), 0x3f);
    HalfMask(Half(Half(Half(h))), 0x1f);
    var d := Half(Half(Half(Half(h))));
    HalfMask(d, 0xf);
    HalfMask(Half(d), 0x7);
    HalfMask(Half(Half(d)), 0x3);
    HalfMask(Half(Half(Half(d))), 0x1);
    EightHalves(h);
  }

  lemma Halves()
    ensures Half(0xff) == 0x7f && Half(0x7f) == 0x3f && Half(0x3f) == 0x1f && Half(0x1f) == 0xf
    ensures Half(0xf) == 0x7 && Half(0x7) == 0x3 && Half(0x3) == 0x1
  {
  }

  lemma ShiftedByte(c: bv32)
    requires c & 0xff000000 == 0
    ensures High(Shl8(c)) == Shl8(c) && Shr8(Shl8(c)) == c
  {
  }

  // ---- The definition ----------------------------------------------------------------------------

  /** Shift one zero bit into the register. */
  function Bit(c: bv32): bv32
  {
    if Odd(c) then Xor(Half(c), POLY) else Half(c)
  }

  function Bits(k: nat, c: bv32): bv32
  {
    if k == 0 then c else Bits(k - 1, Bit(c))
  }

  /** Shift `k` zero bytes into the register. */
  function Zeros(k: nat, c: bv32): bv32
  {
    if k == 0 then c else Zeros(k - 1, Bits(8, c))
  }

  /** The register after a run of bytes, one bit at a time. */
  function Raw(c: bv32, s: seq<bv8>): bv32
    decreases |s|
  {
    if |s| == 0 then c else Raw(Bits(8, Xor(c, Word(s[0]))), s[1..])
  }

  /** The checksum, continuing from an earlier one. */
  function Crc(crc: bv32, s: seq<bv8>): bv32
  {
    Xor(Raw(Xor(crc, ONES), s), ONES)
  }

  // ---- Linearity ---------------------------------------------------------------------------------

  lemma BitLinear(a: bv32, b: bv32)
    ensures Bit(Xor(a, b)) == Xor(Bit(a), Bit(b))
  {
    hide Xor, Half, Odd;
    HalfXor(a, b);
    XorPoly(Half(a), Half(b), POLY);
  }

  lemma {:induction false} BitsLinear(k: nat, a: bv32, b: bv32)
    ensures Bits(k, Xor(a, b)) == Xor(Bits(k, a), Bits(k, b))
  {
    hide Xor, Bit;
    if k > 0 {
      BitLinear(a, b);
      BitsLinear(k - 1, Bit(a), Bit(b));
    }
  }

  lemma {:induction false} ZerosLinear(k: nat, a: bv32, b: bv32)
    ensures Zeros(k, Xor(a, b)) == Xor(Zeros(k, a), Zeros(k, b))
  {
    hide Xor, Bits;
    if k > 0 {
      BitsLinear(8, a, b);
      ZerosLinear(k - 1, Bits(8, a), Bits(8, b));
    }
  }

  lemma {:induction false} BitsAdd(j: nat, k: nat, c: bv32)
    ensures Bits(j + k, c) == Bits(k, Bits(j, c))
  {
    hide Bit;
    if j > 0 {
      BitsAdd(j - 1, k, Bit(c));
    }
  }

  lemma {:induction false} ZerosAdd(j: nat, k: nat, c: bv32)
    ensures Zeros(j + k, c) == Zeros(k, Zeros(j, c))
  {
    hide Bits;
    if j > 0 {
      ZerosAdd(j - 1, k, Bits(8, c));
    }
  }

  lemma {:induction false} ZerosAreBits(k: nat, c: bv32)
    ensures Zeros(k, c) == Bits(8 * k, c)
  {
    hide Bit;
    if k > 0 {
      ZerosAreBits(k - 1, Bits(8, c));
      BitsAdd(8, 8 * (k - 1), c);
    }
  }

  /** Bytes and register can be processed apart and combined. */
  lemma {:induction false} RawSplit(c: bv32, s: seq<bv8>)
    ensures Raw(c, s) == Xor(Zeros(|s|, c), Raw(0, s))
    decreases |s|
  {
    hide Xor, Bits, Word;
    if |s| == 0 {
      XorZero(c);
    } else {
      var b, t, n := Word(s[0]), s[1..], |s| - 1;
      BitsLinear(8, c, b);
      XorZero(b);
      RawSplit(Bits(8, Xor(c, b)), t);
      RawSplit(Bits(8, b), t);
      ZerosLinear(n, Bits(8, c), Bits(8, b));
      XorAssoc(Zeros(n, Bits(8, c)), Zeros(n, Bits(8, b)), Raw(0, t));
    }
  }

  lemma {:induction false} RawConcat(c: bv32, a: seq<bv8>, b: seq<bv8>)
    ensures Raw(c, a + b) == Raw(Raw(c, a), b)
    decreases |a|
  {
    hide Xor, Bits, Word;
    if |a| == 0 {
      assert a + b == b;
    } else {
      assert (a + b)[1..] == a[1..] + b;
      RawConcat(Bits(8, Xor(c, Word(a[0]))), a[1..], b);
    }
  }

  /** Chaining over pieces equals one pass. */
  lemma Chain(crc: bv32, a: seq<bv8>, b: seq<bv8>)
    ensures Crc(crc, a + b) == Crc(Crc(crc, a), b)
  {
    hide Raw, Xor;
    RawConcat(Xor(crc, ONES), a, b);
    XorOnes(Raw(Xor(crc, ONES), a));
  }

  // ---- Slice by eight ----------------------------------------------------------------------------

  /** `crc32c_table[k]`, filled by the recurrence of `crc32c_init_sw`. */
  function Table(k: nat, n: bv8): bv32
  {
    if k == 0 then Bits(8, Word(n))
    else
      var crc := Table(k - 1, n);
      Xor(Table(0, Low(crc)), Shr8(crc))
  }

  lemma BitsOf8(c: bv32)
    ensures Bits(8, c) == Bit(Bit(Bit(Bit(Bit(Bit(Bit(Bit(c))))))))
  {
    hide Bit;
    var d := Bit(Bit(Bit(Bit(c))));
    assert Bits(8, c) == Bits(6, Bit(Bit(c))) == Bits(4, d);
    assert Bits(4, d) == Bits(2, Bit(Bit(d))) == Bits(0, Bit(Bit(Bit(Bit(d)))));
  }

  /** A register whose low byte is zero just moves down. */
  lemma ByteOfHigh(c: bv32)
    ensures Bits(8, High(c)) == Shr8(High(c))
  {
    hide Bits, Half, Odd, High, Shr8, Xor;
    HighHalves(c);
    BitsOf8(High(c));
  }

  /** One byte of zeros by table. */
  lemma ByteByTable(c: bv32)
    ensures Bits(8, c) == Xor(Table(0, Low(c)), Shr8(c))
  {
    hide Bits, High, Shr8, Xor, Low, Word;
    SplitLow(c);
    BitsLinear(8, Word(Low(c)), High(c));
    ByteOfHigh(c);
  }

  lemma {:induction false} TableIsZeros(k: nat, n: bv8)
    ensures Table(k, n) == Zeros(k + 1, Word(n))
  {
    hide Bits, Shr8, Xor, Low, Word;
    if k == 0 {
      assert Zeros(1, Word(n)) == Zeros(0, Bits(8, Word(n)));
    } else {
      TableIsZeros(k - 1, n);
      ByteByTable(Table(k - 1, n));
      ZerosAdd(k, 1, Word(n));
      assert Zeros(1, Zeros(k, Word(n))) == Zeros(0, Bits(8, Zeros(k, Word(n))));
    }
  }

  /** A little-endian word is a byte and the word above it. */
  function Above(b: bv8, w: bv32): bv32
  {
    Xor(Word(b), Shl8(w))
  }

  function Word4(b0: bv8, b1: bv8, b2: bv8, b3: bv8): bv32
  {
    Above(b0, Above(b1, Above(b2, Word(b3))))
  }

  predicate TopByteZero(w: bv32)
  {
    w & 0xff000000 == 0
  }

  lemma WordsAreSmall(b1: bv8, b2: bv8, b3: bv8)
    ensures TopByteZero(Word(b3)) && TopByteZero(Above(b2, Word(b3))) && TopByteZero(Above(b1, Above(b2, Word(b3))))
  {
  }

  lemma ByteOfShifted(w: bv32)
    requires TopByteZero(w)
    ensures Bits(8, Shl8(w)) == w
  {
    ShiftedByte(w);
    hide Bits, Shl8, Shr8, High;
    ByteOfHigh(Shl8(w));
  }

  /** The bytes above the first wait until it has been shifted out. */
  lemma StepWord(c: bv32, b: bv8, w: bv32)
    requires TopByteZero(w)
    ensures Bits(8, Xor(c, Above(b, w))) == Xor(Bits(8, Xor(c, Word(b))), w)
  {
    hide Bits, Xor, Word, Shl8, TopByteZero;
    XorAssoc(c, Word(b), Shl8(w));
    BitsLinear(8, Xor(c, Word(b)), Shl8(w));
    ByteOfShifted(w);
  }

  lemma Raw4(c: bv32, b0: bv8, b1: bv8, b2: bv8, b3: bv8)
    ensures Raw(c, [b0, b1, b2, b3]) == Zeros(4, Xor(c, Word4(b0, b1, b2, b3)))
  {
    WordsAreSmall(b1, b2, b3);
    hide Bits, Xor, Word, Above, TopByteZero;
    var w3 := Word(b3);
    var w2 := Above(b2, w3);
    var w1 := Above(b1, w2);
    StepWord(c, b0, w1);
    var c1 := Bits(8, Xor(c, Word(b0)));
    StepWord(c1, b1, w2);
    var c2 := Bits(8, Xor(c1, Word(b1)));
    StepWord(c2, b2, w3);
    var c3 := Bits(8, Xor(c2, Word(b2)));
    assert Zeros(4, Xor(c, Above(b0, w1))) == Zeros(3, Xor(c1, w1)) == Zeros(2, Xor(c2, w2));
    assert Zeros(2, Xor(c2, w2)) == Zeros(1, Xor(c3, w3)) == Zeros(0, Bits(8, Xor(c3, w3)));
    RawOf4(c, b0, b1, b2, b3);
  }

  lemma RawOf4(c: bv32, b0: bv8, b1: bv8, b2: bv8, b3: bv8)
    ensures var c1 := Bits(8, Xor(c, Word(b0)));
            var c2 := Bits(8, Xor(c1, Word(b1)));
            var c3 := Bits(8, Xor(c2, Word(b2)));
            Raw(c, [b0, b1, b2, b3]) == Bits(8, Xor(c3, Word(b3)))
  {
    hide Bits, Xor, Word, Raw;
    var c1 := Bits(8, Xor(c, Word(b0)));
    var c2 := Bits(8, Xor(c1, Word(b1)));
    var c3 := Bits(8, Xor(c2, Word(b2)));
    assert [b0, b1, b2, b3] == [b0] + [b1, b2, b3];
    RawCons(c, b0, [b1, b2, b3]);
    assert [b1, b2, b3] == [b1] + [b2, b3];
    RawCons(c1, b1, [b2, b3]);
    assert [b2, b3] == [b2] + [b3];
    RawCons(c2, b2, [b3]);
    assert [b3] == [b3] + [];
    RawCons(c3, b3, []);
    RawNothing(Bits(8, Xor(c3, Word(b3))));
  }

  lemma RawCons(c: bv32, b: bv8, s: seq<bv8>)
    ensures Raw(c, [b] + s) == Raw(Bits(8, Xor(c, Word(b))), s)
  {
    hide Bits, Xor, Word;
    assert ([b] + s)[1..] == s;
  }

  lemma {:induction false} ZerosOfAbove(k: nat, b: bv8, w: bv32)
    requires k >= 1 && TopByteZero(w)
    ensures Zeros(k, Above(b, w)) == Xor(Table(k - 1, b), Zeros(k - 1, w))
  {
    hide Bits, Xor, Word, Shl8, TopByteZero, Table;
    TableIsZeros(k - 1, b);
    ZerosLinear(k, Word(b), Shl8(w));
    assert Zeros(k, Shl8(w)) == Zeros(k - 1, Bits(8, Shl8(w)));
    ByteOfShifted(w);
  }

  /** A whole word of zeros by four tables. */
  lemma WordByTables(k: nat, b0: bv8, b1: bv8, b2: bv8, b3: bv8)
    requires k >= 3
    ensures Zeros(k + 1, Word4(b0, b1, b2, b3)) ==
            Xor(Table(k, b0), Xor(Table(k - 1, b1), Xor(Table(k - 2, b2), Table(k - 3, b3))))
  {
    WordsAreSmall(b1, b2, b3);
    hide Bits, Xor, Word, Above, TopByteZero, Table;
    ZerosOfAbove(k + 1, b0, Above(b1, Above(b2, Word(b3))));
    ZerosOfAbove(k, b1, Above(b2, Word(b3)));
    ZerosOfAbove(k - 1, b2, Word(b3));
    TableIsZeros(k - 3, b3);
  }

  lemma BytesOfWord(c: bv32)
    ensures Word4(Low(c), Low(Shr8(c)), Low(Shr8(Shr8(c))), Low(Shr8(Shr8(Shr8(c))))) == c
  {
  }

  /** Eight lookups, as in the main loop of `crc32c_sw`; `lo` is the low half of crc ^ word. */
  function EightTables(lo: bv32, b4: bv8, b5: bv8, b6: bv8, b7: bv8): bv32
  {
    Xor(Xor(Table(7, Low(lo)), Xor(Table(6, Low(Shr8(lo))),
                                   Xor(Table(5, Low(Shr8(Shr8(lo)))), Table(4, Low(Shr8(Shr8(Shr8(lo)))))))),
        Xor(Table(3, b4), Xor(Table(2, b5), Xor(Table(1, b6), Table(0, b7)))))
  }

  lemma SliceByEight(c: bv32, s: seq<bv8>)
    requires |s| == 8
    ensures EightTables(Xor(c, Word4(s[0], s[1], s[2], s[3])), s[4], s[5], s[6], s[7]) == Raw(c, s)
  {
    hide Bits, Xor, Word, Word4, Table, Low, Shr8;
    var lo, hi := Xor(c, Word4(s[0], s[1], s[2], s[3])), Word4(s[4], s[5], s[6], s[7]);
    assert s == [s[0], s[1], s[2], s[3]] + [s[4], s[5], s[6], s[7]];
    RawConcat(c, [s[0], s[1], s[2], s[3]], [s[4], s[5], s[6], s[7]]);
    Raw4(c, s[0], s[1], s[2], s[3]);
    Raw4(Zeros(4, lo), s[4], s[5], s[6], s[7]);
    ZerosLinear(4, Zeros(4, lo), hi);
    ZerosAdd(4, 4, lo);
    BytesOfWord(lo);
    WordByTables(7, Low(lo), Low(Shr8(lo)), Low(Shr8(Shr8(lo))), Low(Shr8(Shr8(Shr8(lo)))));
    WordByTables(3, s[4], s[5], s[6], s[7]);
  }

  lemma OneByte(c: bv32, b: bv8)
    ensures Xor(Table(0, Low(Xor(c, Word(b)))), Shr8(c)) == Raw(c, [b])
  {
    ShiftIgnoresLow(c, b);
    hide Bits, Xor, Word, Low, Shr8;
    ByteByTable(Xor(c, Word(b)));
    assert [b][1..] == [];
    assert Raw(c, [b]) == Raw(Bits(8, Xor(c, Word(b))), []);
  }

  lemma ShiftIgnoresLow(c: bv32, b: bv8)
    ensures Shr8(Xor(c, Word(b))) == Shr8(c)
  {
  }

  /** `crc32c_sw`. `addr` is the address of the buffer: the main loop starts at a multiple of eight. */
  method CrcSw(crci: bv32, buf: seq<bv8>, addr: nat) returns (crc: bv32)
    ensures crc == Crc(crci, buf)
  {
    hide Raw, Xor, Table, Low, Shr8, Word, Word4, EightTables;
    var i := 0;
    crc := Xor(crci, ONES);
    ghost var start := crc;
    assert buf[..0] == [];
    RawNothing(start);
    while i < |buf| && (addr + i) % 8 != 0
      invariant i <= |buf| && crc == Raw(start, buf[..i])
    {
      crc := TakeByte(start, buf, i, crc);
      i := i + 1;
    }
    while |buf| - i >= 8
      invariant i <= |buf| && crc == Raw(start, buf[..i])
    {
      SliceByEight(crc, buf[i..i + 8]);
      TakeMore(start, buf, i, 8);
      crc := EightTables(Xor(crc, Word4(buf[i], buf[i + 1], buf[i + 2], buf[i + 3])), buf[i + 4], buf[i + 5],
                         buf[i + 6], buf[i + 7]);
      i := i + 8;
    }
    while i < |buf|
      invariant i <= |buf| && crc == Raw(start, buf[..i])
    {
      crc := TakeByte(start, buf, i, crc);
      i := i + 1;
    }
    assert buf[..|buf|] == buf;
    crc := Xor(crc, ONES);
  }

  lemma RawNothing(c: bv32)
    ensures Raw(c, []) == c
  {
  }

  lemma TakeMore(start: bv32, buf: seq<bv8>, i: nat, n: nat)
    requires i + n <= |buf|
    ensures Raw(start, buf[..i + n]) == Raw(Raw(start, buf[..i]), buf[i..i + n])
  {
    hide Raw;
    assert buf[..i + n] == buf[..i] + buf[i..i + n];
    RawConcat(start, buf[..i], buf[i..i + n]);
  }

  method TakeByte(ghost start: bv32, buf: seq<bv8>, i: nat, crc: bv32) returns (crc': bv32)
    requires i < |buf| && crc == Raw(start, buf[..i])
    ensures crc' == Raw(start, buf[..i + 1])
  {
    hide Raw, Xor, Table, Low, Shr8, Word;
    OneByte(crc, buf[i]);
    assert buf[i..i + 1] == [buf[i]];
    TakeMore(start, buf, i, 1);
    crc' := Xor(Table(0, Low(Xor(crc, Word(buf[i])))), Shr8(crc));
  }

  // ---- The zeros operator as a matrix over GF(2) -------------------------------------------------

  /** Rows `i` and up of a 32x32 matrix times a vector. */
  function Times(mat: seq<bv32>, i: nat, vec: bv32): bv32
    requires |mat| == 32
    decreases 32 - i
  {
    if i >= 32 then 0 else Xor(if Odd(vec) then mat[i] else 0, Times(mat, i + 1, Half(vec)))
  }

  function Halved(k: nat, v: bv32): bv32
  {
    if k == 0 then v else Half(Halved(k - 1, v))
  }

  lemma EightTimes(k: nat, v: bv32)
    requires k >= 8
    ensures Halved(k, v) == Shr8(Halved(k - 8, v))
  {
    hide Half, Shr8;
    var w := Halved(k - 8, v);
    EightHalves(w);
    assert Halved(k, v) == Half(Half(Halved(k - 2, v)));
    assert Halved(k - 2, v) == Half(Half(Halved(k - 4, v)));
    assert Halved(k - 4, v) == Half(Half(Halved(k - 6, v)));
    assert Halved(k - 6, v) == Half(Half(w));
  }

  lemma NothingLeft(v: bv32)
    ensures Halved(32, v) == 0
  {
    FourShifts(v);
    hide Half, Shr8;
    EightTimes(32, v);
    EightTimes(24, v);
    EightTimes(16, v);
    EightTimes(8, v);
    assert Halved(0, v) == v;
  }

  lemma FourShifts(v: bv32)
    ensures Shr8(Shr8(Shr8(Shr8(v)))) == 0
  {
  }

  lemma {:induction false} TimesZero(mat: seq<bv32>, i: nat)
    requires |mat| == 32
    ensures Times(mat, i, 0) == 0
    decreases 32 - i
  {
    if i < 32 {
      ZeroWord();
      hide Xor, Odd, Half;
      TimesZero(mat, i + 1);
      XorZero(0);
    }
  }

  lemma ZeroWord()
    ensures !Odd(0) && Half(0) == 0
  {
  }

  lemma OneRow(mat: seq<bv32>, i: nat, v: bv32, sum: bv32)
    requires |mat| == 32 && i < 32
    ensures Xor(sum, Times(mat, i, v)) == Xor(if Odd(v) then Xor(sum, mat[i]) else sum, Times(mat, i + 1, Half(v)))
  {
    hide Xor, Odd, Half;
    XorAssoc(sum, if Odd(v) then mat[i] else 0, Times(mat, i + 1, Half(v)));
    XorZero(sum);
  }

  /** `gf2_matrix_times`: the loop stops as soon as no bit is left. */
  method MatrixTimes(mat: seq<bv32>, vec: bv32) returns (sum: bv32)
    requires |mat| == 32
    ensures sum == Times(mat, 0, vec)
  {
    hide Xor, Odd, Half, Times;
    sum := 0;
    var v, i := vec, 0;
    XorZero(Times(mat, 0, vec));
    assert Halved(0, vec) == vec;
    while v != 0
      invariant i <= 32 && v == Halved(i, vec) && Xor(sum, Times(mat, i, v)) == Times(mat, 0, vec)
      decreases 32 - i
    {
      if i == 32 {
        NothingLeft(vec);
        assert false;
      }
      OneRow(mat, i, v, sum);
      if Odd(v) {
        sum := Xor(sum, mat[i]);
      }
      v := Half(v);
      i := i + 1;
    }
    TimesZero(mat, i);
    XorZero(sum);
  }

  lemma {:induction false} TimesLinear(mat: seq<bv32>, i: nat, a: bv32, b: bv32)
    requires |mat| == 32
    ensures Times(mat, i, Xor(a, b)) == Xor(Times(mat, i, a), Times(mat, i, b))
    decreases 32 - i
  {
    hide Xor, Odd, Half;
    if i < 32 {
      HalfXor(a, b);
      TimesLinear(mat, i + 1, Half(a), Half(b));
      var x, y := if Odd(a) then mat[i] else 0, if Odd(b) then mat[i] else 0;
      XorSwap(x, Times(mat, i + 1, Half(a)), y, Times(mat, i + 1, Half(b)));
      XorZero(mat[i]);
      XorZero(0);
    } else {
      XorZero(0);
    }
  }

  /** `square` is `mat` applied to each row of `mat`. */
  predicate IsSquare(square: seq<bv32>, mat: seq<bv32>)
    requires |mat| == 32
  {
    |square| == 32 && forall n :: 0 <= n < 32 ==> square[n] == Times(mat, 0, mat[n])
  }

  /** `gf2_matrix_square`. */
  method MatrixSquare(mat: seq<bv32>) returns (square: seq<bv32>)
    requires |mat| == 32
    ensures IsSquare(square, mat)
  {
    hide Times;
    square := [];
    for n := 0 to 32
      invariant |square| == n && forall m :: 0 <= m < n ==> square[m] == Times(mat, 0, mat[m])
    {
      var row := MatrixTimes(mat, mat[n]);
      square := square + [row];
    }
  }

  /** Squaring the matrix applies the operator twice. */
  lemma {:induction false} SquareTwice(square: seq<bv32>, mat: seq<bv32>, i: nat, v: bv32)
    requires |mat| == 32 && IsSquare(square, mat) && i <= 32
    ensures Times(square, i, v) == Times(mat, 0, Times(mat, i, v))
    decreases 32 - i
  {
    hide Xor, Odd, Half;
    if i < 32 {
      SquareTwice(square, mat, i + 1, Half(v));
      var here, rest := if Odd(v) then mat[i] else 0, Times(mat, i + 1, Half(v));
      assert Times(mat, i, v) == Xor(here, rest);
      TimesLinear(mat, 0, here, rest);
      TimesZero(mat, 0);
      assert Times(square, i, v) == Xor(if Odd(v) then square[i] else 0, Times(square, i + 1, Half(v)));
    } else {
      TimesZero(mat, 0);
    }
  }

  /** The matrix shifts `k` zero bits into a register. */
  ghost predicate ShiftsBits(mat: seq<bv32>, k: nat)
  {
    |mat| == 32 && forall v {:trigger Times(mat, 0, v)} :: Times(mat, 0, v) == Bits(k, v)
  }

  lemma SquareDoubles(square: seq<bv32>, mat: seq<bv32>, k: nat)
    requires |mat| == 32 && IsSquare(square, mat) && ShiftsBits(mat, k)
    ensures ShiftsBits(square, 2 * k)
  {
    hide Times, Bits;
    forall v
      ensures Times(square, 0, v) == Bits(2 * k, v)
    {
      SquareTwice(square, mat, 0, v);
      BitsAdd(k, k, v);
    }
  }

  // ---- `crc32c_zeros_op` -------------------------------------------------------------------------

  function Double(c: bv32): bv32 { c << 1 }

  function Doubled(k: nat, c: bv32): bv32
  {
    if k == 0 then c else Double(Doubled(k - 1, c))
  }

  lemma DoubleXor(a: bv32, b: bv32)
    ensures Double(Xor(a, b)) == Xor(Double(a), Double(b)) && Double(0) == 0
  {
  }

  lemma HalfAndBit(w: bv32)
    ensures Xor(if Odd(w) then 1 else 0, Double(Half(w))) == w
  {
  }

  lemma {:induction false} DoubledXor(k: nat, a: bv32, b: bv32)
    ensures Doubled(k, Xor(a, b)) == Xor(Doubled(k, a), Doubled(k, b)) && Doubled(k, 0) == 0
  {
    hide Double, Xor;
    if k > 0 {
      DoubledXor(k - 1, a, b);
      DoubleXor(Doubled(k - 1, a), Doubled(k - 1, b));
    }
  }

  lemma {:induction false} DoubleFirst(k: nat, c: bv32)
    ensures Doubled(k + 1, c) == Doubled(k, Double(c))
  {
    hide Double;
    if k > 0 {
      DoubleFirst(k - 1, c);
    }
  }

  lemma {:induction false} HalfFirst(k: nat, c: bv32)
    ensures Halved(k + 1, c) == Halved(k, Half(c))
  {
    hide Half;
    if k > 0 {
      HalfFirst(k - 1, c);
    }
  }

  /** The operator for one zero bit: the polynomial for the bit that falls out, one row down for the others. */
  predicate IsOneBit(mat: seq<bv32>)
  {
    |mat| == 32 && mat[0] == POLY && forall n :: 1 <= n < 32 ==> mat[n] == Doubled(n - 1, 1)
  }

  lemma {:induction false} OneRowDown(mat: seq<bv32>, i: nat, w: bv32)
    requires IsOneBit(mat) && 1 <= i <= 32 && Halved(32 - i, w) == 0
    ensures Times(mat, i, w) == Doubled(i - 1, w)
    decreases 32 - i
  {
    hide Double, Half, Odd, Xor;
    if i == 32 {
      DoubledXor(31, 0, 0);
    } else {
      HalfFirst(31 - i, w);
      OneRowDown(mat, i + 1, Half(w));
      DoubleFirst(i - 1, Half(w));
      DoubledXor(i - 1, if Odd(w) then 1 else 0, Double(Half(w)));
      HalfAndBit(w);
    }
  }

  lemma OneBitShifts(mat: seq<bv32>)
    requires IsOneBit(mat)
    ensures ShiftsBits(mat, 1)
  {
    hide Xor, Half, Odd, Doubled;
    forall v
      ensures Times(mat, 0, v) == Bits(1, v)
    {
      NothingLeft(v);
      HalfFirst(31, v);
      OneRowDown(mat, 1, Half(v));
      DoubledNone(Half(v));
      XorComm(POLY, Half(v));
      XorZero(Half(v));
      assert Bits(1, v) == Bits(0, Bit(v)) == Bit(v);
    }
  }

  lemma DoubledNone(c: bv32)
    ensures Doubled(0, c) == c
  {
  }

  method OneBit() returns (odd: seq<bv32>)
    ensures IsOneBit(odd)
  {
    hide Double;
    odd := [POLY];
    var row: bv32 := 1;
    for n := 1 to 32
      invariant |odd| == n && odd[0] == POLY && row == Doubled(n - 1, 1)
      invariant forall m :: 1 <= m < n ==> odd[m] == Doubled(m - 1, 1)
    {
      odd := odd + [row];
      row := Double(row);
    }
  }

  /** The largest power of two that is at most `len` (1 for 0). */
  function TopPower(len: nat): (p: nat)
    ensures p >= 1 && (len >= 1 ==> p <= len) && len < 2 * p
  {
    if len <= 1 then 1 else 2 * TopPower(len / 2)
  }

  lemma TopPowers()
    ensures TopPower(256) == 256 && TopPower(8192) == 8192
  {
    assert TopPower(4) == 2 * TopPower(2) == 4 * TopPower(1);
    assert TopPower(16) == 2 * TopPower(8) == 4 * TopPower(4);
    assert TopPower(64) == 2 * TopPower(32) == 4 * TopPower(16);
    assert TopPower(256) == 2 * TopPower(128) == 4 * TopPower(64);
    assert TopPower(1024) == 2 * TopPower(512) == 4 * TopPower(256);
    assert TopPower(4096) == 2 * TopPower(2048) == 4 * TopPower(1024);
    assert TopPower(8192) == 2 * TopPower(4096);
  }

  /** `crc32c_zeros_op`, for every length: not a power of two counts as the one below. */
  method ZerosOp(length: nat) returns (even: seq<bv32>)
    ensures ShiftsBits(even, 8 * TopPower(length))
  {
    hide ShiftsBits, IsSquare, IsOneBit, TopPower;
    var odd := OneBit();
    OneBitIs32(odd);
    OneBitShifts(odd);
    ghost var k: nat := 1;
    even := Squared(odd, k);
    odd := Squared(even, 2);
    k := 4;
    var len := length;
    while true
      invariant |odd| == 32 && ShiftsBits(odd, k) && k >= 1 && 2 * k * TopPower(len) == 8 * TopPower(length)
      decreases len
    {
      even := Squared(odd, k);
      HalvePower(len, k);
      len := len / 2;
      if len == 0 {
        return;
      }
      odd := Squared(even, 2 * k);
      HalvePower(len, 2 * k);
      len := len / 2;
      k := 4 * k;
      if len == 0 {
        return odd;
      }
    }
  }

  lemma HalvePower(len: nat, k: nat)
    ensures len <= 1 ==> 2 * k * TopPower(len) == 2 * k && len / 2 == 0
    ensures len > 1 ==> 2 * k * TopPower(len) == 4 * k * TopPower(len / 2) && len / 2 > 0
  {
    HalvedTop(len);
    hide TopPower;
    if len > 1 {
      TwiceTwice(k, TopPower(len / 2));
    }
  }

  lemma HalvedTop(len: nat)
    ensures TopPower(len) == if len > 1 then 2 * TopPower(len / 2) else 1
  {
  }

  lemma TwiceTwice(k: nat, p: nat)
    ensures 2 * k * (2 * p) == 4 * k * p
  {
  }

  lemma OneBitIs32(mat: seq<bv32>)
    requires IsOneBit(mat)
    ensures |mat| == 32
  {
  }

  method Squared(mat: seq<bv32>, ghost k: nat) returns (square: seq<bv32>)
    requires |mat| == 32 && ShiftsBits(mat, k)
    ensures |square| == 32 && ShiftsBits(square, 2 * k)
  {
    hide ShiftsBits, Times;
    square := MatrixSquare(mat);
    SquareDoubles(square, mat, k);
  }

  // ---- Shift tables ------------------------------------------------------------------------------

  /** Entry `n` of table `j` that `crc32c_zeros` fills. */
  function Zeroed(op: seq<bv32>, j: nat, n: bv8): bv32
    requires |op| == 32 && j < 4
  {
    Times(op, 0,
      if j == 0 then Word(n) else if j == 1 then Shl8(Word(n)) else if j == 2 then Shl8(Shl8(Word(n)))
          else Shl8(Shl8(Shl8(Word(n)))))
  }

  /** `crc32c_shift`. */
  function Shift(op: seq<bv32>, crc: bv32): bv32
    requires |op| == 32
  {
    Xor(Xor(Xor(Zeroed(op, 0, Low(crc)), Zeroed(op, 1, Low(Shr8(crc)))), Zeroed(op, 2, Low(Shr8(Shr8(crc))))),
        Zeroed(op, 3, Low(Shr8(Shr8(Shr8(crc))))))
  }

  lemma FourBytes(c: bv32)
    ensures Xor(Xor(Xor(Word(Low(c)), Shl8(Word(Low(Shr8(c))))), Shl8(Shl8(Word(Low(Shr8(Shr8(c))))))),
                Shl8(Shl8(Shl8(Word(Low(Shr8(Shr8(Shr8(c))))))))) == c
  {
  }

  /** Four lookups apply the whole operator: `n` zero bytes at once. */
  lemma ShiftIsZeros(op: seq<bv32>, n: nat, crc: bv32)
    requires ShiftsBits(op, 8 * n)
    ensures Shift(op, crc) == Zeros(n, crc)
  {
    FourBytes(crc);
    hide Xor, Word, Low, Shr8, Shl8, Times, Bits;
    var b1, b2, b3 := Shl8(Word(Low(Shr8(crc)))), Shl8(Shl8(Word(Low(Shr8(Shr8(crc)))))),
        Shl8(Shl8(Shl8(Word(Low(Shr8(Shr8(Shr8(crc))))))));
    TimesLinear(op, 0, Word(Low(crc)), b1);
    TimesLinear(op, 0, Xor(Word(Low(crc)), b1), b2);
    TimesLinear(op, 0, Xor(Xor(Word(Low(crc)), b1), b2), b3);
    ZerosAreBits(n, crc);
  }

  // ---- The three-way form ------------------------------------------------------------------------

  const LONG: nat := 8192
  const SHORT: nat := 256

  /** The `crc32q` and `crc32b` instructions: eight bytes, or one, into the register. */
  function Crc32q(c: bv32, s: seq<bv8>): bv32
    requires |s| == 8
  {
    Raw(c, s)
  }

  function Crc32b(c: bv32, b: bv8): bv32
  {
    Bits(8, Xor(c, Word(b)))
  }

  /** Three independent registers run over three consecutive pieces of `n` bytes and are then joined. */
  method ThreeWay(op: seq<bv32>, n: nat, crc: bv32, buf: seq<bv8>, next: nat) returns (crc0: bv32)
    requires n > 0 && n % 8 == 0 && next + 3 * n <= |buf| && ShiftsBits(op, 8 * n)
    ensures crc0 == Raw(crc, buf[next..next + 3 * n])
  {
    hide Raw, Xor, ShiftsBits, Shift;
    ShiftsIs32(op, 8 * n);
    crc0 := crc;
    var crc1: bv32, crc2: bv32 := 0, 0;
    var i := 0;
    RawNothing(crc);
    RawNothing(0);
    assert buf[next..next] == [] && buf[next + n..next + n] == [] && buf[next + 2 * n..next + 2 * n] == [];
    while i < n
      invariant i <= n && i % 8 == 0
      invariant crc0 == Raw(crc, buf[next..next + i])
      invariant crc1 == Raw(0, buf[next + n..next + n + i])
      invariant crc2 == Raw(0, buf[next + 2 * n..next + 2 * n + i])
    {
      crc0 := Quad(crc, buf, next, i, crc0);
      crc1 := Quad(0, buf, next + n, i, crc1);
      crc2 := Quad(0, buf, next + 2 * n, i, crc2);
      i := i + 8;
    }
    ThreePieces(op, n, crc, buf, next);
    crc0 := Xor(Shift(op, crc0), crc1);
    crc0 := Xor(Shift(op, crc0), crc2);
  }

  lemma ThreePieces(op: seq<bv32>, n: nat, crc: bv32, buf: seq<bv8>, next: nat)
    requires ShiftsBits(op, 8 * n) && next + 3 * n <= |buf|
    ensures |op| == 32
    ensures Xor(Shift(op, Xor(Shift(op, Raw(crc, buf[next..next + n])), Raw(0, buf[next + n..next + n + n]))),
                Raw(0, buf[next + 2 * n..next + 2 * n + n]))
         == Raw(crc, buf[next..next + 3 * n])
  {
    hide Raw, Xor, Shift, Times, Bits;
    var a, b, c := buf[next..next + n], buf[next + n..next + n + n], buf[next + 2 * n..next + 2 * n + n];
    JoinPieces(op, n, crc, a, b, c);
    assert buf[next..next + 3 * n] == a + b + c;
  }

  lemma ShiftsIs32(op: seq<bv32>, k: nat)
    requires ShiftsBits(op, k)
    ensures |op| == 32
  {
  }

  method Quad(start: bv32, buf: seq<bv8>, from: nat, i: nat, crc: bv32) returns (crc': bv32)
    requires from + i + 8 <= |buf| && crc == Raw(start, buf[from..from + i])
    ensures crc' == Raw(start, buf[from..from + i + 8])
  {
    hide Raw;
    crc' := Crc32q(crc, buf[from + i..from + i + 8]);
    assert buf[from..from + i + 8] == buf[from..from + i] + buf[from + i..from + i + 8];
    RawConcat(start, buf[from..from + i], buf[from + i..from + i + 8]);
  }

  lemma JoinPieces(op: seq<bv32>, n: nat, crc: bv32, a: seq<bv8>, b: seq<bv8>, c: seq<bv8>)
    requires ShiftsBits(op, 8 * n) && |a| == |b| == |c| == n
    ensures Xor(Shift(op, Xor(Shift(op, Raw(crc, a)), Raw(0, b))), Raw(0, c)) == Raw(crc, a + b + c)
  {
    hide Raw, Xor, Shift, Zeros, Times;
    ShiftIsZeros(op, n, Raw(crc, a));
    RawSplit(Raw(crc, a), b);
    RawConcat(crc, a, b);
    ShiftIsZeros(op, n, Raw(crc, a + b));
    RawSplit(Raw(crc, a + b), c);
    RawConcat(crc, a + b, c);
  }

  method TakeByteHw(ghost start: bv32, buf: seq<bv8>, i: nat, crc: bv32) returns (crc': bv32)
    requires i < |buf| && crc == Raw(start, buf[..i])
    ensures crc' == Raw(start, buf[..i + 1])
  {
    hide Raw, Xor, Word, Bits;
    crc' := Crc32b(crc, buf[i]);
    assert buf[i..i + 1] == [buf[i]] + [];
    RawCons(crc, buf[i], []);
    RawNothing(crc');
    TakeMore(start, buf, i, 1);
  }

  /** `crc32c_hw`: bytes up to an aligned address, sets of three long pieces, sets of three short pieces,
      eight bytes at a time, bytes. */
  method CrcHw(crci: bv32, buf: seq<bv8>, addr: nat) returns (crc: bv32)
    ensures crc == Crc(crci, buf)
  {
    hide Raw, Xor, ShiftsBits;
    TopPowers();
    var longOp := ZerosOp(LONG);
    var shortOp := ZerosOp(SHORT);
    var next := 0;
    crc := Xor(crci, ONES);
    ghost var start := crc;
    assert buf[..0] == [];
    RawNothing(start);
    while next < |buf| && (addr + next) % 8 != 0
      invariant next <= |buf| && crc == Raw(start, buf[..next])
    {
      crc := TakeByteHw(start, buf, next, crc);
      next := next + 1;
    }
    next, crc := Sets(longOp, LONG, start, buf, next, crc);
    next, crc := Sets(shortOp, SHORT, start, buf, next, crc);
    var end := next + (|buf| - next - (|buf| - next) % 8);
    while next < end
      invariant next <= end <= |buf| && (end - next) % 8 == 0 && crc == Raw(start, buf[..next])
    {
      crc := Crc32q(crc, buf[next..next + 8]);
      TakeMore(start, buf, next, 8);
      next := next + 8;
    }
    while next < |buf|
      invariant next <= |buf| && crc == Raw(start, buf[..next])
    {
      crc := TakeByteHw(start, buf, next, crc);
      next := next + 1;
    }
    assert buf[..|buf|] == buf;
    crc := Xor(crc, ONES);
  }

  method Sets(op: seq<bv32>, n: nat, ghost start: bv32, buf: seq<bv8>, from: nat, crc0: bv32)
    returns (next: nat, crc: bv32)
    requires n > 0 && n % 8 == 0 && ShiftsBits(op, 8 * n)
    requires from <= |buf| && crc0 == Raw(start, buf[..from])
    ensures from <= next <= |buf| && |buf| - next < 3 * n && crc == Raw(start, buf[..next])
  {
    hide Raw, ShiftsBits;
    next, crc := from, crc0;
    while |buf| - next >= 3 * n
      invariant from <= next <= |buf| && crc == Raw(start, buf[..next])
    {
      TakeMore(start, buf, next, 3 * n);
      crc := ThreeWay(op, n, crc, buf, next);
      next := next + 3 * n;
    }
  }

  // ---- What the checksum detects -----------------------------------------------------------------

  lemma BitInjective(a: bv32, b: bv32)
    requires Bit(a) == Bit(b)
    ensures a == b
  {
  }

  lemma {:induction false} BitsInjective(k: nat, a: bv32, b: bv32)
    requires Bits(k, a) == Bits(k, b)
    ensures a == b
  {
    hide Bit;
    if k > 0 {
      BitsInjective(k - 1, Bit(a), Bit(b));
      BitInjective(a, b);
    }
  }

  lemma XorInjective(a: bv32, b: bv32, c: bv32)
    requires Xor(a, c) == Xor(b, c) || Xor(c, a) == Xor(c, b)
    ensures a == b
  {
  }

  lemma {:induction false} RawInjective(c: bv32, d: bv32, s: seq<bv8>)
    requires Raw(c, s) == Raw(d, s)
    ensures c == d
    decreases |s|
  {
    hide Xor, Bits, Word;
    if |s| > 0 {
      var w := Word(s[0]);
      RawInjective(Bits(8, Xor(c, w)), Bits(8, Xor(d, w)), s[1..]);
      BitsInjective(8, Xor(c, w), Xor(d, w));
      XorInjective(c, d, w);
    }
  }

  lemma Word4Injective(a0: bv8, a1: bv8, a2: bv8, a3: bv8, b0: bv8, b1: bv8, b2: bv8, b3: bv8)
    requires Word4(a0, a1, a2, a3) == Word4(b0, b1, b2, b3)
    ensures a0 == b0 && a1 == b1 && a2 == b2 && a3 == b3
  {
  }

  lemma FourBytesInjective(c: bv32, a: seq<bv8>, b: seq<bv8>)
    requires |a| == |b| == 4 && Raw(c, a) == Raw(c, b)
    ensures a == b
  {
    hide Raw, Xor, Word4, Zeros, Bits;
    assert a == [a[0], a[1], a[2], a[3]] && b == [b[0], b[1], b[2], b[3]];
    Raw4(c, a[0], a[1], a[2], a[3]);
    Raw4(c, b[0], b[1], b[2], b[3]);
    var v, w := Word4(a[0], a[1], a[2], a[3]), Word4(b[0], b[1], b[2], b[3]);
    ZerosAreBits(4, Xor(c, v));
    ZerosAreBits(4, Xor(c, w));
    BitsInjective(32, Xor(c, v), Xor(c, w));
    XorInjective(v, w, c);
    Word4Injective(a[0], a[1], a[2], a[3], b[0], b[1], b[2], b[3]);
  }

  /** Any damage confined to four consecutive bytes changes the checksum, wherever it is. */
  lemma DetectsBurst(crc: bv32, before: seq<bv8>, a: seq<bv8>, b: seq<bv8>, after: seq<bv8>)
    requires |a| == |b| <= 4 && a != b
    ensures Crc(crc, before + a + after) != Crc(crc, before + b + after)
  {
    hide Raw, Xor;
    var start := Xor(crc, ONES);
    if Crc(crc, before + a + after) == Crc(crc, before + b + after) {
      XorInjective(Raw(start, before + a + after), Raw(start, before + b + after), ONES);
      RawConcat(start, before + a, after);
      RawConcat(start, before + b, after);
      RawInjective(Raw(start, before + a), Raw(start, before + b), after);
      RawConcat(start, before, a);
      RawConcat(start, before, b);
      var c, pad := Raw(start, before), seq(4 - |a|, _ => 0 as bv8);
      RawConcat(c, a, pad);
      RawConcat(c, b, pad);
      StillDiffer(a, b, pad);
      FourBytesInjective(c, a + pad, b + pad);
    }
  }

  lemma StillDiffer(a: seq<bv8>, b: seq<bv8>, pad: seq<bv8>)
    requires |a| == |b| && a != b
    ensures a + pad != b + pad
  {
    var i :| 0 <= i < |a| && a[i] != b[i];
    assert (a + pad)[i] != (b + pad)[i];
  }
}
