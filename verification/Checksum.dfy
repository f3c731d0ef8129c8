/** The checksum of a block (storage/block_store.cc): computed over the components when a leaf is committed,
    checked over the flat buffer when the block is read back. */
module Checksum {
  import opened Bytes
  import opened IOVec
  import Crc32c
  import CrcRemainder

  /** Which implementation `chose_crc32c_implementation` returns. */
  datatype Impl = Sw | Hw

  function Pack(b0: bool, b1: bool, b2: bool, b3: bool, b4: bool, b5: bool, b6: bool, b7: bool): bv8
  {
    (if b0 then 1 else 0) | (if b1 then 2 else 0) | (if b2 then 4 else 0) | (if b3 then 8 else 0) |
    (if b4 then 16 else 0) | (if b5 then 32 else 0) | (if b6 then 64 else 0) | (if b7 then 128 else 0)
  }

  function Odd(n: nat): bool
  {
    n % 2 == 1
  }

  /** The bits of a byte. */
  function Bits(b: Byte): bv8
  {
    Pack(Odd(b), Odd(b / 2), Odd(b / 4), Odd(b / 8), Odd(b / 16), Odd(b / 32), Odd(b / 64), Odd(b / 128))
  }

  function Bits8(s: seq<Byte>): (r: seq<bv8>)
    ensures |r| == |s| && forall i :: 0 <= i < |s| ==> r[i] == Bits(s[i])
  {
    seq(|s|, i requires 0 <= i < |s| => Bits(s[i]))
  }

  lemma Bits8Concat(a: seq<Byte>, b: seq<Byte>)
    ensures Bits8(a + b) == Bits8(a) + Bits8(b)
  {
  }

  /** `FileStorage::checksum` of a flat buffer. */
  method Run(impl: Impl, crc: bv32, data: seq<Byte>, addr: nat) returns (r: bv32)
    ensures r == Crc32c.Crc(crc, Bits8(data))
  {
    match impl
    case Sw => r := Crc32c.CrcSw(crc, Bits8(data), addr);
    case Hw => r := Crc32c.CrcHw(crc, Bits8(data), addr);
  }

  /** The components from `i` up to the first one that was never allocated. */
  function Joined(data: seq<Component>, i: nat): seq<Byte>
    requires |data| == 4 && i <= 4
    decreases 4 - i
  {
    if i == 4 || |data[i]| == 0 then [] else data[i] + Joined(data, i + 1)
  }

  /** At most `size` bytes. */
  function Clip(s: seq<Byte>, size: nat): seq<Byte>
  {
    if |s| < size then s else s[..size]
  }

  lemma ClipParts(a: seq<Byte>, b: seq<Byte>, size: nat)
    ensures |a| <= size ==> Clip(a + b, size) == a + Clip(b, size - |a|)
    ensures |a| >= size ==> Clip(a + b, size) == a[..size]
  {
  }

  /** What is left to cover at component `i`. */
  function Rest(data: seq<Component>, i: nat, skip: nat): seq<Byte>
    requires |data| == 4 && i <= 4
  {
    if i == 4 || |data[i]| < skip || |data[i]| == 0 then [] else data[i][skip..] + Joined(data, i + 1)
  }

  /** `FileStorage::checksum` of an `IOVecBlock`: `offset` is skipped in the first component only, and the walk
      ends at the first component that was never allocated. */
  method OfBlock(impl: Impl, data: seq<Component>, offset: nat, size: nat, addrs: seq<nat>) returns (crc: bv32)
    requires |data| == |addrs| == 4
    ensures crc == Crc32c.Crc(0, Bits8(Clip(Rest(data, 0, offset), size)))
  {
    hide Crc32c.Crc, Bits8, Joined, Clip, Rest;
    crc := 0;
    var left: nat, skip: nat, i: nat := size, offset, 0;
    NoneYet();
    ghost var done: seq<Byte> := [];
    while i < 4
      invariant i <= 4 && crc == Crc32c.Crc(0, Bits8(done))
      invariant Clip(Rest(data, 0, offset), size) == done + Clip(Rest(data, i, skip), left)
    {
      if |data[i]| < skip || |data[i]| == 0 || left == 0 {
        break;
      }
      var sz: nat := if |data[i]| - skip < left then |data[i]| - skip else left;
      var piece := data[i][skip..skip + sz];
      OneComponent(data, i, skip, left, sz);
      Crc32c.Chain(0, Bits8(done), Bits8(piece));
      Bits8Concat(done, piece);
      crc := Run(impl, crc, piece, addrs[i] + skip);
      assert done + (piece + Clip(Rest(data, i + 1, 0), left - sz)) ==
          (done + piece) + Clip(Rest(data, i + 1, 0), left - sz);
      done := done + piece;
      left := left - sz;
      skip := 0;
      i := i + 1;
    }
    Ending(data, i, skip, left);
    assert done + [] == done;
  }

  lemma NoneYet()
    ensures Crc32c.Crc(0, Bits8([])) == 0
  {
    assert Bits8([]) == [];
    Crc32c.RawNothing(Crc32c.ONES);
  }

  lemma Ending(data: seq<Component>, i: nat, skip: nat, left: nat)
    requires |data| == 4 && i <= 4 && (i == 4 || |data[i]| < skip || |data[i]| == 0 || left == 0)
    ensures Clip(Rest(data, i, skip), left) == []
  {
  }

  lemma OneComponent(data: seq<Component>, i: nat, skip: nat, left: nat, sz: nat)
    requires |data| == 4 && i < 4 && |data[i]| > 0 && skip <= |data[i]|
    requires sz == if |data[i]| - skip < left then |data[i]| - skip else left
    ensures Clip(Rest(data, i, skip), left) == data[i][skip..skip + sz] + Clip(Rest(data, i + 1, 0), left - sz)
  {
    var here, more := data[i][skip..], Joined(data, i + 1);
    RestIsJoined(data, i + 1);
    hide Joined;
    assert here[..sz] == data[i][skip..skip + sz];
    ClipParts(here, more, left);
    hide Clip, Rest;
    if |here| >= left {
      ClipNone(more);
      assert here[..sz] + [] == here[..sz];
    } else {
      assert here[..sz] == here;
    }
  }

  lemma RestIsJoined(data: seq<Component>, i: nat)
    requires |data| == 4 && i <= 4
    ensures Rest(data, i, 0) == Joined(data, i)
  {
    if i < 4 {
      assert data[i][0..] == data[i];
    }
  }

  lemma ClipNone(s: seq<Byte>)
    ensures Clip(s, 0) == []
  {
  }

  /** Inside the first component `offset` counts from the start of the block. */
  lemma RestOfBlock(data: seq<Component>, offset: nat)
    requires |data| == 4 && offset <= |data[0]|
    ensures offset <= |Joined(data, 0)| && Rest(data, 0, offset) == Joined(data, 0)[offset..]
  {
    if |data[0]| > 0 {
      assert Joined(data, 0) == data[0] + Joined(data, 1);
    }
  }

  lemma JoinedIsFlat(data: seq<Component>, n: nat)
    requires IsScattered(data, n)
    ensures |Joined(data, 0)| == 1024 * n && |Flat(data)| == 4096 && Joined(data, 0) == Flat(data)[..1024 * n]
  {
    assert Joined(data, 4) == [];
    assert n < 4 ==> Joined(data, n) == [];
    assert n > 3 ==> Joined(data, 3) == data[3] + [] == data[3];
    assert n > 2 ==> Joined(data, 2) == data[2] + Joined(data, 3);
    assert n > 1 ==> Joined(data, 1) == data[1] + Joined(data, 2);
    assert n > 0 ==> Joined(data, 0) == data[0] + Joined(data, 1);
  }

  /** The checksum that `IOVecLeaf::commit` stores is the one that `read_and_check` finds, in either
      implementation, once the block has gone through a volume. */
  method CommitAndCheck(impl: Impl, impl': Impl, data: seq<Component>, n: nat, offset: nat, size: nat, addrs: seq<nat>)
    returns (committed: bv32, checked: bv32)
    requires IsScattered(data, n) && |addrs| == 4
    requires 0 < n && offset <= 1024 && offset + size <= 1024 * n
    ensures committed == checked
  {
    hide Crc32c.Crc, Bits8, Joined, Clip, Flat, Rest;
    committed := OfBlock(impl, data, offset, size, addrs);
    StoreRoundTrip(data, n);
    var read := Loaded(Stored(data));
    FlatWhole(read);
    RestOfBlock(data, offset);
    JoinedIsFlat(data, n);
    ClipInside(Flat(data), 1024 * n, offset, size);
    checked := Run(impl', 0, read[0][offset..offset + size], addrs[0]);
  }

  lemma ClipInside(s: seq<Byte>, n: nat, offset: nat, size: nat)
    requires offset + size <= n <= |s|
    ensures Clip(s[..n][offset..], size) == s[offset..offset + size]
  {
  }

  // ---- Superblocks -------------------------------------------------------------------------------

  /** The packed size of a `SubtreeRef`: the header of a node, and each reference in a superblock. */
  const REF_SIZE: nat := 110

  lemma PackInjective(b0: bool, b1: bool, b2: bool, b3: bool, b4: bool, b5: bool, b6: bool, b7: bool,
                      c0: bool, c1: bool, c2: bool, c3: bool, c4: bool, c5: bool, c6: bool, c7: bool)
    requires Pack(b0, b1, b2, b3, b4, b5, b6, b7) == Pack(c0, c1, c2, c3, c4, c5, c6, c7)
    ensures b0 == c0 && b1 == c1 && b2 == c2 && b3 == c3 && b4 == c4 && b5 == c5 && b6 == c6 && b7 == c7
  {
  }

  lemma SameHalf(a: nat, b: nat)
    requires Odd(a) == Odd(b) && a / 2 == b / 2
    ensures a == b
  {
  }

  lemma Quarter(a: nat, d: nat)
    requires d in {2, 4, 8, 16, 32, 64}
    ensures a / d / 2 == a / (2 * d)
  {
  }

  lemma SameUp(a: nat, b: nat, d: nat)
    requires d in {2, 4, 8, 16, 32, 64} && Odd(a / d) == Odd(b / d) && a / (2 * d) == b / (2 * d)
    ensures a / d == b / d
  {
    Quarter(a, d);
    Quarter(b, d);
    SameHalf(a / d, b / d);
  }

  /** A byte is told by its bits. */
  lemma BitsInjective(a: Byte, b: Byte)
    requires Bits(a) == Bits(b)
    ensures a == b
  {
    hide Pack, Odd;
    PackInjective(Odd(a), Odd(a / 2), Odd(a / 4), Odd(a / 8), Odd(a / 16), Odd(a / 32), Odd(a / 64), Odd(a / 128),
                  Odd(b), Odd(b / 2), Odd(b / 4), Odd(b / 8), Odd(b / 16), Odd(b / 32), Odd(b / 64), Odd(b / 128));
    Top(a, b);
    SameUp(a, b, 64);
    SameUp(a, b, 32);
    SameUp(a, b, 16);
    SameUp(a, b, 8);
    SameUp(a, b, 4);
    SameUp(a, b, 2);
    SameHalf(a, b);
  }

  lemma Top(a: Byte, b: Byte)
    requires Odd(a / 128) == Odd(b / 128)
    ensures a / 128 == b / 128
  {
  }

  lemma ByteBits(a: Byte, b: Byte)
    requires a != b
    ensures Bits8([a])[0] != Bits8([b])[0]
  {
    hide Bits;
    if Bits(a) == Bits(b) {
      BitsInjective(a, b);
    }
  }

  lemma BitsParts(a: seq<Byte>, x: Byte, b: seq<Byte>)
    ensures Bits8(a + [x] + b) == Bits8(a) + Bits8([x]) + Bits8(b)
  {
  }

  /** A checksum over part of some bytes changes with byte `k` if and only if the byte is in that part and is different
      afterwards. */
  lemma NoticesByte(s: seq<Byte>, lo: nat, hi: nat, k: nat, b: Byte)
    requires lo <= hi <= |s| && k < |s|
    ensures Crc32c.Crc(0, Bits8(s[k := b][lo..hi])) != Crc32c.Crc(0, Bits8(s[lo..hi])) <==>
            lo <= k < hi && b != s[k]
  {
    hide Crc32c.Crc, Bits8;
    if lo <= k < hi {
      var before, after := s[lo..k], s[k + 1..hi];
      assert s[lo..hi] == before + [s[k]] + after;
      assert s[k := b][lo..hi] == before + [b] + after;
      BitsParts(before, s[k], after);
      BitsParts(before, b, after);
      if b != s[k] {
        ByteBits(b, s[k]);
        OneByte(b);
        OneByte(s[k]);
        Crc32c.DetectsBurst(0, Bits8(before), Bits8([b]), Bits8([s[k]]), Bits8(after));
      }
    } else {
      assert s[k := b][lo..hi] == s[lo..hi];
    }
  }

  lemma OneByte(b: Byte)
    ensures |Bits8([b])| == 1
  {
  }

  /** Both implementations give the check value of CRC-32C for the bytes of "123456789". */
  method KnownAnswer(impl: Impl, addr: nat) returns (crc: bv32)
    ensures crc == 0xe3069283
  {
    hide Crc32c.Crc, Bits, Pack;
    var digits: seq<Byte> := [49, 50, 51, 52, 53, 54, 55, 56, 57];
    DigitBits();
    DigitPacks();
    assert Bits8(digits) == CrcRemainder.DIGITS;
    CrcRemainder.CheckValue();
    crc := Run(impl, 0, digits, addr);
  }

  lemma DigitBits()
    ensures Bits(49) == Pack(true, false, false, false, true, true, false, false)
    ensures Bits(50) == Pack(false, true, false, false, true, true, false, false)
    ensures Bits(51) == Pack(true, true, false, false, true, true, false, false)
    ensures Bits(52) == Pack(false, false, true, false, true, true, false, false)
    ensures Bits(53) == Pack(true, false, true, false, true, true, false, false)
    ensures Bits(54) == Pack(false, true, true, false, true, true, false, false)
    ensures Bits(55) == Pack(true, true, true, false, true, true, false, false)
    ensures Bits(56) == Pack(false, false, false, true, true, true, false, false)
    ensures Bits(57) == Pack(true, false, false, true, true, true, false, false)
  {
    hide Pack;
  }

  lemma DigitPacks()
    ensures Pack(true, false, false, false, true, true, false, false) == 0x31
    ensures Pack(false, true, false, false, true, true, false, false) == 0x32
    ensures Pack(true, true, false, false, true, true, false, false) == 0x33
    ensures Pack(false, false, true, false, true, true, false, false) == 0x34
    ensures Pack(true, false, true, false, true, true, false, false) == 0x35
    ensures Pack(false, true, true, false, true, true, false, false) == 0x36
    ensures Pack(true, true, true, false, true, true, false, false) == 0x37
    ensures Pack(false, false, false, true, true, true, false, false) == 0x38
    ensures Pack(true, false, false, true, true, true, false, false) == 0x39
  {
  }

  /** The payload size and the checksum in the header of a node. */
  const SIZE_AT: nat := 100
  const SUM_AT: nat := 106

  function PayloadSize(block: seq<Byte>): nat
    requires |block| >= REF_SIZE
  {
    block[SIZE_AT] as int + 256 * block[SIZE_AT + 1] as int
  }

  function StoredSum(block: seq<Byte>): bv32
    requires |block| >= REF_SIZE
  {
    Crc32c.Word4(Bits(block[SUM_AT]), Bits(block[SUM_AT + 1]), Bits(block[SUM_AT + 2]), Bits(block[SUM_AT + 3]))
  }

  lemma Unpack(x: bv8)
    ensures Pack(x & 1 != 0, x & 2 != 0, x & 4 != 0, x & 8 != 0, x & 16 != 0, x & 32 != 0, x & 64 != 0,
                 x & 128 != 0) == x
  {
  }

  function Twice(b: bool, n: nat): (r: nat)
    ensures Odd(r) == b && r / 2 == n
  {
    (if b then 1 else 0) + 2 * n
  }

  function Weight(b0: bool, b1: bool, b2: bool, b3: bool, b4: bool, b5: bool, b6: bool, b7: bool): nat
  {
    Twice(b0, Twice(b1, Twice(b2, Twice(b3, Twice(b4, Twice(b5, Twice(b6, Twice(b7, 0))))))))
  }

  lemma WeightIsByte(b0: bool, b1: bool, b2: bool, b3: bool, b4: bool, b5: bool, b6: bool, b7: bool)
    ensures Weight(b0, b1, b2, b3, b4, b5, b6, b7) < 256
  {
    hide Odd;
  }

  function ByteOf(x: bv8): Byte
  {
    WeightIsByte(x & 1 != 0, x & 2 != 0, x & 4 != 0, x & 8 != 0, x & 16 != 0, x & 32 != 0, x & 64 != 0, x & 128 != 0);
    Weight(x & 1 != 0, x & 2 != 0, x & 4 != 0, x & 8 != 0, x & 16 != 0, x & 32 != 0, x & 64 != 0, x & 128 != 0)
  }

  lemma WeightBits(b0: bool, b1: bool, b2: bool, b3: bool, b4: bool, b5: bool, b6: bool, b7: bool)
    ensures var w := Weight(b0, b1, b2, b3, b4, b5, b6, b7);
            w < 256 && Bits(w) == Pack(b0, b1, b2, b3, b4, b5, b6, b7)
  {
    hide Pack, Odd, Twice;
    WeightIsByte(b0, b1, b2, b3, b4, b5, b6, b7);
    var w := Weight(b0, b1, b2, b3, b4, b5, b6, b7);
    Quarter(w, 2);
    Quarter(w, 4);
    Quarter(w, 8);
    Quarter(w, 16);
    Quarter(w, 32);
    Quarter(w, 64);
  }

  lemma ByteOfBits(x: bv8)
    ensures Bits(ByteOf(x)) == x
  {
    hide Pack, Bits, Weight;
    Unpack(x);
    WeightBits(x & 1 != 0, x & 2 != 0, x & 4 != 0, x & 8 != 0, x & 16 != 0, x & 32 != 0, x & 64 != 0, x & 128 != 0);
  }

  /** The size and the checksum written into the header. */
  function Stamped(block: seq<Byte>, n: nat, crc: bv32): (r: seq<Byte>)
    requires |block| >= REF_SIZE && n < 0x1_0000
    ensures |r| == |block| && r[REF_SIZE..] == block[REF_SIZE..]
  {
    var c1 := Crc32c.Shr8(crc);
    var c2 := Crc32c.Shr8(c1);
    var sum := [ByteOf(Crc32c.Low(crc)), ByteOf(Crc32c.Low(c1)), ByteOf(Crc32c.Low(c2)),
                ByteOf(Crc32c.Low(Crc32c.Shr8(c2)))];
    block[..SIZE_AT] + [n % 256, n / 256] + block[SIZE_AT + 2..SUM_AT] + sum + block[REF_SIZE..]
  }

  lemma StampedReads(block: seq<Byte>, n: nat, crc: bv32)
    requires |block| >= REF_SIZE && n < 0x1_0000
    ensures PayloadSize(Stamped(block, n, crc)) == n && StoredSum(Stamped(block, n, crc)) == crc
  {
    hide ByteOf, Crc32c.Low, Crc32c.Shr8, Crc32c.Word4, Bits;
    var c1 := Crc32c.Shr8(crc);
    var c2 := Crc32c.Shr8(c1);
    ByteOfBits(Crc32c.Low(crc));
    ByteOfBits(Crc32c.Low(c1));
    ByteOfBits(Crc32c.Low(c2));
    ByteOfBits(Crc32c.Low(Crc32c.Shr8(c2)));
    Crc32c.BytesOfWord(crc);
  }

  /** What `read_and_check` accepts: the checksum in the header is that of as many bytes behind it as it says. */
  ghost predicate Sound(block: seq<Byte>)
  {
    && |block| == 4096 && REF_SIZE + PayloadSize(block) <= 4096
    && Crc32c.Crc(0, Bits8(block[REF_SIZE..REF_SIZE + PayloadSize(block)])) == StoredSum(block)
  }

  method ReadAndCheck(impl: Impl, block: seq<Byte>, addr: nat) returns (ok: bool)
    requires |block| == 4096 && REF_SIZE + PayloadSize(block) <= 4096
    ensures ok <==> Sound(block)
  {
    hide Crc32c.Crc, Bits8, Crc32c.Word4, Bits;
    var crc := Run(impl, 0, block[REF_SIZE..REF_SIZE + PayloadSize(block)], addr);
    ok := crc == StoredSum(block);
  }

  lemma SumNotices(block: seq<Byte>, k: nat, b: Byte)
    requires |block| >= REF_SIZE && k < |block|
    ensures StoredSum(block[k := b]) != StoredSum(block) <==> SUM_AT <= k < SUM_AT + 4 && b != block[k]
  {
    hide Crc32c.Word4, Bits;
    var c := block[k := b];
    if StoredSum(c) == StoredSum(block) && SUM_AT <= k < SUM_AT + 4 {
      Crc32c.Word4Injective(Bits(c[SUM_AT]), Bits(c[SUM_AT + 1]), Bits(c[SUM_AT + 2]), Bits(c[SUM_AT + 3]),
                            Bits(block[SUM_AT]), Bits(block[SUM_AT + 1]), Bits(block[SUM_AT + 2]),
                            Bits(block[SUM_AT + 3]));
      BitsInjective(b, block[k]);
    }
  }

  /** One byte of a node is changed. Unless it is one of the size, this is noticed if and only if it is a byte of the
      checksum or one that is covered, and is different afterwards. Another size moves the end of what is covered. */
  lemma NoticesChange(block: seq<Byte>, k: nat, b: Byte)
    requires Sound(block) && k < 4096
    ensures k != SIZE_AT && k != SIZE_AT + 1 ==>
            (Sound(block[k := b]) <==>
             b == block[k] || !(SUM_AT <= k < SUM_AT + 4 || REF_SIZE <= k < REF_SIZE + PayloadSize(block)))
    ensures k == SIZE_AT || k == SIZE_AT + 1 ==>
            var n := PayloadSize(block[k := b]);
            (Sound(block[k := b]) <==>
             REF_SIZE + n <= 4096 && Crc32c.Crc(0, Bits8(block[REF_SIZE..REF_SIZE + n])) == StoredSum(block))
  {
    hide Crc32c.Crc, Bits8, Crc32c.Word4, Bits, StoredSum;
    SumNotices(block, k, b);
    var c := block[k := b];
    if k != SIZE_AT && k != SIZE_AT + 1 {
      NoticesByte(block, REF_SIZE, REF_SIZE + PayloadSize(block), k, b);
    } else {
      assert c[REF_SIZE..] == block[REF_SIZE..];
      var n := PayloadSize(c);
      if REF_SIZE + n <= 4096 {
        assert c[REF_SIZE..REF_SIZE + n] == c[REF_SIZE..][..n] == block[REF_SIZE..REF_SIZE + n];
      }
    }
  }

  /** `IOVecSuperblock::commit` stores the number of references as the payload size. So with at most 32 references less
      than one third of the first one is covered. The block is accepted when it is read back; of the changes of one byte
      of a reference those of its first `n` bytes are noticed, and no others. */
  method SuperblockCovers(impl: Impl, impl': Impl, data: seq<Component>, m: nat, n: nat, addr: nat, k: nat, b: Byte)
    returns (block: seq<Byte>, ok: bool, still: bool)
    requires IsScattered(data, m) && 0 < m && 0 < n <= 32 && k < 4096
    requires k == 101 ==> 110 + n + 256 * b <= 4096
    ensures |block| == 4096 && block[110..] == Flat(data)[110..] && PayloadSize(block) == n && ok
    ensures 110 <= k ==> (still <==> b == block[k] || 110 + n <= k)
    ensures 106 <= k < 110 ==> (still <==> b == block[k])
    ensures k < 100 || 102 <= k < 106 ==> still
    ensures k == 100 || k == 101 ==>
            var n' := if k == 100 then b else n + 256 * b;
            (still <==> Crc32c.Crc(0, Bits8(block[110..110 + n'])) == StoredSum(block))
  {
    hide Crc32c.Crc, Bits8, Flat, Sound, StoredSum, Stamped;
    FirstComponent(data, m, n);
    var crc := Run(impl, 0, data[0][REF_SIZE..REF_SIZE + n], addr);
    var data' := data[0 := Stamped(data[0], n, crc)];
    StampedBlock(data, m, n, crc);
    StoreRoundTrip(data', m);
    FlatWhole(Loaded(Stored(data')));
    block := Stored(data');
    assert block[REF_SIZE..REF_SIZE + n] == block[REF_SIZE..][..n] == Flat(data)[REF_SIZE..][..n];
    assert Flat(data)[REF_SIZE..][..n] == Flat(data)[REF_SIZE..REF_SIZE + n];
    StampedIsSound(block, n, crc);
    ok := ReadAndCheck(impl', block, addr);
    NoticesChange(block, k, b);
    still := ReadAndCheck(impl', block[k := b], addr);
  }

  lemma StampedBlock(data: seq<Component>, m: nat, n: nat, crc: bv32)
    requires IsScattered(data, m) && 0 < m && n <= 32
    ensures var data' := data[0 := Stamped(data[0], n, crc)];
            && IsScattered(data', m) && |Flat(data')| == 4096 && Flat(data')[REF_SIZE..] == Flat(data)[REF_SIZE..]
            && PayloadSize(Flat(data')) == n && StoredSum(Flat(data')) == crc
  {
    hide Flat, Stamped, StoredSum;
    var first, data' := Stamped(data[0], n, crc), data[0 := Stamped(data[0], n, crc)];
    StampedReads(data[0], n, crc);
    FlatFront(data, m);
    FlatFront(data', m);
    SameHeader(Flat(data'), first);
    assert Flat(data)[REF_SIZE..] == Flat(data)[..1024][REF_SIZE..] + Flat(data)[1024..];
    assert Flat(data')[REF_SIZE..] == Flat(data')[..1024][REF_SIZE..] + Flat(data')[1024..];
  }

  lemma FlatFront(data: seq<Component>, m: nat)
    requires IsScattered(data, m) && 0 < m
    ensures |Flat(data)| == 4096 && Flat(data)[..1024] == data[0]
    ensures Flat(data)[1024..] == Pad(data[1]) + Pad(data[2]) + Pad(data[3])
  {
    hide Pad;
    assert Pad(data[0]) == data[0] by {
      PadFull(data[0]);
    }
    PadLengths(data, m);
    var a, b, c, d := data[0], Pad(data[1]), Pad(data[2]), Pad(data[3]);
    assert a + b + c + d == a + (b + c + d);
  }

  lemma PadFull(s: Component)
    ensures |s| == 1024 ==> Pad(s) == s
  {
  }

  lemma PadLengths(data: seq<Component>, m: nat)
    requires IsScattered(data, m)
    ensures forall c :: 0 <= c < 4 ==> |Pad(data[c])| == 1024
  {
  }

  lemma SameHeader(a: seq<Byte>, b: seq<Byte>)
    requires |a| >= 1024 == |b| && a[..1024] == b
    ensures PayloadSize(a) == PayloadSize(b) && StoredSum(a) == StoredSum(b)
  {
    hide Bits, Crc32c.Word4;
    assert forall k :: 0 <= k < REF_SIZE ==> a[k] == a[..1024][k];
  }

  lemma StampedIsSound(block: seq<Byte>, n: nat, crc: bv32)
    requires |block| == 4096 && PayloadSize(block) == n && n <= 32 && StoredSum(block) == crc
    requires crc == Crc32c.Crc(0, Bits8(block[REF_SIZE..REF_SIZE + n]))
    ensures Sound(block)
  {
    hide Crc32c.Crc, Bits8, StoredSum;
  }

  lemma FirstComponent(data: seq<Component>, m: nat, n: nat)
    requires IsScattered(data, m) && 0 < m && n <= 32
    ensures |data[0]| == 1024 && |Flat(data)| == 4096 &&
            Flat(data)[REF_SIZE..REF_SIZE + n] == data[0][REF_SIZE..REF_SIZE + n]
  {
  }
}
