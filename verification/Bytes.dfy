/** Bytes and 64-bit words: little-endian and base-128 encodings, byte lengths, exclusive or.

    Words are naturals below 2^64. Where the source assembles a word with shifts and `|`, the pieces never
    overlap, so addition says the same. */
module Bytes {
  const TWO_64: nat := 0x1_0000_0000_0000_0000

  type Byte = b: nat | b < 256

  type U64 = x: nat | x < TWO_64

  function Pow256(n: nat): (p: nat)
    ensures p >= 1
  {
    if n == 0 then 1 else 256 * Pow256(n - 1)
  }

  lemma Pow256Of8()
    ensures Pow256(8) == TWO_64
  {
    assert Pow256(4) == 0x1_0000_0000;
    assert Pow256(8) == 256 * (256 * (256 * (256 * Pow256(4))));
  }

  // ---- Little-endian -----------------------------------------------------------------------------

  /** The low `n` bytes of `x`. */
  function LE(x: nat, n: nat): (s: seq<Byte>)
    ensures |s| == n
  {
    if n == 0 then [] else [x % 256] + LE(x / 256, n - 1)
  }

  /** A value assembled byte by byte. */
  function FromLE(s: seq<Byte>): nat
  {
    if s == [] then 0 else s[0] + 256 * FromLE(s[1..])
  }

  lemma {:induction false} LERoundTrip(x: nat, n: nat)
    requires x < Pow256(n)
    ensures FromLE(LE(x, n)) == x
  {
    if n > 0 {
      LERoundTrip(x / 256, n - 1);
      assert LE(x, n)[1..] == LE(x / 256, n - 1);
    }
  }

  lemma MulSplit(p: nat, y: nat, base: nat)
    requires base > 0
    ensures p * y == p * (y % base) + (base * p) * (y / base)
  {
    assert y == y % base + base * (y / base);
    assert p * (base * (y / base)) == (base * p) * (y / base);
  }

  lemma MulLess(n: nat, x: nat, y: nat)
    ensures x < y ==> n * x + n <= n * y
  {
    if x < y {
      assert n * y == n * x + n * (y - x);
      assert n * (y - x) == n + n * (y - x - 1);
    }
  }

  lemma ModUnique(a: nat, n: nat, q: nat, r: nat)
    requires n > 0 && r < n && a == n * q + r
    ensures a % n == r
  {
    var x := a / n;
    assert a == n * x + a % n;
    MulLess(n, q, x);
    MulLess(n, x, q);
  }

  // ---- Byte lengths ------------------------------------------------------------------------------

  /** The number of bytes up to the highest one that is not zero. */
  function ByteLength(x: nat): nat
  {
    if x == 0 then 0 else 1 + ByteLength(x / 256)
  }

  lemma {:induction false} ByteLengthFits(x: nat)
    ensures x < Pow256(ByteLength(x))
  {
    if x > 0 {
      ByteLengthFits(x / 256);
    }
  }

  lemma {:induction false} ByteLengthBound(x: nat, n: nat)
    requires x < Pow256(n)
    ensures ByteLength(x) <= n
  {
    if x > 0 {
      ByteLengthBound(x / 256, n - 1);
    }
  }

  /** No number of fewer bytes would do. */
  lemma ByteLengthExact(x: nat, n: nat)
    ensures ByteLength(x) <= n <==> x < Pow256(n)
  {
    if ByteLength(x) <= n {
      ByteLengthFits(x);
      Pow256Grows(ByteLength(x), n);
    } else if x < Pow256(n) {
      ByteLengthBound(x, n);
    }
  }

  lemma {:induction false} Pow256Grows(j: nat, k: nat)
    requires j <= k
    ensures Pow256(j) <= Pow256(k)
    decreases k
  {
    if j < k {
      Pow256Grows(j, k - 1);
    }
  }

  function BitLength(x: nat): nat
  {
    if x == 0 then 0 else 1 + BitLength(x / 2)
  }

  /** `__builtin_clzll`, and 64 for zero as the writers have it. */
  function LeadingZeros(x: U64): int
  {
    64 - BitLength(x)
  }

  lemma HalfOfQuotient(x: nat)
    ensures x / 2 / 256 == x / 256 / 2
  {
    assert x / 2 / 256 == x / 512 == x / 256 / 2;
  }

  lemma {:induction false} BitLengthByByte(x: nat)
    requires x >= 256
    ensures BitLength(x) == 8 + BitLength(x / 256)
  {
    if x >= 512 {
      BitLengthByByte(x / 2);
      HalfOfQuotient(x);
    } else {
      assert BitLength(x / 256) == 1;
      assert Pow2(4) == 16 && Pow2(7) == 8 * Pow2(4) && Pow2(8) == 2 * Pow2(7);
      BitLengthSmall(x / 2, 8);
    }
  }

  function Pow2(k: nat): (p: nat)
    ensures p >= 1
  {
    if k == 0 then 1 else 2 * Pow2(k - 1)
  }

  /** 2^(k-1) <= x < 2^k. */
  lemma {:induction false} BitLengthSmall(x: nat, k: nat)
    requires k >= 1 && Pow2(k - 1) <= x < Pow2(k)
    ensures BitLength(x) == k
  {
    if k > 1 {
      BitLengthSmall(x / 2, k - 1);
    }
  }

  lemma {:induction false} BitLengthIsByteLength(x: nat)
    ensures ByteLength(x) == (BitLength(x) + 7) / 8
  {
    if x >= 256 {
      BitLengthByByte(x);
      BitLengthIsByteLength(x / 256);
    } else if x > 0 {
      BitLengthBelow(x, 8);
      assert ByteLength(x / 256) == 0;
    }
  }

  lemma {:induction false} BitLengthBelow(x: nat, k: nat)
    requires x < Pow2(k)
    ensures BitLength(x) <= k
  {
    if x > 0 {
      BitLengthBelow(x / 2, k - 1);
    }
  }

  lemma Pow2Of64()
    ensures Pow2(64) == TWO_64
  {
    assert Pow2(4) == 16;
    Pow2Add(4, 4);
    assert Pow2(8) == 256;
    Pow2Add(8, 8);
    assert Pow2(16) == 65536;
    Pow2Add(16, 16);
    assert Pow2(32) == 0x1_0000_0000;
    Pow2Add(32, 32);
  }

  lemma {:induction false} Pow2Add(a: nat, b: nat)
    ensures Pow2(a + b) == Pow2(a) * Pow2(b)
  {
    if b > 0 {
      Pow2Add(a, b - 1);
      assert Pow2(a + b) == 2 * Pow2(a + b - 1);
      assert Pow2(a) * (2 * Pow2(b - 1)) == 2 * (Pow2(a) * Pow2(b - 1));
    }
  }

  /** The control nibble, computed from the count of leading zero bits, is the byte length. */
  lemma ControlNibble(x: U64)
    ensures 8 - LeadingZeros(x) / 8 == ByteLength(x) <= 8
  {
    BitLengthIsByteLength(x);
    Pow2Of64();
    BitLengthBelow(x, 64);
  }

  // ---- Trailing zero bytes -----------------------------------------------------------------------

  function TrailingZeroBytes(x: nat): nat
    requires x > 0
  {
    if x % 256 != 0 then 0 else 1 + TrailingZeroBytes(x / 256)
  }

  lemma {:induction false} TrailingExact(x: nat, t: nat)
    requires x > 0
    ensures t <= TrailingZeroBytes(x) <==> x % Pow256(t) == 0
    decreases t
  {
    if t > 0 {
      ByteModulus(x, Pow256(t - 1));
      if x % 256 == 0 {
        TrailingExact(x / 256, t - 1);
      }
    }
  }

  lemma ByteModulus(x: nat, m: nat)
    requires m > 0
    ensures x % (256 * m) == x % 256 + 256 * (x / 256 % m)
  {
    var y := x / 256;
    var q, r := y / m, y % m;
    assert y == m * q + r;
    Widen(m, q);
    ModUnique(x, 256 * m, q, 256 * r + x % 256);
  }

  lemma Widen(m: nat, q: nat)
    ensures 256 * (m * q) == (256 * m) * q
  {
  }

  /** Shift right, or left, by `t` bytes. */
  function ShiftRight(x: nat, t: nat): nat
  {
    if t == 0 then x else ShiftRight(x / 256, t - 1)
  }

  function ShiftLeft(x: nat, t: nat): nat
  {
    if t == 0 then x else 256 * ShiftLeft(x, t - 1)
  }

  /** The least significant byte comes first. */
  lemma {:induction false} LEAt(x: nat, n: nat, i: nat)
    requires i < n
    ensures LE(x, n)[i] == ShiftRight(x, i) % 256
    decreases i
  {
    if i > 0 {
      LEAt(x / 256, n - 1, i - 1);
    }
  }

  lemma {:induction false} ShiftRoundTrip(x: nat, t: nat)
    requires x > 0 && t <= TrailingZeroBytes(x)
    ensures ShiftLeft(ShiftRight(x, t), t) == x
  {
    if t > 0 {
      ShiftRoundTrip(x / 256, t - 1);
    }
  }

  lemma {:induction false} ShiftRightBound(x: nat, t: nat, n: nat)
    requires x < Pow256(n) && t <= n
    ensures ShiftRight(x, t) < Pow256(n - t)
  {
    if t > 0 {
      ShiftRightBound(x / 256, t - 1, n - 1);
    }
  }

  lemma {:induction false} TrailingBelowLength(x: nat)
    requires x > 0
    ensures TrailingZeroBytes(x) < ByteLength(x)
  {
    if x % 256 == 0 {
      TrailingBelowLength(x / 256);
    }
  }

  // ---- Base 128 ----------------------------------------------------------------------------------

  function Pow128(n: nat): (p: nat)
    ensures p >= 1
  {
    if n == 0 then 1 else 128 * Pow128(n - 1)
  }

  function Leb(x: nat): (s: seq<Byte>)
    ensures s != []
  {
    if x < 128 then [x] else [128 + x % 128] + Leb(x / 128)
  }

  lemma {:induction false} LebLength(x: nat, n: nat)
    requires x < Pow128(n) && n >= 1
    ensures |Leb(x)| <= n
  {
    if x >= 128 {
      LebLength(x / 128, n - 1);
    }
  }

  lemma Leb64(x: U64)
    ensures |Leb(x)| <= 10
  {
    assert Pow128(4) == 0x1000_0000;
    assert Pow128(10) == 128 * (128 * (128 * (128 * (128 * (128 * Pow128(4))))));
    LebLength(x, 10);
  }

  // ---- Exclusive or ------------------------------------------------------------------------------

  function Xor(a: nat, b: nat): nat
    decreases a + b
  {
    if a == 0 && b == 0 then 0 else (if a % 2 != b % 2 then 1 else 0) + 2 * Xor(a / 2, b / 2)
  }

  lemma {:induction false} XorBound(a: nat, b: nat, k: nat)
    requires a < Pow2(k) && b < Pow2(k)
    ensures Xor(a, b) < Pow2(k)
    decreases k
  {
    if k > 0 {
      XorBound(a / 2, b / 2, k - 1);
    }
  }

  lemma Xor64(a: U64, b: U64)
    ensures Xor(a, b) < TWO_64
  {
    Pow2Of64();
    XorBound(a, b, 64);
  }

  lemma {:induction false} XorBack(p: nat, c: nat)
    ensures Xor(p, Xor(c, p)) == c
    decreases p + c
  {
    if p != 0 || c != 0 {
      XorBack(p / 2, c / 2);
      var x := Xor(c, p);
      assert x / 2 == Xor(c / 2, p / 2);
    }
  }
}
