/** What CRC-32C is (section 12.1 of RFC 3720): the remainder of a message modulo a polynomial over the field with two
    elements. Every form of the checksum in common/crc32c.cc computes it. */
module CrcRemainder {
  import opened Crc32c

  // ---- Polynomials -------------------------------------------------------------------------------

  /** A polynomial is the set of the exponents that occur in it. */
  type Poly = set<nat>

  function Plus(a: Poly, b: Poly): Poly
  {
    (a - b) + (b - a)
  }

  /** Times x^k. */
  function Shift(a: Poly, k: nat): Poly
  {
    set e | e in a :: e + k
  }

  /** The generator of CRC-32C. */
  const GENERATOR: Poly := {32, 28, 27, 26, 25, 23, 22, 20, 19, 18, 14, 13, 11, 10, 9, 8, 6, 0}

  /** The generator times a polynomial, given by its terms. */
  function Multiple(es: seq<nat>): Poly
  {
    if |es| == 0 then {} else Plus(Shift(GENERATOR, es[0]), Multiple(es[1..]))
  }

  /** The difference is a multiple of the generator. */
  ghost predicate Congruent(a: Poly, b: Poly)
  {
    exists es :: Plus(a, b) == Multiple(es)
  }

  lemma PlusAt(a: Poly, b: Poly, e: nat)
    ensures e in Plus(a, b) <==> (e in a) != (e in b)
  {
  }

  lemma ShiftAt(a: Poly, k: nat, e: nat)
    ensures e in Shift(a, k) <==> e >= k && e - k in a
  {
    if e >= k && e - k in a {
      assert (e - k) + k == e;
    }
  }

  lemma PlusAssoc(a: Poly, b: Poly, c: Poly)
    ensures Plus(Plus(a, b), c) == Plus(a, Plus(b, c))
  {
  }

  lemma PlusComm(a: Poly, b: Poly)
    ensures Plus(a, b) == Plus(b, a)
  {
  }

  lemma PlusZero(a: Poly)
    ensures Plus(a, {}) == a && Plus({}, a) == a && Plus(a, a) == {}
  {
  }

  lemma PlusSwap(a: Poly, b: Poly, c: Poly, d: Poly)
    ensures Plus(Plus(a, b), Plus(c, d)) == Plus(Plus(a, c), Plus(b, d))
  {
    hide Plus;
    PlusAssoc(a, b, Plus(c, d));
    PlusAssoc(b, c, d);
    PlusComm(b, c);
    PlusAssoc(c, b, d);
    PlusAssoc(a, c, Plus(b, d));
  }

  lemma ShiftPlus(a: Poly, b: Poly, k: nat)
    ensures Shift(Plus(a, b), k) == Plus(Shift(a, k), Shift(b, k))
  {
    hide Plus, Shift;
    forall e: nat
      ensures e in Shift(Plus(a, b), k) <==> e in Plus(Shift(a, k), Shift(b, k))
    {
      ShiftAt(Plus(a, b), k, e);
      PlusAt(Shift(a, k), Shift(b, k), e);
      ShiftAt(a, k, e);
      ShiftAt(b, k, e);
      if e >= k {
        PlusAt(a, b, e - k);
      }
    }
  }

  lemma ShiftShift(a: Poly, j: nat, k: nat)
    ensures Shift(Shift(a, j), k) == Shift(a, j + k) && Shift(a, 0) == a
  {
    hide Shift;
    forall e: nat
      ensures e in Shift(Shift(a, j), k) <==> e in Shift(a, j + k)
      ensures e in Shift(a, 0) <==> e in a
    {
      ShiftAt(Shift(a, j), k, e);
      ShiftAt(a, j + k, e);
      ShiftAt(a, 0, e);
      if e >= k {
        ShiftAt(a, j, e - k);
      }
    }
  }

  // ---- Congruence --------------------------------------------------------------------------------

  lemma {:induction false} MultiplePlus(a: seq<nat>, b: seq<nat>)
    ensures Multiple(a + b) == Plus(Multiple(a), Multiple(b))
    decreases |a|
  {
    hide Plus, Shift;
    if |a| == 0 {
      assert a + b == b;
      PlusZero(Multiple(b));
    } else {
      assert (a + b)[1..] == a[1..] + b;
      MultiplePlus(a[1..], b);
      PlusAssoc(Shift(GENERATOR, a[0]), Multiple(a[1..]), Multiple(b));
    }
  }

  function Raised(es: seq<nat>, k: nat): (r: seq<nat>)
    ensures |r| == |es| && forall i :: 0 <= i < |es| ==> r[i] == es[i] + k
  {
    seq(|es|, i requires 0 <= i < |es| => es[i] + k)
  }

  lemma {:induction false} MultipleShift(es: seq<nat>, k: nat)
    ensures Shift(Multiple(es), k) == Multiple(Raised(es, k))
  {
    hide Plus, Shift;
    if |es| == 0 {
      ShiftNothing(k);
    } else {
      assert Raised(es, k)[1..] == Raised(es[1..], k);
      MultipleShift(es[1..], k);
      ShiftPlus(Shift(GENERATOR, es[0]), Multiple(es[1..]), k);
      ShiftShift(GENERATOR, es[0], k);
    }
  }

  lemma ShiftNothing(k: nat)
    ensures Shift({}, k) == {}
  {
  }

  lemma CongruentItself(a: Poly)
    ensures Congruent(a, a)
  {
    PlusZero(a);
    assert Multiple([]) == {};
  }

  lemma CongruentTrans(a: Poly, b: Poly, c: Poly)
    requires Congruent(a, b) && Congruent(b, c)
    ensures Congruent(a, c)
  {
    hide Plus, Multiple;
    var x :| Plus(a, b) == Multiple(x);
    var y :| Plus(b, c) == Multiple(y);
    MultiplePlus(x, y);
    PlusAssoc(a, b, Plus(b, c));
    PlusAssoc(b, b, c);
    PlusZero(b);
    PlusZero(c);
    assert Plus(a, c) == Multiple(x + y);
  }

  lemma CongruentPlus(a: Poly, b: Poly, c: Poly, d: Poly)
    requires Congruent(a, b) && Congruent(c, d)
    ensures Congruent(Plus(a, c), Plus(b, d))
  {
    hide Plus, Multiple;
    var x :| Plus(a, b) == Multiple(x);
    var y :| Plus(c, d) == Multiple(y);
    MultiplePlus(x, y);
    PlusSwap(a, c, b, d);
    assert Plus(Plus(a, c), Plus(b, d)) == Multiple(x + y);
  }

  lemma CongruentShift(a: Poly, b: Poly, k: nat)
    requires Congruent(a, b)
    ensures Congruent(Shift(a, k), Shift(b, k))
  {
    hide Plus, Multiple, Shift;
    var x :| Plus(a, b) == Multiple(x);
    MultipleShift(x, k);
    ShiftPlus(a, b, k);
    assert Plus(Shift(a, k), Shift(b, k)) == Multiple(Raised(x, k));
  }

  // ---- There is one remainder --------------------------------------------------------------------

  predicate Below(a: Poly, n: nat)
  {
    forall e :: e in a ==> e < n
  }

  predicate Decreasing(es: seq<nat>)
  {
    forall i, j :: 0 <= i < j < |es| ==> es[j] < es[i]
  }

  lemma {:induction false} MultipleBelow(es: seq<nat>, n: nat)
    requires forall i :: 0 <= i < |es| ==> es[i] < n
    ensures Below(Multiple(es), n + 32)
  {
    hide Plus, Shift;
    if |es| > 0 {
      MultipleBelow(es[1..], n);
      forall e | e in Multiple(es)
        ensures e < n + 32
      {
        PlusAt(Shift(GENERATOR, es[0]), Multiple(es[1..]), e);
        ShiftAt(GENERATOR, es[0], e);
      }
    }
  }

  /** A multiple of the generator that is not zero has a term of degree 32 or more. */
  lemma MultipleReaches(es: seq<nat>)
    requires Decreasing(es) && |es| > 0
    ensures es[0] + 32 in Multiple(es)
  {
    hide Plus, Shift;
    MultipleBelow(es[1..], es[0]);
    ShiftAt(GENERATOR, es[0], es[0] + 32);
    PlusAt(Shift(GENERATOR, es[0]), Multiple(es[1..]), es[0] + 32);
  }

  /** The same multiple with each term at most once, in order. */
  lemma {:induction false} InOrder(es: seq<nat>) returns (ds: seq<nat>)
    ensures Decreasing(ds) && Multiple(ds) == Multiple(es)
  {
    hide Multiple;
    if |es| == 0 {
      ds := [];
    } else {
      var rest := InOrder(es[1..]);
      MultipleStep(es);
      ds := Placed(rest, es[0]);
    }
  }

  lemma MultipleStep(es: seq<nat>)
    requires |es| > 0
    ensures Multiple(es) == Plus(Shift(GENERATOR, es[0]), Multiple(es[1..]))
  {
  }

  lemma {:induction false} Placed(ds: seq<nat>, x: nat) returns (r: seq<nat>)
    requires Decreasing(ds)
    ensures Decreasing(r) && Multiple(r) == Plus(Shift(GENERATOR, x), Multiple(ds))
    ensures forall e :: e in r ==> e == x || e in ds
  {
    hide Multiple, Plus, Shift;
    if |ds| == 0 || x > ds[0] {
      r := [x] + ds;
      MultipleStep(r);
      assert r[1..] == ds;
    } else if x == ds[0] {
      r := ds[1..];
      MultipleStep(ds);
      PlusAssoc(Shift(GENERATOR, x), Shift(GENERATOR, x), Multiple(r));
      PlusZero(Shift(GENERATOR, x));
      PlusZero(Multiple(r));
    } else {
      var rest := Placed(ds[1..], x);
      r := [ds[0]] + rest;
      forall i | 0 <= i < |rest|
        ensures rest[i] < ds[0]
      {
        assert rest[i] in rest;
      }
      MultipleStep(r);
      MultipleStep(ds);
      assert r[1..] == rest;
      var g, h := Shift(GENERATOR, ds[0]), Shift(GENERATOR, x);
      PlusAssoc(g, h, Multiple(ds[1..]));
      PlusComm(g, h);
      PlusAssoc(h, g, Multiple(ds[1..]));
    }
  }

  /** Congruent polynomials of degree less than 32 are the same. */
  lemma OneRemainder(a: Poly, b: Poly)
    requires Below(a, 32) && Below(b, 32) && Congruent(a, b)
    ensures a == b
  {
    hide Multiple;
    var es :| Plus(a, b) == Multiple(es);
    var ds := InOrder(es);
    if |ds| > 0 {
      MultipleReaches(ds);
    } else {
      assert Multiple([]) == {} by {
        NoTerms();
      }
      assert ds == [];
      assert forall e :: e in a <==> e in b by {
        forall e: nat ensures e in a <==> e in b {
          PlusAt(a, b, e);
        }
      }
    }
  }

  lemma NoTerms()
    ensures Multiple([]) == {}
  {
  }

  // ---- The register ------------------------------------------------------------------------------

  /** The register as a polynomial of degree less than `k`, the least significant bit first. */
  function Terms(c: bv32, k: nat): Poly
  {
    if k == 0 then {} else (if Odd(c) then {k - 1} else {}) + Terms(Half(c), k - 1)
  }

  function HalfTimes(k: nat, c: bv32): bv32
  {
    if k == 0 then c else HalfTimes(k - 1, Half(c))
  }

  lemma {:induction false} TermsBelow(c: bv32, k: nat)
    ensures Below(Terms(c, k), k)
    decreases k
  {
    hide Half, Odd;
    if k > 0 {
      TermsBelow(Half(c), k - 1);
    }
  }

  lemma {:induction false} TermsPlus(a: bv32, b: bv32, k: nat)
    ensures Terms(Xor(a, b), k) == Plus(Terms(a, k), Terms(b, k))
    decreases k
  {
    hide Half, Odd, Xor;
    if k > 0 {
      HalfXor(a, b);
      TermsPlus(Half(a), Half(b), k - 1);
      TermsBelow(Half(a), k - 1);
      TermsBelow(Half(b), k - 1);
    }
  }

  /** One more bit is one more power of x. */
  lemma {:induction false} TermsMore(c: bv32, k: nat)
    ensures Terms(c, k + 1) == Shift(Terms(c, k), 1) + if Odd(HalfTimes(k, c)) then {0} else {}
    decreases k
  {
    hide Half, Odd, Shift;
    var bottom := if Odd(HalfTimes(k, c)) then {0} else {};
    if k == 0 {
      assert Terms(Half(c), 0) == {} == Terms(c, 0);
      ShiftNothing(1);
    } else {
      TermsMore(Half(c), k - 1);
      var rest := Terms(Half(c), k - 1);
      ShiftUnion(if Odd(c) then {k - 1} else {}, rest);
      ShiftOne(k - 1);
      ShiftNothing(1);
      assert Terms(c, k) == (if Odd(c) then {k - 1} else {}) + rest;
      assert Terms(c, k + 1) == (if Odd(c) then {k} else {}) + (Shift(rest, 1) + bottom);
    }
  }

  lemma ShiftUnion(a: Poly, b: Poly)
    ensures Shift(a + b, 1) == Shift(a, 1) + Shift(b, 1)
  {
  }

  lemma ShiftOne(e: nat)
    ensures Shift({e}, 1) == {e + 1}
  {
  }

  lemma HalvedAway(c: bv32)
    ensures HalfTimes(32, c) == 0
  {
    hide Half;
    var c1 := Shr8(c);
    var c2 := Shr8(c1);
    var c3 := Shr8(c2);
    HalfEight(24, c);
    HalfEight(16, c1);
    HalfEight(8, c2);
    HalfEight(0, c3);
    assert Shr8(c3) == 0;
  }

  lemma HalfEight(k: nat, c: bv32)
    ensures HalfTimes(k + 8, c) == HalfTimes(k, Shr8(c))
  {
    hide Half, Shr8;
    EightHalves(c);
    var d := Half(Half(Half(Half(c))));
    assert HalfTimes(k + 8, c) == HalfTimes(k + 6, Half(Half(c))) == HalfTimes(k + 4, d);
    assert HalfTimes(k + 4, d) == HalfTimes(k + 2, Half(Half(d))) == HalfTimes(k, Half(Half(Half(Half(d)))));
  }

  lemma TermsStep(c: bv32, h: bv32, odd: bool, k: nat)
    requires h == c >> 1 && odd == (c & 1 == 1) && k > 0
    ensures Terms(c, k) == (if odd then {k - 1} else {}) + Terms(h, k - 1)
  {
  }

  /** The constant of the program is the generator without its leading term. */
  lemma PolyIsGenerator()
    ensures Terms(POLY, 32) == GENERATOR - {32}
  {
    hide Terms;
    FirstTerms();
    SecondTerms();
    ThirdTerms();
    LastTerms();
    NoBits();
  }

  lemma FirstTerms()
    ensures Terms(0x82f63b78, 32) == {28, 27, 26, 25} + Terms(0x0082f63b, 24)
  {
    hide Terms;
    TermsStep(0x82f63b78, 0x417b1dbc, false, 32);
    TermsStep(0x417b1dbc, 0x20bd8ede, false, 31);
    TermsStep(0x20bd8ede, 0x105ec76f, false, 30);
    TermsStep(0x105ec76f, 0x082f63b7, true, 29);
    TermsStep(0x082f63b7, 0x0417b1db, true, 28);
    TermsStep(0x0417b1db, 0x020bd8ed, true, 27);
    TermsStep(0x020bd8ed, 0x0105ec76, true, 26);
    TermsStep(0x0105ec76, 0x0082f63b, false, 25);
  }

  lemma SecondTerms()
    ensures Terms(0x0082f63b, 24) == {23, 22, 20, 19, 18} + Terms(0x000082f6, 16)
  {
    hide Terms;
    TermsStep(0x0082f63b, 0x00417b1d, true, 24);
    TermsStep(0x00417b1d, 0x0020bd8e, true, 23);
    TermsStep(0x0020bd8e, 0x00105ec7, false, 22);
    TermsStep(0x00105ec7, 0x00082f63, true, 21);
    TermsStep(0x00082f63, 0x000417b1, true, 20);
    TermsStep(0x000417b1, 0x00020bd8, true, 19);
    TermsStep(0x00020bd8, 0x000105ec, false, 18);
    TermsStep(0x000105ec, 0x000082f6, false, 17);
  }

  lemma ThirdTerms()
    ensures Terms(0x000082f6, 16) == {14, 13, 11, 10, 9, 8} + Terms(0x00000082, 8)
  {
    hide Terms;
    TermsStep(0x000082f6, 0x0000417b, false, 16);
    TermsStep(0x0000417b, 0x000020bd, true, 15);
    TermsStep(0x000020bd, 0x0000105e, true, 14);
    TermsStep(0x0000105e, 0x0000082f, false, 13);
    TermsStep(0x0000082f, 0x00000417, true, 12);
    TermsStep(0x00000417, 0x0000020b, true, 11);
    TermsStep(0x0000020b, 0x00000105, true, 10);
    TermsStep(0x00000105, 0x00000082, true, 9);
  }

  lemma LastTerms()
    ensures Terms(0x00000082, 8) == {6, 0} + Terms(0x00000000, 0)
  {
    hide Terms;
    TermsStep(0x00000082, 0x00000041, false, 8);
    TermsStep(0x00000041, 0x00000020, true, 7);
    TermsStep(0x00000020, 0x00000010, false, 6);
    TermsStep(0x00000010, 0x00000008, false, 5);
    TermsStep(0x00000008, 0x00000004, false, 4);
    TermsStep(0x00000004, 0x00000002, false, 3);
    TermsStep(0x00000002, 0x00000001, false, 2);
    TermsStep(0x00000001, 0x00000000, true, 1);
  }

  lemma NoBits()
    ensures Terms(0, 0) == {}
  {
  }

  /** The register as a polynomial of degree less than 32. */
  function Register(c: bv32): Poly
  {
    Terms(c, 32)
  }

  /** Shifting one zero bit in is multiplying by x and taking the remainder. */
  lemma BitStep(c: bv32)
    ensures Register(Bit(c)) == Plus(Shift(Register(c), 1), if Odd(c) then GENERATOR else {})
  {
    hide Half, Odd, Xor, Shift, Plus, Terms;
    HalfStep(c);
    PolyIsGenerator();
    TermsPlus(Half(c), POLY, 32);
    TermsBelow(Half(c), 32);
    LeadingTerm(Terms(Half(c), 32), Odd(c));
    PlusZero(Terms(Half(c), 32));
  }

  /** Times x, the leading term apart. */
  lemma HalfStep(c: bv32)
    ensures Shift(Register(c), 1) == (if Odd(c) then {32} else {}) + Terms(Half(c), 32)
  {
    hide Half, Odd, Shift, Terms, HalfTimes;
    HalvedAway(c);
    FirstTerm(c);
    NotOdd();
    TermsMore(Half(c), 31);
    ShiftUnion(if Odd(c) then {31} else {}, Terms(Half(c), 31));
    ShiftOne(31);
    ShiftNothing(1);
  }

  lemma FirstTerm(c: bv32)
    ensures Terms(c, 32) == (if Odd(c) then {31} else {}) + Terms(Half(c), 31)
    ensures HalfTimes(32, c) == HalfTimes(31, Half(c))
  {
    hide Half, Odd;
  }

  lemma NotOdd()
    ensures !Odd(0)
  {
  }

  lemma LeadingTerm(a: Poly, odd: bool)
    requires Below(a, 32)
    ensures Plus((if odd then {32} else {}) + a, if odd then GENERATOR else {}) ==
            Plus(a, if odd then GENERATOR - {32} else {})
  {
  }

  lemma BitCongruent(c: bv32)
    ensures Congruent(Register(Bit(c)), Shift(Register(c), 1))
  {
    hide Register, Bit, Odd, Shift, Plus;
    BitStep(c);
    var a, g := Shift(Register(c), 1), if Odd(c) then GENERATOR else {};
    PlusComm(a, g);
    PlusAssoc(g, a, a);
    PlusZero(a);
    PlusZero(g);
    TermOfOne();
    NoTerms();
    assert g == if Odd(c) then Multiple([0]) else Multiple([]);
  }

  lemma TermOfOne()
    ensures Multiple([0]) == GENERATOR
  {
    hide Plus, Shift;
    ShiftShift(GENERATOR, 0, 0);
    assert [0][1..] == [];
    NoTerms();
    PlusZero(GENERATOR);
  }

  lemma {:induction false} BitsCongruent(k: nat, c: bv32)
    ensures Congruent(Register(Bits(k, c)), Shift(Register(c), k))
    decreases k
  {
    hide Register, Bit, Shift, Plus, Congruent;
    if k == 0 {
      ShiftShift(Register(c), 0, 0);
      CongruentItself(Register(c));
    } else {
      BitsCongruent(k - 1, Bit(c));
      BitCongruent(c);
      CongruentShift(Register(Bit(c)), Shift(Register(c), 1), k - 1);
      ShiftShift(Register(c), 1, k - 1);
      CongruentTrans(Register(Bits(k, c)), Shift(Register(Bit(c)), k - 1), Shift(Register(c), k));
    }
  }

  // ---- Messages ----------------------------------------------------------------------------------

  /** A message as a polynomial: the first byte has the highest terms, and in each byte the least significant bit. */
  function Message(s: seq<bv8>): Poly
    decreases |s|
  {
    if |s| == 0 then {} else Plus(Shift(Terms(Word(s[0]), 8), 8 * (|s| - 1)), Message(s[1..]))
  }

  /** A byte in the register is 24 places up. */
  lemma ByteInRegister(b: bv8)
    ensures Register(Word(b)) == Shift(Terms(Word(b), 8), 24)
  {
    hide Shift, Word, Terms, HalfTimes;
    NoneAbove(b);
    ManyMore(Word(b), 8, 24);
  }

  lemma {:induction false} ManyMore(c: bv32, k: nat, n: nat)
    requires forall j :: k <= j < k + n ==> HalfTimes(j, c) == 0
    ensures Terms(c, k + n) == Shift(Terms(c, k), n)
    decreases n
  {
    hide Shift, Terms, HalfTimes, Odd;
    if n == 0 {
      ShiftShift(Terms(c, k), 0, 0);
    } else {
      ManyMore(c, k, n - 1);
      TermsMore(c, k + n - 1);
      assert HalfTimes(k + n - 1, c) == 0;
      NotOdd();
      ShiftShift(Terms(c, k), n - 1, 1);
    }
  }

  lemma NoneAbove(b: bv8)
    ensures forall j :: 8 <= j < 32 ==> HalfTimes(j, Word(b)) == 0
  {
    hide Half, Word, HalfTimes;
    forall j | 8 <= j < 32
      ensures HalfTimes(j, Word(b)) == 0
    {
      HalfEight(j - 8, Word(b));
      ByteAway(b);
      StaysZero(j - 8);
    }
  }

  lemma ByteAway(b: bv8)
    ensures Shr8(Word(b)) == 0
  {
  }

  lemma {:induction false} StaysZero(k: nat)
    ensures HalfTimes(k, 0) == 0
  {
    if k > 0 {
      assert Half(0) == 0;
      StaysZero(k - 1);
    }
  }

  /** The register after a message is congruent to the register in front of it, and the message 32 places up. */
  lemma {:induction false} RawCongruent(c: bv32, s: seq<bv8>)
    ensures Congruent(Register(Raw(c, s)), Plus(Shift(Register(c), 8 * |s|), Shift(Message(s), 32)))
    decreases |s|
  {
    hide Register, Shift, Plus, Congruent, Bits, Xor, Word, Terms;
    if |s| == 0 {
      ShiftShift(Register(c), 0, 0);
      ShiftNothing(32);
      PlusZero(Register(c));
      CongruentItself(Register(c));
    } else {
      var t, n := s[1..], 8 * (|s| - 1);
      var d := Bits(8, Xor(c, Word(s[0])));
      RawCongruent(d, t);
      FirstByte(c, s[0], n);
      var front, back := Shift(Register(c), n + 8), Shift(Terms(Word(s[0]), 8), n + 32);
      CongruentItself(Shift(Message(t), 32));
      CongruentPlus(Shift(Register(d), n), Plus(front, back), Shift(Message(t), 32), Shift(Message(t), 32));
      PlusAssoc(front, back, Shift(Message(t), 32));
      ShiftPlus(Shift(Terms(Word(s[0]), 8), n), Message(t), 32);
      ShiftShift(Terms(Word(s[0]), 8), n, 32);
      CongruentTrans(Register(Raw(c, s)), Plus(Shift(Register(d), n), Shift(Message(t), 32)),
                     Plus(front, Plus(back, Shift(Message(t), 32))));
    }
  }

  lemma FirstByte(c: bv32, b: bv8, n: nat)
    ensures Congruent(Shift(Register(Bits(8, Xor(c, Word(b)))), n),
                      Plus(Shift(Register(c), n + 8), Shift(Terms(Word(b), 8), n + 32)))
  {
    hide Register, Shift, Plus, Congruent, Bits, Xor, Word, Terms;
    var x := Xor(c, Word(b));
    BitsCongruent(8, x);
    CongruentShift(Register(Bits(8, x)), Shift(Register(x), 8), n);
    ShiftShift(Register(x), 8, n);
    RegisterPlus(c, Word(b));
    ShiftPlus(Register(c), Register(Word(b)), n + 8);
    ByteInRegister(b);
    ShiftShift(Terms(Word(b), 8), 24, n + 8);
  }

  lemma RegisterPlus(a: bv32, b: bv32)
    ensures Register(Xor(a, b)) == Plus(Register(a), Register(b)) && Below(Register(a), 32)
  {
    TermsPlus(a, b, 32);
    TermsBelow(a, 32);
  }

  // ---- The checksum ------------------------------------------------------------------------------

  /** All terms of degree less than 32. */
  const ALL: Poly := {31, 30, 29, 28, 27, 26, 25, 24, 23, 22, 21, 20, 19, 18, 17, 16, 15, 14, 13, 12,
                      11, 10, 9, 8, 7, 6, 5, 4, 3, 2, 1, 0}

  lemma OnesAreAll()
    ensures Register(ONES) == ALL
  {
    hide Terms;
    FirstOnes();
    SecondOnes();
    ThirdOnes();
    LastOnes();
    NoBits();
  }

  lemma FirstOnes()
    ensures Terms(0xffffffff, 32) == {31, 30, 29, 28, 27, 26, 25, 24} + Terms(0x00ffffff, 24)
  {
    hide Terms;
    TermsStep(0xffffffff, 0x7fffffff, true, 32);
    TermsStep(0x7fffffff, 0x3fffffff, true, 31);
    TermsStep(0x3fffffff, 0x1fffffff, true, 30);
    TermsStep(0x1fffffff, 0x0fffffff, true, 29);
    TermsStep(0x0fffffff, 0x07ffffff, true, 28);
    TermsStep(0x07ffffff, 0x03ffffff, true, 27);
    TermsStep(0x03ffffff, 0x01ffffff, true, 26);
    TermsStep(0x01ffffff, 0x00ffffff, true, 25);
  }

  lemma SecondOnes()
    ensures Terms(0x00ffffff, 24) == {23, 22, 21, 20, 19, 18, 17, 16} + Terms(0x0000ffff, 16)
  {
    hide Terms;
    TermsStep(0x00ffffff, 0x007fffff, true, 24);
    TermsStep(0x007fffff, 0x003fffff, true, 23);
    TermsStep(0x003fffff, 0x001fffff, true, 22);
    TermsStep(0x001fffff, 0x000fffff, true, 21);
    TermsStep(0x000fffff, 0x0007ffff, true, 20);
    TermsStep(0x0007ffff, 0x0003ffff, true, 19);
    TermsStep(0x0003ffff, 0x0001ffff, true, 18);
    TermsStep(0x0001ffff, 0x0000ffff, true, 17);
  }

  lemma ThirdOnes()
    ensures Terms(0x0000ffff, 16) == {15, 14, 13, 12, 11, 10, 9, 8} + Terms(0x000000ff, 8)
  {
    hide Terms;
    TermsStep(0x0000ffff, 0x00007fff, true, 16);
    TermsStep(0x00007fff, 0x00003fff, true, 15);
    TermsStep(0x00003fff, 0x00001fff, true, 14);
    TermsStep(0x00001fff, 0x00000fff, true, 13);
    TermsStep(0x00000fff, 0x000007ff, true, 12);
    TermsStep(0x000007ff, 0x000003ff, true, 11);
    TermsStep(0x000003ff, 0x000001ff, true, 10);
    TermsStep(0x000001ff, 0x000000ff, true, 9);
  }

  lemma LastOnes()
    ensures Terms(0x000000ff, 8) == {7, 6, 5, 4, 3, 2, 1, 0} + Terms(0x00000000, 0)
  {
    hide Terms;
    TermsStep(0x000000ff, 0x0000007f, true, 8);
    TermsStep(0x0000007f, 0x0000003f, true, 7);
    TermsStep(0x0000003f, 0x0000001f, true, 6);
    TermsStep(0x0000001f, 0x0000000f, true, 5);
    TermsStep(0x0000000f, 0x00000007, true, 4);
    TermsStep(0x00000007, 0x00000003, true, 3);
    TermsStep(0x00000003, 0x00000001, true, 2);
    TermsStep(0x00000001, 0x00000000, true, 1);
  }

  lemma RegisterBack(c: bv32)
    ensures Plus(Register(Xor(c, ONES)), ALL) == Register(c)
  {
    hide Register, Plus, Xor;
    RegisterPlus(c, ONES);
    OnesAreAll();
    PlusAssoc(Register(c), ALL, ALL);
    PlusZero(ALL);
    PlusZero(Register(c));
  }

  /** What the checksum of `s`, continued from `crc`, is the remainder of. */
  function Dividend(crc: bv32, s: seq<bv8>): Poly
  {
    Plus(Shift(Plus(Register(crc), ALL), 8 * |s|), Shift(Message(s), 32))
  }

  /** The complement of the checksum is the remainder, modulo the generator, of the message 32 places up and the
      complement of the earlier checksum in front of it: for a first checksum, 32 ones. It is the only polynomial of
      degree less than 32 that is congruent to it. */
  lemma CrcIsRemainder(crc: bv32, s: seq<bv8>)
    ensures var r := Plus(Register(Crc(crc, s)), ALL);
            && Below(r, 32) && Congruent(r, Dividend(crc, s))
            && forall p :: Below(p, 32) && Congruent(p, Dividend(crc, s)) ==> p == r
    ensures Dividend(0, s) == Plus(Shift(ALL, 8 * |s|), Shift(Message(s), 32))
  {
    hide Register, Plus, Xor, Shift, Congruent, Below, Raw, Message;
    var c := Xor(crc, ONES);
    RegisterBack(Raw(c, s));
    RegisterPlus(crc, ONES);
    OnesAreAll();
    RawCongruent(c, s);
    RegisterPlus(Raw(c, s), 0);
    NothingRegistered();
    PlusZero(ALL);
    var r := Register(Raw(c, s));
    forall p | Below(p, 32) && Congruent(p, Dividend(crc, s))
      ensures p == r
    {
      CongruentComm(r, Dividend(crc, s));
      CongruentTrans(p, Dividend(crc, s), r);
      OneRemainder(p, r);
    }
  }

  lemma CongruentComm(a: Poly, b: Poly)
    requires Congruent(a, b)
    ensures Congruent(b, a)
  {
    PlusComm(a, b);
  }

  lemma {:induction false} NoTermsOf(k: nat)
    ensures Terms(0, k) == {}
  {
    if k > 0 {
      assert Half(0) == 0 && !Odd(0);
      NoTermsOf(k - 1);
    }
  }

  lemma NothingRegistered()
    ensures Register(0) == {}
  {
    NoTermsOf(32);
  }

  // ---- A known answer ----------------------------------------------------------------------------

  /** The text "123456789". */
  const DIGITS: seq<bv8> := [0x31, 0x32, 0x33, 0x34, 0x35, 0x36, 0x37, 0x38, 0x39]

  lemma DigitOne()
    ensures Bits(8, Xor(0xffffffff, Word(0x31))) == 0x6f0a661c
  {
    assert Xor(0xffffffff, Word(0x31)) == 0xffffffce;
    BitsOf8(0xffffffce);
    hide Bits;
    assert Bit(0xffffffce) == 0x7fffffe7 && Bit(0x7fffffe7) == 0xbd09c48b;
    assert Bit(0xbd09c48b) == 0xdc72d93d && Bit(0xdc72d93d) == 0xeccf57e6;
    assert Bit(0xeccf57e6) == 0x7667abf3 && Bit(0x7667abf3) == 0xb9c5ee81;
    assert Bit(0xb9c5ee81) == 0xde14cc38 && Bit(0xde14cc38) == 0x6f0a661c;
  }

  lemma DigitTwo()
    ensures Bits(8, Xor(0x6f0a661c, Word(0x32))) == 0x8caa3b9f
  {
    assert Xor(0x6f0a661c, Word(0x32)) == 0x6f0a662e;
    BitsOf8(0x6f0a662e);
    hide Bits;
    assert Bit(0x6f0a662e) == 0x37853317 && Bit(0x37853317) == 0x9934a2f3;
    assert Bit(0x9934a2f3) == 0xce6c6a01 && Bit(0xce6c6a01) == 0xe5c00e78;
    assert Bit(0xe5c00e78) == 0x72e0073c && Bit(0x72e0073c) == 0x3970039e;
    assert Bit(0x3970039e) == 0x1cb801cf && Bit(0x1cb801cf) == 0x8caa3b9f;
  }

  lemma DigitThree()
    ensures Bits(8, Xor(0x8caa3b9f, Word(0x33))) == 0xef84d04d
  {
    assert Xor(0x8caa3b9f, Word(0x33)) == 0x8caa3bac;
    BitsOf8(0x8caa3bac);
    hide Bits;
    assert Bit(0x8caa3bac) == 0x46551dd6 && Bit(0x46551dd6) == 0x232a8eeb;
    assert Bit(0x232a8eeb) == 0x93637c0d && Bit(0x93637c0d) == 0xcb47857e;
    assert Bit(0xcb47857e) == 0x65a3c2bf && Bit(0x65a3c2bf) == 0xb027da27;
    assert Bit(0xb027da27) == 0xdae5d66b && Bit(0xdae5d66b) == 0xef84d04d;
  }

  lemma DigitFour()
    ensures Bits(8, Xor(0xef84d04d, Word(0x34))) == 0x09c50b11
  {
    assert Xor(0xef84d04d, Word(0x34)) == 0xef84d079;
    BitsOf8(0xef84d079);
    hide Bits;
    assert Bit(0xef84d079) == 0xf5345344 && Bit(0xf5345344) == 0x7a9a29a2;
    assert Bit(0x7a9a29a2) == 0x3d4d14d1 && Bit(0x3d4d14d1) == 0x9c50b110;
    assert Bit(0x9c50b110) == 0x4e285888 && Bit(0x4e285888) == 0x27142c44;
    assert Bit(0x27142c44) == 0x138a1622 && Bit(0x138a1622) == 0x09c50b11;
  }

  lemma DigitFive()
    ensures Bits(8, Xor(0x09c50b11, Word(0x35))) == 0xe72edcca
  {
    assert Xor(0x09c50b11, Word(0x35)) == 0x09c50b24;
    BitsOf8(0x09c50b24);
    hide Bits;
    assert Bit(0x09c50b24) == 0x04e28592 && Bit(0x04e28592) == 0x027142c9;
    assert Bit(0x027142c9) == 0x83ce9a1c && Bit(0x83ce9a1c) == 0x41e74d0e;
    assert Bit(0x41e74d0e) == 0x20f3a687 && Bit(0x20f3a687) == 0x928fe83b;
    assert Bit(0x928fe83b) == 0xcbb1cf65 && Bit(0xcbb1cf65) == 0xe72edcca;
  }

  lemma DigitSix()
    ensures Bits(8, Xor(0xe72edcca, Word(0x36))) == 0xbeca8e79
  {
    assert Xor(0xe72edcca, Word(0x36)) == 0xe72edcfc;
    BitsOf8(0xe72edcfc);
    hide Bits;
    assert Bit(0xe72edcfc) == 0x73976e7e && Bit(0x73976e7e) == 0x39cbb73f;
    assert Bit(0x39cbb73f) == 0x9e13e0e7 && Bit(0x9e13e0e7) == 0xcdffcb0b;
    assert Bit(0xcdffcb0b) == 0xe409defd && Bit(0xe409defd) == 0xf0f2d406;
    assert Bit(0xf0f2d406) == 0x78796a03 && Bit(0x78796a03) == 0xbeca8e79;
  }

  lemma DigitSeven()
    ensures Bits(8, Xor(0xbeca8e79, Word(0x37))) == 0xedbd6815
  {
    assert Xor(0xbeca8e79, Word(0x37)) == 0xbeca8e4e;
    BitsOf8(0xbeca8e4e);
    hide Bits;
    assert Bit(0xbeca8e4e) == 0x5f654727 && Bit(0x5f654727) == 0xad4498eb;
    assert Bit(0xad4498eb) == 0xd454770d && Bit(0xd454770d) == 0xe8dc00fe;
    assert Bit(0xe8dc00fe) == 0x746e007f && Bit(0x746e007f) == 0xb8c13b47;
    assert Bit(0xb8c13b47) == 0xde96a6db && Bit(0xde96a6db) == 0xedbd6815;
  }

  lemma DigitEight()
    ensures Bits(8, Xor(0xedbd6815, Word(0x38))) == 0x9f787f65
  {
    assert Xor(0xedbd6815, Word(0x38)) == 0xedbd682d;
    BitsOf8(0xedbd682d);
    hide Bits;
    assert Bit(0xedbd682d) == 0xf4288f6e && Bit(0xf4288f6e) == 0x7a1447b7;
    assert Bit(0x7a1447b7) == 0xbffc18a3 && Bit(0xbffc18a3) == 0xdd083729;
    assert Bit(0xdd083729) == 0xec7220ec && Bit(0xec7220ec) == 0x76391076;
    assert Bit(0x76391076) == 0x3b1c883b && Bit(0x3b1c883b) == 0x9f787f65;
  }

  lemma DigitNine()
    ensures Bits(8, Xor(0x9f787f65, Word(0x39))) == 0x1cf96d7c
  {
    assert Xor(0x9f787f65, Word(0x39)) == 0x9f787f5c;
    BitsOf8(0x9f787f5c);
    hide Bits;
    assert Bit(0x9f787f5c) == 0x4fbc3fae && Bit(0x4fbc3fae) == 0x27de1fd7;
    assert Bit(0x27de1fd7) == 0x91193493 && Bit(0x91193493) == 0xca7aa131;
    assert Bit(0xca7aa131) == 0xe7cb6be0 && Bit(0xe7cb6be0) == 0x73e5b5f0;
    assert Bit(0x73e5b5f0) == 0x39f2daf8 && Bit(0x39f2daf8) == 0x1cf96d7c;
  }

  lemma RawStep(c: bv32, s: seq<bv8>)
    requires |s| > 0
    ensures Raw(c, s) == Raw(Bits(8, Xor(c, Word(s[0]))), s[1..])
  {
  }

  lemma NoMore(c: bv32)
    ensures Raw(c, []) == c
  {
  }

  /** The check value of CRC-32C. */
  lemma CheckValue()
    ensures Crc(0, DIGITS) == 0xe3069283
  {
    hide Raw, Bits, Word;
    assert DIGITS[0..] == DIGITS && DIGITS[9..] == [];
    assert forall k :: 0 <= k < 9 ==> DIGITS[k..][0] == DIGITS[k] && DIGITS[k..][1..] == DIGITS[k + 1..];
    RawStep(0xffffffff, DIGITS[0..]);
    RawStep(0x6f0a661c, DIGITS[1..]);
    RawStep(0x8caa3b9f, DIGITS[2..]);
    RawStep(0xef84d04d, DIGITS[3..]);
    RawStep(0x09c50b11, DIGITS[4..]);
    RawStep(0xe72edcca, DIGITS[5..]);
    RawStep(0xbeca8e79, DIGITS[6..]);
    RawStep(0xedbd6815, DIGITS[7..]);
    RawStep(0x9f787f65, DIGITS[8..]);
    DigitOne();
    DigitTwo();
    DigitThree();
    DigitFour();
    DigitFive();
    DigitSix();
    DigitSeven();
    DigitEight();
    DigitNine();
    NoMore(0x1cf96d7c);
  }

  /** Both implementations give it. */
  method KnownAnswer(addr: nat) returns (sw: bv32, hw: bv32)
    ensures sw == hw == 0xe3069283
  {
    hide Crc;
    CheckValue();
    sw := CrcSw(0, DIGITS, addr);
    hw := CrcHw(0, DIGITS, addr);
  }
}
