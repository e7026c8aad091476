/** The checksum as a remainder: polynomials over GF(2) as numbers, bit k the coefficient of x^k,
    `BitXor` their sum. */
module CrcDivision {
  import opened Bytes
  import opened Bits
  import opened CrcRegister
  import opened CrcTable
  import opened CrcStep

  /** A polynomial times x^16 + x^12 + x^5 + 1. */
  function TimesGenerator(q: nat): nat {
    BitXor(BitXor(Pow2(16) * q, Pow2(12) * q), BitXor(Pow2(5) * q, q))
  }

  /** What a checksum of n bits divides: the message moved up 16 places, plus the preset on its
      first 16 places. */
  function Dividend(bits: seq<bool>): nat {
    BitXor(Pow2(16) * Number(bits), Pow2(|bits|) * PRESET)
  }

  ghost predicate IsRemainder(bits: seq<bool>, r: word16) {
    exists q: nat :: Dividend(bits) == BitXor(TimesGenerator(q), r)
  }

  lemma DoubledAt(k: nat, q: nat)
    ensures Pow2(k) * (2 * q) == 2 * (Pow2(k) * q)
  {
  }

  lemma XorDoubled(a: nat, b: nat)
    ensures BitXor(2 * a, 2 * b) == 2 * BitXor(a, b)
  {
    XorStep(a, b, 0, 0);
  }

  lemma TimesGeneratorOfDouble(q: nat)
    ensures TimesGenerator(2 * q) == 2 * TimesGenerator(q)
  {
    hide BitXor;
    hide Pow2;
    DoubledAt(16, q);
    DoubledAt(12, q);
    DoubledAt(5, q);
    XorDoubled(Pow2(16) * q, Pow2(12) * q);
    XorDoubled(Pow2(5) * q, q);
    XorDoubled(BitXor(Pow2(16) * q, Pow2(12) * q), BitXor(Pow2(5) * q, q));
  }

  lemma TimesGeneratorOfOne()
    ensures TimesGenerator(1) == BitXor(0x1_0000, GENERATOR)
  {
    hide BitXor;
    Powers2();
    Pow2Of5And12();
    var a, b, c: nat := 0x1_0000, 0x1000, 0x21;
    XorSplit(1, 0, 0, 1, 5);
    XorWithZero(1);
    XorSplit(1, 0, 0, c, 12);
    XorWithZero(c);
    XorAssociates(a, b, c);
  }

  lemma ScaledXor(k: nat, a: nat, b: nat)
    ensures Pow2(k) * BitXor(a, b) == BitXor(Pow2(k) * a, Pow2(k) * b)
  {
    XorSplit(a, 0, b, 0, k);
    XorWithZero(0);
  }

  lemma TimesGeneratorLinear(a: nat, b: nat)
    ensures TimesGenerator(BitXor(a, b)) == BitXor(TimesGenerator(a), TimesGenerator(b))
  {
    hide BitXor;
    hide Pow2;
    ScaledXor(16, a, b);
    ScaledXor(12, a, b);
    ScaledXor(5, a, b);
    XorExchange(Pow2(16) * a, Pow2(16) * b, Pow2(12) * a, Pow2(12) * b);
    XorExchange(Pow2(5) * a, Pow2(5) * b, a, b);
    XorExchange(BitXor(Pow2(16) * a, Pow2(12) * a), BitXor(Pow2(16) * b, Pow2(12) * b),
                BitXor(Pow2(5) * a, a), BitXor(Pow2(5) * b, b));
  }

  // ----- The register holds a remainder -----

  lemma AddBit(n: nat, c: nat)
    requires c < 2
    ensures Pow2(16) * (2 * n + c) == BitXor(2 * (Pow2(16) * n), 0x1_0000 * c)
  {
    hide BitXor;
    Powers2();
    assert Pow2(17) == 2 * Pow2(16);
    XorSplit(n, 0, 0, 0x1_0000 * c, 17);
    XorWithZero(n);
    XorWithZero(0x1_0000 * c);
  }

  /** One bit more doubles the number and moves the preset one place up. */
  lemma OneBitMore(init: seq<bool>, bit: bool)
    ensures Number(init + [bit]) == 2 * Number(init) + (if bit then 1 else 0)
    ensures Pow2(|init + [bit]|) * PRESET == 2 * (Pow2(|init|) * PRESET)
  {
    assert (init + [bit])[..|init|] == init;
    assert Pow2(|init + [bit]|) == 2 * Pow2(|init|);
  }

  lemma DividendStep(init: seq<bool>, bit: bool)
    ensures Dividend(init + [bit]) == BitXor(2 * Dividend(init), if bit then 0x1_0000 else 0)
  {
    hide BitXor;
    hide Pow2;
    hide Number;
    var c := if bit then 1 else 0;
    OneBitMore(init, bit);
    var a, b, f := Pow2(16) * Number(init), Pow2(|init|) * PRESET, 0x1_0000 * c;
    AddBit(Number(init), c);
    XorAssociates(2 * a, f, 2 * b);
    XorCommutes(f, 2 * b);
    XorAssociates(2 * a, 2 * b, f);
    XorDoubled(a, b);
  }

  lemma Rearranged(x: nat, e: nat, s: nat, f: nat)
    ensures BitXor(BitXor(x, BitXor(e, s)), f) == BitXor(BitXor(x, BitXor(e, f)), s)
  {
    hide BitXor;
    XorAssociates(x, BitXor(e, s), f);
    XorAssociates(e, s, f);
    XorCommutes(s, f);
    XorAssociates(e, f, s);
    XorAssociates(x, BitXor(e, f), s);
  }

  lemma Overflowed(r: word16, e: nat, s: nat)
    requires e == (if r >= 0x8000 then 0x1_0000 else 0) && s == 2 * r % 0x1_0000
    ensures 2 * r == BitXor(e, s)
  {
    hide BitXor;
    Powers2();
    var top := if r >= 0x8000 then 1 else 0;
    assert 2 * r == 0x1_0000 * top + s;
    XorSplit(top, 0, 0, s, 16);
    XorWithZero(top);
    XorWithZero(s);
  }

  /** Clocking a bit in divides one place further. */
  lemma DivideStep(d: nat, q: nat, r: word16, bit: bool) returns (q': nat)
    requires d == BitXor(TimesGenerator(q), r)
    ensures BitXor(2 * d, if bit then 0x1_0000 else 0) == BitXor(TimesGenerator(q'), StepBit(r, bit))
  {
    hide BitXor;
    hide TimesGenerator;
    var x := TimesGenerator(2 * q);
    var e, f, s := if r >= 0x8000 then 0x1_0000 else 0, if bit then 0x1_0000 else 0, 2 * r % 0x1_0000;
    XorDoubled(TimesGenerator(q), r);
    TimesGeneratorOfDouble(q);
    Overflowed(r, e, s);
    Rearranged(x, e, s, f);
    XorSelf(0x1_0000);
    XorWithZero(e);
    XorWithZero(f);
    XorWithZero(x);
    if (r >= 0x8000) == bit {
      q' := 2 * q;
    } else {
      q' := 2 * q + 1;
      DivideOdd(q, x, s);
    }
  }

  lemma DivideOdd(q: nat, x: nat, s: nat)
    requires x == TimesGenerator(2 * q)
    ensures BitXor(TimesGenerator(2 * q + 1), BitXor(s, GENERATOR)) == BitXor(BitXor(x, 0x1_0000), s)
  {
    hide BitXor;
    hide TimesGenerator;
    XorStep(q, 0, 0, 1);
    XorWithZero(q);
    TimesGeneratorLinear(2 * q, 1);
    TimesGeneratorOfOne();
    XorAssociates(x, 0x1_0000, GENERATOR);
    var y := BitXor(x, 0x1_0000);
    XorExchange(y, GENERATOR, s, GENERATOR);
    XorSelf(GENERATOR);
    XorWithZero(BitXor(y, s));
  }

  lemma {:induction false} RegisterDivides(bits: seq<bool>) returns (q: nat)
    ensures Dividend(bits) == BitXor(TimesGenerator(q), Register(PRESET, bits))
    decreases |bits|
  {
    hide StepBit;
    hide BitXor;
    if bits == [] {
      q := 0;
      NothingDivided();
    } else {
      var init, bit := bits[..|bits| - 1], bits[|bits| - 1];
      assert bits == init + [bit];
      var q0 := RegisterDivides(init);
      DividendStep(init, bit);
      RegisterOfConcat(PRESET, init, [bit]);
      q := DivideStep(Dividend(init), q0, Register(PRESET, init), bit);
    }
  }

  lemma NothingDivided()
    ensures TimesGenerator(0) == 0 && Dividend([]) == PRESET && BitXor(0, PRESET) == PRESET
  {
    XorWithZero(0);
    XorWithZero(PRESET);
  }

  // ----- Remainders are unique -----

  lemma {:induction false} Degree(d: nat) returns (m: nat)
    requires d > 0
    ensures Pow2(m) <= d < Pow2(m + 1)
  {
    if d == 1 {
      m := 0;
    } else {
      m := Degree(d / 2);
      m := m + 1;
    }
  }

  lemma ScaledBelow(k: nat, d: nat, m: nat)
    requires d < Pow2(m + 1) && k < 16
    ensures Pow2(k) * d < Pow2(m + 16)
  {
    Pow2Sum(k, m + 1);
    ProductBelow(Pow2(k), d, Pow2(m + 1));
    Pow2Monotone(k + m + 1, m + 16);
  }

  /** A non-zero multiple of the generator has degree at least 16. */
  lemma MultiplesAreLarge(d: nat)
    requires d > 0
    ensures TimesGenerator(d) >= 0x1_0000
  {
    hide BitXor;
    var m := Degree(d);
    var top := Pow2(m + 16);
    hide Pow2;
    var next := Pow2(m + 17);
    Bounds(d, m, top, next);
    Powers2();
    var a, b, c := Pow2(16) * d, Pow2(12) * d, Pow2(5) * d;
    ScaledBelow(12, d, m);
    ScaledBelow(5, d, m);
    ScaledBelow(0, d, m);
    XorBound(c, d, m + 16);
    XorBound(b, BitXor(c, d), m + 16);
    XorAssociates(a, b, BitXor(c, d));
    XorSplit(1, a - top, 0, BitXor(b, BitXor(c, d)), m + 16);
    XorWithZero(1);
  }

  lemma Bounds(d: nat, m: nat, top: nat, next: nat)
    requires Pow2(m) <= d < Pow2(m + 1) && top == Pow2(m + 16) && next == Pow2(m + 17)
    ensures 0x1_0000 <= top <= Pow2(16) * d < next == 2 * top
  {
    Powers2();
    Pow2Sum(16, m);
    Pow2Sum(16, m + 1);
    Pow2Monotone(16, m + 16);
    ProductBelow(Pow2(16), d, Pow2(m + 1));
    AtLeastScaled(Pow2(16), Pow2(m), d);
  }

  lemma RemaindersUnique(bits: seq<bool>, q1: nat, r1: word16, q2: nat, r2: word16)
    requires Dividend(bits) == BitXor(TimesGenerator(q1), r1)
    requires Dividend(bits) == BitXor(TimesGenerator(q2), r2)
    ensures r1 == r2
  {
    hide BitXor;
    hide TimesGenerator;
    var t1, t2 := TimesGenerator(q1), TimesGenerator(q2);
    XorExchange(t1, r1, t2, r2);
    XorSelf(Dividend(bits));
    XorCancels(BitXor(t1, t2), BitXor(r1, r2));
    TimesGeneratorLinear(q1, q2);
    WordBound(r1, r2);
    var d := BitXor(q1, q2);
    if d > 0 {
      MultiplesAreLarge(d);
    }
    NothingDivided();
    XorCancels(r1, r2);
  }

  /** The checksum is the remainder, and the only one, of dividing the preset message by the
      generator polynomial: at every length, not just up to 65535 bytes. */
  lemma ChecksumIsRemainder(data: seq<byte>, r: word16)
    ensures IsRemainder(BitsOf(data), r) <==> r == Checksum(data)
  {
    var bits := BitsOf(data);
    var q := RegisterDivides(bits);
    if IsRemainder(bits, r) {
      var q' :| Dividend(bits) == BitXor(TimesGenerator(q'), r);
      RemaindersUnique(bits, q, Checksum(data), q', r);
    }
  }
}
