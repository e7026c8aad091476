/** One turn of the table-driven loop is eight clocks of the shift register. */
module CrcStep {
  import opened Bytes
  import opened Bits
  import opened CrcRegister
  import opened CrcTable

  /** The loop's 32-bit accumulator, as an unsigned number. */
  type word32 = w: int | 0 <= w < 0x1_0000_0000

  /** `crc = (crc << 8) ^ Crc16Table[((crc >> 8) & 0xFF) ^ b]` */
  function StepByte(crc: word32, b: byte): word32 {
    IndexBound(crc / 256 % 256, b);
    AccumulatorBound(crc * 256 % 0x1_0000_0000, Entry(BitXor(crc / 256 % 256, b)));
    BitXor(crc * 256 % 0x1_0000_0000, Entry(BitXor(crc / 256 % 256, b)))
  }

  function Zeros(n: nat): (z: seq<bool>)
    ensures |z| == n
    ensures forall i :: 0 <= i < n ==> !z[i]
  {
    if n == 0 then [] else [false] + Zeros(n - 1)
  }

  /** The number a bit string spells, most significant bit first. */
  function Number(bits: seq<bool>): nat {
    if bits == [] then 0
    else 2 * Number(bits[..|bits| - 1]) + (if bits[|bits| - 1] then 1 else 0)
  }

  lemma Powers2()
    ensures Pow2(8) == 0x100 && Pow2(16) == 0x1_0000 && Pow2(32) == 0x1_0000_0000
  {
    PowersAgree(1);
    PowersAgree(2);
    PowersAgree(4);
    Powers();
  }

  lemma IndexBound(h: byte, b: byte)
    ensures BitXor(h, b) < 256
  {
    Powers2();
    XorBound(h, b, 8);
  }

  lemma AccumulatorBound(a: word32, e: word16)
    ensures BitXor(a, e) < 0x1_0000_0000
  {
    Powers2();
    XorBound(a, e, 32);
  }

  // ----- A table entry is the register of its index -----

  lemma {:induction false} NumberBound(bits: seq<bool>)
    ensures Number(bits) < Pow2(|bits|)
  {
    if bits != [] {
      NumberBound(bits[..|bits| - 1]);
    }
  }

  lemma {:induction false} NumberFront(c: bool, rest: seq<bool>)
    ensures Number([c] + rest) == (if c then Pow2(|rest|) else 0) + Number(rest)
  {
    var bits := [c] + rest;
    if rest == [] {
      assert bits[..0] == [];
    } else {
      var n := |rest| - 1;
      assert bits[..|bits| - 1] == [c] + rest[..n];
      NumberFront(c, rest[..n]);
    }
  }

  lemma FirstEntry()
    ensures Entry(0) == 0
  {
  }

  lemma {:induction false} EntryIsRegister(bits: seq<bool>)
    requires |bits| <= 8
    ensures Number(bits) < 256 && Entry(Number(bits)) == Register(0, bits)
  {
    hide Entry;
    hide StepBit;
    NumberBound(bits);
    Powers2();
    Pow2Monotone(|bits|, 8);
    if bits == [] {
      FirstEntry();
    } else {
      var n := |bits| - 1;
      EntryIsRegister(bits[..n]);
      EntryStep(Number(bits));
      assert bits == bits[..n] + [bits[n]];
      RegisterOfConcat(0, bits[..n], [bits[n]]);
    }
  }

  lemma NumberOfByteBits(b: byte)
    ensures Number(ByteBits(b)) == b
  {
    var s := ByteBits(b);
    Halves(b, b / 2, b / 4, b / 8, b / 16, b / 32, b / 64, b / 128);
    NumberOfBits(s, b, b / 2, b / 4, b / 8, b / 16, b / 32, b / 64, b / 128);
  }

  lemma Halves(b: byte, b1: nat, b2: nat, b3: nat, b4: nat, b5: nat, b6: nat, b7: nat)
    requires b1 == b / 2 && b2 == b / 4 && b3 == b / 8 && b4 == b / 16 && b5 == b / 32 && b6 == b / 64 && b7 == b / 128
    ensures b2 == b1 / 2 && b3 == b2 / 2 && b4 == b3 / 2 && b5 == b4 / 2 && b6 == b5 / 2 && b7 == b6 / 2 && b7 < 2
  {
  }

  lemma NumberOfBits(s: seq<bool>, b: nat, b1: nat, b2: nat, b3: nat, b4: nat, b5: nat, b6: nat, b7: nat)
    requires b1 == b / 2 && b2 == b1 / 2 && b3 == b2 / 2 && b4 == b3 / 2
    requires b5 == b4 / 2 && b6 == b5 / 2 && b7 == b6 / 2 && b7 < 2
    requires s == [b7 % 2 == 1, b6 % 2 == 1, b5 % 2 == 1, b4 % 2 == 1,
                   b3 % 2 == 1, b2 % 2 == 1, b1 % 2 == 1, b % 2 == 1]
    ensures Number(s) == b
  {
    hide Number;
    NumberOfNothing(s);
    FourMore(s, 0, 0, b7, b6, b5, b4);
    FourMore(s, 4, b4, b3, b2, b1, b);
    assert s[..8] == s;
  }

  lemma FourMore(s: seq<bool>, k: nat, h: nat, b3: nat, b2: nat, b1: nat, b: nat)
    requires k + 4 <= |s| && Number(s[..k]) == h
    requires h == b3 / 2 && b3 == b2 / 2 && b2 == b1 / 2 && b1 == b / 2
    requires s[k] == (b3 % 2 == 1) && s[k + 1] == (b2 % 2 == 1) && s[k + 2] == (b1 % 2 == 1) && s[k + 3] == (b % 2 == 1)
    ensures Number(s[..k + 4]) == b
  {
    hide Number;
    NumberAt(s, k + 1, h, b3);
    NumberAt(s, k + 2, b3, b2);
    NumberAt(s, k + 3, b2, b1);
    NumberAt(s, k + 4, b1, b);
  }

  lemma NumberOfNothing(s: seq<bool>)
    ensures Number(s[..0]) == 0
  {
  }

  lemma NumberAt(s: seq<bool>, k: nat, half: nat, n: nat)
    requires 0 < k <= |s| && half == n / 2
    requires Number(s[..k - 1]) == half && s[k - 1] == (n % 2 == 1)
    ensures Number(s[..k]) == n
  {
    assert s[..k][..k - 1] == s[..k - 1];
  }

  // ----- Data bits may be added to the register ahead of time -----

  lemma StepAhead(r: word16, c: bool, u: nat)
    requires u < 0x8000
    ensures StepBit(Xor(r, (if c then 0x8000 else 0) + u), false) == Xor(StepBit(r, c), 2 * u)
  {
    hide BitXor;
    var s := (if c then 0x8000 else 0) + u;
    StepBitLinear(r, s, c, c);
    assert StepBit(s, c) == 2 * u;
  }

  lemma NothingAhead(r: word16, bits: seq<bool>, p: nat)
    requires bits == [] && p == Pow2(16) * Number(bits)
    ensures p == 0 && Xor(r, p) == r
  {
    XorWithZero(r);
  }

  lemma {:induction false} ClockAhead(r: word16, bits: seq<bool>, p: nat)
    requires |bits| <= 16 && p == Pow2(16 - |bits|) * Number(bits)
    ensures p < 0x1_0000 && Register(Xor(r, p), Zeros(|bits|)) == Register(r, bits)
    decreases |bits|
  {
    hide Xor;
    hide StepBit;
    hide Number;
    hide Pow2;
    var n := |bits|;
    ScaledBound(bits, p);
    if n == 0 {
      NothingAhead(r, bits, p);
    } else {
      var c, rest := bits[0], bits[1..];
      var u := Pow2(16 - n) * Number(rest);
      var first := if c then 0x8000 else 0;
      assert bits == [c] + rest;
      ScaledFront(c, rest, p, u);
      StepAhead(r, c, u);
      ClockAhead(StepBit(r, c), rest, 2 * u);
      assert Zeros(n)[1..] == Zeros(n - 1);
    }
  }

  lemma ScaledBound(bits: seq<bool>, p: nat)
    requires |bits| <= 16 && p == Pow2(16 - |bits|) * Number(bits)
    ensures p < 0x1_0000
  {
    NumberBound(bits);
    Powers2();
    Pow2Sum(16 - |bits|, |bits|);
    ProductBelow(Pow2(16 - |bits|), Number(bits), Pow2(|bits|));
  }

  lemma ScaledFront(c: bool, rest: seq<bool>, p: nat, u: nat)
    requires |rest| < 16 && p == Pow2(15 - |rest|) * Number([c] + rest) && u == Pow2(15 - |rest|) * Number(rest)
    ensures p == (if c then 0x8000 else 0) + u && u < 0x8000
    ensures 2 * u == Pow2(16 - |rest|) * Number(rest)
  {
    hide Number;
    var a, b, n := Pow2(15 - |rest|), Pow2(|rest|), Number(rest);
    NumberFront(c, rest);
    NumberBound(rest);
    Pow2Sum(15 - |rest|, |rest|);
    Pow2Of15();
    ProductBelow(a, n, b);
    Distribute(a, b, n);
  }

  lemma Distribute(a: nat, b: nat, n: nat)
    ensures a * (b + n) == a * b + a * n && (2 * a) * n == 2 * (a * n)
  {
  }

  lemma {:induction false} ShiftsOut(l: nat, n: nat, m: nat)
    requires m == l * Pow2(n) && m < 0x1_0000
    ensures l < 0x1_0000 && Register(l, Zeros(n)) == m
    decreases n
  {
    if n == 0 {
      assert m == l;
    } else {
      hide Xor;
      Doubled(l, Pow2(n - 1));
      AtLeast(l, Pow2(n - 1), l * Pow2(n - 1));
      assert StepBit(l, false) == 2 * l;
      assert Zeros(n)[1..] == Zeros(n - 1);
      ShiftsOut(2 * l, n - 1, m);
    }
  }

  lemma Doubled(l: nat, p: nat)
    ensures l * (2 * p) == 2 * (l * p) && (2 * l) * p == 2 * (l * p)
  {
  }

  lemma AtLeast(l: nat, a: nat, h: nat)
    requires a > 0 && h == l * a
    ensures l <= h
  {
  }

  // ----- The loop body -----

  /** Adding a byte of data to the top byte of the register. */
  lemma TopByte(h: byte, l: byte, b: byte, y: nat)
    requires y == BitXor(h, b)
    ensures y < 256 && Xor(256 * h + l, 256 * b) == Xor(256 * y, l)
  {
    hide BitXor;
    IndexBound(h, b);
    Powers2();
    XorSplit(h, l, b, 0, 8);
    XorWithZero(l);
    XorSplit(y, 0, 0, l, 8);
    XorWithZero(y);
  }

  /** A byte on its own in the top half of the register is clocked into its table entry. */
  lemma ClockIndex(y: byte)
    ensures Register(256 * y, Zeros(8)) == Entry(y)
  {
    hide BitXor;
    Powers2();
    NumberOfByteBits(y);
    ClockAhead(0, ByteBits(y), 256 * y);
    XorWithZero(256 * y);
    EntryIsRegister(ByteBits(y));
  }

  lemma ClockLowByte(l: byte)
    ensures Register(l, Zeros(8)) == 256 * l
  {
    Powers2();
    ShiftsOut(l, 8, 256 * l);
  }

  lemma ClockByteAhead(r: word16, b: byte)
    ensures Register(r, ByteBits(b)) == Register(Xor(r, 256 * b), Zeros(8))
  {
    Powers2();
    NumberOfByteBits(b);
    ClockAhead(r, ByteBits(b), 256 * b);
  }

  /** Eight clocks on a register with top byte h and low byte l: the table entry for h ^ b,
      added to the low byte moved up. */
  lemma EightClocks(h: byte, l: byte, b: byte, y: nat)
    requires y == BitXor(h, b)
    ensures y < 256 && Register(256 * h + l, ByteBits(b)) == Xor(256 * l, Entry(y))
  {
    hide BitXor;
    hide Register;
    hide Entry;
    TopByte(h, l, b, y);
    ClockByteAhead(256 * h + l, b);
    Superposition(256 * y, Zeros(8), l, Zeros(8));
    assert XorBits(Zeros(8), Zeros(8)) == Zeros(8);
    ClockIndex(y);
    ClockLowByte(l);
    XorCommutes(Entry(y), 256 * l);
  }

  lemma LowHalfOfXor(a: word32, e: word16)
    ensures BitXor(a, e) % 0x1_0000 == BitXor(a % 0x1_0000, e)
  {
    hide BitXor;
    Powers2();
    XorSplit(a / 0x1_0000, a % 0x1_0000, 0, e, 16);
    WordBound(a % 0x1_0000, e);
  }

  lemma LowBytes(crc: word32, h: byte, l: byte)
    requires h == crc / 256 % 256 && l == crc % 256
    ensures crc % 0x1_0000 == 256 * h + l
    ensures crc * 256 % 0x1_0000_0000 % 0x1_0000 == 256 * l
  {
    var high := crc / 256;
    var top := high / 256;
    assert crc == 256 * high + l && high == 256 * top + h;
    LowWord(crc, top, 256 * h + l);
    LowWord(256 * crc, high, 256 * l);
  }

  lemma LowWord(x: nat, k: nat, r: word16)
    requires x == 0x1_0000 * k + r
    ensures x % 0x1_0000 == r && x % 0x1_0000_0000 % 0x1_0000 == r
  {
    var y := x / 0x1_0000_0000;
    var z := x % 0x1_0000_0000;
    assert z == 0x1_0000 * (k - 0x1_0000 * y) + r;
  }

  /** The table form refines the register: whatever the upper half of the accumulator holds,
      one table step on its low 16 bits is eight clocks. */
  lemma StepByteIsRegister(crc: word32, b: byte)
    ensures StepByte(crc, b) % 0x1_0000 == Register(crc % 0x1_0000, ByteBits(b))
  {
    hide BitXor;
    hide Register;
    hide Entry;
    var h, l := crc / 256 % 256, crc % 256;
    var y := BitXor(h, b);
    EightClocks(h, l, b, y);
    LowBytes(crc, h, l);
    LowHalfOfXor(crc * 256 % 0x1_0000_0000, Entry(y));
  }
}
